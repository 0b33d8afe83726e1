/** The "recently visited rooms" list kept in the browser's local storage under one key:
    most-recent first, at most ten entries, one per room id. Storage holds an already
    decoded, loosely typed value; JSON text itself is not modelled. */
module VotingHistory {
  import opened Sequences

  /** The list never keeps more than this many entries. */
  const MAX_ITEMS: nat := 10

  /** A decoded JSON value. */
  datatype Value =
    | Null
    | Bool(b: bool)
    | Num(n: real)
    | Str(s: string)
    | Arr(items: seq<Value>)
    | Obj(fields: map<string, Value>)

  /** What `localStorage.getItem` gives for the key, once decoded: nothing (null, or the
      empty string, both falsy), text that does not parse, or a parsed value. */
  datatype Slot = Missing | Malformed | Parsed(value: Value)

  /** The shape check: an object whose `id` and `title` are strings and whose `visitedAt`
      is a number. (An array has no such properties, so it fails like any non-object.) */
  predicate IsEntry(v: Value) {
    && v.Obj?
    && "id" in v.fields && v.fields["id"].Str?
    && "title" in v.fields && v.fields["title"].Str?
    && "visitedAt" in v.fields && v.fields["visitedAt"].Num?
  }

  function Id(v: Value): string
    requires IsEntry(v)
  {
    v.fields["id"].s
  }

  /** `x.id === id` on a decoded value. */
  predicate HasId(v: Value, id: string) {
    v.Obj? && "id" in v.fields && v.fields["id"] == Str(id)
  }

  /** The record written for a visit. */
  function NewEntry(id: string, title: string, now: int): (e: Value)
    ensures IsEntry(e) && HasId(e, id) && Id(e) == id
  {
    Obj(map["id" := Str(id), "title" := Str(title), "visitedAt" := Num(now as real)])
  }

  /** The shape filter: every well-shaped record as often as it is stored, in stored order. */
  function Entries(xs: seq<Value>): (r: seq<Value>)
    ensures forall v :: v in r <==> v in xs && IsEntry(v)
    ensures forall v :: multiset(r)[v] == (if IsEntry(v) then multiset(xs)[v] else 0)
    ensures Subseq(r, xs)
    decreases |xs|
  {
    if xs == [] then []
    else
      assert xs == [xs[0]] + xs[1..];
      if IsEntry(xs[0]) then [xs[0]] + Entries(xs[1..])
      else Entries(xs[1..])
  }

  /** The id filter `filter((x) => x.id !== id)`: every record without that id as often as
      it occurs, in order. */
  function WithoutId(xs: seq<Value>, id: string): (r: seq<Value>)
    ensures forall v :: v in r <==> v in xs && !HasId(v, id)
    ensures forall v :: multiset(r)[v] == (if HasId(v, id) then 0 else multiset(xs)[v])
    ensures Subseq(r, xs)
    decreases |xs|
  {
    if xs == [] then []
    else
      assert xs == [xs[0]] + xs[1..];
      if HasId(xs[0], id) then WithoutId(xs[1..], id)
      else [xs[0]] + WithoutId(xs[1..], id)
  }

  /** `slice(0, n)`: the first `n` elements, or all of them when there are fewer. */
  function Take(xs: seq<Value>, n: nat): (r: seq<Value>)
    ensures |r| == (if |xs| <= n then |xs| else n)
    ensures forall k | 0 <= k < |r| :: r[k] == xs[k]
    ensures |r| <= n && Subseq(r, xs)
    ensures forall v :: v in r ==> v in xs
    ensures |xs| <= n ==> r == xs
  {
    SubseqRefl(xs);
    if |xs| <= n then xs
    else
      SubseqPrefix(xs, xs, n);
      xs[..n]
  }

  /** `getVotingHistory`: the first ten of the stored array's well-shaped records, in stored
      order; anything that is not a parsed array gives the empty list. */
  function Read(slot: Slot): (r: seq<Value>)
    ensures |r| <= MAX_ITEMS
    ensures forall v :: v in r ==> IsEntry(v)
    ensures !(slot.Parsed? && slot.value.Arr?) ==> r == []
    ensures slot.Parsed? && slot.value.Arr? ==>
      var valid := Entries(slot.value.items);
      && |r| == (if |valid| <= MAX_ITEMS then |valid| else MAX_ITEMS)
      && (forall k | 0 <= k < |r| :: r[k] == valid[k])
      && Subseq(r, slot.value.items)
      && (|r| < MAX_ITEMS ==> forall v :: v in slot.value.items && IsEntry(v) ==> v in r)
  {
    match slot
    case Parsed(Arr(items)) =>
      var valid := Entries(items);
      var r := Take(valid, MAX_ITEMS);
      SubseqTrans(r, valid, items);
      r
    case _ => []
  }

  /** `addToVotingHistory`: the new record first, then the older entries without its id. */
  function Added(slot: Slot, id: string, title: string, now: int): Slot {
    Parsed(Arr(Take([NewEntry(id, title, now)] + WithoutId(Read(slot), id), MAX_ITEMS)))
  }

  /** `removeFromVotingHistory`: the visible history without that id. */
  function Removed(slot: Slot, id: string): Slot {
    Parsed(Arr(WithoutId(Read(slot), id)))
  }

  /** No room id occurs twice among the entries. */
  predicate UniqueIds(xs: seq<Value>)
    decreases |xs|
  {
    xs == [] ||
    ((IsEntry(xs[0]) ==> forall v :: v in xs[1..] ==> !HasId(v, Id(xs[0]))) && UniqueIds(xs[1..]))
  }

  lemma {:induction false} EntriesOfEntries(xs: seq<Value>)
    requires forall v :: v in xs ==> IsEntry(v)
    ensures Entries(xs) == xs
    decreases |xs|
  {
    if xs != [] {
      assert xs[0] in xs;
      EntriesOfEntries(xs[1..]);
      assert xs == [xs[0]] + xs[1..];
    }
  }

  lemma {:induction false} WithoutAbsentId(xs: seq<Value>, id: string)
    requires forall v :: v in xs ==> !HasId(v, id)
    ensures WithoutId(xs, id) == xs
    decreases |xs|
  {
    if xs != [] {
      assert xs[0] in xs;
      WithoutAbsentId(xs[1..], id);
      assert xs == [xs[0]] + xs[1..];
    }
  }

  /** Storing a list of at most ten well-shaped records and reading it back gives that list. */
  lemma ReadBack(xs: seq<Value>)
    requires forall v :: v in xs ==> IsEntry(v)
    requires |xs| <= MAX_ITEMS
    ensures Read(Parsed(Arr(xs))) == xs
  {
    EntriesOfEntries(xs);
  }

  lemma {:induction false} UniqueIdsSubseq(a: seq<Value>, b: seq<Value>)
    requires Subseq(a, b) && UniqueIds(b)
    ensures UniqueIds(a)
    decreases |b|
  {
    if a != [] {
      if a[0] == b[0] && Subseq(a[1..], b[1..]) {
        UniqueIdsSubseq(a[1..], b[1..]);
        forall v | v in a[1..]
          ensures v in b[1..]
        {
          SubseqMembers(a[1..], b[1..], v);
        }
      } else {
        UniqueIdsSubseq(a, b[1..]);
      }
    }
  }

  /** After a visit is added, the history starts with the new record, no other entry has
      its id, it holds at most ten entries, and after the new record come the older entries
      with other ids, most recent first: a full list drops its oldest entries. */
  lemma AddedHistory(slot: Slot, id: string, title: string, now: int)
    ensures var h := Read(Added(slot, id, title, now)); var before := Read(slot);
      var rest := WithoutId(before, id);
      && 1 <= |h| <= MAX_ITEMS
      && |h| == (if 1 + |rest| <= MAX_ITEMS then 1 + |rest| else MAX_ITEMS)
      && h[1..] == rest[..|h| - 1]
      && h[0] == NewEntry(id, title, now)
      && (forall k | 1 <= k < |h| :: !HasId(h[k], id))
      && Subseq(h[1..], before)
      && (|h| < MAX_ITEMS ==> forall v :: v in before && !HasId(v, id) ==> v in h)
      && Added(slot, id, title, now) == Parsed(Arr(h))
  {
    var before := Read(slot);
    var rest := WithoutId(before, id);
    var h := Take([NewEntry(id, title, now)] + rest, MAX_ITEMS);
    ReadBack(h);
    NewestFirst(NewEntry(id, title, now), rest, before, id);
  }

  /** The list arithmetic behind `AddedHistory`, on plain sequences: `rest` is `before`
      without the records of `id`, and the new record `e` is put in front of it. */
  lemma NewestFirst(e: Value, rest: seq<Value>, before: seq<Value>, id: string)
    requires forall v :: v in rest <==> v in before && !HasId(v, id)
    requires Subseq(rest, before)
    ensures var h := Take([e] + rest, MAX_ITEMS);
      && 1 <= |h| <= MAX_ITEMS
      && |h| == (if 1 + |rest| <= MAX_ITEMS then 1 + |rest| else MAX_ITEMS)
      && h[0] == e
      && h[1..] == rest[..|h| - 1]
      && (forall k | 1 <= k < |h| :: !HasId(h[k], id))
      && Subseq(h[1..], before)
      && (|h| < MAX_ITEMS ==> forall v :: v in before && !HasId(v, id) ==> v in h)
  {
    var full := [e] + rest;
    var h := Take(full, MAX_ITEMS);
    assert h[1..] == rest[..|h| - 1];
    SubseqPrefix(rest, before, |h| - 1);
    forall k | 1 <= k < |h|
      ensures !HasId(h[k], id)
    {
      assert h[k] == rest[k - 1];
      assert rest[k - 1] in rest;
    }
    if |h| < MAX_ITEMS {
      forall v | v in before && !HasId(v, id)
        ensures v in h
      {
        assert v in rest;
        var j :| 0 <= j < |rest| && rest[j] == v;
        assert h[j + 1] == v;
      }
    }
  }

  /** Adding keeps room ids unique. */
  lemma AddKeepsIdsUnique(slot: Slot, id: string, title: string, now: int)
    requires UniqueIds(Read(slot))
    ensures UniqueIds(Read(Added(slot, id, title, now)))
  {
    var before := Read(slot);
    var e := NewEntry(id, title, now);
    var rest := WithoutId(before, id);
    var full := [e] + rest;
    UniqueIdsSubseq(rest, before);
    assert full[1..] == rest;
    assert UniqueIds(full);
    var h := Take(full, MAX_ITEMS);
    UniqueIdsSubseq(h, full);
    AddedHistory(slot, id, title, now);
  }

  /** After a removal no entry has that id, the remaining valid entries keep their order and
      all stay, each as often as before, and storage holds exactly that list (shape-invalid records and those past
      the tenth are dropped from it). */
  lemma RemovedHistory(slot: Slot, id: string)
    ensures var h := Read(Removed(slot, id)); var before := Read(slot);
      && (forall v :: v in h ==> !HasId(v, id))
      && (forall v :: v in h <==> v in before && !HasId(v, id))
      && (forall v :: multiset(h)[v] == (if HasId(v, id) then 0 else multiset(before)[v]))
      && Subseq(h, before)
      && Removed(slot, id) == Parsed(Arr(h))
  {
    var before := Read(slot);
    var h := WithoutId(before, id);
    SubseqLength(h, before);
    ReadBack(h);
  }

  /** Removing the same id twice is the same as removing it once. */
  lemma RemoveIdempotent(slot: Slot, id: string)
    ensures Removed(Removed(slot, id), id) == Removed(slot, id)
  {
    RemovedHistory(slot, id);
    WithoutAbsentId(Read(Removed(slot, id)), id);
  }

  /** A missing, unparsable or non-array value reads as the empty history. */
  lemma UnusableStorageIsEmpty(v: Value)
    ensures Read(Missing) == [] && Read(Malformed) == []
    ensures !v.Arr? ==> Read(Parsed(v)) == []
  {
  }

  /** The storage slot, written by the two updates. */
  class HistoryStore {
    var slot: Slot

    constructor (initial: Slot)
      ensures slot == initial
    {
      slot := initial;
    }

    /** `getVotingHistory`. */
    method GetVotingHistory() returns (r: seq<Value>)
      ensures r == Read(slot)
    {
      match slot
      case Parsed(Arr(items)) =>
        r := Take(Entries(items), MAX_ITEMS);
      case _ =>
        r := [];
    }

    /** `addToVotingHistory`, with `now` standing for `Date.now()`. */
    method AddToVotingHistory(id: string, title: string, now: int)
      modifies this
      ensures slot == Added(old(slot), id, title, now)
    {
      var list := GetVotingHistory();
      list := WithoutId(list, id);
      var next := NewEntry(id, title, now);
      var updated := Take([next] + list, MAX_ITEMS);
      slot := Parsed(Arr(updated));
    }

    /** `removeFromVotingHistory`. */
    method RemoveFromVotingHistory(id: string)
      modifies this
      ensures slot == Removed(old(slot), id)
    {
      var list := GetVotingHistory();
      list := WithoutId(list, id);
      slot := Parsed(Arr(list));
    }
  }
}
