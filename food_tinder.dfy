/** The swipe session ("food tinder"): a shuffled deck of every menu name, a cursor,
    and the list of liked names. A swipe is two steps: the handler marks the card as
    leaving (and records a like), and 200 ms later a timer callback moves to the next
    card and clears the marks. The two steps are two methods here. The callback is a closure
    over the `goNext` of the render in which the card was swiped, so the pending timer is kept
    as a value holding the cursor and the deck size that closure saw; when it fires is left
    to the caller. */
module FoodTinder {
  import opened Wrappers
  import opened Sequences
  import MenuData
  import Shuffle

  /** A drag further than this many pixels counts as a swipe. */
  const SWIPE_THRESHOLD: real := 80.0

  /** The session offers at most this many cards. */
  const MAX_CARDS: nat := 10

  datatype Direction = Left | Right

  /** A scheduled exit callback: the cursor and deck length its `goNext` captured. */
  datatype Pending = Pending(index: nat, deckSize: nat)

  /** The component's state fields (the drag offset, used only for colouring, is left out)
      and the timer still waiting to fire, if any. */
  datatype SwipeState = SwipeState(
    menus: seq<string>,
    currentIndex: nat,
    likedMenus: seq<string>,
    showResult: bool,
    exitDirection: Option<Direction>,
    isExiting: bool,
    timer: Option<Pending>)

  /** `currentMenu`, with `None` where JavaScript has a falsy value (past the deck, or an empty name). */
  function CurrentMenu(s: SwipeState): Option<string> {
    if s.currentIndex < |s.menus| && s.menus[s.currentIndex] != "" then Some(s.menus[s.currentIndex])
    else None
  }

  /** The guard shared by the three swipe handlers. */
  predicate Blocked(s: SwipeState) {
    CurrentMenu(s).None? || s.isExiting
  }

  /** `goNext` as made in a render whose cursor was `at` and whose deck had `deckSize`
      cards: its guard and its result test read those captured values, while the
      increment `(i) => i + 1` applies to the cursor current when it runs. */
  function Advanced(s: SwipeState, at: nat, deckSize: nat): SwipeState {
    if at >= deckSize then s
    else
      s.(currentIndex := s.currentIndex + 1,
         showResult := if at + 1 >= MAX_CARDS || at + 1 >= deckSize then true else s.showResult)
  }

  /** The first step of a swipe to the right: the card leaves and joins the liked list. */
  function SwipedRight(s: SwipeState): SwipeState
    requires CurrentMenu(s).Some?
  {
    s.(isExiting := true, exitDirection := Some(Right),
       likedMenus := s.likedMenus + [CurrentMenu(s).value],
       timer := Some(Pending(s.currentIndex, |s.menus|)))
  }

  /** The first step of a swipe to the left: the card leaves. */
  function SwipedLeft(s: SwipeState): SwipeState {
    s.(isExiting := true, exitDirection := Some(Left), timer := Some(Pending(s.currentIndex, |s.menus|)))
  }

  /** `handleLike`. */
  function Liked(s: SwipeState): SwipeState {
    if Blocked(s) then s else SwipedRight(s)
  }

  /** `handleDislike`. */
  function Disliked(s: SwipeState): SwipeState {
    if Blocked(s) then s else SwipedLeft(s)
  }

  /** `handleDragEnd` with the horizontal drag offset `offsetX`. */
  function Dragged(s: SwipeState, offsetX: real): SwipeState {
    if s.isExiting || CurrentMenu(s).None? then s
    else if offsetX > SWIPE_THRESHOLD then SwipedRight(s)
    else if offsetX < -SWIPE_THRESHOLD then SwipedLeft(s)
    else s
  }

  /** The pending timer fires: the captured `goNext`, then both marks cleared. With no timer
      pending nothing happens. */
  function ExitFinished(s: SwipeState): SwipeState {
    match s.timer
    case None => s
    case Some(p) => Advanced(s, p.index, p.deckSize).(exitDirection := None, isExiting := false, timer := None)
  }

  /** `handleEndGame`. */
  function Ended(s: SwipeState): SwipeState {
    s.(showResult := true)
  }

  /** `handleReset`, given the freshly shuffled deck. */
  function Restarted(s: SwipeState, deck: seq<string>): SwipeState {
    s.(menus := deck, currentIndex := 0, likedMenus := [], showResult := false)
  }

  /** The effect that opens the result once the deck is used up. */
  function ResultSynced(s: SwipeState): SwipeState {
    if |s.menus| > 0 && s.currentIndex >= |s.menus| then s.(showResult := true) else s
  }

  /** The session invariant: the deck is not empty; the cursor stays within it; a card is
      leaving exactly when an exit direction is set and a timer is pending; the pending timer
      captured this deck's size and a card of it at or after the cursor (after it only when
      the session was reset meanwhile); the liked names are, in order, among the cards passed
      so far (counting a card that is leaving); and the result is shown once ten cards are
      passed or the deck is used up. */
  predicate Inv(s: SwipeState) {
    && |s.menus| > 0
    && s.currentIndex <= |s.menus|
    && (s.isExiting <==> s.exitDirection.Some?)
    && (s.isExiting <==> s.timer.Some?)
    && (s.timer.Some? ==>
          s.timer.value.deckSize == |s.menus| && s.currentIndex <= s.timer.value.index < |s.menus|)
    && Subseq(s.likedMenus, s.menus[..s.currentIndex + (if s.isExiting then 1 else 0)])
    && (s.currentIndex >= MAX_CARDS || s.currentIndex >= |s.menus| ==> s.showResult)
  }

  /** The state right after mounting: the effect has dealt a shuffled deck. */
  function Dealt(deck: seq<string>): SwipeState {
    SwipeState(deck, 0, [], false, None, false, None)
  }

  /** Any non-empty deck starts a session that satisfies the invariant with no card passed. */
  lemma DealtInv(deck: seq<string>)
    requires deck != []
    ensures Inv(Dealt(deck)) && Dealt(deck).currentIndex == 0 && Dealt(deck).likedMenus == []
  {
  }

  /** A permutation of non-empty names puts its first card on screen. */
  lemma PermutationShowsFirst(deck: seq<string>, names: seq<string>)
    requires multiset(deck) == multiset(names) && names != []
    requires forall x :: x in names ==> x != ""
    ensures |deck| == |names| && CurrentMenu(Dealt(deck)) == Some(deck[0])
  {
    assert |deck| == |multiset(deck)| == |multiset(names)| == |names|;
    assert deck[0] in multiset(deck);
    assert deck[0] in names;
  }

  /** The deck dealt on mount and on reset is a permutation of every menu name: 65 cards,
      each a non-empty name, so the first card is on screen. */
  lemma DeckOfAllMenus(draws: seq<nat>)
    requires Shuffle.Draws(draws, |MenuData.GetAllMenus()|)
    ensures var deck := Shuffle.Shuffled(MenuData.GetAllMenus(), draws);
      && |deck| == 65
      && multiset(deck) == multiset(MenuData.GetAllMenus())
      && CurrentMenu(Dealt(deck)) == Some(deck[0])
  {
    var all := MenuData.GetAllMenus();
    Shuffle.ShuffledFromPermutes(all, draws, |all| - 1);
    MenuData.NamesNonEmpty();
    PermutationShowsFirst(Shuffle.Shuffled(all, draws), all);
  }

  /** `goNext` does nothing when its captured cursor is at the end of the deck; otherwise it
      moves the current cursor by one and opens the result exactly when the captured cursor
      reaches ten cards or the end of the deck. */
  lemma AdvancedMoves(s: SwipeState, at: nat, deckSize: nat)
    ensures at >= deckSize ==> Advanced(s, at, deckSize) == s
    ensures at < deckSize ==>
      && Advanced(s, at, deckSize).currentIndex == s.currentIndex + 1
      && Advanced(s, at, deckSize).showResult == (s.showResult || at + 1 >= MAX_CARDS || at + 1 == deckSize)
      && Advanced(s, at, deckSize).menus == s.menus && Advanced(s, at, deckSize).likedMenus == s.likedMenus
  {
  }

  /** A like records exactly the current card; a dislike records nothing; both schedule a
      timer for the current card; both change nothing while a card is leaving or when there
      is no card. */
  lemma SwipeEffects(s: SwipeState)
    ensures Blocked(s) ==> Liked(s) == s && Disliked(s) == s
    ensures !Blocked(s) ==>
      && Liked(s).likedMenus == s.likedMenus + [s.menus[s.currentIndex]]
      && Disliked(s).likedMenus == s.likedMenus
      && Liked(s).isExiting && Disliked(s).isExiting
      && Liked(s).exitDirection == Some(Right) && Disliked(s).exitDirection == Some(Left)
      && Liked(s).currentIndex == s.currentIndex == Disliked(s).currentIndex
      && Liked(s).timer == Some(Pending(s.currentIndex, |s.menus|)) == Disliked(s).timer
  {
  }

  /** A drag beyond the threshold to the right is a like, beyond it to the left a dislike,
      and anything in between changes nothing. */
  lemma DragIsSwipe(s: SwipeState, offsetX: real)
    ensures offsetX > SWIPE_THRESHOLD ==> Dragged(s, offsetX) == Liked(s)
    ensures offsetX < -SWIPE_THRESHOLD ==> Dragged(s, offsetX) == Disliked(s)
    ensures -SWIPE_THRESHOLD <= offsetX <= SWIPE_THRESHOLD ==> Dragged(s, offsetX) == s
  {
  }

  lemma SwipedRightInv(s: SwipeState)
    requires Inv(s) && !Blocked(s)
    ensures Inv(SwipedRight(s))
  {
    var i := s.currentIndex;
    assert s.menus[..i + 1] == s.menus[..i] + [s.menus[i]];
    SubseqSnoc(s.likedMenus, s.menus[..i], s.menus[i]);
  }

  lemma SwipedLeftInv(s: SwipeState)
    requires Inv(s) && !Blocked(s)
    ensures Inv(SwipedLeft(s))
  {
    var i := s.currentIndex;
    assert s.menus[..i + 1] == s.menus[..i] + [s.menus[i]];
    SubseqExtend(s.likedMenus, s.menus[..i], s.menus[i]);
  }

  /** Every handler and callback keeps the session invariant; a reset while a card is leaving
      needs a new deck of the same size, as every shuffle of all menus is. */
  lemma HandlersKeepInv(s: SwipeState, offsetX: real, deck: seq<string>)
    requires Inv(s) && deck != [] && (s.isExiting ==> |deck| == |s.menus|)
    ensures Inv(Liked(s)) && Inv(Disliked(s)) && Inv(Dragged(s, offsetX))
    ensures Inv(Ended(s)) && Inv(ResultSynced(s)) && Inv(Restarted(s, deck))
    ensures Inv(ExitFinished(s))
  {
    if !Blocked(s) {
      SwipedRightInv(s);
      SwipedLeftInv(s);
    }
    if s.isExiting {
      ExitFinishedInv(s);
    }
  }

  /** The timer firing passes one card, clears the exit marks and keeps the invariant. */
  lemma ExitFinishedInv(s: SwipeState)
    requires Inv(s) && s.isExiting
    ensures Inv(ExitFinished(s))
    ensures ExitFinished(s).currentIndex == s.currentIndex + 1
    ensures !ExitFinished(s).isExiting && ExitFinished(s).exitDirection.None?
    ensures ExitFinished(s).likedMenus == s.likedMenus && ExitFinished(s).menus == s.menus
  {
  }

  /** Ending and then resetting while the tenth card is leaving: the timer of that card still
      fires, passes the first card of the new deck and opens the result with no like. */
  lemma ResetDuringTenthExit(s: SwipeState, deck: seq<string>)
    requires Inv(s) && !Blocked(s) && s.currentIndex == MAX_CARDS - 1
    requires deck != [] && |deck| == |s.menus|
    ensures var t := ExitFinished(Restarted(Ended(Liked(s)), deck));
      && t.menus == deck && t.currentIndex == 1 && t.likedMenus == []
      && t.showResult && !t.isExiting
  {
  }

  /** Once no card is leaving, the liked names are among the cards passed, in deck order,
      so there are at most as many as the cursor. */
  lemma {:induction false} LikedAmongPassed(s: SwipeState)
    requires Inv(s) && !s.isExiting
    ensures Subseq(s.likedMenus, s.menus[..s.currentIndex])
    ensures |s.likedMenus| <= s.currentIndex
    ensures forall x :: x in s.likedMenus ==> x in s.menus[..s.currentIndex]
  {
    SubseqLength(s.likedMenus, s.menus[..s.currentIndex]);
    forall x | x in s.likedMenus
      ensures x in s.menus[..s.currentIndex]
    {
      SubseqMembers(s.likedMenus, s.menus[..s.currentIndex], x);
    }
  }

  /** The end-of-deck effect is redundant: `goNext` has already opened the result. */
  lemma ResultSyncedIsRedundant(s: SwipeState)
    requires Inv(s)
    ensures ResultSynced(s) == s
  {
  }

  /** The result shows once ten cards have been passed, or the whole deck. */
  lemma ResultAfterTenCards(s: SwipeState)
    requires Inv(s) && !s.isExiting && !s.showResult
    ensures s.currentIndex < MAX_CARDS && s.currentIndex < |s.menus|
    ensures s.currentIndex == MAX_CARDS - 1 && CurrentMenu(s).Some? ==>
      ExitFinished(Liked(s)).showResult && ExitFinished(Disliked(s)).showResult
  {
  }

  /** The component's state, updated in place by its handlers. */
  class Session {
    var menus: seq<string>
    var currentIndex: nat
    var likedMenus: seq<string>
    var showResult: bool
    var exitDirection: Option<Direction>
    var isExiting: bool
    var timer: Option<Pending>

    function Snapshot(): SwipeState
      reads this
    {
      SwipeState(menus, currentIndex, likedMenus, showResult, exitDirection, isExiting, timer)
    }

    /** The invariant, and the deck is a deal of every menu name. */
    ghost predicate Valid()
      reads this
    {
      Inv(Snapshot()) && |menus| == |MenuData.GetAllMenus()|
    }

    /** Mounting: the state starts empty and the effect deals `shuffle(getAllMenus())`. */
    constructor (draws: seq<nat>)
      requires Shuffle.Draws(draws, |MenuData.GetAllMenus()|)
      ensures Valid()
      ensures Snapshot() == Dealt(Shuffle.Shuffled(MenuData.GetAllMenus(), draws))
    {
      var deck := Shuffle.Shuffle(MenuData.GetAllMenus(), draws);
      menus := deck;
      currentIndex := 0;
      likedMenus := [];
      showResult := false;
      exitDirection := None;
      isExiting := false;
      timer := None;
      DealtInv(deck);
    }

    /** `goNext` with the cursor and deck size it captured. */
    method GoNext(at: nat, deckSize: nat)
      modifies this
      ensures Snapshot() == Advanced(old(Snapshot()), at, deckSize)
    {
      if at >= deckSize {
        return;
      }
      currentIndex := currentIndex + 1;
      if at + 1 >= MAX_CARDS || at + 1 >= deckSize {
        showResult := true;
      }
    }

    /** `handleLike`, first step. */
    method HandleLike()
      requires Valid()
      modifies this
      ensures Valid()
      ensures Snapshot() == Liked(old(Snapshot()))
    {
      if currentIndex >= |menus| || menus[currentIndex] == "" || isExiting {
        return;
      }
      SwipedRightInv(Snapshot());
      isExiting := true;
      exitDirection := Some(Right);
      likedMenus := likedMenus + [menus[currentIndex]];
      timer := Some(Pending(currentIndex, |menus|));
    }

    /** `handleDislike`, first step. */
    method HandleDislike()
      requires Valid()
      modifies this
      ensures Valid()
      ensures Snapshot() == Disliked(old(Snapshot()))
    {
      if currentIndex >= |menus| || menus[currentIndex] == "" || isExiting {
        return;
      }
      SwipedLeftInv(Snapshot());
      isExiting := true;
      exitDirection := Some(Left);
      timer := Some(Pending(currentIndex, |menus|));
    }

    /** `handleDragEnd`, first step, given the drag's horizontal offset. */
    method HandleDragEnd(offsetX: real)
      requires Valid()
      modifies this
      ensures Valid()
      ensures Snapshot() == Dragged(old(Snapshot()), offsetX)
    {
      if isExiting || currentIndex >= |menus| || menus[currentIndex] == "" {
        return;
      }
      if offsetX > SWIPE_THRESHOLD {
        SwipedRightInv(Snapshot());
        likedMenus := likedMenus + [menus[currentIndex]];
        exitDirection := Some(Right);
        isExiting := true;
        timer := Some(Pending(currentIndex, |menus|));
      } else if offsetX < -SWIPE_THRESHOLD {
        SwipedLeftInv(Snapshot());
        exitDirection := Some(Left);
        isExiting := true;
        timer := Some(Pending(currentIndex, |menus|));
      }
    }

    /** The second step of every swipe: the pending 200 ms timer fires. */
    method FinishExit()
      requires Valid() && isExiting
      modifies this
      ensures Valid()
      ensures Snapshot() == ExitFinished(old(Snapshot()))
      ensures currentIndex == old(currentIndex) + 1
    {
      ExitFinishedInv(Snapshot());
      var p := timer.value;
      GoNext(p.index, p.deckSize);
      exitDirection := None;
      isExiting := false;
      timer := None;
    }

    /** `handleEndGame`: "stop and show the result". */
    method HandleEndGame()
      requires Valid()
      modifies this
      ensures Valid()
      ensures Snapshot() == Ended(old(Snapshot()))
    {
      showResult := true;
    }

    /** `handleReset`: a new shuffle of every menu, cursor and likes cleared. */
    method HandleReset(draws: seq<nat>)
      requires Valid()
      requires Shuffle.Draws(draws, |MenuData.GetAllMenus()|)
      modifies this
      ensures Valid()
      ensures Snapshot() == Restarted(old(Snapshot()), Shuffle.Shuffled(MenuData.GetAllMenus(), draws))
    {
      var deck := Shuffle.Shuffle(MenuData.GetAllMenus(), draws);
      HandlersKeepInv(Snapshot(), 0.0, deck);
      menus := deck;
      currentIndex := 0;
      likedMenus := [];
      showResult := false;
    }

    /** The effect that watches the deck length and the cursor. */
    method SyncResult()
      requires Valid()
      modifies this
      ensures Valid()
      ensures Snapshot() == ResultSynced(old(Snapshot()))
    {
      if |menus| > 0 && currentIndex >= |menus| {
        showResult := true;
      }
    }
  }
}
