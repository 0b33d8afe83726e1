/** The elimination bracket ("world cup") over menu names: a category is
    shuffled, its first eight names form round 1, and the player picks one name
    of each positional pair (2k, 2k+1) until one name is left. */
module WorldCup {
  import opened Wrappers
  import opened Sequences
  import MenuData
  import Shuffle

  /** Which screen the component is on. */
  datatype Step = CategoryStep | GameStep | ChampionStep

  /** Round 1 holds at most this many names (`slice(0, 8)`). */
  const ROUND_SIZE: nat := 8

  /** `getMenusByCategory`: the full table for "all", otherwise a copy of that category's list
      (the `?? []` fallback never applies, since every concrete category is a key). */
  function MenusByCategory(c: MenuData.Category): (r: seq<string>)
    ensures c == MenuData.All ==> r == MenuData.GetAllMenus()
    ensures c != MenuData.All ==> c.Key() in MenuData.MENUS && r == MenuData.MENUS[c.Key()]
    ensures |r| >= 15
    ensures Distinct(r)
    ensures forall x :: x in r ==> x != ""
  {
    MenuData.MenusShape();
    MenuData.NamesDistinct();
    MenuData.NamesNonEmpty();
    if c == MenuData.All then MenuData.GetAllMenus()
    else
      MenuData.CategoriesHoldEight(c);
      if c.Key() in MenuData.MENUS then MenuData.MENUS[c.Key()] else []
  }

  /** The component's state fields. */
  datatype BracketState = BracketState(
    step: Step,
    category: Option<MenuData.Category>,
    currentRound: seq<string>,
    matchIndex: nat,
    nextRoundWinners: seq<string>,
    champion: Option<string>)

  /** The state when the component mounts. */
  const INITIAL: BracketState := BracketState(CategoryStep, None, [], 0, [], None)

  /** `startGame`, given the shuffled list: the first (at most) eight names become round 1. */
  function Started(cat: MenuData.Category, shuffled: seq<string>): BracketState {
    var picked := if |shuffled| <= ROUND_SIZE then shuffled else shuffled[..ROUND_SIZE];
    BracketState(GameStep, Some(cat), picked, 0, [], None)
  }

  /** `pickWinner`: the pick joins the accumulator; in an odd round the trailing bye joins
      it as soon as every real pair is decided; a complete round of one name crowns it,
      a longer complete round becomes the next round, otherwise the next match is shown. */
  function Picked(s: BracketState, winner: string): BracketState {
    var r := |s.currentRound|;
    var pairCount := r / 2;
    var hasBye := r % 2 == 1;
    var next0 := s.nextRoundWinners + [winner];
    var next := if hasBye && |next0| == pairCount then next0 + [s.currentRound[r - 1]] else next0;
    var roundComplete := |next| == pairCount + (if hasBye then 1 else 0);
    if roundComplete then
      if |next| == 1 then s.(champion := Some(next[0]), step := ChampionStep)
      else s.(currentRound := next, matchIndex := 0, nextRoundWinners := [])
    else s.(nextRoundWinners := next, matchIndex := s.matchIndex + 1)
  }

  /** The "start over" button on the champion screen: only the step and the category are reset. */
  function Restarted(s: BracketState): BracketState {
    s.(step := CategoryStep, category := None)
  }

  /** The "choose a category again" button on the not-enough-menus screen. */
  function Reselected(s: BracketState): BracketState {
    s.(step := CategoryStep)
  }

  /** Successive picks, in order: the earlier picks, then the last one. */
  function PickAll(s: BracketState, winners: seq<string>): BracketState
    decreases |winners|
  {
    if winners == [] then s
    else Picked(PickAll(s, winners[..|winners| - 1]), winners[|winners| - 1])
  }

  /** The round label: "8강" (quarter-final) for eight names, "4강" (semi-final) for four,
      "결승" (final) for every other length. */
  function RoundLabel(n: nat): (text: string)
    ensures text == "8강" <==> n == 8
    ensures text == "4강" <==> n == 4
    ensures text == "결승" <==> n != 8 && n != 4
  {
    if n == 8 then "8강" else if n == 4 then "4강" else "결승"
  }

  /** What the component renders. */
  datatype Screen =
    | CategoryScreen
    | ChampionScreen(name: string)
    | MatchScreen(left: string, right: string, roundLabel: string)
    | ShortageScreen

  /** The render: category picker, champion (when the name is truthy), or the current pair,
      which is reported as a shortage when either side is missing or empty. */
  function View(s: BracketState): Screen {
    if s.step == CategoryStep then CategoryScreen
    else if s.step == ChampionStep && s.champion.Some? && s.champion.value != "" then
      ChampionScreen(s.champion.value)
    else
      var i := 2 * s.matchIndex;
      if i + 1 < |s.currentRound| && s.currentRound[i] != "" && s.currentRound[i + 1] != "" then
        MatchScreen(s.currentRound[i], s.currentRound[i + 1], RoundLabel(|s.currentRound|))
      else ShortageScreen
  }

  /** The invariant between picks: every decided match has left one name in the accumulator
      and the displayed pair exists. */
  predicate Inv(s: BracketState) {
    && (s.step == GameStep ==>
          && 2 <= |s.currentRound|
          && |s.nextRoundWinners| == s.matchIndex
          && 2 * s.matchIndex + 1 < |s.currentRound|)
    && (s.step == ChampionStep ==> s.champion.Some?)
  }

  /** Picks still needed to crown a champion from a state in play: each match removes one name. */
  function PicksLeft(s: BracketState): int {
    |s.currentRound| - 1 - s.matchIndex
  }

  /** Every name in play belongs to `pool`. */
  predicate Among(s: BracketState, pool: seq<string>) {
    && (forall x :: x in s.currentRound ==> x in pool)
    && (forall x :: x in s.nextRoundWinners ==> x in pool)
  }

  /** Round 1 drawn from a shuffled list of at least eight non-empty names: the first
      eight, no match decided, and the first pair on screen under the label "8강". */
  lemma StartedRound(cat: MenuData.Category, shuffled: seq<string>)
    requires |shuffled| >= ROUND_SIZE
    requires forall x :: x in shuffled ==> x != ""
    ensures var s := Started(cat, shuffled);
      && Inv(s) && s.step == GameStep && s.category == Some(cat)
      && s.currentRound == shuffled[..ROUND_SIZE]
      && s.matchIndex == 0 && s.nextRoundWinners == [] && s.champion == None
      && View(s) == MatchScreen(shuffled[0], shuffled[1], "8강")
  {
    assert shuffled[0] in shuffled && shuffled[1] in shuffled;
  }

  /** `startGame` on any category: round 1 is exactly eight distinct names of that category
      (so the branch for fewer than eight never runs, and no name meets itself), and the
      first pair is on screen. */
  lemma StartGameRound(cat: MenuData.Category, draws: seq<nat>)
    requires Shuffle.Draws(draws, |MenusByCategory(cat)|)
    ensures var s := Started(cat, Shuffle.Shuffled(MenusByCategory(cat), draws));
      && Inv(s) && s.step == GameStep && s.category == Some(cat)
      && |s.currentRound| == ROUND_SIZE
      && s.currentRound == Shuffle.Shuffled(MenusByCategory(cat), draws)[..ROUND_SIZE]
      && s.matchIndex == 0 && s.nextRoundWinners == [] && s.champion == None
      && (forall x :: x in s.currentRound ==> x in MenusByCategory(cat))
      && Distinct(s.currentRound)
      && View(s) == MatchScreen(s.currentRound[0], s.currentRound[1], "8강")
  {
    RoundOne(cat, MenusByCategory(cat), draws);
  }

  /** Round 1 drawn from a shuffle of any list of at least eight distinct non-empty names. */
  lemma RoundOne(cat: MenuData.Category, list: seq<string>, draws: seq<nat>)
    requires Shuffle.Draws(draws, |list|) && |list| >= ROUND_SIZE && Distinct(list)
    requires forall x :: x in list ==> x != ""
    ensures var s := Started(cat, Shuffle.Shuffled(list, draws));
      && Inv(s) && s.step == GameStep && s.category == Some(cat)
      && |s.currentRound| == ROUND_SIZE
      && s.currentRound == Shuffle.Shuffled(list, draws)[..ROUND_SIZE]
      && s.matchIndex == 0 && s.nextRoundWinners == [] && s.champion == None
      && (forall x :: x in s.currentRound ==> x in list)
      && Distinct(s.currentRound)
      && View(s) == MatchScreen(s.currentRound[0], s.currentRound[1], "8강")
  {
    var shuffled := Shuffle.Shuffled(list, draws);
    Shuffle.ShuffledPermutes(list, draws);
    Shuffle.ShuffledDistinct(list, draws);
    StartedRound(cat, shuffled);
    forall x | x in shuffled[..ROUND_SIZE]
      ensures x in list
    {
      assert x in shuffled;
    }
  }

  /** One pick from a state in play keeps the invariant and takes exactly one of the
      remaining picks; the champion appears exactly when one pick was left; a new round is
      strictly shorter, of length floor(R/2) + R mod 2. */
  lemma PickedStep(s: BracketState, w: string)
    requires Inv(s) && s.step == GameStep
    ensures PicksLeft(s) >= 1
    ensures var t := Picked(s, w);
      && Inv(t)
      && (t.step == ChampionStep <==> PicksLeft(s) == 1)
      && (t.step != ChampionStep ==> t.step == GameStep && PicksLeft(t) == PicksLeft(s) - 1)
      && (t.step == GameStep && t.matchIndex == 0 ==>
            |t.currentRound| == |s.currentRound| / 2 + |s.currentRound| % 2 < |s.currentRound|)
  {
  }

  lemma {:induction false} PickAllConcat(s: BracketState, a: seq<string>, b: seq<string>)
    ensures PickAll(s, a + b) == PickAll(PickAll(s, a), b)
    decreases |b|
  {
    if b == [] {
      assert a + b == a;
    } else {
      var n := |b| - 1;
      assert (a + b)[..|a + b| - 1] == a + b[..n];
      assert (a + b)[|a + b| - 1] == b[n];
      PickAllConcat(s, a, b[..n]);
    }
  }

  /** Picks that do not finish the round only extend the accumulator, in pick order. */
  lemma {:induction false} PicksWithinRound(s: BracketState, ws: seq<string>)
    requires Inv(s) && s.step == GameStep
    requires s.matchIndex + |ws| < |s.currentRound| / 2
    ensures PickAll(s, ws) == s.(matchIndex := s.matchIndex + |ws|,
                                 nextRoundWinners := s.nextRoundWinners + ws)
    decreases |ws|
  {
    if ws == [] {
      assert s.nextRoundWinners + ws == s.nextRoundWinners;
    } else {
      var n := |ws| - 1;
      PicksWithinRound(s, ws[..n]);
      assert s.nextRoundWinners + ws[..n] + [ws[n]] == s.nextRoundWinners + ws;
    }
  }

  /** A round of length R played from its first match: after floor(R/2) picks the next round
      is exactly the picks in pick order, followed by the trailing bye when R is odd; a round
      of two crowns its single pick. */
  lemma RoundCompletes(s: BracketState, ws: seq<string>)
    requires Inv(s) && s.step == GameStep
    requires s.matchIndex == 0 && s.nextRoundWinners == []
    requires |ws| == |s.currentRound| / 2
    ensures var r := |s.currentRound|; var t := PickAll(s, ws);
      && (r == 2 ==> t.step == ChampionStep && t.champion == Some(ws[0]))
      && (r > 2 && r % 2 == 0 ==>
            t == s.(currentRound := ws))
      && (r % 2 == 1 ==>
            t == s.(currentRound := ws + [s.currentRound[r - 1]]))
  {
    RoundUnfolds(s, ws);
    RoundResult(s, ws, PickAll(s, ws));
  }

  /** A whole round from its first match is the last pick after the others. */
  lemma RoundUnfolds(s: BracketState, ws: seq<string>)
    requires Inv(s) && s.step == GameStep
    requires s.matchIndex == 0 && s.nextRoundWinners == []
    requires |ws| == |s.currentRound| / 2
    ensures PickAll(s, ws) ==
      Picked(s.(matchIndex := |ws| - 1, nextRoundWinners := ws[..|ws| - 1]), ws[|ws| - 1])
  {
    var p := |ws|;
    var front := ws[..p - 1];
    assert PickAll(s, ws) == Picked(PickAll(s, front), ws[p - 1]);
    PicksWithinRound(s, front);
    EmptyConcat(front);
    assert PickAll(s, front) == s.(matchIndex := p - 1, nextRoundWinners := front);
  }

  lemma RoundResult(s: BracketState, ws: seq<string>, t: BracketState)
    requires Inv(s) && s.step == GameStep
    requires s.matchIndex == 0 && s.nextRoundWinners == []
    requires |ws| == |s.currentRound| / 2
    requires t == Picked(s.(matchIndex := |ws| - 1, nextRoundWinners := ws[..|ws| - 1]), ws[|ws| - 1])
    ensures var r := |s.currentRound|;
      && (r == 2 ==> t.step == ChampionStep && t.champion == Some(ws[0]))
      && (r > 2 && r % 2 == 0 ==> t == s.(currentRound := ws))
      && (r % 2 == 1 ==> t == s.(currentRound := ws + [s.currentRound[r - 1]]))
  {
    var p := |ws|;
    FrontAndLast(ws);
    LastPick(s.(matchIndex := p - 1, nextRoundWinners := ws[..p - 1]), ws[p - 1], ws);
  }

  /* The two sequence identities below are kept as separate lemmas so that `RoundUnfolds`
     and `RoundResult` are proved in a small context, with only the identity they need. */

  /** Prepending nothing leaves a sequence as it was. */
  lemma EmptyConcat(a: seq<string>)
    ensures [] + a == a
  {
  }

  /** A non-empty sequence is its front followed by its last element. */
  lemma FrontAndLast(ws: seq<string>)
    requires ws != []
    ensures ws[..|ws| - 1] + [ws[|ws| - 1]] == ws
  {
  }

  /** The last match of a round, whose picks are `ws`: they form the next round together
      with any bye, or crown the champion when the round had two names. */
  lemma LastPick(u: BracketState, last: string, ws: seq<string>)
    requires |u.currentRound| >= 2
    requires |u.nextRoundWinners| == |u.currentRound| / 2 - 1
    requires u.nextRoundWinners + [last] == ws
    ensures var r := |u.currentRound|; var t := Picked(u, last);
      && (r == 2 ==> t == u.(champion := Some(last), step := ChampionStep))
      && (r > 2 && r % 2 == 0 ==> t == u.(currentRound := ws, matchIndex := 0, nextRoundWinners := []))
      && (r % 2 == 1 ==>
            t == u.(currentRound := ws + [u.currentRound[r - 1]], matchIndex := 0, nextRoundWinners := []))
  {
  }

  /** However the picks go, a state in play reaches its champion after exactly
      `PicksLeft` picks and is still in play before that. */
  lemma {:induction false} ReachesChampion(s: BracketState, ws: seq<string>)
    requires Inv(s) && s.step == GameStep
    requires |ws| <= PicksLeft(s)
    ensures var t := PickAll(s, ws);
      && Inv(t)
      && (|ws| == PicksLeft(s) ==> t.step == ChampionStep)
      && (|ws| < PicksLeft(s) ==> t.step == GameStep && PicksLeft(t) == PicksLeft(s) - |ws|)
    decreases |ws|
  {
    if ws != [] {
      var n := |ws| - 1;
      ReachesChampion(s, ws[..n]);
      PickedStep(PickAll(s, ws[..n]), ws[n]);
    }
  }

  /** The displayed pair belongs to the current round, so picking one of its names keeps
      every name in play inside any pool that held the round; the champion is such a name. */
  lemma PickedStaysAmong(s: BracketState, w: string, pool: seq<string>)
    requires Inv(s) && s.step == GameStep && Among(s, pool) && w in pool
    ensures var t := Picked(s, w);
      && Among(t, pool)
      && (t.step == ChampionStep ==> t.champion.value in pool)
  {
    var r := |s.currentRound|;
    if r % 2 == 1 {
      assert s.currentRound[r - 1] in s.currentRound;
    }
  }

  /** Picks drawn from a pool keep every name in play, and any champion, inside that pool. */
  lemma {:induction false} PicksStayAmong(s: BracketState, ws: seq<string>, pool: seq<string>)
    requires Inv(s) && s.step == GameStep && Among(s, pool)
    requires |ws| <= PicksLeft(s)
    requires forall w :: w in ws ==> w in pool
    ensures Among(PickAll(s, ws), pool)
    ensures PickAll(s, ws).step == ChampionStep ==>
      PickAll(s, ws).champion.Some? && PickAll(s, ws).champion.value in pool
    decreases |ws|
  {
    if ws != [] {
      var n := |ws| - 1;
      forall w | w in ws[..n]
        ensures w in pool
      {
        assert w in ws;
      }
      PicksStayAmong(s, ws[..n], pool);
      ReachesChampion(s, ws[..n]);
      assert ws[n] in ws;
      PickedStaysAmong(PickAll(s, ws[..n]), ws[n], pool);
    }
  }

  /** Exactly `PicksLeft` picks from a pool crown a champion from that pool. */
  lemma ChampionFromPool(s: BracketState, ws: seq<string>, pool: seq<string>)
    requires Inv(s) && s.step == GameStep && Among(s, pool)
    requires |ws| == PicksLeft(s)
    requires forall w :: w in ws ==> w in pool
    ensures PickAll(s, ws).step == ChampionStep
    ensures PickAll(s, ws).champion.Some? && PickAll(s, ws).champion.value in pool
  {
    ReachesChampion(s, ws);
    PicksStayAmong(s, ws, pool);
  }

  /** While in play over non-empty names the pair screen is shown, never the shortage screen. */
  lemma PairAlwaysShown(s: BracketState)
    requires Inv(s) && s.step == GameStep
    requires forall x :: x in s.currentRound ==> x != ""
    ensures var i := 2 * s.matchIndex;
      View(s) == MatchScreen(s.currentRound[i], s.currentRound[i + 1], RoundLabel(|s.currentRound|))
  {
    var i := 2 * s.matchIndex;
    assert s.currentRound[i] in s.currentRound && s.currentRound[i + 1] in s.currentRound;
  }

  /** Under the invariant only a round of two can complete with one name, so the champion
      is always the last pick, and the champion screen shows it when it is non-empty. */
  lemma ChampionIsLastPick(s: BracketState, w: string)
    requires Inv(s) && s.step == GameStep
    ensures Picked(s, w).step == ChampionStep ==>
      && |s.currentRound| == 2
      && Picked(s, w).champion == Some(w)
      && (w != "" ==> View(Picked(s, w)) == ChampionScreen(w))
  {
  }

  /** Both buttons lead back to the category picker, whatever the rest of the state is;
      neither clears the bracket fields. */
  lemma ButtonsShowCategories(s: BracketState)
    ensures View(Restarted(s)) == CategoryScreen && View(Reselected(s)) == CategoryScreen
    ensures Restarted(s).currentRound == s.currentRound && Restarted(s).champion == s.champion
    ensures Restarted(s).matchIndex == s.matchIndex && Restarted(s).nextRoundWinners == s.nextRoundWinners
    ensures Reselected(s).currentRound == s.currentRound && Reselected(s).champion == s.champion
    ensures Reselected(s).matchIndex == s.matchIndex && Reselected(s).nextRoundWinners == s.nextRoundWinners
    ensures Reselected(s).category == s.category
  {
  }

  /** An eight-name bracket: 4 + 2 + 1 picks, each round made of the
      previous round's picks in order. */
  lemma EightNameScenario()
    ensures var s := BracketState(GameStep, None, ["m3", "m1", "m7", "m5", "m2", "m8", "m4", "m6"], 0, [], None);
      var quarter, semi := ["m3", "m7", "m2", "m4"], ["m3", "m2"];
      && PickAll(s, quarter) == s.(currentRound := quarter)
      && PickAll(s, quarter + semi) == s.(currentRound := semi)
      && PickAll(s, quarter + semi + ["m3"]).step == ChampionStep
      && PickAll(s, quarter + semi + ["m3"]).champion == Some("m3")
  {
    var s := BracketState(GameStep, None, ["m3", "m1", "m7", "m5", "m2", "m8", "m4", "m6"], 0, [], None);
    var quarter, semi := ["m3", "m7", "m2", "m4"], ["m3", "m2"];
    RoundCompletes(s, quarter);
    var s2 := s.(currentRound := quarter);
    RoundCompletes(s2, semi);
    PickAllConcat(s, quarter, semi);
    var s3 := s.(currentRound := semi);
    RoundCompletes(s3, ["m3"]);
    PickAllConcat(s, quarter + semi, ["m3"]);
  }

  /** The odd bracket: in [x, y, z] the pick x takes the bye z along, and x then wins. */
  lemma OddScenario(x: string, y: string, z: string)
    ensures var s := BracketState(GameStep, None, [x, y, z], 0, [], None);
      && Picked(s, x).currentRound == [x, z]
      && Picked(s, x).step == GameStep
      && PickAll(s, [x, x]).step == ChampionStep
      && PickAll(s, [x, x]).champion == Some(x)
  {
    var s := BracketState(GameStep, None, [x, y, z], 0, [], None);
    var t := Picked(s, x);
    assert t.currentRound == [x, z];
    assert [x][..0] == [] && [x, x][..1] == [x];
    assert PickAll(s, [x]) == t;
    assert PickAll(s, [x, x]) == Picked(t, x);
  }

  /** The component's state, updated in place by its handlers. */
  class Bracket {
    var step: Step
    var category: Option<MenuData.Category>
    var currentRound: seq<string>
    var matchIndex: nat
    var nextRoundWinners: seq<string>
    var champion: Option<string>

    function Snapshot(): BracketState
      reads this
    {
      BracketState(step, category, currentRound, matchIndex, nextRoundWinners, champion)
    }

    constructor ()
      ensures Snapshot() == INITIAL
    {
      step, category, currentRound := CategoryStep, None, [];
      matchIndex, nextRoundWinners, champion := 0, [], None;
    }

    /** `startGame(cat)`, with `draws` standing for the shuffle's calls to `Math.random()`. */
    method StartGame(cat: MenuData.Category, draws: seq<nat>)
      requires Shuffle.Draws(draws, |MenusByCategory(cat)|)
      modifies this
      ensures Snapshot() == Started(cat, Shuffle.Shuffled(MenusByCategory(cat), draws))
      ensures Inv(Snapshot()) && |currentRound| == ROUND_SIZE
    {
      var list := MenusByCategory(cat);
      var shuffled := Shuffle.Shuffle(list, draws);
      var picked := if |shuffled| <= ROUND_SIZE then shuffled else shuffled[..ROUND_SIZE];
      category := Some(cat);
      currentRound := picked;
      matchIndex := 0;
      nextRoundWinners := [];
      champion := None;
      step := GameStep;
      StartGameRound(cat, draws);
    }

    /** `pickWinner(winner)`. Like the component, it does not check that `winner` is one
        of the displayed pair: the screen only offers those two. */
    method PickWinner(winner: string)
      modifies this
      ensures Snapshot() == Picked(old(Snapshot()), winner)
      ensures old(Inv(Snapshot()) && step == GameStep) ==> Inv(Snapshot())
    {
      ghost var before := Snapshot();
      var next := nextRoundWinners + [winner];
      var pairCount := |currentRound| / 2;
      var hasBye := |currentRound| % 2 == 1;
      if hasBye && |next| == pairCount {
        next := next + [currentRound[|currentRound| - 1]];
      }
      var roundComplete := |next| == pairCount + (if hasBye then 1 else 0);
      if roundComplete {
        if |next| == 1 {
          champion := Some(next[0]);
          step := ChampionStep;
        } else {
          currentRound := next;
          matchIndex := 0;
          nextRoundWinners := [];
        }
      } else {
        nextRoundWinners := next;
        matchIndex := matchIndex + 1;
      }
      if Inv(before) && before.step == GameStep {
        PickedStep(before, winner);
      }
    }

    /** "Start over" on the champion screen. */
    method Restart()
      modifies this
      ensures Snapshot() == Restarted(old(Snapshot()))
    {
      step := CategoryStep;
      category := None;
    }

    /** "Choose a category again" on the not-enough-menus screen. */
    method Reselect()
      modifies this
      ensures Snapshot() == Reselected(old(Snapshot()))
    {
      step := CategoryStep;
    }
  }
}
