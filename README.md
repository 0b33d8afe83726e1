# lunch-vote: the mini-game and history logic, in Dafny

lunch-vote is a web app where a group picks lunch. The model covers the four pieces of sequential logic that sit under its user interface:

- **The menu table** (`utils/menuData.ts`). Four constant category lists (korean, chinese, japanese, western) and `getAllMenus`, which joins them in that order.
- **The shuffle** that both mini-games use. It is a Fisher–Yates loop on a copy of the input. `components/WorldCup.tsx` and `components/FoodTinder.tsx` each carry an identical copy; the model has it once.
- **The elimination bracket** (`components/WorldCup.tsx`).
  - A category is shuffled and its first eight names form round 1.
  - Each pick decides the displayed pair `(2k, 2k+1)` and joins an accumulator. In an odd round, the trailing bye joins the accumulator once all real pairs are decided.
  - A complete round becomes the next round, or crowns the champion.
- **The swipe session** (`components/FoodTinder.tsx`).
  - A shuffled deck of every menu name, a cursor and a list of liked names.
  - A swipe is two steps. The handler marks the card as leaving and records a like; a timer callback then moves to the next card.
  - The result shows after ten cards or at the end of the deck.
- **The recently-visited list** (`utils/voting-history.ts`). Kept under one local-storage key: most recent first, at most ten entries, one per room id.

Structure:

- The state the components keep in React hooks becomes a class whose fields the handler methods update (`WorldCup.Bracket`, `FoodTinder.Session`, `VotingHistory.HistoryStore`).
- Each method is proved equal to a pure transition on a state value: `Snapshot() == Picked(old(Snapshot()), winner)` and the like.
- The properties the code promises are lemmas about those transitions.
- The shuffle is a loop over an array, proved equal to a recursive definition that is then shown to permute its input.

Modules: `Wrappers` (Option), `Sequences` (order-preserving sub-sequences, distinctness), `MenuData`, `Shuffle`, `WorldCup`, `FoodTinder`, `VotingHistory`.

Randomness and time are parameters.

- `Math.random()` in the shuffle is replaced by an oracle `draws`. `draws[i]` is the index that `Math.floor(Math.random() * (i + 1))` yields at step `i`, so `0 <= draws[i] <= i` (`Shuffle.Draws`).
- `Date.now()` is the parameter `now` of `AddToVotingHistory`.

Local storage is one field holding the decoded value under the key (`VotingHistory.Slot`):

- missing or empty (`Missing`),
- text that `JSON.parse` rejects (`Malformed`),
- a parsed JSON value (`Parsed`).

Points of the code that the model keeps as they are:

- **Winner check.** `pickWinner` does not check that the winner is one of the displayed pair: any string is accepted, and only the screen limits the choice to the two names.
- **Restart.** The "start over" button resets only the step and the category (components/WorldCup.tsx:136-139). The round, the accumulator and the champion stay until the next `startGame` re-initialises them.
- **Round label.** Every round length other than 8 and 4 is labelled "결승" (final).
- **Fewer than eight names.** `startGame` has a branch for `picked.length < 8`, and it does the same as the other branch. The menu table never reaches it: every category has at least fifteen names.
- **A reset while a card is leaving.** The swipe's timer callback is a closure over the `goNext` of the render in which the card was swiped. Ending the game and resetting do not wait for it, so it can fire on a fresh deck with the cursor and deck size of the old one (`FoodTinder.ResetDuringTenthExit`).

## Model

| member | source | states |
|---|---|---|
| MenuData.Category.Key | utils/menuData.ts:3 | models the string union `Category`: each category with the string it is written as, the one that keys `MENUS` |
| MenuData.KeyInjective | utils/menuData.ts:3 | two categories are written as the same string exactly when they are the same category |
| MenuData.GetAllMenus | utils/menuData.ts:38-45 | the joined table holds 65 names |
| MenuData.AllMenusOrder | utils/menuData.ts:38-45 | the joined table is korean ++ chinese ++ japanese ++ western; positions 0-19, 20-34, 35-49 and 50-64 are exactly the four lists |
| MenuData.MenusShape | utils/menuData.ts:12-35 | the record's keys are exactly korean, chinese, japanese, western; "all" is not a key; the lists hold 20, 15, 15 and 15 names |
| MenuData.CategoriesHoldEight | utils/menuData.ts:13-34 | every concrete category is a key, lists at least 15 (so at least 8) names, and no name is empty |
| MenuData.NamesNonEmpty | utils/menuData.ts:13-34 | no name in the joined table is the empty string |
| MenuData.NamesDistinct | utils/menuData.ts:13-34 | no name is repeated, within one list or across the lists |
| Shuffle.Draws | components/WorldCup.tsx:19 | models the oracle: one index per position, each at most its position, as `Math.floor(Math.random() * (i + 1))` yields |
| Shuffle.Swap | components/WorldCup.tsx:20 | models the destructuring exchange of positions i and j; the length is kept |
| Shuffle.ShuffledFrom | components/WorldCup.tsx:18-21 | models the rest of the loop once every position above i is final: positions i down to 1 each exchanged with their drawn partner (no contract of its own; see `ShuffledFromPermutes`) |
| Shuffle.Shuffled | components/WorldCup.tsx:16-23 | models the whole shuffle, from the last index down to 1 (no contract of its own; see `ShuffledPermutes` and `ShuffledDistinct`) |
| Shuffle.Shuffle | components/WorldCup.tsx:16-23 | the loop from the last index down to 1, swapping position i with the drawn index on a fresh copy, yields the recursive definition `Shuffled` and keeps the length; the input is a value, so it is untouched |
| Shuffle.SwapPermutes | components/WorldCup.tsx:20 | one exchange keeps the multiset of elements |
| Shuffle.ShuffledFromPermutes | components/WorldCup.tsx:18-21 | every remaining part of the loop keeps the length and the multiset |
| Shuffle.ShuffledPermutes | components/FoodTinder.tsx:7-14 | whatever the oracle answers, the result is a permutation of the input: same length, same multiset, same members |
| Shuffle.SwapKeepsDistinct | components/WorldCup.tsx:20 | one exchange of a list without repeats leaves it without repeats |
| Shuffle.ShuffledDistinct | components/WorldCup.tsx:16-23 | shuffling a list without repeats gives a list without repeats |
| WorldCup.MenusByCategory | components/WorldCup.tsx:25-28 | "all" gives the joined table; any other category is a key of the record and gives its list; the result has at least 15 distinct non-empty names |
| WorldCup.RoundLabel | components/WorldCup.tsx:150-151 | "8강" exactly for length 8, "4강" exactly for length 4, "결승" exactly for every other length |
| WorldCup.Started | components/WorldCup.tsx:43-56 | models `startGame` given the shuffled list: the first (at most) eight names become round 1 on the game step, with no match decided and no champion (no contract of its own; see `StartedRound`) |
| WorldCup.Picked | components/WorldCup.tsx:58-83 | models `pickWinner`: the pick joins the accumulator, the bye follows once every real pair is decided, a complete round of one crowns it, a longer one becomes the next round, otherwise the match index moves on (no contract of its own; see `PickedStep`, `RoundCompletes`, `ReachesChampion`) |
| WorldCup.PickAll | components/WorldCup.tsx:58-83 | models a run of `pickWinner` calls, one per pick in order (no contract of its own; see `PickAllConcat`, `PicksWithinRound`) |
| WorldCup.Restarted | components/WorldCup.tsx:136-139 | models the "start over" button: step back to the category picker, category cleared, nothing else (see `ButtonsShowCategories`) |
| WorldCup.Reselected | components/WorldCup.tsx:159 | models the "choose a category again" button: only the step changes (see `ButtonsShowCategories`) |
| WorldCup.View | components/WorldCup.tsx:93-166 | models the screen choice: category picker, champion when the name is truthy, the current pair with its label, or the not-enough-menus screen when a side is missing or empty (see `PairAlwaysShown`, `ChampionIsLastPick`) |
| WorldCup.StartedRound | components/WorldCup.tsx:43-56 | from a shuffled list of at least eight non-empty names, round 1 is its first eight, no match is decided, no champion is set, the step is the game, and the first pair is on screen as "8강" |
| WorldCup.RoundOne | components/WorldCup.tsx:43-56 | for any list of at least eight distinct non-empty names, round 1 is eight distinct names of the list, satisfies the invariant and shows the first pair |
| WorldCup.StartGameRound | components/WorldCup.tsx:43-56 | for every category and every oracle, round 1 holds exactly eight distinct names of that category, so the branch for fewer than eight never applies |
| WorldCup.PickedStep | components/WorldCup.tsx:58-83 | one pick from a state in play keeps the invariant (accumulator length equals the match index, the displayed pair exists); the champion appears exactly when one pick was left, otherwise one fewer pick is left; a new round has length floor(R/2) + R mod 2, which is below R |
| WorldCup.PickAllConcat | components/WorldCup.tsx:58-83 | playing two runs of picks one after the other is playing their concatenation |
| WorldCup.PicksWithinRound | components/WorldCup.tsx:77-80 | picks that do not finish the round only append to the accumulator, in pick order, and advance the match index by one each |
| WorldCup.LastPick | components/WorldCup.tsx:60-76 | the last match of a round: with two names the pick is crowned; with an even length the picks become the next round; with an odd length the picks and then the bye become the next round; the accumulator and index are reset |
| WorldCup.RoundCompletes | components/WorldCup.tsx:60-76 | a round of length R played from its first match: after floor(R/2) picks the next round is exactly the picks in pick order (length R/2) when R is even, the picks followed by the trailing name when R is odd (length floor(R/2)+1), and the single pick is champion when R is 2 |
| WorldCup.ReachesChampion | components/WorldCup.tsx:58-83 | from any state in play, every sequence of exactly PicksLeft picks ends in the champion step, and any shorter sequence leaves the game in play with the difference of picks left |
| WorldCup.PickedStaysAmong | components/WorldCup.tsx:60-64 | a pick from a pool keeps every name in play, and any champion, inside any pool that held the round |
| WorldCup.PicksStayAmong | components/WorldCup.tsx:58-83 | picks drawn from a pool keep every name in play, and any champion, in that pool |
| WorldCup.ChampionFromPool | components/WorldCup.tsx:67-71 | exactly PicksLeft picks from a pool crown a champion that belongs to the pool |
| WorldCup.ChampionIsLastPick | components/WorldCup.tsx:67-70 | under the invariant a champion is only crowned from a round of two, it is the last pick, and the champion screen shows it when it is non-empty |
| WorldCup.PairAlwaysShown | components/WorldCup.tsx:148-166 | in play over non-empty names the screen is always the current pair at (2k, 2k+1) with the round's label, never the not-enough-menus screen |
| WorldCup.ButtonsShowCategories | components/WorldCup.tsx:136-162 | "start over" and "choose a category again" both lead to the category picker; neither changes the round, the match index, the accumulator or the champion, and "choose a category again" also keeps the category |
| WorldCup.EightNameScenario | components/WorldCup.tsx:58-83 | from [m3,m1,m7,m5,m2,m8,m4,m6]: picks m3,m7,m2,m4 give round [m3,m7,m2,m4]; then m3,m2 give [m3,m2]; then m3 is champion |
| WorldCup.OddScenario | components/WorldCup.tsx:62-66 | from [x,y,z]: the pick x takes the bye z along into [x,z]; a second pick x crowns x |
| WorldCup.Bracket.constructor | components/WorldCup.tsx:36-41 | the component mounts on the category step with an empty bracket and no champion |
| WorldCup.Bracket.StartGame | components/WorldCup.tsx:43-56 | the new state is `Started` on the shuffled category list; it satisfies the invariant and round 1 has exactly eight names |
| WorldCup.Bracket.PickWinner | components/WorldCup.tsx:58-83 | the new state is `Picked` of the old one, and the invariant is kept from any state in play |
| WorldCup.Bracket.Restart | components/WorldCup.tsx:136-139 | only the step (back to category) and the category (cleared) change |
| WorldCup.Bracket.Reselect | components/WorldCup.tsx:159 | only the step changes, back to the category picker |
| FoodTinder.CurrentMenu | components/FoodTinder.tsx:40 | models `menus[currentIndex]` as a truth value: the name when it exists and is non-empty, nothing otherwise |
| FoodTinder.Blocked | components/FoodTinder.tsx:56 | models the swipe handlers' guard: no current card, or a card is leaving |
| FoodTinder.Dealt | components/FoodTinder.tsx:28-38 | models the state after mount and the dealing effect: the deck, cursor 0, nothing liked, nothing leaving, no timer |
| FoodTinder.Advanced | components/FoodTinder.tsx:47-53 | models `goNext` as captured in a render with cursor `at` and deck size `deckSize`: guard and result test on the captured values, increment on the current cursor (see `AdvancedMoves`) |
| FoodTinder.Liked | components/FoodTinder.tsx:55-65 | models `handleLike`: unless blocked, the card is marked leaving to the right, liked, and its timer scheduled (see `SwipeEffects`) |
| FoodTinder.Disliked | components/FoodTinder.tsx:67-76 | models `handleDislike`: unless blocked, the card is marked leaving to the left and its timer scheduled (see `SwipeEffects`) |
| FoodTinder.Dragged | components/FoodTinder.tsx:78-102 | models `handleDragEnd` with the horizontal offset (see `DragIsSwipe`) |
| FoodTinder.ExitFinished | components/FoodTinder.tsx:60-64 | models the pending timer firing: its captured `goNext`, then both leaving marks cleared; nothing happens with no timer pending (see `ExitFinishedInv`, `ResetDuringTenthExit`) |
| FoodTinder.Ended | components/FoodTinder.tsx:104-106 | models `handleEndGame`: only the result flag is set |
| FoodTinder.Restarted | components/FoodTinder.tsx:108-113 | models `handleReset` given the new deck: deck replaced, cursor 0, likes cleared, result closed; the leaving marks and a pending timer stay |
| FoodTinder.ResultSynced | components/FoodTinder.tsx:43-45 | models the effect that opens the result once a non-empty deck is used up (see `ResultSyncedIsRedundant`) |
| FoodTinder.DealtInv | components/FoodTinder.tsx:28-38 | any non-empty deck starts a session that satisfies the invariant, with the cursor at 0 and no likes |
| FoodTinder.DeckOfAllMenus | components/FoodTinder.tsx:36-38 | the deck dealt on mount (and on reset) is a permutation of all 65 menu names, and its first card is on screen |
| FoodTinder.AdvancedMoves | components/FoodTinder.tsx:47-53 | when the captured cursor is at the end of the captured deck nothing changes; otherwise the current cursor moves by one, and the result opens exactly when the captured cursor plus one reaches ten cards or the deck size (or it was already open); deck and likes are kept |
| FoodTinder.SwipeEffects | components/FoodTinder.tsx:55-76 | a like appends exactly the current card to the likes and a dislike appends nothing; both mark the card as leaving to the right or left without moving the cursor and schedule a timer holding the current cursor and deck size; both change nothing while a card is leaving or when there is no card |
| FoodTinder.DragIsSwipe | components/FoodTinder.tsx:78-102 | a drag past +80 pixels is a like, past -80 a dislike, and anything in between changes nothing |
| FoodTinder.SwipedRight | components/FoodTinder.tsx:57-64 | models the first step of a swipe to the right (also at components/FoodTinder.tsx:83-90): the card is marked leaving to the right, appended to the likes, and a timer holding the current cursor and deck size is scheduled (see `SwipeEffects`, `SwipedRightInv`) |
| FoodTinder.SwipedLeft | components/FoodTinder.tsx:69-75 | models the first step of a swipe to the left (also at components/FoodTinder.tsx:92-98): the card is marked leaving to the left and a timer holding the current cursor and deck size is scheduled (see `SwipeEffects`, `SwipedLeftInv`) |
| FoodTinder.SwipedRightInv | components/FoodTinder.tsx:55-65 | a like keeps the session invariant: the likes stay an ordered sub-sequence of the cards passed, counting the leaving card |
| FoodTinder.SwipedLeftInv | components/FoodTinder.tsx:67-76 | a dislike keeps the session invariant |
| FoodTinder.ExitFinishedInv | components/FoodTinder.tsx:60-64 | the timer callback at the end of a swipe keeps the invariant, moves the cursor by exactly one, clears both leaving marks, and keeps the deck and the likes |
| FoodTinder.ResetDuringTenthExit | components/FoodTinder.tsx:55-113 | liking the tenth card, ending the game and resetting before its timer fires: the timer still passes the first card of the new deck and opens the result, with no like |
| FoodTinder.HandlersKeepInv | components/FoodTinder.tsx:43-113 | like, dislike, drag end, end game, the end-of-deck effect, the timer callback and reset all keep the invariant; a reset while a card is leaving needs a deck of the same size, which every deal of all menus has |
| FoodTinder.LikedAmongPassed | components/FoodTinder.tsx:59-61 | when no card is leaving, the likes are an ordered sub-sequence of the cards passed, so there are at most as many as the cursor and each one is a passed card |
| FoodTinder.ResultSyncedIsRedundant | components/FoodTinder.tsx:43-45 | under the invariant the end-of-deck effect changes nothing, because the result is already open |
| FoodTinder.ResultAfterTenCards | components/FoodTinder.tsx:50-52 | a session whose result is not open has passed fewer than ten cards and is not at the end; swiping the tenth card opens the result |
| FoodTinder.Session.constructor | components/FoodTinder.tsx:28-38 | mounting deals the shuffled full menu list with the cursor at 0, no likes, no result, nothing leaving, and the invariant holds |
| FoodTinder.Session.GoNext | components/FoodTinder.tsx:47-53 | the new state is `Advanced` of the old one with the captured cursor and deck size |
| FoodTinder.Session.HandleLike | components/FoodTinder.tsx:55-65 | the new state is `Liked` of the old one; the invariant is kept |
| FoodTinder.Session.HandleDislike | components/FoodTinder.tsx:67-76 | the new state is `Disliked` of the old one; the invariant is kept |
| FoodTinder.Session.HandleDragEnd | components/FoodTinder.tsx:78-102 | the new state is `Dragged` of the old one with the drag's offset; the invariant is kept |
| FoodTinder.Session.FinishExit | components/FoodTinder.tsx:60-64 | the pending timer fires: `goNext` on the values it captured, then the leaving marks and the timer are cleared; the cursor moves by exactly one and the invariant is kept |
| FoodTinder.Session.HandleEndGame | components/FoodTinder.tsx:104-106 | only the result flag is set; the invariant is kept |
| FoodTinder.Session.HandleReset | components/FoodTinder.tsx:108-113 | a freshly shuffled full deck, the cursor at 0, no likes and the result closed; the invariant is kept |
| FoodTinder.Session.SyncResult | components/FoodTinder.tsx:43-45 | the result opens when the deck is non-empty and used up; the invariant is kept |
| VotingHistory.IsEntry | utils/voting-history.ts:19-24 | models the shape filter's test: an object with a string `id`, a string `title` and a numeric `visitedAt` |
| VotingHistory.HasId | utils/voting-history.ts:35 | models `x.id === id` on a decoded value |
| VotingHistory.NewEntry | utils/voting-history.ts:36-40 | the record written for a visit passes the shape check and carries the given id |
| VotingHistory.Entries | utils/voting-history.ts:17-25 | the shape filter keeps exactly the records with a string id, a string title and a numeric visit time, each as often as it is stored, in stored order |
| VotingHistory.WithoutId | utils/voting-history.ts:35 | the id filter keeps exactly the records without that id, each as often as it occurs, in order |
| VotingHistory.Take | utils/voting-history.ts:26 | `slice(0, n)` gives the first min(n, length) elements, position by position, and the whole list when it is short enough |
| VotingHistory.Read | utils/voting-history.ts:10-30 | the first ten well-shaped records, position by position as `Entries` gives them (all of them when there are fewer); a missing, unparsable or non-array value gives the empty list |
| VotingHistory.Added | utils/voting-history.ts:35-42 | models `addToVotingHistory` on the stored value (see `AddedHistory`) |
| VotingHistory.Removed | utils/voting-history.ts:51-52 | models `removeFromVotingHistory` on the stored value (see `RemovedHistory`) |
| VotingHistory.ReadBack | utils/voting-history.ts:17-26 | storing at most ten well-shaped records and reading them back gives the same list |
| VotingHistory.UnusableStorageIsEmpty | utils/voting-history.ts:13-16 | a missing value, a parse failure or a parsed non-array reads as the empty history |
| VotingHistory.AddedHistory | utils/voting-history.ts:35-42 | after an add the history starts with the new record, followed by the first min(9, n) older entries without its id, in order, where n is how many there are: a full list drops its oldest entries; no other entry has the id, and storage holds exactly that list |
| VotingHistory.NewestFirst | utils/voting-history.ts:41 | `[next, ...list].slice(0, 10)`: the new record, then the first entries of the list up to ten in all, each without the id, and every one of them kept when fewer than ten |
| VotingHistory.AddKeepsIdsUnique | utils/voting-history.ts:35-41 | if no id occurred twice before an add, none does after |
| VotingHistory.RemovedHistory | utils/voting-history.ts:51-52 | after a removal no entry has that id, exactly the previous entries with other ids remain, each as often as before and in order, and storage holds exactly that validated and truncated list |
| VotingHistory.RemoveIdempotent | utils/voting-history.ts:48-56 | removing the same id twice equals removing it once |
| VotingHistory.HistoryStore.constructor | utils/voting-history.ts:13 | the store starts with the given contents under the key |
| VotingHistory.HistoryStore.GetVotingHistory | utils/voting-history.ts:10-30 | returns `Read` of the stored value and changes nothing |
| VotingHistory.HistoryStore.AddToVotingHistory | utils/voting-history.ts:32-46 | the stored value becomes `Added` of the old one, with `now` for `Date.now()` |
| VotingHistory.HistoryStore.RemoveFromVotingHistory | utils/voting-history.ts:48-56 | the stored value becomes `Removed` of the old one |

## Left out

- Randomness. `Math.random()` is the `draws` oracle. The model says nothing about the uniformity of the shuffle, only that any oracle's result is a permutation.
- Timers, animation and effects scheduling:
  - The 200 ms `setTimeout` of a swipe is the separate `FinishExit` method; the pending timer is a value holding the cursor and deck size it captured, and when it fires is up to the caller. The values the other handlers read are those of the latest state: React's batching of updates within one event, and handlers running on a render older than the latest state, are not modelled.
  - `confetti`, the framer-motion animations and the champion effect's delayed confetti are presentation and are left out.
- The drag offset `dragX`, used only to colour the card while dragging, and all JSX rendering. The exceptions are the screen choice of the bracket (`WorldCup.View`) and the current card (`FoodTinder.CurrentMenu`).
- The category buttons' labels (`CATEGORY_LABELS`) and the room-creation callbacks `onCreateRoomWithMenu` and `onCreateRoomWithMenus`; these are calls into the page.
- JSON text. Storage holds an already decoded value, so `JSON.stringify` followed by `JSON.parse` is taken to be the identity on the records written. Number precision of `visitedAt` is not modelled: `Date.now()` is an integer and the stored number is a real.
- `typeof window === "undefined"`, the server-side rendering guard, which returns before touching storage. Exceptions from `localStorage.setItem` (quota or privacy mode), which the code swallows, are also left out.
- The storage key `voting_history`, which all three storage functions use: the model has a single storage slot, so the key has no counterpart.
- The `Menu` interface of `utils/menuData.ts`, which no modelled code uses.
