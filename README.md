# Chore board: a verified model

A household chore board, served by Next.js. It has two lanes.

- **Weekly lane:** every week, persons are assigned weekly cleaning categories by rotating the person list by the number of ISO weeks since a base date. The person just after the last category is the week's joker; when no name appears twice in the list, the joker has nothing to do.
- **Monthly lane:** two groups of persons share the "køkken" (kitchen) and "overflader" (surfaces) tasks, and a button swaps which group does which.

Ticking a task stores its completion under a pipe-joined task id in a Redis hash, through `POST /api/task`. `GET /api/task` reads the whole hash back, and the board turns it into a done-map. An access guard in front of every request lets through public paths and holders of the right cookie. It answers 401 on the API and redirects pages to `/login`.

The model covers the following, one Dafny module each:

- **Calendar:** the ISO week of a date, the Monday of a week, the week difference and the week key.
- **Rotation:** the rotation of the persons, the joker and the category assignment.
- **TaskIds:** the task id and its injectivity.
- **DoneMap:** the board's done-map and the updates it posts: toggling one task and marking many, and turning the stored hash back into a done-map.
- **Board:** marking all of a person's tasks and the weekly counter.
- **Monthly:** shuffling and splitting the groups, loading them and the assignment from browser storage, the swap, the group cards with their bulk button, and the monthly counter.
- **TaskRoute:** the task endpoint, as a class `TaskStore` whose field `tasks` is the Redis hash.
- **Middleware:** the guard's decision.

Conventions used throughout the model:

- A date is a day number; day 0 is 1970-01-01.
- JSON values are the `Json` datatype. Numbers are integers.
- `JSON.stringify`, `JSON.parse`, the clock, `Math.random` and browser storage are parameters, or a nondeterministic choice.
- JavaScript's truncating `%` is written out as `JsRem`.

Three behaviours of the code are worth spelling out:

- A stored task is kept when its `index` is of type number; nothing requires an integer.
- Stored monthly groups load whenever `groupA` and `groupB` are arrays, empty ones included.
- When no groups are stored, the mount effect always stores a random half/half split (`Monthly.InitialGroups`). The fixed NA/OL against BA/AL split that `getDefaultGroups` returns for four or more persons is shown only until that effect runs (`Monthly.DefaultGroups`).

## Model

| member | source | states |
|---|---|---|
| Calendar.SameWeekday | app/page.jsx:19 | two days have the same ISO weekday exactly when they differ by a multiple of 7 |
| Calendar.MondayOf | app/page.jsx:19-24 | stepping back weekday-minus-one days from any day lands on a Monday |
| Calendar.YearLength | app/page.jsx:21-23 | consecutive 1 January dates are 366 days apart in a Gregorian leap year and 365 otherwise |
| Calendar.YearOf | app/page.jsx:23 | the year found for a day is the one whose 1 January is on or before it and whose next 1 January is after it |
| Calendar.YearOfUnique | app/page.jsx:23 | that year is the only one with this property |
| Calendar.WeekNumberBounds | app/page.jsx:22 | the week number `ceil((days since 1 January + 1) / 7)` of a day in a year is between 1 and 53 |
| Calendar.IsoWeekInfo | app/page.jsx:17-27 | the week starts on a Monday, contains the day and ends six days later; its year is the year of its Thursday; its number is 1..53 |
| Calendar.IsoWeekMatchesDefinition | app/page.jsx:17-27 | the computed week is the ISO 8601 week: weeks counted from the Monday of the week holding 4 January of the week-year, and the start lies before the next week-year's week 1 |
| Calendar.WeekOf20241230 | app/page.jsx:17-27 | 2024-12-30 is in week 1 of 2025 (Monday 30 December to Sunday 5 January) |
| Calendar.WeekOf20210101 | app/page.jsx:17-27 | 2021-01-01 is in week 53 of 2020 |
| Calendar.WeekOf20230101 | app/page.jsx:17-27 | 2023-01-01, a Sunday, is in week 52 of 2022 and ends that week |
| Calendar.StartOfIsoWeek | app/page.jsx:143-150 | the result is a Monday, on or before the day and less than a week before it |
| Calendar.IsoWeekStartsOnStartOfIsoWeek | app/page.jsx:143-150 | the two Monday computations of the board agree on every day |
| Calendar.WeeksBetween | app/page.jsx:152-155 | the result times seven is the distance between the two weeks' Mondays |
| Calendar.WeeksBetweenShift | app/page.jsx:155 | moving the current day on by k weeks adds exactly k to the week difference |
| Calendar.PaddedWeek | app/page.jsx:139 | a week number 1..53 pads to exactly two digits that read back as the number |
| Calendar.WeekKey | app/page.jsx:139 | the week key: the week-year, "-W" and the week number padded to two digits; read back by WeekKeyRoundTrip |
| Calendar.WeekKeyRoundTrip | app/page.jsx:139 | the week key ends in "-W" and two digits, and the year and the week can be read back from it |
| Calendar.WeeksBetweenAsWrittenSameOffset | app/page.jsx:155 | the millisecond floor division as written agrees with the week difference when both Mondays have the same UTC offset |
| Calendar.WeeksBetweenAsWrittenAcrossDst | app/page.jsx:155 | across a change from UTC+1 to UTC+2, the Mondays 2024-03-25 and 2024-04-01 are one week apart, yet the code as written gives 0 |
| Rotation.JsRem | app/page.jsx:31 | JavaScript's `%`: the magnitude is below the divisor, the sign follows the dividend, and it agrees with the mathematical remainder |
| Rotation.RotationStep | app/page.jsx:31 | `((amount % n) + n) % n` is the remainder of amount modulo n, in 0..n-1, for negative amounts too |
| Rotation.Rotate | app/page.jsx:29-33 | the rotation keeps the length, and position i holds the item at (i + amount) mod n |
| Rotation.RotateZero | app/page.jsx:29-33 | rotating by 0 changes nothing |
| Rotation.RotatePeriodic | app/page.jsx:29-33 | rotating by amount + n is the same as rotating by amount |
| Rotation.RotateCompose | app/page.jsx:29-33 | rotating by a, then by b, is rotating by a + b |
| Rotation.RotatePermutation | app/page.jsx:29-33 | a rotation is a permutation: same multiset of items |
| Rotation.RotateDistinct | app/page.jsx:29-33 | rotating a list without repeats gives a list without repeats |
| Rotation.BaseDay | app/page.jsx:152-153 | the configured base date, or today when it is missing or unreadable |
| Rotation.RotatedPersons | app/page.jsx:152-157 | the week's order of persons: the roster rotated by the weeks since the base week's Monday |
| Rotation.RotatedPersonsPermutation | app/page.jsx:152-157 | the week's order of persons is a permutation of the roster, and with no base date it is the roster itself |
| Rotation.RotationNextWeek | app/page.jsx:152-157 | one week later, the rotated persons are this week's rotated by one more place |
| Rotation.RotationRepeats | app/page.jsx:152-157 | after as many weeks as there are persons, the assignment repeats |
| Rotation.TwoWeeksExample | app/page.jsx:152-169 | with persons A, B, C and categories kitchen and bath, two weeks after the base week C has kitchen, A has bath and B is the joker |
| Rotation.Joker | app/page.jsx:158 | the joker is the person after the last category when that slot is a non-empty name, and "JOKER" when the slot is past the end of the list or holds the empty name |
| Rotation.JokerIsFree | app/page.jsx:158 | with more distinct, named persons than categories, the joker is the person after the categories and gets no category |
| Rotation.AssignedCategoriesMeaning | app/page.jsx:160-169 | a category is in a person's list exactly when one of its indices falls on that person's slot |
| Rotation.UnassignedGetsNothing | app/page.jsx:160-169 | a person on no category slot gets the empty list |
| Rotation.Assignments | app/page.jsx:160-169 | the mapping has one entry per person on a category slot plus the joker, and each entry lists exactly that person's categories in category order |
| TaskIds.SplitJoin | app/api/task/route.js:16-17 | splitting a pipe-joined id on the separator gives back its separator-free parts |
| TaskIds.JoinInjective | app/api/task/route.js:16-17 | two joins of separator-free parts are equal exactly when the parts are |
| TaskIds.TaskIdIsJoin | app/api/task/route.js:16-17 | the task id template is the join of its five components with the pipe character |
| TaskIds.TaskIdInjective | app/api/task/route.js:16-17 | task ids of separator-free components are equal exactly when all five components are equal |
| TaskIds.TaskIdCollision | app/api/task/route.js:16-17 | a pipe character inside a component makes different tasks share an id |
| Json.IntTextInjective | app/api/task/route.js:17 | two indices print as the same text exactly when they are equal |
| DoneMap.ToggleTask | app/page.jsx:173-187 | the toggled id flips; every other id keeps its value; the posted update names the same five components and carries the new value |
| DoneMap.ToggleTwice | app/page.jsx:173-187 | toggling the same task twice restores every id's completion |
| DoneMap.PostTaskBatch | app/page.jsx:84-87 | a batch is posted exactly when it is non-empty, and then unchanged |
| DoneMap.ApplyUpdatesAppend | app/page.jsx:192-198 | applying two update lists in turn is applying their concatenation |
| DoneMap.ApplyUpdatesFrame | app/page.jsx:192-198 | applying updates adds exactly their ids and leaves every other id's value as it was |
| DoneMap.ApplyUniform | app/page.jsx:192-198 | after updates that all carry one value, every updated id holds that value |
| DoneMap.TaskUpdates | app/page.jsx:196-207 | one update per task index of the category, in index order, each with the given value |
| DoneMap.MarkTasks | app/page.jsx:196-207 | the loop appends exactly the category's updates and applies them to the done-map |
| DoneMap.CountDoneAll | app/page.jsx:220-223 | the number of done ids equals the number of ids exactly when every id is done |
| DoneMap.StoreToDoneMap | app/page.jsx:35-46 | a store without tasks gives the empty map; otherwise the keys are exactly the ids of the kept records, and each value is the `Boolean(done)` of a kept record with that id |
| Board.PersonCategories | app/page.jsx:190 | the person's categories from the mapping, or none when the person is not in it |
| Board.PersonCategoriesFromAssignments | app/page.jsx:190 | for any mapping built as `assignments` promises, a person's categories are exactly those the week's rotation puts on their slot, none for a person on no slot |
| Board.SetPersonDone | app/page.jsx:189-212 | the person's categories' tasks are set to the value in one batch, which is posted only when non-empty |
| Board.SetPersonDoneEffect | app/page.jsx:189-212 | every task of the person's categories holds the value afterwards; every other id is unchanged |
| Board.PersonUpdatesOncePerId | app/page.jsx:194-207 | with distinct, separator-free categories, no task id is updated twice in the batch |
| Board.TaskUpdatesOncePerId | app/page.jsx:196-207 | one category's updates never name the same task id twice, whatever the components contain |
| Board.PersonAllDone | app/page.jsx:286-293 | the check mark shows when the person has categories and every task of each is done |
| Board.MarkAllShowsDone | app/page.jsx:286-293 | marking all as done makes the person's check mark show, when the person has categories |
| Board.UnmarkAllClearsTasks | app/page.jsx:286-293 | marking all as not done clears every task of the person and the check mark |
| Board.IndexOf | app/page.jsx:221 | `indexOf`: the first position holding the item, or -1 when it is absent |
| Board.CategoryIdsAt | app/page.jsx:220-221 | the ids counted for a category are the task ids of its indices, one per task, in index order |
| Board.CountCategory | app/page.jsx:220-223 | the loop counts exactly the done ids among the category's tasks |
| Board.CountTasks | app/page.jsx:214-226 | total is the number of weekly tasks over all categories; completed is the number of done ids among them, each looked up under the person rotated onto its category; completed never exceeds total |
| Board.WeeklyIdsLength | app/page.jsx:217-219 | the counter looks up exactly as many ids as it adds to the total |
| Board.WeeklyCountComplete | app/page.jsx:214-226 | completed equals total exactly when every counted task is done |
| Monthly.Shuffle | app/page.jsx:67-74 | the shuffled list is a permutation of the input |
| Monthly.Mid | app/page.jsx:241 | `Math.ceil(n / 2)`: the first half gets the extra person when n is odd |
| Monthly.SplitGroups | app/page.jsx:241-242 | the two groups concatenate back to the shuffled list, and group A is as long as group B or one longer |
| Monthly.RandomGroups | app/page.jsx:240-242 | the groups together are a permutation of the persons, balanced as above |
| Monthly.SplitPartitions | app/page.jsx:240-242 | for distinct persons, every person is in exactly one group |
| Monthly.KeepPresent | app/page.jsx:231 | the filter keeps exactly the candidates on the roster, each as often as it appears among the candidates |
| Monthly.KeepPresentAppend | app/page.jsx:231 | the filter keeps the candidates' order: filtering a concatenation is filtering each part in turn |
| Monthly.FixedSplitOrder | app/page.jsx:231 | the fixed groups are NA then OL, and BA then AL, each present exactly when on the roster; this order fixes the group's card id |
| Monthly.DefaultGroups | app/page.jsx:229-236 | four or more persons give the NA/OL and BA/AL groups restricted to the roster; fewer give a balanced random split |
| Monthly.FixedSplitWithinRoster | app/page.jsx:231 | the fixed groups hold only roster members, and no one is in both |
| Monthly.FixedSplitMayBeEmpty | app/page.jsx:231 | a roster without those names gives two empty groups |
| Monthly.InitialGroups | app/page.jsx:238-246 | stored groups are used as they are; without them the groups are a balanced split of a permutation of the persons |
| Monthly.LoadMonthlyGroups | app/page.jsx:48-59 | groups load only from a non-empty stored text that parses to an object |
| Monthly.LoadSavedGroups | app/page.jsx:48-59 | saved groups load back unchanged through a JSON codec that round-trips |
| Monthly.LoadMonthlyAssignment | app/page.jsx:61-65 | surfaces are on group A exactly when that exact text is stored; anything else means group B |
| Monthly.LoadStoredAssignment | app/page.jsx:61-65 | a stored assignment loads back unchanged |
| Monthly.Swap | app/page.jsx:456-460 | the swap always changes the assignment |
| Monthly.SwapTwice | app/page.jsx:456-460 | swapping twice restores the assignment |
| Monthly.SwapExchangesGroups | app/page.jsx:254-255 | after a swap the kitchen group is the former surfaces group and the other way round; the two groups are always group A and group B |
| Monthly.Cards | app/page.jsx:530-549 | two cards, group A first, each showing its own group's members |
| Monthly.CardsShowAssignment | app/page.jsx:530-549 | one card shows the kitchen tasks and is held by the kitchen group; the other shows the surfaces tasks and is held by the surfaces group |
| Monthly.GroupId | app/page.jsx:373 | the assignee is the members joined with '+', or the card's key when that text is empty |
| Monthly.PressGroupButton | app/page.jsx:386-409 | the button sets every task of the card to the opposite of its check mark and posts them as one batch |
| Monthly.GroupAllDone | app/page.jsx:374-376 | a card's check mark shows when it has tasks and all of them are done |
| Monthly.GroupButtonEffect | app/page.jsx:389-406 | the button sets exactly the card's task ids to the new value, leaves every other id as it was, and posts one update per id |
| Monthly.GroupButtonFlips | app/page.jsx:371-409 | on a card with tasks, pressing the button flips the check mark |
| Monthly.CounterKeysAsWritten | app/page.jsx:257-258 | the assignee keys the counter as written looks up: a group's joined members, or 'gruppeA' for the kitchen group and 'gruppeB' for the surfaces group when empty |
| Monthly.CardCounterKeys | app/page.jsx:373 | the keys the corrected counter looks up are the assignee ids of the cards that show those categories |
| Monthly.CountMonthly | app/page.jsx:248-273 | total is the number of kitchen and surfaces tasks; completed is the number of done ids among them under the given keys |
| Monthly.CounterKeysAgreeWithMembers | app/page.jsx:257-258 | when both groups have a non-empty joined name, the counter as written looks up the same keys as the cards |
| Monthly.CardCounterFullIffCardsDone | app/page.jsx:248-273 | with the cards' keys, the counter is full exactly when every task on both cards is done |
| Monthly.CounterMissesEmptyGroup | app/page.jsx:257-258 | with an empty group B doing the one surfaces task, that card shows done after its button is pressed, but the counter as written counts 0 of 1; with the cards' keys it counts 1 |
| TaskRoute.BatchOf | app/api/task/route.js:21 | an array body is the batch; any other body is a one-item batch |
| TaskRoute.ValidItem | app/api/task/route.js:31-32 | an item is accepted when week, period, assignee and category are truthy, the index is a number and done is a boolean |
| TaskRoute.Stamp | app/api/task/route.js:35 | the stored task: the item's six fields and `updatedAt` set to the request time; its properties are stated by StampMeaning |
| TaskRoute.BoardUpdatesAccepted | app/api/task/route.js:31-34 | an update from the board passes validation exactly when its four text components are non-empty, and it is then stored under the board's own id |
| TaskRoute.StampMeaning | app/api/task/route.js:35 | the stamped task is still valid and kept, has the same id and `done`, and its `updatedAt` is the request time |
| TaskRoute.AssignKeys | app/api/task/route.js:36 | assigning pairs into an object gives exactly their keys |
| TaskRoute.AssignProvenance | app/api/task/route.js:36 | every value of the object comes from a pair with that key, and from no later pair with the same key |
| TaskRoute.AssignLastWins | app/api/task/route.js:36 | a pair with no later pair of the same key is the value under that key |
| TaskRoute.Entries | app/api/task/route.js:30-37 | one entry per item, in order, each the item's id and the text of its stamped task |
| TaskRoute.BatchWritesKeys | app/api/task/route.js:30-37 | an all-valid batch writes exactly the ids of its items |
| TaskRoute.BatchWritesProvenance | app/api/task/route.js:30-37 | each written value is the stamped text of an item with that id |
| TaskRoute.BatchWritesLastWins | app/api/task/route.js:30-37 | of the items sharing an id, the last one is written |
| TaskRoute.CollectWrites | app/api/task/route.js:28-37 | the loop stops at the first invalid item with no writes, and otherwise collects the batch's writes |
| TaskRoute.TaskStore.Post | app/api/task/route.js:19-42 | an empty batch or one with any invalid item answers 400 and leaves the hash alone; otherwise the batch's writes are merged into the hash and the answer is 200 with the item count |
| TaskRoute.ParsedTasks | app/api/task/route.js:49-55 | exactly the entries that parse are returned, each under its own id as parsed; the others are skipped |
| TaskRoute.TaskStore.Get | app/api/task/route.js:44-58 | the answer is 200 with every parsable entry under `tasks` |
| TaskRoute.PostKeepsConsistent | app/api/task/route.js:35-40 | after a POST, every stored task that the board keeps still sits under its own id, given a JSON codec that round-trips |
| TaskRoute.GetBodyRecords | app/api/task/route.js:57 | the records the board reads from the GET body are exactly the parsed entries |
| TaskRoute.ReadBackDetermined | app/api/task/route.js:44-58 | over a consistent hash, the board's done-map holds exactly the ids of the kept entries, each with that entry's `Boolean(done)` |
| TaskRoute.ReadBackEntry | app/api/task/route.js:44-58 | a kept entry's id is in the done-map with that entry's `Boolean(done)` |
| TaskRoute.BoardBatchItems | app/api/task/route.js:21 | a batch from the board reaches the loop as its own update objects, one item per update |
| TaskRoute.PostThenReadBack | app/api/task/route.js:19-58 | after the board posts a batch, reading the hash back gives each update's completion under its id, for an update that no later update in the batch overrides |
| Middleware.Guard | middleware.js:5-23 | a request passes exactly when its path is public or its cookie equals a configured non-empty hash; a refused API path gets 401; any other refused path is redirected to `/login` |
| Middleware.PublicAlwaysPasses | middleware.js:3-9 | paths starting with `/login`, `/api/auth` or `/_next` pass, whatever the cookie |
| Middleware.PrefixMatching | middleware.js:7 | matching is by prefix: `/login-x` passes without a cookie |
| Middleware.PrivatePassIff | middleware.js:11-14 | a private path passes exactly when the cookie and the hash are both set, non-empty and equal |
| Middleware.NoHashNoAccess | middleware.js:12 | with the hash unset or empty, no private path passes |
| Middleware.RefusedApiGets401 | middleware.js:16-18 | a refused API request gets 401 |
| Middleware.RedirectPasses | middleware.js:20-22 | a refused page goes to `/login`, and that request passes, so the guard never loops |
| Middleware.LoggedInPasses | middleware.js:11-14 | a cookie holding the configured non-empty hash passes on every path |

## Left out

- Rendering is not modelled: the React state, the JSX, `isClient`, `formatDate`, `dayNames` and `addDays`. The cards (`Monthly.Cards`) and the check marks are kept only as the values they show.
- The network is not modelled: the `fetch` calls, the Redis client and its connection handling (`getRedis`), and the error swallowing around them. A posted batch is a returned value. The hash is the `tasks` field of `TaskStore`.
- Browser storage (`localStorage`), its writes in the effects, and removing the old done key are not modelled. Stored texts are parameters, and `LoadSavedGroups` states the save-then-load round trip.
- The timezone behaviour of JavaScript `Date` is not modelled. The model counts whole days; a local UTC offset appears only in the week-difference finding. Parsing `base_date` is a parameter; an unparsable base date is `None`, as is a missing one.
- `request.json()` throwing on a malformed body (a 500) is not modelled: the body is a parsed `Json` value. `JSON.stringify` and `JSON.parse` are function parameters.
- Non-integer and non-finite numbers are not modelled; a JSON number is an integer. An integer index of magnitude 10^21 or more prints in exponent notation in JavaScript, where `IntText` writes every digit, so ids built from such an index differ from the model's.
- The login page, the login route that sets the cookie, and the hashing of the password are not part of this model. The guard takes the cookie and the configured hash as given.
- The guard's `config.matcher` (middleware.js:25-27) is not modelled: it decides which requests reach the guard, not what the guard decides.
- Monthly.Shuffle: states a permutation, not the uniform distribution of Fisher–Yates; `Math.random` is a nondeterministic index choice.
- DoneMap.StoreToDoneMap: when two kept records build the same id, the map holds the `Boolean(done)` of one of them; which one depends on `Object.values` order, and is not fixed.
- Monthly.LoadMonthlyGroups: its own contract states only what a loaded value needs; which members the groups then hold is stated by `LoadSavedGroups` for groups the board saved, not for arbitrary stored objects.
- TaskRoute.TaskStore.Post: the response counts the items, not the distinct ids written. Only the status and the body are modelled, not the headers.
- Concurrency is not modelled: React's queued state updates, and several browsers posting at once.

## Findings

| source | as written | input that shows it | evidently intended | confidence | as-written member | corrected member |
|---|---|---|---|---|---|---|
| app/page.jsx:155 | the week difference is the floor of the millisecond distance between the two local Mondays over 7·24·3600·1000 | base Monday 2024-03-25 at UTC+1, current Monday 2024-04-01 at UTC+2 (Central European summer time begins on 2024-03-31): the distance is one hour short of a week, so the result is 0 | the number of whole weeks between the two Mondays, 1 here, so the rotation moves on every Monday | not executed | Calendar.WeeksBetweenAsWrittenAcrossDst | Calendar.WeeksBetweenShift |
| app/page.jsx:257-258 | the monthly counter falls back to the assignee keys 'gruppeA' and 'gruppeB' for an empty group, and picks 'gruppeA' for the kitchen group even when the kitchen group is group B | persons ["X"] in group A and none in group B, surfaces on group B, one surfaces task: the card's button stores the task under assignee "groupB", the counter looks it up under "gruppeB" and shows 0 of 1 | the counter looks up the ids the cards write (the members joined with '+', or the card's key when empty; lines 373 and 537-546), so it is full exactly when both cards are done | not executed | Monthly.CounterMissesEmptyGroup | Monthly.CardCounterFullIffCardsDone |
