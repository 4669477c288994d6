/**
 * The monthly lane: two groups of persons, one doing "køkken" and the other
 * "overflader", which of the two does which, the group cards with their
 * "mark all" button, and the monthly completed/total counter.
 */
module Monthly {
  import opened Maybe
  import opened Json
  import opened TaskIds
  import opened Rotation
  import opened DoneMap
  import opened Board

  const MonthlyPeriod := "månedlig"
  const Kitchen := "køkken"
  const Surfaces := "overflader"

  datatype Groups = Groups(groupA: seq<string>, groupB: seq<string>)

  // ---------------------------------------------------------------- shuffle and split

  /**
   * `shuffleArray`: Fisher–Yates on a copy, from the last position down; the
   * random index `Math.floor(Math.random() * (i + 1))` is any index in 0..i.
   */
  method Shuffle(items: seq<string>) returns (shuffled: seq<string>)
    ensures |shuffled| == |items|
    ensures multiset(shuffled) == multiset(items)
  {
    var next := new string[|items|](k requires 0 <= k < |items| => items[k]);
    assert next[..] == items;
    var i := next.Length - 1;
    while i > 0
      invariant i < next.Length
      invariant multiset(next[..]) == multiset(items)
    {
      var j :| 0 <= j <= i;
      next[i], next[j] := next[j], next[i];
      i := i - 1;
    }
    shuffled := next[..];
  }

  /** `Math.ceil(n / 2)` */
  function Mid(n: nat): (mid: nat)
    ensures n <= 2 * mid <= n + 1
  {
    (n + 1) / 2
  }

  /** `{ groupA: shuffled.slice(0, mid), groupB: shuffled.slice(mid) }` */
  function SplitGroups(shuffled: seq<string>): (g: Groups)
    ensures g.groupA + g.groupB == shuffled
    ensures |g.groupB| <= |g.groupA| <= |g.groupB| + 1
  {
    var mid := Mid(|shuffled|);
    assert shuffled[..mid] + shuffled[mid..] == shuffled;
    Groups(shuffled[..mid], shuffled[mid..])
  }

  /** A random split: every person lands in exactly one group, group A taking the odd one out. */
  method RandomGroups(persons: seq<string>) returns (g: Groups)
    ensures multiset(g.groupA + g.groupB) == multiset(persons)
    ensures |g.groupB| <= |g.groupA| <= |g.groupB| + 1
  {
    var shuffled := Shuffle(persons);
    g := SplitGroups(shuffled);
  }

  /** Each value occurs at most once in a sequence without repeats. */
  lemma {:induction false} DistinctMultiplicity(s: seq<string>)
    ensures Distinct(s) <==> forall x :: multiset(s)[x] <= 1
  {
    if |s| > 0 {
      var init := s[..|s| - 1];
      var last := s[|s| - 1];
      assert s == init + [last];
      DistinctMultiplicity(init);
      if Distinct(s) {
        assert Distinct(init) by {
          forall p, q | 0 <= p < q < |init| ensures init[p] != init[q] {
            assert init[p] == s[p] && init[q] == s[q];
          }
        }
        assert last !in init by {
          forall p | 0 <= p < |init| ensures init[p] != last {
            assert init[p] == s[p];
          }
        }
      }
      if forall x :: multiset(s)[x] <= 1 {
        assert forall x :: multiset(init)[x] <= multiset(s)[x];
        assert last !in multiset(init) by {
          assert multiset(s)[last] == multiset(init)[last] + 1;
        }
        forall p, q | 0 <= p < q < |s| ensures s[p] != s[q] {
          if q < |s| - 1 {
            assert init[p] == s[p] && init[q] == s[q];
          } else {
            assert init[p] == s[p];
          }
        }
      }
    }
  }

  /**
   * With a roster without repeats, the random split puts every person in
   * exactly one group and nobody else in either.
   */
  lemma SplitPartitions(persons: seq<string>, g: Groups)
    requires Distinct(persons)
    requires multiset(g.groupA + g.groupB) == multiset(persons)
    ensures forall p :: p in persons <==> p in g.groupA || p in g.groupB
    ensures forall p :: !(p in g.groupA && p in g.groupB)
  {
    var all := g.groupA + g.groupB;
    DistinctMultiplicity(persons);
    assert multiset(all) == multiset(g.groupA) + multiset(g.groupB);
    forall p ensures p in persons <==> p in g.groupA || p in g.groupB {
      assert p in persons <==> p in multiset(persons);
      assert p in all <==> p in multiset(all);
    }
    forall p ensures !(p in g.groupA && p in g.groupB) {
      assert multiset(persons)[p] == multiset(g.groupA)[p] + multiset(g.groupB)[p];
    }
  }

  /** `candidates.filter((p) => persons.includes(p))` */
  function KeepPresent(candidates: seq<string>, persons: seq<string>): (kept: seq<string>)
    ensures forall p :: p in kept <==> p in candidates && p in persons
    ensures forall p :: multiset(kept)[p] == if p in persons then multiset(candidates)[p] else 0
    ensures |kept| <= |candidates|
  {
    if |candidates| == 0 then []
    else
      var rest := KeepPresent(candidates[1..], persons);
      assert candidates == [candidates[0]] + candidates[1..];
      assert forall p :: p in candidates <==> p == candidates[0] || p in candidates[1..];
      if candidates[0] in persons then [candidates[0]] + rest else rest
  }

  /** The filter keeps the candidates' order: filtering a concatenation filters each part in turn. */
  lemma {:induction false} KeepPresentAppend(a: seq<string>, b: seq<string>, persons: seq<string>)
    ensures KeepPresent(a + b, persons) == KeepPresent(a, persons) + KeepPresent(b, persons)
  {
    if |a| > 0 {
      assert (a + b)[1..] == a[1..] + b;
      KeepPresentAppend(a[1..], b, persons);
    } else {
      assert a + b == b;
    }
  }

  /** On the fixed names: NA before OL and BA before AL, each kept once when on the roster. */
  lemma FixedSplitOrder(persons: seq<string>)
    ensures KeepPresent(["NA", "OL"], persons)
         == (if "NA" in persons then ["NA"] else []) + (if "OL" in persons then ["OL"] else [])
    ensures KeepPresent(["BA", "AL"], persons)
         == (if "BA" in persons then ["BA"] else []) + (if "AL" in persons then ["AL"] else [])
  {
    KeepPair("NA", "OL", persons);
    KeepPair("BA", "AL", persons);
  }

  lemma KeepPair(x: string, y: string, persons: seq<string>)
    ensures KeepPresent([x, y], persons)
         == (if x in persons then [x] else []) + (if y in persons then [y] else [])
  {
    KeepPresentAppend([x], [y], persons);
    assert [x] + [y] == [x, y];
    assert [x][1..] == [] && [y][1..] == [];
    assert KeepPresent([x], persons) == if x in persons then [x] else [];
    assert KeepPresent([y], persons) == if y in persons then [y] else [];
  }

  /**
   * `getDefaultGroups`: with four or more persons a fixed split of the named
   * persons that are on the roster; otherwise a random split.
   */
  method DefaultGroups(persons: seq<string>) returns (g: Groups)
    ensures |persons| >= 4 ==> g == Groups(KeepPresent(["NA", "OL"], persons), KeepPresent(["BA", "AL"], persons))
    ensures |persons| < 4 ==> multiset(g.groupA + g.groupB) == multiset(persons)
    ensures |persons| < 4 ==> |g.groupB| <= |g.groupA| <= |g.groupB| + 1
  {
    if |persons| >= 4 {
      g := Groups(KeepPresent(["NA", "OL"], persons), KeepPresent(["BA", "AL"], persons));
    } else {
      g := RandomGroups(persons);
    }
  }

  /** The fixed split only ever holds roster members, never anyone twice over. */
  lemma FixedSplitWithinRoster(persons: seq<string>)
    ensures var g := Groups(KeepPresent(["NA", "OL"], persons), KeepPresent(["BA", "AL"], persons));
      && (forall p :: p in g.groupA || p in g.groupB ==> p in persons)
      && (forall p :: !(p in g.groupA && p in g.groupB))
  {
  }

  /** ... and it need not cover the roster: four persons with other names get two empty groups. */
  lemma FixedSplitMayBeEmpty()
    ensures KeepPresent(["NA", "OL"], ["A", "B", "C", "D"]) == []
    ensures KeepPresent(["BA", "AL"], ["A", "B", "C", "D"]) == []
  {
    var roster := ["A", "B", "C", "D"];
    assert forall p :: p in roster ==> |p| == 1;
    assert "NA" !in roster && "OL" !in roster && "BA" !in roster && "AL" !in roster;
    FixedSplitOrder(roster);
  }

  /**
   * The effect that runs when no groups are stored: it always stores a fresh
   * random split (even where `getDefaultGroups` would pick the fixed one).
   */
  method InitialGroups(stored: Option<Groups>, persons: seq<string>) returns (g: Groups)
    ensures stored.Some? ==> g == stored.value
    ensures stored.None? ==> multiset(g.groupA + g.groupB) == multiset(persons)
    ensures stored.None? ==> |g.groupB| <= |g.groupA| <= |g.groupB| + 1
  {
    if stored.Some? {
      g := stored.value;
    } else {
      g := RandomGroups(persons);
    }
  }

  // ---------------------------------------------------------------- stored groups

  /** The text a stored member turns into wherever the board joins members. */
  function MemberTexts(items: seq<Json>): (names: seq<string>)
    ensures |names| == |items|
    ensures forall k :: 0 <= k < |items| ==> names[k] == ElementText(items[k])
  {
    seq(|items|, k requires 0 <= k < |items| => ElementText(items[k]))
  }

  /**
   * `loadMonthlyGroups`: the stored text (`None` when nothing is stored, or
   * when there is no window) is parsed; a parse error, `null`, or anything
   * but an object whose `groupA` and `groupB` are arrays loads nothing.
   * An empty stored text reads as `'null'`.
   */
  function LoadMonthlyGroups(raw: Option<string>, parse: string -> Option<Json>): (g: Option<Groups>)
    ensures g.Some? ==> raw.Some? && raw.value != ""
    ensures g.Some? ==> exists v :: parse(raw.value) == Some(v) && v.JObj?
  {
    if raw.None? || raw.value == "" then None
    else
      match parse(raw.value)
      case None => None
      case Some(v) =>
        var a := Field(v, "groupA");
        var b := Field(v, "groupB");
        if v.JObj? && a.Some? && a.value.JArr? && b.Some? && b.value.JArr? then
          Some(Groups(MemberTexts(a.value.items), MemberTexts(b.value.items)))
        else None
  }

  /** The value `JSON.stringify` is given when the groups are saved. */
  function GroupsJson(g: Groups): Json {
    JObj(map["groupA" := JArr(seq(|g.groupA|, k requires 0 <= k < |g.groupA| => JStr(g.groupA[k]))),
             "groupB" := JArr(seq(|g.groupB|, k requires 0 <= k < |g.groupB| => JStr(g.groupB[k])))])
  }

  /** Saved groups load back unchanged, given a JSON codec that round-trips. */
  lemma LoadSavedGroups(g: Groups, stringify: Json -> string, parse: string -> Option<Json>)
    requires stringify(GroupsJson(g)) != ""
    requires parse(stringify(GroupsJson(g))) == Some(GroupsJson(g))
    ensures LoadMonthlyGroups(Some(stringify(GroupsJson(g))), parse) == Some(g)
  {
    var v := GroupsJson(g);
    assert Field(v, "groupA") == Some(v.fields["groupA"]);
    assert Field(v, "groupB") == Some(v.fields["groupB"]);
    var itemsA := v.fields["groupA"].items;
    var itemsB := v.fields["groupB"].items;
    assert |itemsA| == |g.groupA| && |itemsB| == |g.groupB|;
    forall k | 0 <= k < |g.groupA| ensures MemberTexts(itemsA)[k] == g.groupA[k] {
      assert itemsA[k] == JStr(g.groupA[k]);
      assert ElementText(JStr(g.groupA[k])) == Text(JStr(g.groupA[k])) == g.groupA[k];
    }
    forall k | 0 <= k < |g.groupB| ensures MemberTexts(itemsB)[k] == g.groupB[k] {
      assert itemsB[k] == JStr(g.groupB[k]);
      assert ElementText(JStr(g.groupB[k])) == Text(JStr(g.groupB[k])) == g.groupB[k];
    }
    assert MemberTexts(itemsA) == g.groupA;
    assert MemberTexts(itemsB) == g.groupB;
  }

  // ---------------------------------------------------------------- which group does what

  datatype Assignment = SurfacesOnGroupA | SurfacesOnGroupB

  /** The text stored under the assignment key. */
  function AssignmentText(a: Assignment): string {
    match a
    case SurfacesOnGroupA => "overflader-on-groupA"
    case SurfacesOnGroupB => "overflader-on-groupB"
  }

  /** `loadMonthlyAssignment`: group A has "overflader" only when exactly that is stored. */
  function LoadMonthlyAssignment(stored: Option<string>): (a: Assignment)
    ensures a == SurfacesOnGroupA <==> stored == Some("overflader-on-groupA")
  {
    if stored == Some("overflader-on-groupA") then SurfacesOnGroupA else SurfacesOnGroupB
  }

  /** A saved assignment loads back unchanged. */
  lemma LoadStoredAssignment(a: Assignment)
    ensures LoadMonthlyAssignment(Some(AssignmentText(a))) == a
  {
  }

  /** `swapMonthlyAssignment` */
  function Swap(a: Assignment): (b: Assignment)
    ensures b != a
  {
    if a == SurfacesOnGroupA then SurfacesOnGroupB else SurfacesOnGroupA
  }

  lemma SwapTwice(a: Assignment)
    ensures Swap(Swap(a)) == a
  {
  }

  /** The group doing "køkken" under an assignment. */
  function KitchenGroup(g: Groups, a: Assignment): seq<string> {
    if a == SurfacesOnGroupA then g.groupB else g.groupA
  }

  /** The group doing "overflader" under an assignment. */
  function SurfacesGroup(g: Groups, a: Assignment): seq<string> {
    if a == SurfacesOnGroupA then g.groupA else g.groupB
  }

  /** Swapping hands each group the other's category; the two groups always split the categories. */
  lemma SwapExchangesGroups(g: Groups, a: Assignment)
    ensures KitchenGroup(g, Swap(a)) == SurfacesGroup(g, a)
    ensures SurfacesGroup(g, Swap(a)) == KitchenGroup(g, a)
    ensures {KitchenGroup(g, a), SurfacesGroup(g, a)} == {g.groupA, g.groupB}
  {
  }

  // ---------------------------------------------------------------- group cards

  /** One rendered monthly group: its slot key, members and category. */
  datatype Card = Card(groupKey: string, members: seq<string>, category: string)

  /** The two cards of the monthly lane, group A first. */
  function Cards(g: Groups, a: Assignment): (cards: seq<Card>)
    ensures |cards| == 2
    ensures cards[0].groupKey == "groupA" && cards[0].members == g.groupA
    ensures cards[1].groupKey == "groupB" && cards[1].members == g.groupB
  {
    var surfacesOnA := a == SurfacesOnGroupA;
    [Card("groupA", g.groupA, if surfacesOnA then Surfaces else Kitchen),
     Card("groupB", g.groupB, if surfacesOnA then Kitchen else Surfaces)]
  }

  /** The cards agree with the counter's view: one card per category, held by the group doing it. */
  lemma CardsShowAssignment(g: Groups, a: Assignment)
    ensures var cards := Cards(g, a);
      exists k :: 0 <= k < 2 && cards[k].category == Kitchen && cards[k].members == KitchenGroup(g, a)
                 && cards[1 - k].category == Surfaces && cards[1 - k].members == SurfacesGroup(g, a)
  {
    if a == SurfacesOnGroupA {
      assert Cards(g, a)[1].category == Kitchen;
    } else {
      assert Cards(g, a)[0].category == Kitchen;
    }
  }

  /** `members.join('+') || groupKey`: the assignee of a group's monthly tasks. */
  function GroupId(members: seq<string>, groupKey: string): (id: string)
    ensures Join(members, '+') != "" ==> id == Join(members, '+')
    ensures Join(members, '+') == "" ==> id == groupKey
  {
    var joined := Join(members, '+');
    if joined != "" then joined else groupKey
  }

  function CardId(card: Card): string {
    GroupId(card.members, card.groupKey)
  }

  /** Every task on the card is done. */
  predicate CardTasksDone(done: map<string, bool>, week: string, card: Card, catalog: map<string, seq<string>>) {
    forall i :: 0 <= i < |Tasks(catalog, card.category)| ==>
      DoneAt(done, TaskId(week, MonthlyPeriod, CardId(card), card.category, IntText(i)))
  }

  /** `groupAllDone`: the card has tasks and all of them are done. */
  predicate GroupAllDone(done: map<string, bool>, week: string, card: Card, catalog: map<string, seq<string>>) {
    |Tasks(catalog, card.category)| > 0 && CardTasksDone(done, week, card, catalog)
  }

  /**
   * The group card's button: sets every task of the card to the opposite of
   * what the check mark shows and posts them as one batch.
   */
  method PressGroupButton(prev: map<string, bool>, week: string, card: Card, catalog: map<string, seq<string>>)
    returns (next: map<string, bool>, updates: seq<Update>, posted: Option<seq<Update>>)
    ensures updates == TaskUpdates(week, MonthlyPeriod, CardId(card), card.category, |Tasks(catalog, card.category)|,
                                   !GroupAllDone(prev, week, card, catalog))
    ensures next == ApplyUpdates(prev, updates)
    ensures posted == PostTaskBatch(updates)
  {
    var tasks := Tasks(catalog, card.category);
    var value := !GroupAllDone(prev, week, card, catalog);
    next, updates := MarkTasks(prev, [], week, MonthlyPeriod, CardId(card), card.category, |tasks|, value);
    posted := PostTaskBatch(updates);
  }

  /** Pressing a card's button with tasks on it flips its check mark. */
  lemma GroupButtonFlips(prev: map<string, bool>, week: string, card: Card, catalog: map<string, seq<string>>)
    requires |Tasks(catalog, card.category)| > 0
    ensures var value := !GroupAllDone(prev, week, card, catalog);
      GroupAllDone(ApplyUpdates(prev, TaskUpdates(week, MonthlyPeriod, CardId(card), card.category,
                                                  |Tasks(catalog, card.category)|, value)), week, card, catalog)
        == value
  {
    var count := |Tasks(catalog, card.category)|;
    var value := !GroupAllDone(prev, week, card, catalog);
    var updates := TaskUpdates(week, MonthlyPeriod, CardId(card), card.category, count, value);
    ApplyUniform(prev, updates, value);
    forall i | 0 <= i < count
      ensures var id := TaskId(week, MonthlyPeriod, CardId(card), card.category, IntText(i));
        id in ApplyUpdates(prev, updates) && ApplyUpdates(prev, updates)[id] == value
    {
      assert UpdateId(updates[i]) in UpdateIds(updates);
    }
    if !value {
      assert !DoneAt(ApplyUpdates(prev, updates), TaskId(week, MonthlyPeriod, CardId(card), card.category, IntText(0)));
    }
  }

  /** `id` is the id of one of the card's tasks. */
  predicate OnCard(week: string, card: Card, catalog: map<string, seq<string>>, id: string) {
    exists i :: 0 <= i < |Tasks(catalog, card.category)| && id == TaskId(week, MonthlyPeriod, CardId(card), card.category, IntText(i))
  }

  /**
   * The card's button sets exactly the card's task ids to the new value,
   * leaves every other id as it was, and posts one update per id.
   */
  lemma GroupButtonEffect(prev: map<string, bool>, week: string, card: Card, catalog: map<string, seq<string>>, id: string)
    ensures var value := !GroupAllDone(prev, week, card, catalog);
      var updates := TaskUpdates(week, MonthlyPeriod, CardId(card), card.category, |Tasks(catalog, card.category)|, value);
      var next := ApplyUpdates(prev, updates);
      && NoRepeatedIds(updates)
      && (OnCard(week, card, catalog, id) ==> id in next && next[id] == value)
      && (!OnCard(week, card, catalog, id) ==> (id in next <==> id in prev) && (id in prev ==> next[id] == prev[id]))
  {
    var count := |Tasks(catalog, card.category)|;
    var value := !GroupAllDone(prev, week, card, catalog);
    var updates := TaskUpdates(week, MonthlyPeriod, CardId(card), card.category, count, value);
    TaskUpdatesOncePerId(week, MonthlyPeriod, CardId(card), card.category, count, value);
    TaskUpdatesCover(week, MonthlyPeriod, CardId(card), card.category, count, value, id);
    ApplyUniform(prev, updates, value);
    ApplyUpdatesFrame(prev, updates);
  }

  // ---------------------------------------------------------------- the monthly counter

  /** The assignee keys of the kitchen tasks and of the surfaces tasks a counter looks up. */
  datatype CounterKeys = CounterKeys(kitchen: string, surfaces: string)

  /** `countMonthly` as written: an empty group falls back to 'gruppeA' / 'gruppeB'. */
  function CounterKeysAsWritten(g: Groups, a: Assignment): CounterKeys {
    CounterKeys(GroupId(KitchenGroup(g, a), "gruppeA"), GroupId(SurfacesGroup(g, a), "gruppeB"))
  }

  /** The slot key of the group doing `surfaces` (true) or the kitchen (false). */
  function SlotKey(a: Assignment, surfaces: bool): string {
    if (a == SurfacesOnGroupA) == surfaces then "groupA" else "groupB"
  }

  /** The keys the cards write under: each group falls back to its own slot key. */
  function CardCounterKeys(g: Groups, a: Assignment): (keys: CounterKeys)
    ensures var cards := Cards(g, a);
      forall k :: 0 <= k < 2 ==>
        CardId(cards[k]) == if cards[k].category == Kitchen then keys.kitchen else keys.surfaces
  {
    CounterKeys(GroupId(KitchenGroup(g, a), SlotKey(a, false)), GroupId(SurfacesGroup(g, a), SlotKey(a, true)))
  }

  /** The ids a counter looks up: the kitchen tasks, then the surfaces tasks. */
  function MonthlyIds(week: string, keys: CounterKeys, catalog: map<string, seq<string>>): seq<string> {
    CategoryIds(week, MonthlyPeriod, keys.kitchen, Kitchen, |Tasks(catalog, Kitchen)|)
      + CategoryIds(week, MonthlyPeriod, keys.surfaces, Surfaces, |Tasks(catalog, Surfaces)|)
  }

  /**
   * `countMonthly` over given keys: the total is the number of kitchen and
   * surfaces tasks, and the completed count is how many of their ids are done.
   */
  method CountMonthly(done: map<string, bool>, week: string, keys: CounterKeys, catalog: map<string, seq<string>>)
    returns (total: nat, completed: nat)
    ensures total == |Tasks(catalog, Kitchen)| + |Tasks(catalog, Surfaces)|
    ensures completed == CountDone(done, MonthlyIds(week, keys, catalog))
    ensures completed <= total
  {
    var kitchenTasks := Tasks(catalog, Kitchen);
    var surfacesTasks := Tasks(catalog, Surfaces);
    total := |kitchenTasks|;
    var kitchenDone := CountCategory(done, week, MonthlyPeriod, keys.kitchen, Kitchen, |kitchenTasks|);
    total := total + |surfacesTasks|;
    var surfacesDone := CountCategory(done, week, MonthlyPeriod, keys.surfaces, Surfaces, |surfacesTasks|);
    CountDoneAppend(done, CategoryIds(week, MonthlyPeriod, keys.kitchen, Kitchen, |kitchenTasks|),
                    CategoryIds(week, MonthlyPeriod, keys.surfaces, Surfaces, |surfacesTasks|));
    completed := kitchenDone + surfacesDone;
  }

  /** When both groups have members the written fallback keys never come into play. */
  lemma CounterKeysAgreeWithMembers(g: Groups, a: Assignment)
    requires Join(g.groupA, '+') != "" && Join(g.groupB, '+') != ""
    ensures CounterKeysAsWritten(g, a) == CardCounterKeys(g, a)
  {
  }

  predicate AllDone(done: map<string, bool>, ids: seq<string>) {
    forall j :: 0 <= j < |ids| ==> DoneAt(done, ids[j])
  }

  lemma AllDoneAppend(done: map<string, bool>, a: seq<string>, b: seq<string>)
    ensures AllDone(done, a + b) <==> AllDone(done, a) && AllDone(done, b)
  {
    if AllDone(done, a) && AllDone(done, b) {
      forall j | 0 <= j < |a + b| ensures DoneAt(done, (a + b)[j]) {
        if j < |a| {
          assert (a + b)[j] == a[j];
        } else {
          assert (a + b)[j] == b[j - |a|];
        }
      }
    }
    if AllDone(done, a + b) {
      forall j | 0 <= j < |a| ensures DoneAt(done, a[j]) {
        assert (a + b)[j] == a[j];
      }
      forall j | 0 <= j < |b| ensures DoneAt(done, b[j]) {
        assert (a + b)[|a| + j] == b[j];
      }
    }
  }

  /** A card's tasks are all done exactly when the ids of its category under its key are. */
  lemma CardIdsDone(done: map<string, bool>, week: string, card: Card, catalog: map<string, seq<string>>)
    ensures CardTasksDone(done, week, card, catalog)
        <==> AllDone(done, CategoryIds(week, MonthlyPeriod, CardId(card), card.category, |Tasks(catalog, card.category)|))
  {
    CategoryIdsAt(week, MonthlyPeriod, CardId(card), card.category, |Tasks(catalog, card.category)|);
  }

  /**
   * With the cards' keys the counter is full exactly when every task on
   * both cards is done.
   */
  lemma CardCounterFullIffCardsDone(done: map<string, bool>, week: string, g: Groups, a: Assignment,
                                    catalog: map<string, seq<string>>)
    ensures (CountDone(done, MonthlyIds(week, CardCounterKeys(g, a), catalog))
               == |Tasks(catalog, Kitchen)| + |Tasks(catalog, Surfaces)|)
        <==> CardTasksDone(done, week, Cards(g, a)[0], catalog) && CardTasksDone(done, week, Cards(g, a)[1], catalog)
  {
    var keys := CardCounterKeys(g, a);
    var cards := Cards(g, a);
    var kitchenIds := CategoryIds(week, MonthlyPeriod, keys.kitchen, Kitchen, |Tasks(catalog, Kitchen)|);
    var surfacesIds := CategoryIds(week, MonthlyPeriod, keys.surfaces, Surfaces, |Tasks(catalog, Surfaces)|);
    CountDoneAll(done, kitchenIds + surfacesIds);
    AllDoneAppend(done, kitchenIds, surfacesIds);
    CardIdsDone(done, week, cards[0], catalog);
    CardIdsDone(done, week, cards[1], catalog);
    if a == SurfacesOnGroupA {
      assert cards[0].category == Surfaces && cards[1].category == Kitchen;
    } else {
      assert cards[0].category == Kitchen && cards[1].category == Surfaces;
    }
  }

  /**
   * As written the counter misses an empty group's tasks: one person "X" in
   * group A and nobody in group B, which does the one surfaces task; the
   * group B card's button marks that task done under "groupB", yet the
   * counter looks it up under "gruppeB" and stays at 0 of 1, in any week.
   */
  lemma CounterMissesEmptyGroup(week: string)
    requires NoSeparator(week)
    ensures var g := Groups(["X"], []);
      var catalog := map[Surfaces := ["t"]];
      var card := Cards(g, SurfacesOnGroupB)[1];
      var done := ApplyUpdates(map[], TaskUpdates(week, MonthlyPeriod, CardId(card), card.category, 1, true));
      && GroupAllDone(done, week, card, catalog)
      && CountDone(done, MonthlyIds(week, CounterKeysAsWritten(g, SurfacesOnGroupB), catalog)) == 0
      && CountDone(done, MonthlyIds(week, CardCounterKeys(g, SurfacesOnGroupB), catalog)) == 1
  {
    var g := Groups(["X"], []);
    var catalog := map[Surfaces := ["t"]];
    var counted := TaskId(week, MonthlyPeriod, "groupB", Surfaces, IntText(0));
    var missed := TaskId(week, MonthlyPeriod, "gruppeB", Surfaces, IntText(0));
    EmptyGroupKeys();
    EmptyGroupButton(week);
    TaskIdInjective(week, MonthlyPeriod, "gruppeB", Surfaces, 0, week, MonthlyPeriod, "groupB", Surfaces, 0);
    MonthlySurfacesOnly(week, CounterKeys("X", "gruppeB"), catalog);
    MonthlySurfacesOnly(week, CounterKeys("X", "groupB"), catalog);
    CountSingle(map[counted := true], missed);
    CountSingle(map[counted := true], counted);
  }

  /** Pressing the button of the empty surfaces card marks its one task, and the card then shows all done. */
  lemma EmptyGroupButton(week: string)
    ensures var card := Cards(Groups(["X"], []), SurfacesOnGroupB)[1];
      var catalog := map[Surfaces := ["t"]];
      var done := ApplyUpdates(map[], TaskUpdates(week, MonthlyPeriod, CardId(card), card.category, 1, true));
      && done == map[TaskId(week, MonthlyPeriod, "groupB", Surfaces, IntText(0)) := true]
      && GroupAllDone(done, week, card, catalog)
  {
    var card := Cards(Groups(["X"], []), SurfacesOnGroupB)[1];
    var catalog := map[Surfaces := ["t"]];
    EmptyGroupKeys();
    SingleUpdate(week, MonthlyPeriod, "groupB", Surfaces);
    assert Tasks(catalog, card.category) == ["t"];
  }

  /** Counting a single id counts one exactly when it is done. */
  lemma CountSingle(done: map<string, bool>, id: string)
    ensures CountDone(done, [id]) == if DoneAt(done, id) then 1 else 0
  {
    assert [id][..0] == [];
  }

  /** The keys in the example: group B is empty and does the surfaces. */
  lemma EmptyGroupKeys()
    ensures CardId(Cards(Groups(["X"], []), SurfacesOnGroupB)[1]) == "groupB"
    ensures Cards(Groups(["X"], []), SurfacesOnGroupB)[1].category == Surfaces
    ensures CounterKeysAsWritten(Groups(["X"], []), SurfacesOnGroupB) == CounterKeys("X", "gruppeB")
    ensures CardCounterKeys(Groups(["X"], []), SurfacesOnGroupB) == CounterKeys("X", "groupB")
  {
    assert Join([], '+') == "";
    assert Join(["X"], '+') == "X";
  }

  lemma SingleUpdate(week: string, period: string, assignee: string, category: string)
    ensures ApplyUpdates(map[], TaskUpdates(week, period, assignee, category, 1, true))
         == map[TaskId(week, period, assignee, category, IntText(0)) := true]
  {
    var updates := TaskUpdates(week, period, assignee, category, 1, true);
    assert updates[..0] == [];
    assert UpdateId(updates[0]) == TaskId(week, period, assignee, category, IntText(0));
  }

  lemma MonthlySurfacesOnly(week: string, keys: CounterKeys, catalog: map<string, seq<string>>)
    requires catalog == map[Surfaces := ["t"]]
    ensures MonthlyIds(week, keys, catalog) == [TaskId(week, MonthlyPeriod, keys.surfaces, Surfaces, IntText(0))]
  {
    assert Kitchen != Surfaces;
    assert Tasks(catalog, Kitchen) == [];
  }
}
