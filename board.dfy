/**
 * The weekly lane of the board: the per-person "mark all" button with the
 * check mark it shows, and the weekly completed/total counter.
 */
module Board {
  import opened Maybe
  import opened Json
  import opened TaskIds
  import opened Rotation
  import opened DoneMap

  /** `assignments.get(person) || []` */
  function PersonCategories(assignments: map<Option<string>, seq<string>>, person: string): seq<string> {
    if Some(person) in assignments then assignments[Some(person)] else []
  }

  /**
   * The categories the board looks up for a person are those the week's
   * rotation gives them, for any mapping `assignments` builds: a person
   * missing from it falls back to none, and is then on no category's slot.
   */
  lemma PersonCategoriesFromAssignments(categories: seq<string>, rotated: seq<string>, joker: string,
                                        mapping: map<Option<string>, seq<string>>, person: string)
    requires mapping.Keys == (set i | 0 <= i < |categories| :: Slot(rotated, i)) + {Some(joker)}
    requires forall who :: who in mapping ==> mapping[who] == AssignedCategories(categories, rotated, who)
    ensures PersonCategories(mapping, person) == AssignedCategories(categories, rotated, Some(person))
  {
    if Some(person) !in mapping {
      forall i | 0 <= i < |categories| ensures Slot(rotated, i) != Some(person) {
        assert Slot(rotated, i) in mapping.Keys;
      }
      UnassignedGetsNothing(categories, rotated, Some(person));
    }
  }

  /** The updates of a person's "mark all": each owned category's tasks, category by category. */
  function PersonUpdates(week: string, period: string, person: string, categories: seq<string>,
                         catalog: map<string, seq<string>>, value: bool): seq<Update>
  {
    if |categories| == 0 then []
    else
      var last := categories[|categories| - 1];
      PersonUpdates(week, period, person, categories[..|categories| - 1], catalog, value)
        + TaskUpdates(week, period, person, last, |Tasks(catalog, last)|, value)
  }

  /**
   * `setPersonDone`: sets every task of the person's categories to `value`
   * in a copy of the done-map, collects one update per task, and posts them
   * as one batch unless there are none.
   */
  method SetPersonDone(prev: map<string, bool>, week: string, period: string, person: string,
                       personCategories: seq<string>, catalog: map<string, seq<string>>, value: bool)
    returns (next: map<string, bool>, updates: seq<Update>, posted: Option<seq<Update>>)
    ensures updates == PersonUpdates(week, period, person, personCategories, catalog, value)
    ensures next == ApplyUpdates(prev, updates)
    ensures posted == PostTaskBatch(updates)
  {
    next, updates := prev, [];
    var k := 0;
    while k < |personCategories|
      invariant 0 <= k <= |personCategories|
      invariant updates == PersonUpdates(week, period, person, personCategories[..k], catalog, value)
      invariant next == ApplyUpdates(prev, updates)
    {
      var category := personCategories[k];
      var tasks := Tasks(catalog, category);
      ghost var before := updates;
      next, updates := MarkTasks(next, updates, week, period, person, category, |tasks|, value);
      ApplyUpdatesAppend(prev, before, TaskUpdates(week, period, person, category, |tasks|, value));
      assert personCategories[..k + 1][..k] == personCategories[..k];
      k := k + 1;
    }
    assert personCategories[..k] == personCategories;
    posted := PostTaskBatch(updates);
  }

  /** `id` is the id of one task of one of the person's categories. */
  predicate InScope(week: string, period: string, person: string, categories: seq<string>,
                    catalog: map<string, seq<string>>, id: string)
  {
    exists c, i :: c in categories && 0 <= i < |Tasks(catalog, c)| && id == TaskId(week, period, person, c, IntText(i))
  }

  /** Every update of "mark all" carries the button's value. */
  lemma {:induction false} PersonUpdatesValue(week: string, period: string, person: string, categories: seq<string>,
                                              catalog: map<string, seq<string>>, value: bool)
    ensures forall k :: 0 <= k < |PersonUpdates(week, period, person, categories, catalog, value)| ==>
      PersonUpdates(week, period, person, categories, catalog, value)[k].done == value
  {
    if |categories| > 0 {
      var init := categories[..|categories| - 1];
      var last := categories[|categories| - 1];
      var a: seq<Update> := PersonUpdates(week, period, person, init, catalog, value);
      var b: seq<Update> := TaskUpdates(week, period, person, last, |Tasks(catalog, last)|, value);
      PersonUpdatesValue(week, period, person, init, catalog, value);
      forall k | 0 <= k < |a + b| ensures (a + b)[k].done == value {
        if k < |a| {
          assert (a + b)[k] == a[k];
        } else {
          assert (a + b)[k] == b[k - |a|];
        }
      }
    }
  }

  /** The ids of one category's updates are its task ids. */
  lemma TaskUpdatesCover(week: string, period: string, person: string, category: string, count: nat, value: bool, id: string)
    ensures id in UpdateIds(TaskUpdates(week, period, person, category, count, value))
        <==> exists i :: 0 <= i < count && id == TaskId(week, period, person, category, IntText(i))
  {
    var b := TaskUpdates(week, period, person, category, count, value);
    if id in UpdateIds(b) {
      var k :| 0 <= k < |b| && UpdateId(b[k]) == id;
      assert id == TaskId(week, period, person, category, IntText(k));
    }
    if exists i :: 0 <= i < count && id == TaskId(week, period, person, category, IntText(i)) {
      var i :| 0 <= i < count && id == TaskId(week, period, person, category, IntText(i));
      assert UpdateId(b[i]) == id;
    }
  }

  /** In scope for all categories means in scope for all but the last, or a task of the last. */
  lemma InScopeSplit(week: string, period: string, person: string, categories: seq<string>,
                     catalog: map<string, seq<string>>, id: string)
    requires |categories| > 0
    ensures var last := categories[|categories| - 1];
      InScope(week, period, person, categories, catalog, id) <==>
        (|| InScope(week, period, person, categories[..|categories| - 1], catalog, id)
         || exists i :: 0 <= i < |Tasks(catalog, last)| && id == TaskId(week, period, person, last, IntText(i)))
  {
    var init := categories[..|categories| - 1];
    var last := categories[|categories| - 1];
    if InScope(week, period, person, categories, catalog, id) {
      var c, i :| c in categories && 0 <= i < |Tasks(catalog, c)| && id == TaskId(week, period, person, c, IntText(i));
      if c != last {
        var j :| 0 <= j < |categories| && categories[j] == c;
        assert init[j] == c;
      }
    }
    if InScope(week, period, person, init, catalog, id) {
      var c, i :| c in init && 0 <= i < |Tasks(catalog, c)| && id == TaskId(week, period, person, c, IntText(i));
      assert c in categories;
    }
  }

  /** The ids a person's "mark all" touches: one per task of each of the person's categories. */
  lemma {:induction false} PersonUpdatesCover(week: string, period: string, person: string, categories: seq<string>,
                                              catalog: map<string, seq<string>>, value: bool, id: string)
    ensures id in UpdateIds(PersonUpdates(week, period, person, categories, catalog, value))
        <==> InScope(week, period, person, categories, catalog, id)
  {
    if |categories| > 0 {
      var init := categories[..|categories| - 1];
      var last := categories[|categories| - 1];
      var a := PersonUpdates(week, period, person, init, catalog, value);
      var b := TaskUpdates(week, period, person, last, |Tasks(catalog, last)|, value);
      PersonUpdatesCover(week, period, person, init, catalog, value, id);
      UpdateIdsAppend(a, b);
      TaskUpdatesCover(week, period, person, last, |Tasks(catalog, last)|, value, id);
      InScopeSplit(week, period, person, categories, catalog, id);
    }
  }

  /**
   * After "mark all" every task id of the person's categories holds `value`,
   * and every other entry of the done-map is as it was.
   */
  lemma SetPersonDoneEffect(prev: map<string, bool>, week: string, period: string, person: string,
                            categories: seq<string>, catalog: map<string, seq<string>>, value: bool, id: string)
    ensures var next := ApplyUpdates(prev, PersonUpdates(week, period, person, categories, catalog, value));
      && (InScope(week, period, person, categories, catalog, id) ==> id in next && next[id] == value)
      && (!InScope(week, period, person, categories, catalog, id) ==>
            (id in next <==> id in prev) && (id in prev ==> next[id] == prev[id]))
  {
    var updates := PersonUpdates(week, period, person, categories, catalog, value);
    PersonUpdatesCover(week, period, person, categories, catalog, value, id);
    PersonUpdatesValue(week, period, person, categories, catalog, value);
    ApplyUniform(prev, updates, value);
    ApplyUpdatesFrame(prev, updates);
  }

  predicate NoRepeatedIds(updates: seq<Update>) {
    forall k, l :: 0 <= k < l < |updates| ==> UpdateId(updates[k]) != UpdateId(updates[l])
  }

  /** One category's updates name each task once: ids differing only in the index differ. */
  lemma TaskUpdatesOncePerId(week: string, period: string, assignee: string, category: string, count: nat, value: bool)
    ensures NoRepeatedIds(TaskUpdates(week, period, assignee, category, count, value))
  {
    var us := TaskUpdates(week, period, assignee, category, count, value);
    var prefix := week + [Separator] + period + [Separator] + assignee + [Separator] + category + [Separator];
    forall k, l | 0 <= k < l < |us| ensures UpdateId(us[k]) != UpdateId(us[l]) {
      var a, b := IntText(k), IntText(l);
      assert UpdateId(us[k]) == prefix + a;
      assert UpdateId(us[l]) == prefix + b;
      IntTextInjective(k, l);
      assert (prefix + a)[|prefix|..] == a;
      assert (prefix + b)[|prefix|..] == b;
    }
  }

  /** A task id of an earlier category never equals one of a category not among them. */
  lemma ScopeExcludes(week: string, period: string, person: string, init: seq<string>,
                      catalog: map<string, seq<string>>, id: string, last: string, i: int)
    requires InScope(week, period, person, init, catalog, id)
    requires last !in init
    requires NoSeparator(week) && NoSeparator(period) && NoSeparator(person) && NoSeparator(last)
    requires forall k :: 0 <= k < |init| ==> NoSeparator(init[k])
    ensures id != TaskId(week, period, person, last, IntText(i))
  {
    var c, j :| c in init && 0 <= j < |Tasks(catalog, c)| && id == TaskId(week, period, person, c, IntText(j));
    var m :| 0 <= m < |init| && init[m] == c;
    TaskIdInjective(week, period, person, c, j, week, period, person, last, i);
  }

  /**
   * With distinct categories and no '|' in the components, "mark all" emits
   * exactly one update per id.
   */
  lemma {:induction false} PersonUpdatesOncePerId(week: string, period: string, person: string, categories: seq<string>,
                                                  catalog: map<string, seq<string>>, value: bool)
    requires Distinct(categories)
    requires NoSeparator(week) && NoSeparator(period) && NoSeparator(person)
    requires forall k :: 0 <= k < |categories| ==> NoSeparator(categories[k])
    ensures NoRepeatedIds(PersonUpdates(week, period, person, categories, catalog, value))
  {
    if |categories| > 0 {
      var init := categories[..|categories| - 1];
      var last := categories[|categories| - 1];
      var a := PersonUpdates(week, period, person, init, catalog, value);
      var b := TaskUpdates(week, period, person, last, |Tasks(catalog, last)|, value);
      assert Distinct(init) by {
        forall p, q | 0 <= p < q < |init| ensures init[p] != init[q] {
          assert init[p] == categories[p] && init[q] == categories[q];
        }
      }
      assert last !in init by {
        forall j | 0 <= j < |init| ensures init[j] != last {
          assert init[j] == categories[j];
        }
      }
      PersonUpdatesOncePerId(week, period, person, init, catalog, value);
      forall k, l | 0 <= k < l < |a + b|
        ensures UpdateId((a + b)[k]) != UpdateId((a + b)[l])
      {
        if l < |a| {
          assert (a + b)[k] == a[k] && (a + b)[l] == a[l];
        } else if |a| <= k {
          assert (a + b)[k] == b[k - |a|] && (a + b)[l] == b[l - |a|];
          TaskIdInjective(week, period, person, last, k - |a|, week, period, person, last, l - |a|);
        } else {
          assert (a + b)[k] == a[k] && (a + b)[l] == b[l - |a|];
          assert UpdateId(a[k]) in UpdateIds(a);
          PersonUpdatesCover(week, period, person, init, catalog, value, UpdateId(a[k]));
          ScopeExcludes(week, period, person, init, catalog, UpdateId(a[k]), last, l - |a|);
        }
      }
    }
  }

  /**
   * `personAllDone`, which decides the check mark and what the button sets:
   * the person has categories and every task of each of them is done.
   */
  predicate PersonAllDone(done: map<string, bool>, week: string, period: string, person: string,
                          owned: seq<string>, catalog: map<string, seq<string>>)
  {
    && |owned| > 0
    && forall c :: c in owned ==>
         forall i :: 0 <= i < |Tasks(catalog, c)| ==> DoneAt(done, TaskId(week, period, person, c, IntText(i)))
  }

  /** Pressing the button when it shows not-all-done marks all done: the check mark appears. */
  lemma MarkAllShowsDone(prev: map<string, bool>, week: string, period: string, person: string,
                         owned: seq<string>, catalog: map<string, seq<string>>)
    requires |owned| > 0
    ensures PersonAllDone(ApplyUpdates(prev, PersonUpdates(week, period, person, owned, catalog, true)),
                          week, period, person, owned, catalog)
  {
    var next := ApplyUpdates(prev, PersonUpdates(week, period, person, owned, catalog, true));
    forall c, i | c in owned && 0 <= i < |Tasks(catalog, c)|
      ensures DoneAt(next, TaskId(week, period, person, c, IntText(i)))
    {
      var id := TaskId(week, period, person, c, IntText(i));
      assert InScope(week, period, person, owned, catalog, id);
      SetPersonDoneEffect(prev, week, period, person, owned, catalog, true, id);
    }
  }

  /** Pressing it when it shows all-done clears every task: the check mark goes once any task exists. */
  lemma UnmarkAllClearsTasks(prev: map<string, bool>, week: string, period: string, person: string,
                             owned: seq<string>, catalog: map<string, seq<string>>, c: string, i: int)
    requires c in owned && 0 <= i < |Tasks(catalog, c)|
    ensures !DoneAt(ApplyUpdates(prev, PersonUpdates(week, period, person, owned, catalog, false)),
                    TaskId(week, period, person, c, IntText(i)))
    ensures !PersonAllDone(ApplyUpdates(prev, PersonUpdates(week, period, person, owned, catalog, false)),
                           week, period, person, owned, catalog)
  {
    var id := TaskId(week, period, person, c, IntText(i));
    assert InScope(week, period, person, owned, catalog, id);
    SetPersonDoneEffect(prev, week, period, person, owned, catalog, false, id);
  }

  /** `categories.indexOf(x)`, -1 when absent. */
  function IndexOf(s: seq<string>, x: string): (i: int)
    ensures -1 <= i < |s|
    ensures 0 <= i ==> s[i] == x && forall j :: 0 <= j < i ==> s[j] != x
    ensures i == -1 ==> x !in s
  {
    if |s| == 0 then -1
    else if s[0] == x then 0
    else
      var k := IndexOf(s[1..], x);
      if k == -1 then -1 else k + 1
  }

  /** `${rotatedPersons[i]}`: the person's name, or "undefined" past the end. */
  function SlotText(rotated: seq<string>, i: int): string {
    if 0 <= i < |rotated| then rotated[i] else "undefined"
  }

  /** The ids of tasks 0..count-1 of one (week, period, assignee, category). */
  function CategoryIds(week: string, period: string, assignee: string, category: string, count: nat): (ids: seq<string>)
    ensures |ids| == count
  {
    if count == 0 then []
    else CategoryIds(week, period, assignee, category, count - 1) + [TaskId(week, period, assignee, category, IntText(count - 1))]
  }

  /** The id at position `i` is that of task `i`. */
  lemma {:induction false} CategoryIdsAt(week: string, period: string, assignee: string, category: string, count: nat)
    ensures forall i :: 0 <= i < count ==>
      CategoryIds(week, period, assignee, category, count)[i] == TaskId(week, period, assignee, category, IntText(i))
  {
    if count > 0 {
      var init := CategoryIds(week, period, assignee, category, count - 1);
      var ids := CategoryIds(week, period, assignee, category, count);
      CategoryIdsAt(week, period, assignee, category, count - 1);
      assert ids == init + [TaskId(week, period, assignee, category, IntText(count - 1))];
      forall i | 0 <= i < count ensures ids[i] == TaskId(week, period, assignee, category, IntText(i)) {
        if i < count - 1 {
          assert ids[i] == init[i];
        }
      }
    }
  }

  /** The ids `countTasks` looks up for the first `k` categories, each under its rotated person. */
  function WeeklyIds(week: string, period: string, categories: seq<string>, catalog: map<string, seq<string>>,
                     rotated: seq<string>, k: nat): seq<string>
    requires k <= |categories|
  {
    if k == 0 then []
    else
      var c := categories[k - 1];
      WeeklyIds(week, period, categories, catalog, rotated, k - 1)
        + CategoryIds(week, period, SlotText(rotated, IndexOf(categories, c)), c, |Tasks(catalog, c)|)
  }

  /** The number of tasks in the first `k` categories. */
  function TaskTotal(categories: seq<string>, catalog: map<string, seq<string>>, k: nat): nat
    requires k <= |categories|
  {
    if k == 0 then 0 else TaskTotal(categories, catalog, k - 1) + |Tasks(catalog, categories[k - 1])|
  }

  /** Counting one more task id of a category adds one exactly when that task is done. */
  lemma CountCategoryStep(done: map<string, bool>, week: string, period: string, person: string,
                          category: string, index: nat)
    ensures CountDone(done, CategoryIds(week, period, person, category, index + 1))
         == CountDone(done, CategoryIds(week, period, person, category, index))
            + (if DoneAt(done, TaskId(week, period, person, category, IntText(index))) then 1 else 0)
  {
    var ids := CategoryIds(week, period, person, category, index);
    var ids' := CategoryIds(week, period, person, category, index + 1);
    assert ids'[..|ids'| - 1] == ids;
    assert ids'[index] == TaskId(week, period, person, category, IntText(index));
  }

  /** The inner loop of `countTasks`: how many of one category's task ids are done. */
  method CountCategory(done: map<string, bool>, week: string, period: string, person: string,
                       category: string, count: nat)
    returns (found: nat)
    ensures found == CountDone(done, CategoryIds(week, period, person, category, count))
    ensures found <= count
  {
    found := 0;
    var index := 0;
    while index < count
      invariant 0 <= index <= count
      invariant found == CountDone(done, CategoryIds(week, period, person, category, index))
    {
      var id := TaskId(week, period, person, category, IntText(index));
      CountCategoryStep(done, week, period, person, category, index);
      if DoneAt(done, id) {
        found := found + 1;
      }
      index := index + 1;
    }
  }

  /** The ids of one more category follow those of the categories before it. */
  lemma WeeklyIdsStep(week: string, period: string, categories: seq<string>,
                      catalog: map<string, seq<string>>, rotated: seq<string>, k: nat)
    requires k < |categories|
    ensures TaskTotal(categories, catalog, k + 1) == TaskTotal(categories, catalog, k) + |Tasks(catalog, categories[k])|
    ensures var c := categories[k];
      WeeklyIds(week, period, categories, catalog, rotated, k + 1)
        == WeeklyIds(week, period, categories, catalog, rotated, k)
           + CategoryIds(week, period, SlotText(rotated, IndexOf(categories, c)), c, |Tasks(catalog, c)|)
  {
  }

  /**
   * `countTasks`: the total is the number of tasks over all categories, and
   * the completed count is how many of those task ids, each under the person
   * rotated onto its category, are done.
   */
  method CountTasks(done: map<string, bool>, week: string, period: string, categories: seq<string>,
                    catalog: map<string, seq<string>>, rotated: seq<string>)
    returns (total: nat, completed: nat)
    ensures total == TaskTotal(categories, catalog, |categories|)
    ensures total == |WeeklyIds(week, period, categories, catalog, rotated, |categories|)|
    ensures completed == CountDone(done, WeeklyIds(week, period, categories, catalog, rotated, |categories|))
    ensures completed <= total
  {
    total, completed := 0, 0;
    ghost var ids: seq<string> := [];
    var k := 0;
    while k < |categories|
      invariant 0 <= k <= |categories|
      invariant total == TaskTotal(categories, catalog, k)
      invariant ids == WeeklyIds(week, period, categories, catalog, rotated, k)
      invariant total == |ids|
      invariant completed == CountDone(done, ids)
    {
      var category := categories[k];
      var tasks := Tasks(catalog, category);
      var person := SlotText(rotated, IndexOf(categories, category));
      var found := CountCategory(done, week, period, person, category, |tasks|);
      ghost var categoryIds := CategoryIds(week, period, person, category, |tasks|);
      WeeklyIdsStep(week, period, categories, catalog, rotated, k);
      CountDoneAppend(done, ids, categoryIds);
      ids := ids + categoryIds;
      total := total + |tasks|;
      completed := completed + found;
      k := k + 1;
    }
  }

  /** The weekly counter reads completed == total exactly when every counted task is done. */
  lemma WeeklyCountComplete(done: map<string, bool>, week: string, period: string, categories: seq<string>,
                            catalog: map<string, seq<string>>, rotated: seq<string>)
    ensures var ids := WeeklyIds(week, period, categories, catalog, rotated, |categories|);
      (CountDone(done, ids) == TaskTotal(categories, catalog, |categories|)) <==> (forall k :: 0 <= k < |ids| ==> DoneAt(done, ids[k]))
  {
    WeeklyIdsLength(week, period, categories, catalog, rotated, |categories|);
    CountDoneAll(done, WeeklyIds(week, period, categories, catalog, rotated, |categories|));
  }

  lemma {:induction false} WeeklyIdsLength(week: string, period: string, categories: seq<string>,
                                           catalog: map<string, seq<string>>, rotated: seq<string>, k: nat)
    requires k <= |categories|
    ensures |WeeklyIds(week, period, categories, catalog, rotated, k)| == TaskTotal(categories, catalog, k)
  {
    if k > 0 {
      WeeklyIdsLength(week, period, categories, catalog, rotated, k - 1);
    }
  }
}
