/**
 * The board's done-map: task ids to completion, updated optimistically by
 * the toggles and the "mark all" buttons, each of which also emits the
 * updates it made; and `storeToDoneMap`, which rebuilds the map from a
 * server snapshot.
 */
module DoneMap {
  import opened Maybe
  import opened Json
  import opened TaskIds

  /** One item of a POST body as the board builds it. */
  datatype Update = Update(week: string, period: string, assignee: string, category: string, index: nat, done: bool)

  /** The id of the task an update is about. */
  function UpdateId(u: Update): string {
    TaskId(u.week, u.period, u.assignee, u.category, IntText(u.index))
  }

  /** The update as the JSON object the board posts. */
  function UpdateJson(u: Update): Json {
    JObj(map["week" := JStr(u.week), "period" := JStr(u.period), "assignee" := JStr(u.assignee),
             "category" := JStr(u.category), "index" := JNum(u.index), "done" := JBool(u.done)])
  }

  /** `Boolean(done[id])`: an absent id reads as not done. */
  function DoneAt(done: map<string, bool>, id: string): bool {
    id in done && done[id]
  }

  /**
   * `toggleTask`: flips the one id (absent counts as not done), leaves every
   * other entry alone, and posts one update carrying the new value.
   */
  function ToggleTask(prev: map<string, bool>, week: string, period: string, person: string, category: string, index: nat)
    : (r: (map<string, bool>, Update))
    ensures var id := TaskId(week, period, person, category, IntText(index));
      && UpdateId(r.1) == id
      && (r.1.week, r.1.period, r.1.assignee, r.1.category, r.1.index) == (week, period, person, category, index)
      && DoneAt(r.0, id) == !DoneAt(prev, id)
      && r.1.done == DoneAt(r.0, id)
      && r.0.Keys == prev.Keys + {id}
      && forall other :: other in prev && other != id ==> r.0[other] == prev[other]
  {
    var id := TaskId(week, period, person, category, IntText(index));
    var nextValue := !DoneAt(prev, id);
    (prev[id := nextValue], Update(week, period, person, category, index, nextValue))
  }

  /** Toggling the same task twice gives back the same completion for every id. */
  lemma ToggleTwice(prev: map<string, bool>, week: string, period: string, person: string, category: string, index: nat, id: string)
    ensures var once := ToggleTask(prev, week, period, person, category, index).0;
      DoneAt(ToggleTask(once, week, period, person, category, index).0, id) == DoneAt(prev, id)
  {
  }

  /** The done-map after `next[id] = u.done` for each update in order. */
  function ApplyUpdates(prev: map<string, bool>, updates: seq<Update>): map<string, bool> {
    if |updates| == 0 then prev
    else
      var last := updates[|updates| - 1];
      ApplyUpdates(prev, updates[..|updates| - 1])[UpdateId(last) := last.done]
  }

  function UpdateIds(updates: seq<Update>): set<string> {
    set k | 0 <= k < |updates| :: UpdateId(updates[k])
  }

  lemma UpdateIdsAppend(a: seq<Update>, b: seq<Update>)
    ensures UpdateIds(a + b) == UpdateIds(a) + UpdateIds(b)
  {
    forall x | x in UpdateIds(a + b) ensures x in UpdateIds(a) + UpdateIds(b) {
      var k :| 0 <= k < |a + b| && UpdateId((a + b)[k]) == x;
      if k < |a| {
        assert (a + b)[k] == a[k];
      } else {
        assert (a + b)[k] == b[k - |a|];
      }
    }
    forall x | x in UpdateIds(a) + UpdateIds(b) ensures x in UpdateIds(a + b) {
      if x in UpdateIds(a) {
        var k :| 0 <= k < |a| && UpdateId(a[k]) == x;
        assert (a + b)[k] == a[k];
      } else {
        var k :| 0 <= k < |b| && UpdateId(b[k]) == x;
        assert (a + b)[|a| + k] == b[k];
      }
    }
  }

  /** The ids of a list of updates are those of all but the last, plus the last one's. */
  lemma UpdateIdsSnoc(updates: seq<Update>)
    requires |updates| > 0
    ensures UpdateIds(updates) == UpdateIds(updates[..|updates| - 1]) + {UpdateId(updates[|updates| - 1])}
  {
    var init := updates[..|updates| - 1];
    var last := updates[|updates| - 1];
    assert updates == init + [last];
    UpdateIdsAppend(init, [last]);
    assert UpdateIds([last]) == {UpdateId(last)} by {
      assert [last][0] == last;
    }
  }

  lemma {:induction false} ApplyUpdatesAppend(prev: map<string, bool>, a: seq<Update>, b: seq<Update>)
    ensures ApplyUpdates(prev, a + b) == ApplyUpdates(ApplyUpdates(prev, a), b)
  {
    if |b| > 0 {
      assert (a + b)[..|a + b| - 1] == a + b[..|b| - 1];
      ApplyUpdatesAppend(prev, a, b[..|b| - 1]);
    } else {
      assert a + b == a;
    }
  }

  /** Applying updates adds exactly their ids and changes no other entry. */
  lemma {:induction false} ApplyUpdatesFrame(prev: map<string, bool>, updates: seq<Update>)
    ensures ApplyUpdates(prev, updates).Keys == prev.Keys + UpdateIds(updates)
    ensures forall id :: id in prev && id !in UpdateIds(updates) ==> ApplyUpdates(prev, updates)[id] == prev[id]
  {
    if |updates| > 0 {
      var init := updates[..|updates| - 1];
      ApplyUpdatesFrame(prev, init);
      UpdateIdsSnoc(updates);
    }
  }

  /** When every update carries the same value, every id they name ends up with that value. */
  lemma {:induction false} ApplyUniform(prev: map<string, bool>, updates: seq<Update>, value: bool)
    requires forall k :: 0 <= k < |updates| ==> updates[k].done == value
    ensures forall id :: id in UpdateIds(updates) ==> id in ApplyUpdates(prev, updates) && ApplyUpdates(prev, updates)[id] == value
  {
    if |updates| > 0 {
      var init := updates[..|updates| - 1];
      forall k | 0 <= k < |init| ensures init[k].done == value {
        assert init[k] == updates[k];
      }
      ApplyUniform(prev, init, value);
      UpdateIdsSnoc(updates);
    }
  }

  /** `postTaskBatch`: an empty list is never posted. */
  function PostTaskBatch(items: seq<Update>): (posted: Option<seq<Update>>)
    ensures posted.Some? <==> items != []
    ensures posted.Some? ==> posted.value == items
  {
    if |items| == 0 then None else Some(items)
  }

  /** `data[period][category] || []` */
  function Tasks(catalog: map<string, seq<string>>, category: string): seq<string> {
    if category in catalog then catalog[category] else []
  }

  /** One update per task index 0..count-1 of one (week, period, assignee, category), all with `value`. */
  function TaskUpdates(week: string, period: string, assignee: string, category: string, count: nat, value: bool): (us: seq<Update>)
    ensures |us| == count
    ensures forall i :: 0 <= i < count ==> us[i] == Update(week, period, assignee, category, i, value)
  {
    seq(count, i requires 0 <= i < count => Update(week, period, assignee, category, i, value))
  }

  /** One more task index adds one more update and sets one more id. */
  lemma TaskUpdatesSnoc(next: map<string, bool>, week: string, period: string, assignee: string, category: string,
                        index: nat, value: bool)
    ensures var u := Update(week, period, assignee, category, index, value);
      && TaskUpdates(week, period, assignee, category, index + 1, value)
         == TaskUpdates(week, period, assignee, category, index, value) + [u]
      && ApplyUpdates(next, TaskUpdates(week, period, assignee, category, index + 1, value))
         == ApplyUpdates(next, TaskUpdates(week, period, assignee, category, index, value))[UpdateId(u) := value]
  {
    var done := TaskUpdates(week, period, assignee, category, index, value);
    var more := TaskUpdates(week, period, assignee, category, index + 1, value);
    assert more == done + [Update(week, period, assignee, category, index, value)];
    assert more[..|more| - 1] == done;
  }

  /**
   * The inner `tasks.forEach` of the "mark all" buttons: sets every task of
   * one category to `value` and records one update per task.
   */
  method MarkTasks(next: map<string, bool>, updates: seq<Update>,
                   week: string, period: string, assignee: string, category: string, count: nat, value: bool)
    returns (next': map<string, bool>, updates': seq<Update>)
    ensures updates' == updates + TaskUpdates(week, period, assignee, category, count, value)
    ensures next' == ApplyUpdates(next, TaskUpdates(week, period, assignee, category, count, value))
  {
    next', updates' := next, updates;
    var index := 0;
    while index < count
      invariant 0 <= index <= count
      invariant updates' == updates + TaskUpdates(week, period, assignee, category, index, value)
      invariant next' == ApplyUpdates(next, TaskUpdates(week, period, assignee, category, index, value))
    {
      var u := Update(week, period, assignee, category, index, value);
      TaskUpdatesSnoc(next, week, period, assignee, category, index, value);
      next' := next'[UpdateId(u) := value];
      updates' := updates' + [u];
      index := index + 1;
    }
  }

  /** The number of ids in `ids` that are done. */
  function CountDone(done: map<string, bool>, ids: seq<string>): (n: nat)
    ensures n <= |ids|
  {
    if |ids| == 0 then 0
    else CountDone(done, ids[..|ids| - 1]) + (if DoneAt(done, ids[|ids| - 1]) then 1 else 0)
  }

  lemma {:induction false} CountDoneAppend(done: map<string, bool>, a: seq<string>, b: seq<string>)
    ensures CountDone(done, a + b) == CountDone(done, a) + CountDone(done, b)
  {
    if |b| > 0 {
      assert (a + b)[..|a + b| - 1] == a + b[..|b| - 1];
      CountDoneAppend(done, a, b[..|b| - 1]);
    } else {
      assert a + b == a;
    }
  }

  /** Everything is counted as completed exactly when every id is done. */
  lemma {:induction false} CountDoneAll(done: map<string, bool>, ids: seq<string>)
    ensures CountDone(done, ids) == |ids| <==> forall k :: 0 <= k < |ids| ==> DoneAt(done, ids[k])
  {
    if |ids| > 0 {
      var init := ids[..|ids| - 1];
      CountDoneAll(done, init);
      if forall k :: 0 <= k < |ids| ==> DoneAt(done, ids[k]) {
        assert forall k :: 0 <= k < |init| ==> DoneAt(done, init[k]) by {
          forall k | 0 <= k < |init| ensures DoneAt(done, init[k]) {
            assert init[k] == ids[k];
          }
        }
      }
      if CountDone(done, ids) == |ids| {
        forall k | 0 <= k < |ids| ensures DoneAt(done, ids[k]) {
          if k < |ids| - 1 {
            assert init[k] == ids[k];
          }
        }
      }
    }
  }

  /** `!store || typeof store !== 'object' || !store.tasks` fails. */
  predicate HasTasks(store: Json) {
    store.JObj? && Present(Field(store, "tasks"))
  }

  /** The values `Object.values(store.tasks)` visits, as a set: their order is not fixed. */
  function TaskRecords(store: Json): set<Json> {
    if !HasTasks(store) then {}
    else
      match store.fields["tasks"]
      case JObj(f) => f.Values
      case JArr(items) => set x | x in items
      case JStr(s) => set c | c in s :: JStr([c])
      case _ => {}
  }

  /** A record `storeToDoneMap` keeps: truthy, with truthy week, period, assignee and category, and a numeric index. */
  predicate Kept(t: Json) {
    && Truthy(t)
    && Present(Field(t, "week")) && Present(Field(t, "period"))
    && Present(Field(t, "assignee")) && Present(Field(t, "category"))
    && IsNumber(Field(t, "index"))
  }

  /** The pipe-joined id built from a record's fields. */
  function RecordId(t: Json): string {
    TaskId(FieldText(Field(t, "week")), FieldText(Field(t, "period")), FieldText(Field(t, "assignee")),
           FieldText(Field(t, "category")), FieldText(Field(t, "index")))
  }

  /** `Boolean(task.done)` */
  function DoneOf(t: Json): bool {
    Present(Field(t, "done"))
  }

  /**
   * What `m` may hold after `if (keep(t)) m[key(t)] = value(t)` for each
   * `t` of `records`, visited in any order: one entry per key of a kept
   * element, holding the value of some kept element with that key.
   */
  ghost predicate Collected<T>(records: set<T>, keep: T -> bool, key: T -> string, value: T -> bool, m: map<string, bool>) {
    && m.Keys == (set t | t in records && keep(t) :: key(t))
    && forall id :: id in m ==> exists t :: t in records && keep(t) && key(t) == id && m[id] == value(t)
  }

  /** Visiting an element that is not kept leaves the map as it is. */
  lemma CollectedSkip<T>(records: set<T>, keep: T -> bool, key: T -> string, value: T -> bool, m: map<string, bool>, t: T)
    requires Collected(records, keep, key, value, m) && !keep(t)
    ensures Collected(records + {t}, keep, key, value, m)
  {
    assert (set r | r in records + {t} && keep(r) :: key(r)) == (set r | r in records && keep(r) :: key(r));
    forall id | id in m ensures exists r :: r in records + {t} && keep(r) && key(r) == id && m[id] == value(r) {
      var r :| r in records && keep(r) && key(r) == id && m[id] == value(r);
      assert r in records + {t};
    }
  }

  /** Visiting a kept element puts its value under its key. */
  lemma CollectedPut<T>(records: set<T>, keep: T -> bool, key: T -> string, value: T -> bool, m: map<string, bool>, t: T)
    requires Collected(records, keep, key, value, m) && keep(t)
    ensures Collected(records + {t}, keep, key, value, m[key(t) := value(t)])
  {
    var m' := m[key(t) := value(t)];
    assert (set r | r in records + {t} && keep(r) :: key(r)) == (set r | r in records && keep(r) :: key(r)) + {key(t)};
    forall id | id in m' ensures exists r :: r in records + {t} && keep(r) && key(r) == id && m'[id] == value(r) {
      if id == key(t) {
        assert t in records + {t};
      } else {
        var r :| r in records && keep(r) && key(r) == id && m[id] == value(r);
        assert r in records + {t};
      }
    }
  }

  /**
   * `done` is a done-map `storeToDoneMap` may produce from `store`: one
   * entry per id of a kept record, holding `Boolean(done)` of some kept
   * record with that id.
   */
  ghost predicate DoneMapOf(store: Json, done: map<string, bool>) {
    Collected(TaskRecords(store), Kept, RecordId, DoneOf, done)
  }

  /**
   * `storeToDoneMap`: a missing or malformed store gives the empty map;
   * otherwise each kept record puts `Boolean(done)` under its id and the
   * others are skipped. When two kept records share an id, either may win.
   */
  method StoreToDoneMap(store: Json) returns (done: map<string, bool>)
    ensures !HasTasks(store) ==> done == map[]
    ensures DoneMapOf(store, done)
  {
    done := map[];
    var records := TaskRecords(store);
    var remaining := records;
    while remaining != {}
      invariant remaining <= records
      invariant Collected(records - remaining, Kept, RecordId, DoneOf, done)
      decreases remaining
    {
      var t :| t in remaining;
      if Kept(t) {
        CollectedPut(records - remaining, Kept, RecordId, DoneOf, done, t);
        done := done[RecordId(t) := DoneOf(t)];
      } else {
        CollectedSkip(records - remaining, Kept, RecordId, DoneOf, done, t);
      }
      assert records - (remaining - {t}) == (records - remaining) + {t};
      remaining := remaining - {t};
    }
    assert records - remaining == records;
  }
}
