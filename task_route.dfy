/**
 * The `/api/task` route: POST validates a task update or a batch of them and
 * writes each into the Redis hash `tasks` under its task id; GET returns
 * every stored task that still parses.
 */
module TaskRoute {
  import opened Maybe
  import opened Json
  import opened TaskIds
  import opened DoneMap

  datatype Response = Response(status: int, body: Json)

  function InvalidPayload(): Response {
    Response(400, JObj(map["error" := JStr("Invalid payload")]))
  }

  /** `Array.isArray(body) ? body : [body]` */
  function BatchOf(body: Json): seq<Json> {
    if body.JArr? then body.items else [body]
  }

  /**
   * The check on one item (after `item || {}`): truthy week, period,
   * assignee and category, a numeric index and a boolean done. Anything that
   * is not an object has none of these properties.
   */
  predicate ValidItem(item: Json) {
    && Present(Field(item, "week")) && Present(Field(item, "period"))
    && Present(Field(item, "assignee")) && Present(Field(item, "category"))
    && IsNumber(Field(item, "index")) && IsBoolean(Field(item, "done"))
  }

  /** `{ week, period, assignee, category, index, done, updatedAt: now }` */
  function Stamp(item: Json, now: string): Json
    requires ValidItem(item)
  {
    var f := item.fields;
    JObj(map["week" := f["week"], "period" := f["period"], "assignee" := f["assignee"],
             "category" := f["category"], "index" := f["index"], "done" := f["done"],
             "updatedAt" := JStr(now)])
  }

  /**
   * The stored task is a valid item that `storeToDoneMap` keeps, with the
   * item's id and done, stamped with the time of the request.
   */
  lemma StampMeaning(item: Json, now: string)
    requires ValidItem(item)
    ensures ValidItem(Stamp(item, now)) && Kept(Stamp(item, now))
    ensures RecordId(Stamp(item, now)) == RecordId(item)
    ensures Field(Stamp(item, now), "done") == Field(item, "done")
    ensures Field(Stamp(item, now), "updatedAt") == Some(JStr(now))
  {
    var task := Stamp(item, now);
    assert forall key :: key in ["week", "period", "assignee", "category", "index", "done"] ==>
      Field(task, key) == Field(item, key);
  }

  /** `target[key] = value` for each pair in order: a later pair overwrites an earlier one with the same key. */
  function Assign(pairs: seq<(string, string)>): map<string, string> {
    if |pairs| == 0 then map[]
    else Assign(pairs[..|pairs| - 1])[pairs[|pairs| - 1].0 := pairs[|pairs| - 1].1]
  }

  /** An ordered assignment holds one entry per key of its pairs. */
  lemma {:induction false} AssignKeys(pairs: seq<(string, string)>)
    ensures Assign(pairs).Keys == set k | 0 <= k < |pairs| :: pairs[k].0
  {
    if |pairs| > 0 {
      var init := pairs[..|pairs| - 1];
      AssignKeys(init);
      forall key | key in set k | 0 <= k < |pairs| :: pairs[k].0 ensures key in Assign(pairs) {
        var k :| 0 <= k < |pairs| && key == pairs[k].0;
        if k < |init| {
          assert key == init[k].0;
        }
      }
    }
  }

  /** Every entry of an ordered assignment is one of its pairs. */
  lemma {:induction false} AssignProvenance(pairs: seq<(string, string)>)
    ensures forall key :: key in Assign(pairs) ==>
      exists k :: 0 <= k < |pairs| && pairs[k] == (key, Assign(pairs)[key])
  {
    if |pairs| > 0 {
      var init := pairs[..|pairs| - 1];
      var last := pairs[|pairs| - 1];
      AssignProvenance(init);
      forall key | key in Assign(pairs)
        ensures exists k :: 0 <= k < |pairs| && pairs[k] == (key, Assign(pairs)[key])
      {
        assert Assign(pairs) == Assign(init)[last.0 := last.1];
        if key == last.0 {
          assert pairs[|pairs| - 1] == (key, Assign(pairs)[key]);
        } else {
          assert key in Assign(init) && Assign(pairs)[key] == Assign(init)[key];
          var k :| 0 <= k < |init| && init[k] == (key, Assign(init)[key]);
          assert pairs[k] == init[k];
        }
      }
    }
  }

  /** A pair no later pair shares a key with holds its value in the end: last write wins. */
  lemma {:induction false} AssignLastWins(pairs: seq<(string, string)>, k: int)
    requires 0 <= k < |pairs|
    requires forall l :: k < l < |pairs| ==> pairs[l].0 != pairs[k].0
    ensures pairs[k].0 in Assign(pairs) && Assign(pairs)[pairs[k].0] == pairs[k].1
  {
    var init := pairs[..|pairs| - 1];
    if k < |init| {
      assert init[k] == pairs[k];
      forall l | k < l < |init| ensures init[l].0 != init[k].0 {
        assert init[l] == pairs[l];
      }
      AssignLastWins(init, k);
    }
  }

  /** The (id, text) pair each item of a valid batch contributes: `toTaskId(task)`, `JSON.stringify(task)`. */
  function Entries(items: seq<Json>, now: string, stringify: Json -> string): (pairs: seq<(string, string)>)
    requires forall k :: 0 <= k < |items| ==> ValidItem(items[k])
    ensures |pairs| == |items|
    ensures forall k :: 0 <= k < |items| ==> pairs[k] == (RecordId(items[k]), stringify(Stamp(items[k], now)))
  {
    seq(|items|, k requires 0 <= k < |items| => (RecordId(items[k]), stringify(Stamp(items[k], now))))
  }

  /** Taking one more item of the batch assigns one more entry. */
  lemma EntriesSnoc(items: seq<Json>, k: int, now: string, stringify: Json -> string)
    requires 0 <= k < |items|
    requires forall j :: 0 <= j <= k ==> ValidItem(items[j])
    ensures Assign(Entries(items[..k + 1], now, stringify))
         == Assign(Entries(items[..k], now, stringify))[RecordId(items[k]) := stringify(Stamp(items[k], now))]
  {
    var longer := Entries(items[..k + 1], now, stringify);
    assert longer[..k] == Entries(items[..k], now, stringify);
    assert longer[k] == (RecordId(items[k]), stringify(Stamp(items[k], now)));
  }

  /**
   * The writes the POST loop collects, `updates[toTaskId(task)] =
   * JSON.stringify(task)` item by item; `None` when any item is invalid, since
   * the loop answers 400 before anything is written. The stamped task has
   * the item's id (`StampMeaning`), so the key is written as the item's.
   */
  function BatchWrites(items: seq<Json>, now: string, stringify: Json -> string): Option<map<string, string>> {
    if forall k :: 0 <= k < |items| ==> ValidItem(items[k]) then Some(Assign(Entries(items, now, stringify)))
    else None
  }

  /** A valid batch writes one entry per item id. */
  lemma BatchWritesKeys(items: seq<Json>, now: string, stringify: Json -> string)
    requires forall k :: 0 <= k < |items| ==> ValidItem(items[k])
    ensures BatchWrites(items, now, stringify).Some?
    ensures BatchWrites(items, now, stringify).value.Keys == set k | 0 <= k < |items| :: RecordId(items[k])
  {
    var pairs := Entries(items, now, stringify);
    assert BatchWrites(items, now, stringify) == Some(Assign(pairs));
    AssignKeys(pairs);
    assert (set k | 0 <= k < |pairs| :: pairs[k].0) == (set k | 0 <= k < |items| :: RecordId(items[k]));
  }

  /** Every entry a valid batch writes is the text of an item under that item's own id. */
  lemma BatchWritesProvenance(items: seq<Json>, now: string, stringify: Json -> string)
    requires forall k :: 0 <= k < |items| ==> ValidItem(items[k])
    ensures BatchWrites(items, now, stringify).Some?
    ensures var m := BatchWrites(items, now, stringify).value;
      forall id :: id in m ==>
        exists k :: 0 <= k < |items| && id == RecordId(items[k]) && m[id] == stringify(Stamp(items[k], now))
  {
    var pairs := Entries(items, now, stringify);
    assert BatchWrites(items, now, stringify) == Some(Assign(pairs));
    AssignProvenance(pairs);
  }

  /** For an item no later item shares an id with, the batch writes exactly that item's text. */
  lemma BatchWritesLastWins(items: seq<Json>, now: string, stringify: Json -> string, k: int)
    requires forall j :: 0 <= j < |items| ==> ValidItem(items[j])
    requires 0 <= k < |items|
    requires forall l :: k < l < |items| ==> RecordId(items[l]) != RecordId(items[k])
    ensures BatchWrites(items, now, stringify).Some?
    ensures RecordId(items[k]) in BatchWrites(items, now, stringify).value
    ensures BatchWrites(items, now, stringify).value[RecordId(items[k])] == stringify(Stamp(items[k], now))
  {
    var pairs := Entries(items, now, stringify);
    assert BatchWrites(items, now, stringify) == Some(Assign(pairs));
    forall l | k < l < |pairs| ensures pairs[l].0 != pairs[k].0 {
      assert pairs[l].0 == RecordId(items[l]);
    }
    AssignLastWins(pairs, k);
  }

  /** The parsed hash GET returns: every entry whose text parses, under its id; the rest are skipped. */
  function ParsedTasks(hash: map<string, string>, parse: string -> Option<Json>): (parsed: map<string, Json>)
    ensures parsed.Keys == set id | id in hash && parse(hash[id]).Some?
    ensures forall id :: id in parsed ==> parse(hash[id]) == Some(parsed[id])
  {
    map id | id in hash && parse(hash[id]).Some? :: parse(hash[id]).value
  }

  /** The store as the board reads it from a GET response. */
  function GetBody(hash: map<string, string>, parse: string -> Option<Json>): Json {
    JObj(map["tasks" := JObj(ParsedTasks(hash, parse))])
  }

  /**
   * The loop of POST: stamps each item and collects `updates[toTaskId(task)]
   * = JSON.stringify(task)` in order, giving up at the first invalid item.
   */
  method CollectWrites(items: seq<Json>, now: string, stringify: Json -> string)
    returns (writes: Option<map<string, string>>)
    ensures writes == BatchWrites(items, now, stringify)
  {
    var updates: map<string, string> := map[];
    var k := 0;
    while k < |items|
      invariant 0 <= k <= |items|
      invariant forall j :: 0 <= j < k ==> ValidItem(items[j])
      invariant updates == Assign(Entries(items[..k], now, stringify))
    {
      var item := items[k];
      if !ValidItem(item) {
        assert BatchWrites(items, now, stringify) == None;
        return None;
      }
      var task := Stamp(item, now);
      EntriesSnoc(items, k, now, stringify);
      updates := updates[RecordId(item) := stringify(task)];
      k := k + 1;
    }
    assert items[..k] == items;
    assert BatchWrites(items, now, stringify) == Some(updates);
    writes := Some(updates);
  }

  class TaskStore {
    /** The Redis hash `tasks`: task id to the JSON text of the task. */
    var tasks: map<string, string>

    constructor ()
      ensures tasks == map[]
    {
      tasks := map[];
    }

    /**
     * POST: an empty batch or any invalid item answers 400 and writes
     * nothing; otherwise every item's stamped task is written under its id
     * and the answer counts the items (not the distinct ids).
     */
    method Post(body: Json, now: string, stringify: Json -> string) returns (response: Response)
      modifies this
      ensures var items := BatchOf(body);
        var writes := BatchWrites(items, now, stringify);
        if |items| == 0 || writes.None? then response == InvalidPayload() && tasks == old(tasks)
        else response == Response(200, JObj(map["ok" := JBool(true), "count" := JNum(|items|)]))
             && tasks == old(tasks) + writes.value
    {
      var items := BatchOf(body);
      if |items| == 0 {
        return InvalidPayload();
      }
      var writes := CollectWrites(items, now, stringify);
      if writes.None? {
        return InvalidPayload();
      }
      tasks := tasks + writes.value;
      response := Response(200, JObj(map["ok" := JBool(true), "count" := JNum(|items|)]));
    }

    /** GET: every stored entry that parses, under its id; entries that do not parse are skipped. */
    method Get(parse: string -> Option<Json>) returns (response: Response)
      ensures response == Response(200, GetBody(tasks, parse))
    {
      var parsed: map<string, Json> := map[];
      var remaining := tasks.Keys;
      while remaining != {}
        invariant remaining <= tasks.Keys
        invariant parsed == map id | id in tasks.Keys - remaining && parse(tasks[id]).Some? :: parse(tasks[id]).value
        decreases remaining
      {
        var id :| id in remaining;
        match parse(tasks[id]) {
          case Some(v) => parsed := parsed[id := v];
          case None =>
        }
        remaining := remaining - {id};
      }
      assert tasks.Keys - remaining == tasks.Keys;
      assert parsed == ParsedTasks(tasks, parse);
      response := Response(200, JObj(map["tasks" := JObj(parsed)]));
    }
  }

  /** The POST body of a batch the board sends. */
  function BatchBody(updates: seq<Update>): Json {
    JArr(seq(|updates|, j requires 0 <= j < |updates| => UpdateJson(updates[j])))
  }

  /**
   * The board's update objects pass the server's check exactly when their
   * strings are non-empty, and the server files each under the id the board
   * itself uses for that task.
   */
  lemma BoardUpdatesAccepted(u: Update, now: string)
    ensures ValidItem(UpdateJson(u)) <==> u.week != "" && u.period != "" && u.assignee != "" && u.category != ""
    ensures ValidItem(UpdateJson(u)) ==> RecordId(Stamp(UpdateJson(u), now)) == UpdateId(u)
  {
    var v := UpdateJson(u);
    assert Field(v, "index") == Some(JNum(u.index));
    assert Text(JNum(u.index)) == IntText(u.index);
  }

  /** Every task the board could read back sits under its own id. */
  predicate Consistent(hash: map<string, string>, parse: string -> Option<Json>) {
    forall id :: id in hash && parse(hash[id]).Some? && Kept(parse(hash[id]).value) ==> RecordId(parse(hash[id]).value) == id
  }

  /** POST keeps every stored task under its own id, given a JSON codec that round-trips. */
  lemma PostKeepsConsistent(hash: map<string, string>, items: seq<Json>, now: string,
                            stringify: Json -> string, parse: string -> Option<Json>)
    requires Consistent(hash, parse)
    requires BatchWrites(items, now, stringify).Some?
    requires forall t :: parse(stringify(t)) == Some(t)
    ensures Consistent(hash + BatchWrites(items, now, stringify).value, parse)
  {
    BatchWritesProvenance(items, now, stringify);
    var m := BatchWrites(items, now, stringify).value;
    var hash' := hash + m;
    forall id | id in hash' && parse(hash'[id]).Some? && Kept(parse(hash'[id]).value)
      ensures RecordId(parse(hash'[id]).value) == id
    {
      if id in m {
        var k :| 0 <= k < |items| && id == RecordId(items[k]) && m[id] == stringify(Stamp(items[k], now));
        StampMeaning(items[k], now);
        assert parse(hash'[id]) == Some(Stamp(items[k], now));
      }
    }
  }

  /** The records the board visits in a GET response are the parsed entries. */
  lemma GetBodyRecords(hash: map<string, string>, parse: string -> Option<Json>)
    ensures TaskRecords(GetBody(hash, parse)) == ParsedTasks(hash, parse).Values
  {
    var store := GetBody(hash, parse);
    assert store.fields["tasks"] == JObj(ParsedTasks(hash, parse));
  }

  /** Over a consistent hash a kept record is the parsed entry under its own id. */
  lemma KeptRecordIsEntry(hash: map<string, string>, parse: string -> Option<Json>, t: Json)
    requires Consistent(hash, parse)
    requires t in ParsedTasks(hash, parse).Values && Kept(t)
    ensures RecordId(t) in ParsedTasks(hash, parse) && ParsedTasks(hash, parse)[RecordId(t)] == t
  {
    var parsed := ParsedTasks(hash, parse);
    var key :| key in parsed && parsed[key] == t;
    assert RecordId(parse(hash[key]).value) == key;
  }

  /** Over a consistent hash the done-map has an entry exactly for each kept parsed entry. */
  lemma ReadBackKeys(hash: map<string, string>, parse: string -> Option<Json>, done: map<string, bool>)
    requires Consistent(hash, parse)
    requires DoneMapOf(GetBody(hash, parse), done)
    ensures forall id :: id in done <==> id in ParsedTasks(hash, parse) && Kept(ParsedTasks(hash, parse)[id])
  {
    var parsed := ParsedTasks(hash, parse);
    GetBodyRecords(hash, parse);
    assert done.Keys == set t | t in parsed.Values && Kept(t) :: RecordId(t);
    forall id ensures id in done <==> id in parsed && Kept(parsed[id]) {
      if id in done {
        var t :| t in parsed.Values && Kept(t) && RecordId(t) == id;
        KeptRecordIsEntry(hash, parse, t);
      }
      if id in parsed && Kept(parsed[id]) {
        var t := parsed[id];
        assert t in parsed.Values;
        KeptRecordIsEntry(hash, parse, t);
      }
    }
  }

  /** Over a consistent hash each entry of the done-map is the `Boolean(done)` of the entry under that id. */
  lemma ReadBackValues(hash: map<string, string>, parse: string -> Option<Json>, done: map<string, bool>)
    requires Consistent(hash, parse)
    requires DoneMapOf(GetBody(hash, parse), done)
    ensures forall id :: id in done ==>
      id in ParsedTasks(hash, parse) && done[id] == Present(Field(ParsedTasks(hash, parse)[id], "done"))
  {
    var parsed := ParsedTasks(hash, parse);
    GetBodyRecords(hash, parse);
    forall id | id in done ensures id in parsed && done[id] == Present(Field(parsed[id], "done")) {
      var t :| t in parsed.Values && Kept(t) && RecordId(t) == id && done[id] == DoneOf(t);
      KeptRecordIsEntry(hash, parse, t);
    }
  }

  /**
   * Over a consistent hash the board's done-map is determined, whatever the
   * order `storeToDoneMap` visits the tasks in: one entry per kept task,
   * holding that task's `Boolean(done)`.
   */
  lemma ReadBackDetermined(hash: map<string, string>, parse: string -> Option<Json>, done: map<string, bool>)
    requires Consistent(hash, parse)
    requires DoneMapOf(GetBody(hash, parse), done)
    ensures var parsed := ParsedTasks(hash, parse);
      && (forall id :: id in done <==> id in parsed && Kept(parsed[id]))
      && (forall id :: id in done ==> done[id] == Present(Field(parsed[id], "done")))
  {
    ReadBackKeys(hash, parse, done);
    ReadBackValues(hash, parse, done);
  }

  /** The items of a batch the board posts are its update objects, each valid and under the update's own id. */
  lemma BoardBatchItems(updates: seq<Update>, now: string)
    requires forall j :: 0 <= j < |updates| ==>
      updates[j].week != "" && updates[j].period != "" && updates[j].assignee != "" && updates[j].category != ""
    ensures |BatchOf(BatchBody(updates))| == |updates|
    ensures forall j :: 0 <= j < |updates| ==>
      && BatchOf(BatchBody(updates))[j] == UpdateJson(updates[j])
      && ValidItem(UpdateJson(updates[j]))
      && RecordId(UpdateJson(updates[j])) == UpdateId(updates[j])
  {
    forall j | 0 <= j < |updates|
      ensures ValidItem(UpdateJson(updates[j])) && RecordId(UpdateJson(updates[j])) == UpdateId(updates[j])
    {
      BoardUpdatesAccepted(updates[j], now);
      StampMeaning(UpdateJson(updates[j]), now);
    }
  }

  /**
   * The round trip of the board's state through the server: after the board
   * posts a batch to a consistent hash, the done-map it reads back holds
   * each posted update's value (the last one, for an id posted twice).
   */
  lemma PostThenReadBack(hash: map<string, string>, updates: seq<Update>, now: string,
                         stringify: Json -> string, parse: string -> Option<Json>,
                         done: map<string, bool>, k: int)
    requires Consistent(hash, parse)
    requires forall t :: parse(stringify(t)) == Some(t)
    requires forall j :: 0 <= j < |updates| ==>
      updates[j].week != "" && updates[j].period != "" && updates[j].assignee != "" && updates[j].category != ""
    requires 0 <= k < |updates|
    requires forall l :: k < l < |updates| ==> UpdateId(updates[l]) != UpdateId(updates[k])
    requires BatchWrites(BatchOf(BatchBody(updates)), now, stringify).Some?
    requires DoneMapOf(GetBody(hash + BatchWrites(BatchOf(BatchBody(updates)), now, stringify).value, parse), done)
    ensures UpdateId(updates[k]) in done && done[UpdateId(updates[k])] == updates[k].done
  {
    var items := BatchOf(BatchBody(updates));
    var id := UpdateId(updates[k]);
    BoardBatchItems(updates, now);
    BatchWritesLastWins(items, now, stringify, k);
    var hash' := hash + BatchWrites(items, now, stringify).value;
    var task := Stamp(items[k], now);
    StampMeaning(items[k], now);
    assert hash'[id] == stringify(task);
    PostKeepsConsistent(hash, items, now, stringify, parse);
    ReadBackEntry(hash', parse, done, id, task);
    assert Field(items[k], "done") == Some(JBool(updates[k].done));
  }

  /** A kept task stored under its id in a consistent hash is read back with its `Boolean(done)`. */
  lemma ReadBackEntry(hash: map<string, string>, parse: string -> Option<Json>, done: map<string, bool>,
                      id: string, task: Json)
    requires Consistent(hash, parse)
    requires DoneMapOf(GetBody(hash, parse), done)
    requires id in hash && parse(hash[id]) == Some(task) && Kept(task)
    ensures id in done && done[id] == Present(Field(task, "done"))
  {
    ReadBackDetermined(hash, parse, done);
  }
}
