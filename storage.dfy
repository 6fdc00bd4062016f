/**
  The task file as the manager reads and writes it: a JSON list of task
  objects. Reading rebuilds every task with Task.from_dict and gives up on
  the whole list at the first record that fails; writing stores to_dict of
  every task.
*/
module Storage {
  import opened Wrappers
  import opened Tasks

  /** One element of the decoded list: a JSON object, or any other JSON value. */
  datatype Item = Object(fields: Record) | NonObject

  /**
    What opening and decoding the tasks file yields: no file, a file that does
    not decode to a list (malformed JSON, unreadable), or a decoded list.
  */
  datatype Stored = NoFile | Unreadable | Document(items: seq<Item>)

  function FromItem(item: Item, now: string): Result<Task, DecodeError> {
    match item
    case Object(d) => FromDict(d, now)
    case NonObject => Err(NotAnObject)
  }

  /** Applies `f` to every element, left to right, and stops with None at the first failure. */
  function MapAll<A, B, E>(xs: seq<A>, f: A -> Result<B, E>): (r: Option<seq<B>>)
    ensures r.Some? <==> forall i :: 0 <= i < |xs| ==> f(xs[i]).Ok?
    ensures r.Some? ==> |r.value| == |xs|
    ensures r.Some? ==> forall i :: 0 <= i < |xs| ==> r.value[i] == f(xs[i]).value
  {
    if xs == [] then Some([])
    else match f(xs[0])
      case Err(_) => None
      case Ok(y) =>
        match MapAll(xs[1..], f)
        case None => None
        case Some(ys) =>
          assert forall i :: 1 <= i < |xs| ==> xs[i] == xs[1..][i - 1];
          Some([y] + ys)
  }

  /** `[Task.from_dict(d) for d in tasks_data]`; None when any element raises. */
  function DecodeAll(items: seq<Item>, now: string): Option<seq<Task>> {
    MapAll(items, (item: Item) => FromItem(item, now))
  }

  /** The load succeeds exactly when every record decodes, and then keeps their order. */
  lemma DecodeAllSpec(items: seq<Item>, now: string)
    ensures DecodeAll(items, now).Some? <==> forall i :: 0 <= i < |items| ==> FromItem(items[i], now).Ok?
    ensures DecodeAll(items, now).Some? ==>
              && |DecodeAll(items, now).value| == |items|
              && forall i :: 0 <= i < |items| ==> DecodeAll(items, now).value[i] == FromItem(items[i], now).value
  {
  }

  /** Every task a successful load yields satisfies the constructor's guarantees. */
  lemma DecodedWellFormed(items: seq<Item>, now: string)
    requires DecodeAll(items, now).Some?
    ensures forall i :: 0 <= i < |DecodeAll(items, now).value| ==> WellFormed(DecodeAll(items, now).value[i])
  {
    DecodeAllSpec(items, now);
    forall i | 0 <= i < |items| ensures WellFormed(DecodeAll(items, now).value[i]) {
      assert FromItem(items[i], now).Ok?;
    }
  }

  /** `max(task.id for task in tasks)`. */
  function MaxId(ts: seq<Task>): (m: int)
    requires ts != []
    ensures exists i :: 0 <= i < |ts| && ts[i].id == m
    ensures forall i :: 0 <= i < |ts| ==> ts[i].id <= m
  {
    if |ts| == 1 then ts[0].id
    else
      var m := MaxId(ts[1..]);
      if ts[0].id >= m then ts[0].id else m
  }

  /** The id counter after a successful load: one past the largest id, or 1 for no tasks. */
  function NextIdAfterLoad(ts: seq<Task>): (n: int)
    ensures ts == [] ==> n == 1
    ensures forall i :: 0 <= i < |ts| ==> ts[i].id < n
    ensures ts != [] ==> exists i :: 0 <= i < |ts| && ts[i].id == n - 1
  {
    if ts == [] then 1 else MaxId(ts) + 1
  }

  /** The list `_save_tasks` writes: to_dict of every task, in order. */
  function ToDocument(ts: seq<Task>): (s: Stored)
    ensures s.Document? && |s.items| == |ts|
  {
    Document(seq(|ts|, i requires 0 <= i < |ts| => Object(ToDict(ts[i]))))
  }

  function Restamped(ts: seq<Task>, now: string): seq<Task> {
    seq(|ts|, i requires 0 <= i < |ts| => ts[i].(createdAt := now))
  }

  /**
    Reading back what was saved gives the same tasks with a new creation time,
    as long as no saved title or description is empty.
  */
  lemma LoadAfterSave(ts: seq<Task>, now: string)
    requires forall i :: 0 <= i < |ts| ==> WellFormed(ts[i]) && ts[i].title != [] && ts[i].description != []
    ensures DecodeAll(ToDocument(ts).items, now) == Some(Restamped(ts, now))
  {
    var items := ToDocument(ts).items;
    var expected := Restamped(ts, now);
    forall i | 0 <= i < |items| ensures FromItem(items[i], now) == Ok(expected[i]) {
      SavedItemLoads(ts, i, now);
    }
    DecodeAllSpec(items, now);
    var r := DecodeAll(items, now).value;
    assert |r| == |expected|;
    assert forall i :: 0 <= i < |r| ==> r[i] == expected[i];
    assert r == expected;
  }

  /** One saved record reads back as its task, re-stamped, when its title and description are not empty. */
  lemma SavedItemLoads(ts: seq<Task>, i: int, now: string)
    requires 0 <= i < |ts| && WellFormed(ts[i]) && ts[i].title != [] && ts[i].description != []
    ensures FromItem(ToDocument(ts).items[i], now) == Ok(Restamped(ts, now)[i])
  {
    assert ToDocument(ts).items[i] == Object(ToDict(ts[i]));
    RoundTrip(ts[i], now);
  }

  /** One saved task with an empty title or description makes the whole file read back as nothing. */
  lemma BlankTaskSpoilsLoad(ts: seq<Task>, k: int, now: string)
    requires 0 <= k < |ts| && WellFormed(ts[k]) && (ts[k].title == [] || ts[k].description == [])
    ensures DecodeAll(ToDocument(ts).items, now).None?
  {
    RoundTripBlank(ts[k], now);
    assert FromItem(ToDocument(ts).items[k], now).Err?;
    DecodeAllSpec(ToDocument(ts).items, now);
  }
}
