/**
  StudyManager: the in-memory task list and id counter, loaded once from the
  task file and written back in full after every change. The file is modelled
  by a ghost snapshot of the last document written and a count of writes.
*/
module Manager {
  import opened Wrappers
  import opened Text
  import opened Sorting
  import opened Tasks
  import opened Storage
  import opened Listing

  /** `next((task for task in tasks if task.id == id), None)`, as an index. */
  function FindById(ts: seq<Task>, id: int): (r: Option<nat>)
    ensures r.Some? ==> r.value < |ts| && ts[r.value].id == id
    ensures r.Some? ==> forall j :: 0 <= j < r.value ==> ts[j].id != id
    ensures r.None? ==> forall j :: 0 <= j < |ts| ==> ts[j].id != id
  {
    if ts == [] then None
    else if ts[0].id == id then Some(0)
    else match FindById(ts[1..], id)
      case None => None
      case Some(k) => Some(k + 1)
  }

  /** `any(t.status == "Pending" for t in tasks)`. */
  predicate HasPending(ts: seq<Task>) {
    exists i :: 0 <= i < |ts| && ts[i].status == "Pending"
  }

  /** The condition of the comprehension delete_task filters with. */
  function NotId(id: int): Task -> bool {
    (t: Task) => t.id != id
  }

  /** `[task for task in tasks if task.id != id]`. */
  function RemoveId(ts: seq<Task>, id: int): (r: seq<Task>)
    ensures forall i :: 0 <= i < |r| ==> r[i].id != id && r[i] in ts
    ensures forall i :: 0 <= i < |ts| && ts[i].id != id ==> ts[i] in r
  {
    Filter(ts, NotId(id))
  }

  /** Deleting keeps the remaining tasks in order and removes at least one task when the id is present. */
  lemma RemoveIdOrder(a: seq<Task>, b: seq<Task>, id: int)
    ensures RemoveId(a + b, id) == RemoveId(a, id) + RemoveId(b, id)
    ensures FindById(a, id).Some? ==> |RemoveId(a, id)| < |a|
  {
    FilterConcat(a, b, NotId(id));
    if FindById(a, id).Some? {
      FilterDrops(a, NotId(id), FindById(a, id).value);
    }
  }

  /**
    Ids are not reused within a session, but the counter is rebuilt from the
    file at start-up: once the newest task (largest id) is deleted, the next
    session hands that id out again.
  */
  lemma ReloadReusesLargestId(ts: seq<Task>)
    requires ts != []
    requires forall i :: 0 <= i < |ts| ==> ts[i].id > 0
    ensures NextIdAfterLoad(RemoveId(ts, MaxId(ts))) <= MaxId(ts)
  {
    var m := MaxId(ts);
    var rest := RemoveId(ts, m);
    forall i | 0 <= i < |rest| ensures rest[i].id < m {
      assert rest[i] in ts;
    }
  }

  /**
    The manager's invariant over its list, counter and issued ids: every task
    is well formed and holds an issued id, and every issued id is positive and
    below the counter.
  */
  ghost predicate ValidState(ts: seq<Task>, nextId: int, issued: set<int>) {
    && nextId >= 1
    && (forall i :: 0 <= i < |ts| ==> WellFormed(ts[i]) && ts[i].id in issued)
    && (forall id :: id in issued ==> 0 < id < nextId)
  }

  /** A successful load establishes the invariant, with the loaded ids as the issued ones. */
  lemma LoadedValid(ts: seq<Task>)
    requires forall i :: 0 <= i < |ts| ==> WellFormed(ts[i])
    ensures ValidState(ts, NextIdAfterLoad(ts), set i | 0 <= i < |ts| :: ts[i].id)
  {
    var n := NextIdAfterLoad(ts);
    forall i | 0 <= i < |ts| ensures 0 < ts[i].id < n {
      assert WellFormed(ts[i]);
    }
  }

  /** Appending a well-formed task that holds the counter's id, then advancing the counter, keeps the invariant. */
  lemma AppendKeepsValid(ts: seq<Task>, n: int, issued: set<int>, t: Task)
    requires ValidState(ts, n, issued) && WellFormed(t) && t.id == n
    ensures n !in issued
    ensures ValidState(ts + [t], n + 1, issued + {n})
  {
    var ts' := ts + [t];
    forall i | 0 <= i < |ts'| ensures WellFormed(ts'[i]) && ts'[i].id in issued + {n} {
      if i < |ts| { assert ts'[i] == ts[i]; }
    }
  }

  /** Giving one task a valid stored status keeps the invariant. */
  lemma SetStatusKeepsValid(ts: seq<Task>, n: int, issued: set<int>, k: int, s: string)
    requires ValidState(ts, n, issued) && 0 <= k < |ts| && (s == "Pending" || s == "Completed")
    ensures ValidState(ts[k := ts[k].(status := s)], n, issued)
  {
    var ts' := ts[k := ts[k].(status := s)];
    forall i | 0 <= i < |ts'| ensures WellFormed(ts'[i]) && ts'[i].id in issued {
      if i != k { assert ts'[i] == ts[i]; }
    }
  }

  /** Removing tasks keeps the invariant; the counter and the issued ids stay. */
  lemma RemoveKeepsValid(ts: seq<Task>, n: int, issued: set<int>, id: int)
    requires ValidState(ts, n, issued)
    ensures ValidState(RemoveId(ts, id), n, issued)
  {
    var r := RemoveId(ts, id);
    forall i | 0 <= i < |r| ensures WellFormed(r[i]) && r[i].id in issued {
      var j :| 0 <= j < |ts| && ts[j] == r[i];
    }
  }

  datatype UpdateOutcome = NoPendingTasks | UnknownId | AlreadyHasStatus | StatusUpdated(index: nat)

  /**
    Which branch update_task_status takes for the id and the capitalized new
    status: no pending task at all, no task with the id, a status that would
    not change, or an update of the first task with the id.
  */
  function UpdateOutcomeOf(ts: seq<Task>, id: int, status: string): (r: UpdateOutcome)
    ensures r == NoPendingTasks <==> !HasPending(ts)
    ensures r == UnknownId <==> HasPending(ts) && FindById(ts, id).None?
    ensures r == AlreadyHasStatus <==>
              HasPending(ts) && FindById(ts, id).Some? && ts[FindById(ts, id).value].status == status
    ensures r.StatusUpdated? ==> FindById(ts, id) == Some(r.index) && ts[r.index].status != status
  {
    if !HasPending(ts) then NoPendingTasks
    else match FindById(ts, id)
      case None => UnknownId
      case Some(k) => if ts[k].status == status then AlreadyHasStatus else StatusUpdated(k)
  }

  datatype DeleteOutcome = NothingToDelete | UnknownIdToDelete | DeletionCancelled | Deleted

  /**
    Which branch delete_task takes: an empty list, no task with the id, a
    refused confirmation, or a deletion.
  */
  function DeleteOutcomeOf(ts: seq<Task>, id: int, confirmed: bool): (r: DeleteOutcome)
    ensures r == NothingToDelete <==> ts == []
    ensures r == UnknownIdToDelete <==> ts != [] && FindById(ts, id).None?
    ensures r == DeletionCancelled <==> FindById(ts, id).Some? && !confirmed
    ensures r == Deleted <==> FindById(ts, id).Some? && confirmed
  {
    if ts == [] then NothingToDelete
    else if FindById(ts, id).None? then UnknownIdToDelete
    else if !confirmed then DeletionCancelled
    else Deleted
  }

  class StudyManager {
    var tasks: seq<Task>
    var nextId: int
    /** How many times the tasks file has been written. */
    var saveCount: nat
    /** The content of the tasks file: as found at start-up, then the last document written. */
    ghost var persisted: Stored
    /** Every id a task of this session has held. */
    ghost var issued: set<int>

    ghost predicate Valid()
      reads this
    {
      ValidState(tasks, nextId, issued)
    }

    /** StudyManager(): an empty list and counter 1, then the tasks file is loaded. */
    constructor (stored: Stored, now: string)
      ensures Valid() && saveCount == 0 && persisted == stored
      ensures stored.NoFile? || stored.Unreadable? ==> tasks == [] && nextId == 1
      ensures stored.Document? && DecodeAll(stored.items, now).None? ==> tasks == [] && nextId == 1
      ensures stored.Document? && DecodeAll(stored.items, now).Some? ==>
                tasks == DecodeAll(stored.items, now).value && nextId == NextIdAfterLoad(tasks)
    {
      tasks := [];
      nextId := 1;
      saveCount := 0;
      persisted := stored;
      issued := {};
      new;
      LoadTasks(stored, now);
    }

    /**
      _load_tasks: a missing file changes nothing; an unreadable file or any
      record that fails to rebuild empties the list and resets the counter;
      otherwise the list is replaced and the counter set past the largest id.
    */
    method LoadTasks(stored: Stored, now: string)
      requires Valid()
      modifies this
      ensures Valid() && saveCount == old(saveCount) && persisted == old(persisted)
      ensures stored.NoFile? ==> tasks == old(tasks) && nextId == old(nextId)
      ensures stored.Unreadable? ==> tasks == [] && nextId == 1
      ensures stored.Document? && DecodeAll(stored.items, now).None? ==> tasks == [] && nextId == 1
      ensures stored.Document? && DecodeAll(stored.items, now).Some? ==>
                tasks == DecodeAll(stored.items, now).value && nextId == NextIdAfterLoad(tasks)
    {
      match stored
      case NoFile =>
      case Unreadable =>
        tasks, nextId, issued := [], 1, {};
      case Document(items) =>
        var decoded := DecodeAll(items, now);
        match decoded
        case None =>
          tasks, nextId, issued := [], 1, {};
        case Some(ts) =>
          DecodedWellFormed(items, now);
          LoadedValid(ts);
          tasks := ts;
          nextId := NextIdAfterLoad(ts);
          issued := set i | 0 <= i < |ts| :: ts[i].id;
    }

    /** _save_tasks: the whole list is written, replacing the file. */
    method SaveTasks()
      modifies this`persisted, this`saveCount
      ensures persisted == ToDocument(tasks) && saveCount == old(saveCount) + 1
    {
      persisted := ToDocument(tasks);
      saveCount := saveCount + 1;
    }

    /**
      add_task, after the prompts: the priority is capitalized, a Pending task
      with the next id is built, appended and saved; a ValueError changes nothing.
    */
    method AddTask(title: string, description: string, dueDate: string, priority: string, now: string)
      returns (r: Result<Task, ValidationError>)
      requires Valid()
      modifies this
      ensures Valid()
      ensures r == NewTask(old(nextId), title, description, dueDate, Capitalize(priority), "Pending", now)
      ensures r.Ok? ==> && r.value.id == old(nextId) && r.value.id !in old(issued)
                        && r.value.status == "Pending" && r.value.priority == Capitalize(priority)
                        && tasks == old(tasks) + [r.value] && nextId == old(nextId) + 1
                        && saveCount == old(saveCount) + 1 && persisted == ToDocument(tasks)
      ensures r.Err? ==> && tasks == old(tasks) && nextId == old(nextId)
                         && saveCount == old(saveCount) && persisted == old(persisted)
    {
      CapitalizeIdempotent(priority);
      StoredStatusStable("Pending");
      r := NewTask(nextId, title, description, dueDate, Capitalize(priority), "Pending", now);
      if r.Ok? {
        AppendKeepsValid(tasks, nextId, issued, r.value);
        tasks := tasks + [r.value];
        issued := issued + {nextId};
        nextId := nextId + 1;
        SaveTasks();
      }
    }

    /**
      view_tasks, without the printing: the tasks shown, in order. None stands
      for the ValueError of a filtered task whose due date does not parse,
      raised by the due-date sort or by the display of that task.
    */
    method ViewTasks(filterStatus: string, sortBy: string) returns (r: Option<seq<Task>>)
      requires Valid()
      ensures r == View(tasks, filterStatus, sortBy)
      ensures r.None? <==> SomeDueUnparsed(FilterByStatus(tasks, filterStatus))
      ensures r.Some? ==> multiset(r.value) == multiset(FilterByStatus(tasks, filterStatus))
      ensures r.Some? && filterStatus != [] ==> forall i :: 0 <= i < |r.value| ==> r.value[i].status == Capitalize(filterStatus)
    {
      r := View(tasks, filterStatus, sortBy);
      ViewFails(tasks, filterStatus, sortBy);
      if r.Some? {
        ViewPermutes(tasks, filterStatus, sortBy);
        var f := FilterByStatus(tasks, filterStatus);
        forall i | 0 <= i < |r.value| ensures r.value[i] in multiset(f) {
          assert r.value[i] in multiset(r.value);
        }
      }
    }

    /**
      update_task_status, after the prompts: nothing happens without a pending
      task, for an unknown id, or when the status would not change; otherwise
      the first task with that id gets the capitalized status and the list is saved.
    */
    method UpdateTaskStatus(id: int, newStatus: string) returns (outcome: UpdateOutcome)
      requires Valid() && id > 0 && ValidateStatus(newStatus)
      modifies this
      ensures Valid() && nextId == old(nextId) && issued == old(issued)
      ensures outcome == NoPendingTasks <==> !HasPending(old(tasks))
      ensures outcome == UnknownId <==> HasPending(old(tasks)) && FindById(old(tasks), id).None?
      ensures outcome == AlreadyHasStatus <==>
                HasPending(old(tasks)) && FindById(old(tasks), id).Some?
                && old(tasks)[FindById(old(tasks), id).value].status == Capitalize(newStatus)
      ensures outcome.StatusUpdated? ==>
                && FindById(old(tasks), id) == Some(outcome.index)
                && old(tasks)[outcome.index].status != Capitalize(newStatus)
                && tasks == old(tasks)[outcome.index := old(tasks)[outcome.index].(status := Capitalize(newStatus))]
                && saveCount == old(saveCount) + 1 && persisted == ToDocument(tasks)
      ensures !outcome.StatusUpdated? ==>
                tasks == old(tasks) && saveCount == old(saveCount) && persisted == old(persisted)
    {
      var status := Capitalize(newStatus);
      outcome := UpdateOutcomeOf(tasks, id, status);
      if outcome.StatusUpdated? {
        var k := outcome.index;
        CapitalizedStatus(newStatus);
        SetStatusKeepsValid(tasks, nextId, issued, k, status);
        tasks := tasks[k := tasks[k].(status := status)];
        SaveTasks();
      }
    }

    /**
      delete_task, after the prompts: nothing happens for an empty list, an
      unknown id or a refused confirmation; otherwise every task with that id
      is removed and the list is saved. The id counter never moves back.
    */
    method DeleteTask(id: int, confirmed: bool) returns (outcome: DeleteOutcome)
      requires Valid() && id > 0
      modifies this
      ensures Valid() && nextId == old(nextId) && issued == old(issued)
      ensures outcome == NothingToDelete <==> old(tasks) == []
      ensures outcome == UnknownIdToDelete <==> old(tasks) != [] && FindById(old(tasks), id).None?
      ensures outcome == DeletionCancelled <==> FindById(old(tasks), id).Some? && !confirmed
      ensures outcome == Deleted ==>
                && tasks == RemoveId(old(tasks), id) && |tasks| < |old(tasks)|
                && saveCount == old(saveCount) + 1 && persisted == ToDocument(tasks)
      ensures outcome != Deleted ==>
                tasks == old(tasks) && saveCount == old(saveCount) && persisted == old(persisted)
    {
      outcome := DeleteOutcomeOf(tasks, id, confirmed);
      if outcome == Deleted {
        RemoveIdOrder(tasks, [], id);
        RemoveKeepsValid(tasks, nextId, issued, id);
        tasks := RemoveId(tasks, id);
        SaveTasks();
      }
    }
  }
}
