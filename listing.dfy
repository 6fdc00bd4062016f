/**
  The filtering and ordering rules of StudyManager.view_tasks: an optional
  status filter, then one of three stable sorts (due date with pending tasks
  first, priority rank, case-insensitive title) or no reordering.
*/
module Listing {
  import opened Wrappers
  import opened Text
  import opened Sorting
  import opened Dates
  import opened Tasks

  predicate IsPending(t: Task) {
    t.status == "Pending"
  }

  predicate IsCompleted(t: Task) {
    t.status == "Completed"
  }

  /** `priority_order.get(t.priority, 99)` with the table High 1, Medium 2, Low 3. */
  function PriorityRank(t: Task): int {
    if t.priority == "High" then 1
    else if t.priority == "Medium" then 2
    else if t.priority == "Low" then 3
    else 99
  }

  predicate IntLe(a: int, b: int) {
    a <= b
  }

  /** `t.title.lower()`. */
  function TitleKey(t: Task): string {
    Lower(t.title)
  }

  /** The parsed due date; only read for tasks whose due date parses. */
  function DueKey(t: Task): Date {
    match ParseIsoDate(t.dueDate)
    case Some(d) => d
    case None => Date(0, 0, 0)
  }

  predicate DatesParse(ts: seq<Task>) {
    forall i :: 0 <= i < |ts| ==> ParseIsoDate(ts[i].dueDate).Some?
  }

  /** The status filter; an empty filter (Python's None or "") keeps every task. */
  function FilterByStatus(tasks: seq<Task>, filterStatus: string): (r: seq<Task>)
    ensures filterStatus == [] ==> r == tasks
    ensures filterStatus != [] ==> forall i :: 0 <= i < |r| ==> r[i] in tasks && r[i].status == Capitalize(filterStatus)
    ensures filterStatus != [] ==> forall i :: 0 <= i < |tasks| && tasks[i].status == Capitalize(filterStatus) ==> tasks[i] in r
  {
    if filterStatus == [] then tasks else Filter(tasks, (t: Task) => t.status == Capitalize(filterStatus))
  }

  function PendingPart(f: seq<Task>): seq<Task> {
    Filter(f, IsPending)
  }

  function CompletedPart(f: seq<Task>): seq<Task> {
    Filter(f, IsCompleted)
  }

  /** The sort step of view_tasks; None stands for the ValueError strptime raises on a bad due date. */
  function Arrange(f: seq<Task>, sortBy: string): Option<seq<Task>> {
    if sortBy == "due_date" then
      if DatesParse(PendingPart(f)) && DatesParse(CompletedPart(f)) then
        Some(SortBy(PendingPart(f), DueKey, DateLe) + SortBy(CompletedPart(f), DueKey, DateLe))
      else None
    else if sortBy == "priority" then Some(SortBy(f, PriorityRank, IntLe))
    else if sortBy == "title" then Some(SortBy(f, TitleKey, StrLe))
    else Some(f)
  }

  /**
    The tasks view_tasks displays, in display order. None stands for the
    ValueError raised either by the due-date sort or by Task.display, which
    parses the due date of every task it shows.
  */
  function View(tasks: seq<Task>, filterStatus: string, sortBy: string): Option<seq<Task>> {
    match Arrange(FilterByStatus(tasks, filterStatus), sortBy)
    case None => None
    case Some(r) => if DatesParse(r) then Some(r) else None
  }

  lemma IntLeTotalOrder()
    ensures TotalOrder(IntLe)
  {
  }

  lemma StrLeTotalOrder()
    ensures TotalOrder(StrLe)
  {
    forall a: string ensures StrLe(a, a) { StrLeReflexive(a); }
    forall a: string, b: string | StrLe(a, b) && StrLe(b, a) ensures a == b { StrLeAntisymmetric(a, b); }
    forall a: string, b: string, c: string | StrLe(a, b) && StrLe(b, c) ensures StrLe(a, c) { StrLeTransitive(a, b, c); }
    forall a: string, b: string ensures StrLe(a, b) || StrLe(b, a) { StrLeTotal(a, b); }
  }

  /** The due-date sort fails exactly when a pending or completed task has a due date that does not parse. */
  lemma DueDateSortFails(f: seq<Task>)
    ensures Arrange(f, "due_date").None? <==>
              exists i :: 0 <= i < |f| && (IsPending(f[i]) || IsCompleted(f[i])) && ParseIsoDate(f[i].dueDate).None?
  {
    var p, c := PendingPart(f), CompletedPart(f);
    if exists i :: 0 <= i < |f| && (IsPending(f[i]) || IsCompleted(f[i])) && ParseIsoDate(f[i].dueDate).None? {
      var i :| 0 <= i < |f| && (IsPending(f[i]) || IsCompleted(f[i])) && ParseIsoDate(f[i].dueDate).None?;
      DueDateUnparsed(f, i);
    } else {
      forall j | 0 <= j < |p| ensures ParseIsoDate(p[j].dueDate).Some? {
        var i :| 0 <= i < |f| && f[i] == p[j];
      }
      forall j | 0 <= j < |c| ensures ParseIsoDate(c[j].dueDate).Some? {
        var i :| 0 <= i < |f| && f[i] == c[j];
      }
    }
  }

  /** One pending or completed task whose due date does not parse makes its group fail to parse. */
  lemma DueDateUnparsed(f: seq<Task>, i: int)
    requires 0 <= i < |f| && (IsPending(f[i]) || IsCompleted(f[i])) && ParseIsoDate(f[i].dueDate).None?
    ensures !DatesParse(PendingPart(f)) || !DatesParse(CompletedPart(f))
  {
    if IsPending(f[i]) {
      var p := PendingPart(f);
      var j :| 0 <= j < |p| && p[j] == f[i];
    } else {
      var c := CompletedPart(f);
      var j :| 0 <= j < |c| && c[j] == f[i];
    }
  }

  /** The due date of `t` parses, to its sort key. */
  predicate DueParsed(t: Task) {
    ParseIsoDate(t.dueDate) == Some(DueKey(t))
  }

  /** Sorting one status group by due date keeps its members, with their parsed dates. */
  lemma DueDateGroupMembers(g: seq<Task>, inGroup: Task -> bool)
    requires DatesParse(g) && forall i :: 0 <= i < |g| ==> inGroup(g[i])
    ensures var s := SortBy(g, DueKey, DateLe);
            && |s| == |g|
            && forall i :: 0 <= i < |s| ==> inGroup(s[i]) && DueParsed(s[i])
  {
    var s := SortBy(g, DueKey, DateLe);
    SortByPermutes(g, DueKey, DateLe);
    assert |s| == |g| by { assert |multiset(s)| == |multiset(g)|; }
    forall i | 0 <= i < |s| ensures inGroup(s[i]) && DueParsed(s[i]) {
      assert s[i] in multiset(g);
      var j :| 0 <= j < |g| && g[j] == s[i];
    }
  }

  /** Sorting one group by due date orders it by date and keeps equal dates in their order. */
  lemma DueDateGroupOrder(g: seq<Task>)
    ensures SortedBy(SortBy(g, DueKey, DateLe), DueKey, DateLe)
    ensures forall d :: WithKey(SortBy(g, DueKey, DateLe), DueKey, d) == WithKey(g, DueKey, d)
  {
    DateLeTotalOrder();
    SortBySorted(g, DueKey, DateLe);
    forall d ensures WithKey(SortBy(g, DueKey, DateLe), DueKey, d) == WithKey(g, DueKey, d) {
      SortByStable(g, DueKey, DateLe, d);
    }
  }

  /** The due-date sort lists all pending tasks, then all completed ones, every due date parsed. */
  lemma DueDateSortGroups(f: seq<Task>)
    requires Arrange(f, "due_date").Some?
    ensures var r, n := Arrange(f, "due_date").value, |PendingPart(f)|;
            && n <= |r|
            && (forall i :: 0 <= i < n ==> IsPending(r[i]) && DueParsed(r[i]))
            && (forall i :: n <= i < |r| ==> IsCompleted(r[i]) && DueParsed(r[i]))
  {
    var p, c := PendingPart(f), CompletedPart(f);
    var sp, sc := SortBy(p, DueKey, DateLe), SortBy(c, DueKey, DateLe);
    DueDateGroupMembers(p, IsPending);
    DueDateGroupMembers(c, IsCompleted);
    ConcatParts(sp, sc, (t: Task) => IsPending(t) && DueParsed(t), (t: Task) => IsCompleted(t) && DueParsed(t));
  }

  /**
    Within each of the two groups the due-date sort is ascending by parsed due
    date, with equal dates in their original order.
  */
  lemma DueDateSortOrder(f: seq<Task>)
    requires Arrange(f, "due_date").Some?
    ensures var r, n := Arrange(f, "due_date").value, |PendingPart(f)|;
            && n <= |r|
            && SortedBy(r[..n], DueKey, DateLe)
            && SortedBy(r[n..], DueKey, DateLe)
            && (forall d :: WithKey(r[..n], DueKey, d) == WithKey(PendingPart(f), DueKey, d))
            && (forall d :: WithKey(r[n..], DueKey, d) == WithKey(CompletedPart(f), DueKey, d))
  {
    var p, c := PendingPart(f), CompletedPart(f);
    var sp, sc := SortBy(p, DueKey, DateLe), SortBy(c, DueKey, DateLe);
    DueDateGroupMembers(p, IsPending);
    DueDateGroupOrder(p);
    DueDateGroupOrder(c);
    var r := sp + sc;
    assert r[..|p|] == sp;
    assert r[|p|..] == sc;
  }

  /** The priority sort: ascending rank, ties in their original order. */
  lemma PrioritySortOrder(f: seq<Task>)
    ensures Arrange(f, "priority").Some?
    ensures var r := Arrange(f, "priority").value;
            && multiset(r) == multiset(f)
            && SortedBy(r, PriorityRank, IntLe)
            && forall k :: WithKey(r, PriorityRank, k) == WithKey(f, PriorityRank, k)
  {
    IntLeTotalOrder();
    SortByPermutes(f, PriorityRank, IntLe);
    SortBySorted(f, PriorityRank, IntLe);
    forall k ensures WithKey(SortBy(f, PriorityRank, IntLe), PriorityRank, k) == WithKey(f, PriorityRank, k) {
      SortByStable(f, PriorityRank, IntLe, k);
    }
  }

  /**
    No stored priority is in the rank table, so every task ranks 99 and the
    priority sort leaves well-formed tasks in their original order.
  */
  lemma PrioritySortKeepsOrder(f: seq<Task>)
    requires forall i :: 0 <= i < |f| ==> WellFormed(f[i])
    ensures Arrange(f, "priority") == Some(f)
  {
    forall i | 0 <= i < |f| ensures PriorityRank(f[i]) == 99 {
      assert |f[i].priority| >= 15;
    }
    IntLeTotalOrder();
    SortByEqualKeys(f, PriorityRank, IntLe, 99);
  }

  /** The title sort: ascending by lower-cased title, ties in their original order. */
  lemma TitleSortOrder(f: seq<Task>)
    ensures Arrange(f, "title").Some?
    ensures var r := Arrange(f, "title").value;
            && multiset(r) == multiset(f)
            && SortedBy(r, TitleKey, StrLe)
            && forall k :: WithKey(r, TitleKey, k) == WithKey(f, TitleKey, k)
  {
    StrLeTotalOrder();
    SortByPermutes(f, TitleKey, StrLe);
    SortBySorted(f, TitleKey, StrLe);
    forall k ensures WithKey(SortBy(f, TitleKey, StrLe), TitleKey, k) == WithKey(f, TitleKey, k) {
      SortByStable(f, TitleKey, StrLe, k);
    }
  }

  /** Any other sort key leaves the filtered tasks as they are. */
  lemma OtherSortKeepsOrder(f: seq<Task>, sortBy: string)
    requires sortBy != "due_date" && sortBy != "priority" && sortBy != "title"
    ensures Arrange(f, sortBy) == Some(f)
  {
  }

  /** A sort step that succeeds on well-formed tasks returns exactly the tasks it was given, each once. */
  lemma ArrangePermutes(f: seq<Task>, sortBy: string)
    requires forall i :: 0 <= i < |f| ==> WellFormed(f[i])
    requires Arrange(f, sortBy).Some?
    ensures multiset(Arrange(f, sortBy).value) == multiset(f)
  {
    if sortBy == "due_date" {
      SortByPermutes(PendingPart(f), DueKey, DateLe);
      SortByPermutes(CompletedPart(f), DueKey, DateLe);
      forall i | 0 <= i < |f| ensures IsPending(f[i]) <==> !IsCompleted(f[i]) {
        assert WellFormed(f[i]);
      }
      FilterPartition(f, IsPending, IsCompleted);
    } else if sortBy == "priority" {
      PrioritySortOrder(f);
    } else if sortBy == "title" {
      TitleSortOrder(f);
    }
  }

  /** Whenever the view succeeds, it shows exactly the filtered tasks, each once. */
  lemma ViewPermutes(tasks: seq<Task>, filterStatus: string, sortBy: string)
    requires forall i :: 0 <= i < |tasks| ==> WellFormed(tasks[i])
    requires View(tasks, filterStatus, sortBy).Some?
    ensures multiset(View(tasks, filterStatus, sortBy).value) == multiset(FilterByStatus(tasks, filterStatus))
  {
    var f := FilterByStatus(tasks, filterStatus);
    forall i | 0 <= i < |f| ensures WellFormed(f[i]) {
      assert f[i] in tasks;
    }
    ArrangePermutes(f, sortBy);
  }

  /** Some task in `ts` has a due date that does not parse. */
  predicate SomeDueUnparsed(ts: seq<Task>) {
    exists i :: 0 <= i < |ts| && ParseIsoDate(ts[i].dueDate).None?
  }

  /** Reordering tasks does not change whether all their due dates parse. */
  lemma PermutedDatesParse(f: seq<Task>, r: seq<Task>)
    requires multiset(r) == multiset(f)
    ensures DatesParse(r) <==> !SomeDueUnparsed(f)
  {
    if SomeDueUnparsed(f) {
      var i :| 0 <= i < |f| && ParseIsoDate(f[i].dueDate).None?;
      assert f[i] in multiset(r);
      var j :| 0 <= j < |r| && r[j] == f[i];
    } else {
      forall j | 0 <= j < |r| ensures ParseIsoDate(r[j].dueDate).Some? {
        assert r[j] in multiset(f);
        var i :| 0 <= i < |f| && f[i] == r[j];
      }
    }
  }

  /** On well-formed tasks the due-date sort and the display after it fail exactly on an unparsable due date. */
  lemma DueDateViewFails(f: seq<Task>)
    requires forall i :: 0 <= i < |f| ==> WellFormed(f[i])
    ensures Arrange(f, "due_date").None? || !DatesParse(Arrange(f, "due_date").value) <==> SomeDueUnparsed(f)
  {
    DueDateSortFails(f);
    if Arrange(f, "due_date").Some? {
      DueDateSortGroups(f);
    } else {
      var i :| 0 <= i < |f| && (IsPending(f[i]) || IsCompleted(f[i])) && ParseIsoDate(f[i].dueDate).None?;
    }
    if SomeDueUnparsed(f) {
      var i :| 0 <= i < |f| && ParseIsoDate(f[i].dueDate).None?;
      assert WellFormed(f[i]);
    }
  }

  /**
    On well-formed tasks, whatever the sort key, view_tasks raises exactly when
    one of the filtered tasks has a due date that does not parse.
  */
  lemma ViewFails(tasks: seq<Task>, filterStatus: string, sortBy: string)
    requires forall i :: 0 <= i < |tasks| ==> WellFormed(tasks[i])
    ensures View(tasks, filterStatus, sortBy).None? <==> SomeDueUnparsed(FilterByStatus(tasks, filterStatus))
  {
    var f := FilterByStatus(tasks, filterStatus);
    forall i | 0 <= i < |f| ensures WellFormed(f[i]) {
      assert f[i] in tasks;
    }
    if sortBy == "due_date" {
      DueDateViewFails(f);
    } else {
      ArrangePermutes(f, sortBy);
      PermutedDatesParse(f, Arrange(f, sortBy).value);
    }
  }
}
