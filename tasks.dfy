/**
  The Task record of the study manager: construction with validation and
  normalisation, the dictionary form it is saved in, and the due-date
  label that Task.display derives from the days left.
*/
module Tasks {
  import opened Wrappers
  import opened Text

  /** The priorities a task may be given, exactly as the application lists them. */
  const AllowedPriorities: seq<string> := ["Highest Priorities", "Medium Priorities", "Lowest Priorities"]

  const AllowedStatuses: seq<string> := ["Pending", "Completed"]

  /** What a validated priority looks like once capitalize() has run on it. */
  const StoredPriorities: seq<string> := ["Highest priorities", "Medium priorities", "Lowest priorities"]

  function LowerAll(ss: seq<string>): seq<string> {
    seq(|ss|, i requires 0 <= i < |ss| => Lower(ss[i]))
  }

  /** validate_priority: case-insensitive membership in the allowed priorities. */
  predicate ValidatePriority(p: string) {
    Lower(p) in LowerAll(AllowedPriorities)
  }

  /** validate_status: case-insensitive membership in the allowed statuses. */
  predicate ValidateStatus(s: string) {
    Lower(s) in LowerAll(AllowedStatuses)
  }

  /** The lower-cased allowed priorities that validate_priority compares against. */
  lemma LoweredAllowedPriorities()
    ensures LowerAll(AllowedPriorities) == ["highest priorities", "medium priorities", "lowest priorities"]
  {
    assert Lower("Highest Priorities") == "highest priorities";
    assert Lower("Medium Priorities") == "medium priorities";
    assert Lower("Lowest Priorities") == "lowest priorities";
  }

  lemma LoweredAllowedStatuses()
    ensures LowerAll(AllowedStatuses) == ["pending", "completed"]
  {
    assert Lower("Pending") == "pending";
    assert Lower("Completed") == "completed";
  }

  lemma CapitalizedPriorityLiterals()
    ensures Capitalize("highest priorities") == "Highest priorities"
    ensures Capitalize("medium priorities") == "Medium priorities"
    ensures Capitalize("lowest priorities") == "Lowest priorities"
  {
    CapitalizedLiteral("highest priorities", "Highest priorities");
    CapitalizedLiteral("medium priorities", "Medium priorities");
    CapitalizedLiteral("lowest priorities", "Lowest priorities");
  }

  lemma CapitalizedStatusLiterals()
    ensures Capitalize("pending") == "Pending"
    ensures Capitalize("completed") == "Completed"
  {
    CapitalizedLiteral("pending", "Pending");
    CapitalizedLiteral("completed", "Completed");
  }

  lemma CapitalizedLiteral(s: string, c: string)
    requires s != [] && c != [] && c[0] == UpperChar(s[0]) && c[1..] == Lower(s[1..])
    ensures Capitalize(s) == c
  {
  }

  lemma StoredPrioritiesLowered()
    ensures Lower("Highest priorities") == "highest priorities"
    ensures Lower("Medium priorities") == "medium priorities"
    ensures Lower("Lowest priorities") == "lowest priorities"
  {
  }

  lemma StoredStatusesLowered()
    ensures Lower("Pending") == "pending"
    ensures Lower("Completed") == "completed"
  {
  }

  lemma ValidatePriorityCases(p: string)
    ensures ValidatePriority(p) <==> Lower(p) in ["highest priorities", "medium priorities", "lowest priorities"]
  {
    LoweredAllowedPriorities();
  }

  lemma ValidateStatusCases(s: string)
    ensures ValidateStatus(s) <==> Lower(s) == "pending" || Lower(s) == "completed"
  {
    LoweredAllowedStatuses();
  }

  /** The names the priority sort ranks ("High", "Medium", "Low") are not valid priorities. */
  lemma ShortPriorityNamesRejected()
    ensures !ValidatePriority("High") && !ValidatePriority("Medium") && !ValidatePriority("Low")
  {
    ValidatePriorityCases("High");
    ValidatePriorityCases("Medium");
    ValidatePriorityCases("Low");
  }

  /** A valid priority is stored as one of three fixed strings, which validate again. */
  lemma CapitalizedPriority(p: string)
    requires ValidatePriority(p)
    ensures Capitalize(p) in StoredPriorities
    ensures ValidatePriority(Capitalize(p))
  {
    ValidatePriorityCases(p);
    CapitalizeIgnoresCase(p);
    LowerCapitalize(p);
    ValidatePriorityCases(Capitalize(p));
    CapitalizedPriorityLiterals();
  }

  /** A valid status is stored as "Pending" or "Completed". */
  lemma CapitalizedStatus(s: string)
    requires ValidateStatus(s)
    ensures Capitalize(s) == "Pending" || Capitalize(s) == "Completed"
  {
    ValidateStatusCases(s);
    CapitalizeIgnoresCase(s);
    CapitalizedStatusLiterals();
  }

  /** One academic task; `createdAt` is the creation timestamp, an opaque text here. */
  datatype Task = Task(
    id: int,
    title: string,
    description: string,
    dueDate: string,
    priority: string,
    status: string,
    createdAt: string)

  /** The ValueError messages of the Task constructor, in the order it checks them. */
  datatype ValidationError =
    | NonPositiveId
    | MissingField
    | InvalidPriority(priority: string)
    | InvalidStatus(status: string)

  /** What every successfully constructed task satisfies. The title and description may be empty. */
  predicate WellFormed(t: Task) {
    && t.id > 0
    && IsStripped(t.title)
    && IsStripped(t.description)
    && t.dueDate != []
    && t.priority in StoredPriorities
    && (t.status == "Pending" || t.status == "Completed")
  }

  /**
    Task(task_id, title, description, due_date, priority, status): validates,
    then strips the title and description and capitalizes priority and status.
    The emptiness check runs before stripping.
  */
  function NewTask(id: int, title: string, description: string, dueDate: string,
                   priority: string, status: string, createdAt: string): (r: Result<Task, ValidationError>)
    ensures r.Ok? <==> id > 0 && title != [] && description != [] && dueDate != []
                       && ValidatePriority(priority) && ValidateStatus(status)
    ensures id <= 0 ==> r == Err(NonPositiveId)
    ensures id > 0 && (title == [] || description == [] || dueDate == []) ==> r == Err(MissingField)
    ensures r == Err(InvalidPriority(priority)) <==>
              id > 0 && title != [] && description != [] && dueDate != [] && !ValidatePriority(priority)
    ensures r == Err(InvalidStatus(status)) <==>
              id > 0 && title != [] && description != [] && dueDate != [] && ValidatePriority(priority)
              && !ValidateStatus(status)
    ensures r.Ok? ==> WellFormed(r.value)
    ensures r.Ok? ==> && r.value.id == id && r.value.dueDate == dueDate && r.value.createdAt == createdAt
                      && r.value.title == Strip(title) && r.value.description == Strip(description)
                      && r.value.priority == Capitalize(priority) && r.value.status == Capitalize(status)
  {
    if id <= 0 then Err(NonPositiveId)
    else if title == [] || description == [] || dueDate == [] then Err(MissingField)
    else if !ValidatePriority(priority) then Err(InvalidPriority(priority))
    else if !ValidateStatus(status) then Err(InvalidStatus(status))
    else
      CapitalizedPriority(priority);
      CapitalizedStatus(status);
      Ok(Task(id, Strip(title), Strip(description), dueDate, Capitalize(priority), Capitalize(status), createdAt))
  }

  /** A whitespace-only title passes the emptiness check and is stored empty. */
  lemma BlankTitleAccepted(id: int, title: string, description: string, dueDate: string,
                           priority: string, status: string, createdAt: string)
    requires title != [] && AllSpace(title)
    requires id > 0 && description != [] && dueDate != [] && ValidatePriority(priority) && ValidateStatus(status)
    ensures NewTask(id, title, description, dueDate, priority, status, createdAt).Ok?
    ensures NewTask(id, title, description, dueDate, priority, status, createdAt).value.title == []
  {
    StripAllSpace(title);
  }

  /** A JSON value as json.load returns it; `JOther` is any value that is neither int nor str. */
  datatype Json = JInt(n: int) | JStr(s: string) | JOther

  /** A decoded JSON object. */
  type Record = map<string, Json>

  /** The reasons Task.from_dict raises. */
  datatype DecodeError =
    | NotAnObject
    | MissingKey(key: string)
    | NotText(key: string)
    | Rejected(error: ValidationError)

  /** Task.to_dict. */
  function ToDict(t: Task): Record {
    map[
      "id" := JInt(t.id),
      "title" := JStr(t.title),
      "description" := JStr(t.description),
      "due_date" := JStr(t.dueDate),
      "priority" := JStr(t.priority),
      "status" := JStr(t.status),
      "created_at" := JStr(t.createdAt)]
  }

  predicate IsText(d: Record, key: string) {
    key in d && d[key].JStr?
  }

  /** `d.get(key, fallback)` when that is text; None when the stored value is not text. */
  function TextOr(d: Record, key: string, fallback: string): (r: Option<string>)
    ensures key !in d ==> r == Some(fallback)
    ensures key in d ==> (r.Some? <==> d[key].JStr?) && (r.Some? ==> d[key] == JStr(r.value))
  {
    if key !in d then Some(fallback)
    else if d[key].JStr? then Some(d[key].s)
    else None
  }

  /**
    Task.from_dict: the four required keys are looked up first, priority and
    status default to "Medium" and "Pending", and the constructor runs with a
    fresh creation time `now`; the stored created_at is ignored.
  */
  function FromDict(d: Record, now: string): (r: Result<Task, DecodeError>)
    ensures "id" !in d ==> r == Err(MissingKey("id"))
    ensures "id" in d && "title" !in d ==> r == Err(MissingKey("title"))
    ensures "id" in d && "title" in d && "description" !in d ==> r == Err(MissingKey("description"))
    ensures "id" in d && "title" in d && "description" in d && "due_date" !in d ==> r == Err(MissingKey("due_date"))
    ensures "id" in d && "title" in d && "description" in d && "due_date" in d && !d["id"].JInt? ==>
              r == Err(Rejected(NonPositiveId))
    ensures r.Ok? ==> && "id" in d && d["id"] == JInt(r.value.id)
                      && IsText(d, "title") && IsText(d, "description") && d["due_date"] == JStr(r.value.dueDate)
                      && WellFormed(r.value) && r.value.createdAt == now
    ensures "id" in d && d["id"].JInt? && IsText(d, "title") && IsText(d, "description") && IsText(d, "due_date")
            && TextOr(d, "priority", "Medium").Some? && TextOr(d, "status", "Pending").Some? ==>
              var t := NewTask(d["id"].n, d["title"].s, d["description"].s, d["due_date"].s,
                               TextOr(d, "priority", "Medium").value, TextOr(d, "status", "Pending").value, now);
              && (r.Ok? <==> t.Ok?)
              && (t.Ok? ==> r.value == t.value)
              && (t.Err? ==> r == Err(Rejected(t.error)))
  {
    if "id" !in d then Err(MissingKey("id"))
    else if "title" !in d then Err(MissingKey("title"))
    else if "description" !in d then Err(MissingKey("description"))
    else if "due_date" !in d then Err(MissingKey("due_date"))
    else
      var priority := TextOr(d, "priority", "Medium");
      var status := TextOr(d, "status", "Pending");
      if !d["id"].JInt? then Err(Rejected(NonPositiveId))
      else if !d["title"].JStr? then Err(NotText("title"))
      else if !d["description"].JStr? then Err(NotText("description"))
      else if !d["due_date"].JStr? then Err(NotText("due_date"))
      else if priority.None? then Err(NotText("priority"))
      else if status.None? then Err(NotText("status"))
      else
        match NewTask(d["id"].n, d["title"].s, d["description"].s, d["due_date"].s, priority.value, status.value, now)
        case Ok(t) => Ok(t)
        case Err(e) => Err(Rejected(e))
  }

  /** The stored priorities validate again and capitalize() leaves them as they are. */
  lemma StoredPriorityStable(p: string)
    requires p in StoredPriorities
    ensures ValidatePriority(p) && Capitalize(p) == p
  {
    ValidatePriorityCases(p);
    StoredPrioritiesLowered();
    CapitalizedPriorityLiterals();
    CapitalizeIgnoresCase(p);
  }

  lemma StoredStatusStable(s: string)
    requires s == "Pending" || s == "Completed"
    ensures ValidateStatus(s) && Capitalize(s) == s
  {
    ValidateStatusCases(s);
    StoredStatusesLowered();
    CapitalizedStatusLiterals();
    CapitalizeIgnoresCase(s);
  }

  /**
    from_dict(to_dict(t)) gives back `t` except for its creation time, provided
    the stored title and description are not empty.
  */
  lemma RoundTrip(t: Task, now: string)
    requires WellFormed(t) && t.title != [] && t.description != []
    ensures FromDict(ToDict(t), now) == Ok(t.(createdAt := now))
  {
    var d := ToDict(t);
    assert d["id"] == JInt(t.id) && d["title"] == JStr(t.title) && d["description"] == JStr(t.description);
    assert d["due_date"] == JStr(t.dueDate) && d["priority"] == JStr(t.priority) && d["status"] == JStr(t.status);
    StoredPriorityStable(t.priority);
    StoredStatusStable(t.status);
    StripStripped(t.title);
    StripStripped(t.description);
  }

  /** A task stored with an empty title or description cannot be read back. */
  lemma RoundTripBlank(t: Task, now: string)
    requires WellFormed(t) && (t.title == [] || t.description == [])
    ensures FromDict(ToDict(t), now) == Err(Rejected(MissingField))
  {
    var d := ToDict(t);
    assert d["id"] == JInt(t.id) && d["title"] == JStr(t.title) && d["description"] == JStr(t.description);
    assert d["due_date"] == JStr(t.dueDate) && d["priority"] == JStr(t.priority) && d["status"] == JStr(t.status);
  }

  /** A record without a priority always fails: the default "Medium" is not a valid priority. */
  lemma MissingPriorityFails(d: Record, now: string)
    requires "priority" !in d
    ensures FromDict(d, now).Err?
  {
    ShortPriorityNamesRejected();
  }

  /** A record without a status that does load is Pending. */
  lemma MissingStatusDefaults(d: Record, now: string)
    requires "status" !in d && FromDict(d, now).Ok?
    ensures FromDict(d, now).value.status == "Pending"
  {
    StoredStatusStable("Pending");
  }

  /** The note Task.display adds after the due date. */
  datatype DueLabel =
    | Overdue
    | DueToday
    | DueSoon(days: int)
    | Upcoming(days: int)
    | ShownCompleted

  /** The due-date branch of Task.display, given the whole days left until the due date. */
  function DueLabelOf(t: Task, daysLeft: int): (r: DueLabel)
    ensures r == ShownCompleted <==> t.status != "Pending"
    ensures r == Overdue <==> t.status == "Pending" && daysLeft < 0
    ensures r == DueToday <==> t.status == "Pending" && daysLeft == 0
    ensures r.DueSoon? <==> t.status == "Pending" && 1 <= daysLeft <= 3
    ensures r.Upcoming? <==> t.status == "Pending" && daysLeft > 3
    ensures r.DueSoon? || r.Upcoming? ==> r.days == daysLeft
  {
    if t.status == "Pending" then
      if daysLeft < 0 then Overdue
      else if daysLeft == 0 then DueToday
      else if daysLeft <= 3 then DueSoon(daysLeft)
      else Upcoming(daysLeft)
    else ShownCompleted
  }

  /**
    A ranking of the labels from most to least urgent. The application has no
    such ranking; it is introduced here only to state that the labels grow less
    urgent as the days left grow.
  */
  function Urgency(l: DueLabel): nat {
    match l
    case Overdue => 3
    case DueToday => 2
    case DueSoon(_) => 1
    case Upcoming(_) => 0
    case ShownCompleted => 0
  }

  /** For a pending task, fewer days left never makes the label less urgent. */
  lemma UrgencyMonotone(t: Task, d1: int, d2: int)
    requires t.status == "Pending" && d1 <= d2
    ensures Urgency(DueLabelOf(t, d1)) >= Urgency(DueLabelOf(t, d2))
  {
  }
}
