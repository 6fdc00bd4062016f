# Student Study & Deadline Manager — a verified model of its task core

The application is a console to-do list for students. Each task has an id, a title, a
description, a due date, a priority, a status and a creation time. Tasks live in a JSON file.
The user can add a task, list the tasks (optionally filtered by status and sorted by due
date, priority or title), change a task's status, and delete a task.

This Dafny project models the part of `App.py` that decides what happens to the tasks:

- `wrappers.dfy` — `Option` and `Result`.
- `text.dfy` — the string operations the application relies on:
  - `str.strip()` with Python's whitespace set;
  - ASCII `lower()` and `capitalize()`;
  - code-point string order.
- `sorting.dfy` — list comprehensions with a condition (`Filter`), and Python's stable
  `sorted(..., key=...)` (`SortBy`). It proves that `SortBy` sorts, permutes and is stable.
- `dates.dfy` — `strptime(s, '%Y-%m-%d')` on zero-padded text, and chronological order.
- `tasks.dfy` — the `Task` class as a value:
  - the constructor's validation and normalisation;
  - `validate_priority` and `validate_status`;
  - `to_dict` and `from_dict`, with their round trip;
  - the due-date label of `display`.
- `storage.dfy` — what `_load_tasks` reads and `_save_tasks` writes:
  - the all-or-nothing decode of the file;
  - the id counter rebuilt from the largest id;
  - save-then-load.
- `listing.dfy` — the filter and the three sorts of `view_tasks`.
- `manager.dfy` — `StudyManager` as a class. Its methods `LoadTasks`, `SaveTasks`, `AddTask`,
  `ViewTasks`, `UpdateTaskStatus` and `DeleteTask` modify `tasks`, `nextId` and the saved
  file, modelled as a ghost snapshot plus a save counter.

Some behaviour of the code is surprising, and the model keeps it as written:

- The allowed priorities are "Highest Priorities", "Medium Priorities" and "Lowest Priorities".
  They are stored after `capitalize()`, as "Highest priorities" and so on.
- The priority sort ranks "High", "Medium" and "Low". So every stored task ranks 99, and the
  priority sort never reorders (`Listing.PrioritySortKeepsOrder`).
- `from_dict` defaults a missing priority to "Medium", which is not a valid priority. So a
  record without a priority never loads (`Tasks.MissingPriorityFails`).
- A whitespace-only title passes the emptiness check and is stored as "". Once saved, such a
  task makes the whole file fail to load (`Tasks.BlankTitleAccepted`,
  `Storage.BlankTaskSpoilsLoad`).
- Ids are never reused within a session. But the counter is rebuilt from the file at start-up,
  so the id of a deleted newest task comes back in the next session
  (`Manager.ReloadReusesLargestId`).

Where the docstring of `Task.__init__` disagrees with the code (it names the priorities
"High", "Medium" and "Low"), the model follows the code.

## Model

| member | source | states |
|---|---|---|
| Text.Strip | App.py:53-54 | The result is the input with all leading and trailing Python whitespace removed: it is stripped, and it occurs in the input with only whitespace before and after it. |
| Text.TrimsUnique | App.py:53-54 | There is only one such trimmed result, so `Strip` is the one `str.strip()` gives. |
| Text.TrimsIsStrip | App.py:53-54 | Any text that is stripped and sits in the input with only whitespace around it is exactly what `Strip` returns. |
| Text.TrimsEmpty | App.py:45-54 | A trimmed text is empty exactly when the input is all whitespace. |
| Text.StripStripped | App.py:53-54 | A text with no whitespace at either end is left unchanged by stripping. |
| Text.StripIdempotent | App.py:53-54 | Stripping twice is stripping once. A re-loaded task keeps its title and description. |
| Text.StripAllSpace | App.py:45-53 | A whitespace-only text strips to the empty text. |
| Text.CapitalizeIgnoresCase | App.py:56-57 | `capitalize()` depends only on the lower-cased input. |
| Text.LowerCapitalize | App.py:56-57 | Lower-casing a capitalized text gives the lower-cased text, so validation is unchanged by capitalization. |
| Text.CapitalizeIdempotent | App.py:189-192 | Capitalizing twice (once in `add_task`, again in the constructor) is capitalizing once. |
| Text.StrLeTotal | App.py:242 | String comparison is total. Reflexivity, antisymmetry and transitivity are separate lemmas beside it. |
| Sorting.Filter | App.py:223 | A conditional comprehension keeps exactly the elements that satisfy the condition, and no more elements than it was given. |
| Sorting.FilterConcat | App.py:326 | Filtering distributes over concatenation, so the kept elements stay in their order. |
| Sorting.FilterPartition | App.py:235-237 | Two complementary filters split the input: their multisets add up to the input's. |
| Sorting.FilterDrops | App.py:326 | A filter that rejects some element returns strictly fewer elements. |
| Sorting.ConcatParts | App.py:235-237 | A property of each element of two lists holds at the matching positions of their concatenation. |
| Sorting.SortByPermutes | App.py:235-242 | `sorted` returns a permutation of its input. |
| Sorting.SortBySorted | App.py:235-242 | For a total order on the keys, `sorted` returns its input in ascending key order. |
| Sorting.SortByStable | App.py:235-242 | `sorted` is stable: the elements with any one key come out in their input order. |
| Sorting.SortByEqualKeys | App.py:240 | When all keys are equal, `sorted` returns its input unchanged. |
| Dates.ParseIsoDate | App.py:235-236 | A date that parses is a valid Gregorian date in years 1 to 9999, and formatting it gives back exactly the parsed text. |
| Dates.ParseFormat | App.py:235-236 | Every valid date parses back from its `YYYY-MM-DD` text. |
| Dates.NumberOfDigits | App.py:235-236 | The zero-padded decimal digits of a number read back as that number. |
| Dates.DigitsOfNumber | App.py:235-236 | A string of digits is the zero-padded rendering of the number it spells. |
| Dates.FormatShapeDate | App.py:235-236 | Formatting the date that a `YYYY-MM-DD` text spells gives back exactly that text. |
| Dates.DateLeTotalOrder | App.py:235-236 | Chronological order on dates is a total order. |
| Tasks.ValidatePriorityCases | App.py:374-376 | A priority is valid exactly when its lower-case form is one of the three lower-cased allowed names. |
| Tasks.ValidateStatusCases | App.py:378-380 | A status is valid exactly when its lower-case form is "pending" or "completed". |
| Tasks.ShortPriorityNamesRejected | App.py:374-376 | "High", "Medium" and "Low" are not valid priorities. |
| Tasks.CapitalizedPriority | App.py:47-56 | A valid priority is stored as one of the three capitalized names, which validates again. |
| Tasks.CapitalizedStatus | App.py:49-57 | A valid status is stored as exactly "Pending" or "Completed". |
| Tasks.NewTask | App.py:43-58 | The constructor succeeds iff the id is positive, the title, description and due date are non-empty, and priority and status are valid. Each failure gives the error of the first failed check. A new task is well formed, with stripped text and capitalized priority and status. |
| Tasks.BlankTitleAccepted | App.py:45-53 | A whitespace-only title is accepted and stored empty. |
| Tasks.FromDict | App.py:74-83 | The four required keys are looked up in order (id, title, description, due_date), each missing one failing with its name, and a non-integer id fails as the constructor's id check. When the id is an integer and the other fields are text (priority and status defaulting to "Medium" and "Pending"), the result is exactly the constructor's on those fields, its error wrapped as a rejection. A rebuilt task is well formed, carries the record's id and due date, and gets a fresh creation time. |
| Tasks.TextOr | App.py:81-82 | A missing key gives the default. A present key gives its value exactly when that value is text. |
| Tasks.StoredPriorityStable | App.py:47-56 | A stored priority validates again and is unchanged by capitalization. |
| Tasks.StoredStatusStable | App.py:49-57 | A stored status validates again and is unchanged by capitalization. |
| Tasks.RoundTrip | App.py:60-83 | Reading back the saved dictionary of a task with a non-empty title and description gives the same task with a new creation time. |
| Tasks.RoundTripBlank | App.py:45-83 | A task with an empty title or description cannot be read back: the constructor reports missing fields. |
| Tasks.MissingPriorityFails | App.py:81 | A record without a priority never rebuilds, because the default "Medium" is invalid. |
| Tasks.MissingStatusDefaults | App.py:82 | A record without a status that does rebuild is Pending. |
| Tasks.DueLabelOf | App.py:113-124 | A non-pending task shows "Completed". A pending one is overdue iff days left < 0, due today iff 0, "day(s) left!" iff 1 to 3, and "days left" iff more than 3, carrying the day count. |
| Tasks.UrgencyMonotone | App.py:113-124 | For a pending task, fewer days left never gives a less urgent label. |
| Storage.MapAll | App.py:152 | A comprehension of calls that may raise succeeds iff every call succeeds. It then returns every result in order. |
| Storage.DecodeAllSpec | App.py:152 | Loading the decoded list succeeds iff every element rebuilds, and then keeps length and order. |
| Storage.DecodedWellFormed | App.py:152 | Every task of a successful load is well formed. |
| Storage.MaxId | App.py:154 | The largest id is one of the ids and is at least every id. |
| Storage.NextIdAfterLoad | App.py:153-156 | After a load the counter is 1 for no tasks. Otherwise it is one past an existing id, and above every id. |
| Storage.LoadAfterSave | App.py:152-174 | Loading the file just saved gives the same tasks, re-stamped, when no title or description is empty. |
| Storage.SavedItemLoads | App.py:152-174 | One saved record reads back as its task, re-stamped, when its title and description are not empty. |
| Storage.BlankTaskSpoilsLoad | App.py:152-165 | One saved task with an empty title or description makes the whole saved list fail to load. |
| Listing.FilterByStatus | App.py:221-223 | Without a filter every task is kept. With one, exactly the tasks whose status equals the capitalized filter are kept. |
| Listing.StrLeTotalOrder | App.py:242 | The title key order is a total order. |
| Listing.IntLeTotalOrder | App.py:239-240 | The priority rank order is a total order. |
| Listing.DueDateSortFails | App.py:235-236 | The due-date sort raises iff some pending or completed task has a due date that does not parse. |
| Listing.DueDateSortGroups | App.py:233-237 | A successful due-date sort puts exactly as many pending tasks first as the filter kept, then only completed ones. Every listed due date parses. |
| Listing.DueDateGroupOrder | App.py:235-236 | One group sorted by due date is in ascending date order, with tasks of equal dates in their input order. |
| Listing.DueDateSortOrder | App.py:233-237 | The due-date sort lists all pending tasks, then all completed ones. Each group is in ascending date order, with equal dates in input order. |
| Listing.PrioritySortOrder | App.py:238-240 | The priority sort is a permutation in ascending rank (unknown priorities rank 99), stable within a rank. |
| Listing.PrioritySortKeepsOrder | App.py:239-240 | For well-formed tasks the priority sort returns the list unchanged: every stored priority ranks 99. |
| Listing.TitleSortOrder | App.py:241-242 | The title sort is a permutation in ascending lower-cased title order, stable for equal lower-cased titles. |
| Listing.OtherSortKeepsOrder | App.py:243-244 | Any other sort key leaves the filtered list unchanged. |
| Listing.ViewPermutes | App.py:221-244 | A listing that succeeds shows each filtered task exactly once. |
| Listing.ArrangePermutes | App.py:233-244 | A sort step that succeeds on well-formed tasks returns exactly the tasks it was given, each once. |
| Listing.PermutedDatesParse | App.py:246-247 | Reordering the tasks does not change whether every due date shown parses. |
| Listing.DueDateViewFails | App.py:233-247 | On well-formed tasks the due-date sort, followed by the display, fails exactly when some filtered task's due date does not parse. |
| Listing.ViewFails | App.py:221-247 | On well-formed tasks and for any sort key, `view_tasks` raises exactly when some filtered task's due date does not parse. |
| Manager.FindById | App.py:269 | The result is the index of the first task with the id, or none iff no task has it. |
| Manager.RemoveId | App.py:326 | Deletion keeps exactly the tasks whose id differs. |
| Manager.RemoveIdOrder | App.py:326 | Deletion keeps the remaining tasks in order, and removes at least one task when the id is present. |
| Manager.ReloadReusesLargestId | App.py:153-156 | After the newest task is deleted and the file is reloaded, the next id is at most the deleted id. |
| Manager.LoadedValid | App.py:152-156 | After a successful load, every task is well formed and its id is below the rebuilt counter. |
| Manager.AppendKeepsValid | App.py:192-194 | Appending a well-formed task with the counter's id and advancing the counter keeps the invariant. The new id was never issued before. |
| Manager.SetStatusKeepsValid | App.py:282-287 | Giving one task the stored form of a valid status keeps the invariant. |
| Manager.RemoveKeepsValid | App.py:326 | Removing the tasks with an id keeps the invariant, with counter and issued ids unchanged. |
| Manager.UpdateOutcomeOf | App.py:258-288 | The update reports no pending tasks iff none is pending. It reports an unknown id iff tasks are pending but none has the id. It reports no change iff the first task with the id already has the status. Otherwise it updates that first task, whose status differs. |
| Manager.DeleteOutcomeOf | App.py:300-330 | Deletion reports an empty list iff there are no tasks. It reports an unknown id iff no task has the id. It is cancelled iff the id is present but not confirmed. It deletes iff the id is present and confirmed. |
| Manager.StudyManager.constructor | App.py:139-143 | Starts empty with counter 1, then loads the file as `LoadTasks` states. |
| Manager.StudyManager.LoadTasks | App.py:146-167 | No file changes nothing. An unreadable file, or any record that fails, empties the list and resets the counter to 1. Otherwise the list is replaced by the rebuilt tasks and the counter set past the largest id. The invariant holds in every case. |
| Manager.StudyManager.SaveTasks | App.py:170-177 | The file then holds `to_dict` of every task in order, and nothing else changes. |
| Manager.StudyManager.AddTask | App.py:189-199 | The result is the constructor's outcome on the next id, the capitalized priority and status Pending. On success the new task is appended with an id never issued before, the counter moves on by one and the file is saved once. On failure nothing changes. |
| Manager.StudyManager.ViewTasks | App.py:204-249 | Returns the tasks shown, in display order: a permutation of the filtered tasks, all with the filter's status. It fails (the ValueError of `strptime`) exactly when a filtered task's due date does not parse, whether in the due-date sort or in `display`. |
| Manager.StudyManager.UpdateTaskStatus | App.py:256-293 | Exactly one outcome holds: no pending task, unknown id, status unchanged, or updated. Only in the last case is the first task with the id given the capitalized status, every other task kept, and the file saved once. |
| Manager.StudyManager.DeleteTask | App.py:296-331 | Nothing is deleted for an empty list, an unknown id or a refused confirmation. Otherwise every task with the id is removed, order is kept, the file is saved once and the counter does not move back. |

## Left out

- The menu loop, `main`, `clear_screen`, the prompts and their re-ask loops (`get_valid_input`, `get_valid_date`), the colours and the printed text are not modelled. The methods take the already-validated answers as parameters.
- File access is modelled as a `Stored` value (no file, unreadable, or a decoded list) plus a ghost snapshot of what was last written. The path, the JSON text format, encodings and write failures are not modelled.
- The wall clock is a parameter: `now` stands for `datetime.now()` in the constructor, and `daysLeft` for the day difference in `display`. All tasks of one load share one `now`.
- The listing that `update_task_status` and `delete_task` print before their prompts is not modelled. Such a listing can itself raise on an unparsable due date.
- Dates.ParseIsoDate: accepts only the zero-padded `YYYY-MM-DD` form. `strptime` also accepts one-digit months and days, a space-padded day or month (`' 5'`) and non-ASCII digits, which the model rejects.
- Text.Lower and Text.Capitalize map ASCII letters only. Python's full Unicode case mapping is not modelled.
- Tasks.FromDict: a non-text `due_date` that Python treats as truthy (a number, a list) is rejected here. Python would store it and fail only when displaying it. A JSON `true` id, which Python accepts as the integer 1, is also rejected. Both record kinds are never written by the application.
- Tasks.FromDict: which error a malformed record raises is only distinguished as far as loading needs, since every failure empties the whole load.
- Tasks are values. The in-place `task.status = new_status` of `update_task_status` is modelled as replacing that list element. Aliasing of task objects is not modelled.
- The priority and status colours of `display` are not modelled: they only choose escape codes.
- Manager.StudyManager.ViewTasks: when `display` raises part-way through the listing, the tasks printed before it are not modelled. The whole view is then None.
