# CleanTasks: the in-memory stores and the task and category services

CleanTasks is a task-and-category backend in three layers: controllers, services
and repositories. This project models the bottom two layers, which hold all of
the logic:

- **The task store** (`InMemoryTaskRepository`). A table from task id to task. It supports
  insert-or-overwrite, replace-if-present and remove, with a point lookup, a full scan
  and four filtered scans (by status, by priority, by category, and overdue relative
  to a supplied time).
- **The category store** (`InMemoryCategoryRepository`). The same kind of table for
  categories, plus a lookup by name that ignores case.
- **The category service** (`CategoryService`). It refuses blank names with
  `ArgumentException`. It refuses a name another category already holds (ignoring
  case) with `InvalidOperationException`, but a category may keep its own name. Update
  and delete of a missing id answer "none" or `false`.
- **The task service** (`TaskService`). It refuses blank titles. It checks that a
  category exists only when a category id is supplied. It creates tasks as `Pending`.
  `Complete` sets `Completed` whatever the prior status. The overdue view is one query
  against the store at the current time.

The behaviour of every method is the one its contract comment and the repository's
unit tests give.

The stores are Dafny classes whose `store` field is a `map` that `Add`, `Update` and
`Delete` reassign. The scans are loops over the table's keys. Each scan is proved to
list exactly the matching entries, each once. The services are classes that hold
references to the stores. Their methods are the same read-check-write sequences
against the stores.

- A service result is a `Result`: a value, or the exception the service throws.
- "Not found" is `Option.None`.
- A fresh `Guid` and the current time are parameters of the methods that use them.
  `Guid` is a natural number with `Guid.Empty` = 0. `DateTime` is a tick count with
  `default(DateTime)` = 0.

Two ghost fields of `TaskService` record its calls to its collaborators:

- `categoryLookups` counts category lookups by id, so "a task without a category
  never queries the category store" can be stated.
- `overdueQueries` lists the reference times of overdue queries, so "one query, with
  the current time" can be stated.

The service's own methods update these fields next to each call they make. So the
statements about them are only as strong as that bookkeeping: the stores do not
count their own calls.

`CategoryService` also keeps the invariant that no two categories share a name,
ignoring case. `Create`, `Update` and `Delete` each preserve it.

The module `Scenarios` holds clients that build fresh stores and services. They
follow the repository's unit tests and two end-to-end scenarios:

- a category deleted under a task that still refers to it;
- a task that stops being overdue once completed.

Each scenario states its expected observations as postconditions.

## Model

| member | source | states |
|---|---|---|
| `Domain.MarkCompleted` | src/CleanTasks.Application/Services/TaskService.cs:67-71 | the task `CompleteAsync` writes back has status Completed |
| `Domain.Revise` | src/CleanTasks.Application/Services/TaskService.cs:61-65 | the task `UpdateAsync` writes back keeps the stored id and creation time |
| `Domain.NoDueDateNeverOverdue` | src/CleanTasks.Infrastructure/Repositories/InMemoryTaskRepository.cs:41-45 | a task with no due date is never overdue, whatever its status and the reference time |
| `Domain.CompletedNeverOverdue` | src/CleanTasks.Application/Services/TaskService.cs:67-71 | a completed task is never overdue, and completing twice is the same as completing once |
| `Domain.MarkCompletedKeepsFields` | src/CleanTasks.Application/Services/TaskService.cs:67-71 | completing changes only the status: id, title, description, priority, category, creation time and due date are kept |
| `Domain.ReviseAllowsAnyStatus` | src/CleanTasks.Application/Services/TaskService.cs:61-65 | an update sets the requested title, description, priority, status, category and due date, from any prior status |
| `Text.Lower` | src/CleanTasks.Infrastructure/Repositories/InMemoryCategoryRepository.cs:22-26 | lower-casing keeps the length and lowers each character |
| `Text.SameNameIsEquivalence` | src/CleanTasks.Infrastructure/Repositories/InMemoryCategoryRepository.cs:22-26 | case-insensitive name equality is reflexive, symmetric and transitive |
| `Text.SameNameIgnoresCase` | src/CleanTasks.Infrastructure/Repositories/InMemoryCategoryRepository.cs:24 | two names of equal length whose characters agree after lower-casing are the same name |
| `Text.NameExamples` | tests/CleanTasks.Tests/Infrastructure/InMemoryCategoryRepositoryTests.cs:89-98 | asking for "work" matches the stored "Work"; as a contrast of the model's own, "NonExistent" does not |
| `Text.BlankExamples` | tests/CleanTasks.Tests/Application/CategoryServiceTests.cs:86-100 | "" and "   " are blank names (refused), "Work" is not |
| `Scans.Scan` | src/CleanTasks.Infrastructure/Repositories/InMemoryTaskRepository.cs:17-45 | the loop both stores scan with: every listed entry is stored and passes the filter, every stored entry that passes is listed, and no id is listed twice |
| `Scans.ListsSize` | src/CleanTasks.Infrastructure/Repositories/InMemoryTaskRepository.cs:17-45 | a scan that lists each matching entry once has exactly as many elements as there are matching entries |
| `InMemoryTasks.InMemoryTaskRepository.constructor` | src/CleanTasks.Infrastructure/Repositories/InMemoryTaskRepository.cs:7-9 | a new store is empty |
| `InMemoryTasks.InMemoryTaskRepository.GetById` | src/CleanTasks.Infrastructure/Repositories/InMemoryTaskRepository.cs:11-15 | the stored task with that id, or none exactly when the id is absent |
| `InMemoryTasks.InMemoryTaskRepository.GetAll` | src/CleanTasks.Infrastructure/Repositories/InMemoryTaskRepository.cs:17-21 | exactly the stored tasks, each once, so as many as there are entries |
| `InMemoryTasks.InMemoryTaskRepository.Where` | src/CleanTasks.Infrastructure/Repositories/InMemoryTaskRepository.cs:23-45 | the scan behind the filters lists exactly the stored tasks that satisfy the filter, each once |
| `InMemoryTasks.InMemoryTaskRepository.GetByStatus` | src/CleanTasks.Infrastructure/Repositories/InMemoryTaskRepository.cs:23-27 | exactly the stored tasks with that status, nothing extra, nothing missing |
| `InMemoryTasks.InMemoryTaskRepository.GetByPriority` | src/CleanTasks.Infrastructure/Repositories/InMemoryTaskRepository.cs:29-33 | exactly the stored tasks with that priority |
| `InMemoryTasks.InMemoryTaskRepository.GetByCategoryId` | src/CleanTasks.Infrastructure/Repositories/InMemoryTaskRepository.cs:35-39 | exactly the stored tasks whose category id is the given one |
| `InMemoryTasks.InMemoryTaskRepository.GetOverdue` | src/CleanTasks.Infrastructure/Repositories/InMemoryTaskRepository.cs:41-45 | exactly the stored tasks with a due date before the reference time and a status other than Completed |
| `InMemoryTasks.InMemoryTaskRepository.Add` | src/CleanTasks.Infrastructure/Repositories/InMemoryTaskRepository.cs:47-51 | returns the task; the store maps its id to it and every other id is unchanged |
| `InMemoryTasks.InMemoryTaskRepository.Update` | src/CleanTasks.Infrastructure/Repositories/InMemoryTaskRepository.cs:53-57 | present id: the entry is replaced and the task returned; absent id: none, and the store is unchanged |
| `InMemoryTasks.InMemoryTaskRepository.Delete` | src/CleanTasks.Infrastructure/Repositories/InMemoryTaskRepository.cs:59-63 | true exactly when the id was present; afterwards it is absent and the rest is unchanged |
| `InMemoryCategories.InMemoryCategoryRepository.constructor` | src/CleanTasks.Infrastructure/Repositories/InMemoryCategoryRepository.cs:6-8 | a new store is empty |
| `InMemoryCategories.InMemoryCategoryRepository.GetById` | src/CleanTasks.Infrastructure/Repositories/InMemoryCategoryRepository.cs:10-14 | the stored category with that id, or none exactly when the id is absent |
| `InMemoryCategories.InMemoryCategoryRepository.GetAll` | src/CleanTasks.Infrastructure/Repositories/InMemoryCategoryRepository.cs:16-20 | exactly the stored categories, each once; empty for an empty store |
| `InMemoryCategories.InMemoryCategoryRepository.GetByName` | src/CleanTasks.Infrastructure/Repositories/InMemoryCategoryRepository.cs:22-26 | a stored category whose name equals the argument ignoring case; none exactly when no stored name does |
| `InMemoryCategories.InMemoryCategoryRepository.Add` | src/CleanTasks.Infrastructure/Repositories/InMemoryCategoryRepository.cs:28-32 | returns the category; the store maps its id to it and every other id is unchanged |
| `InMemoryCategories.InMemoryCategoryRepository.Update` | src/CleanTasks.Infrastructure/Repositories/InMemoryCategoryRepository.cs:34-38 | present id: name and description are replaced and the category returned; absent id: none, and the store is unchanged |
| `InMemoryCategories.InMemoryCategoryRepository.Delete` | src/CleanTasks.Infrastructure/Repositories/InMemoryCategoryRepository.cs:40-44 | true exactly when the id was present; afterwards it is absent |
| `CategoryServices.SelfMatchExcludesOthers` | src/CleanTasks.Application/Services/CategoryService.cs:34-38 | with unique names, when the category being updated already carries the new name, no other category does |
| `CategoryServices.ConflictsExactly` | src/CleanTasks.Application/Services/CategoryService.cs:34-38 | with unique names, "the lookup found a different category" holds exactly when another category holds the name |
| `CategoryServices.InsertKeepsNamesUnique` | src/CleanTasks.Application/Services/CategoryService.cs:28-32 | adding a category under a new id, with a name nobody holds, keeps names unique |
| `CategoryServices.RenameKeepsNamesUnique` | src/CleanTasks.Application/Services/CategoryService.cs:34-38 | renaming a category to a name no other category holds keeps names unique |
| `CategoryServices.CategoryService.constructor` | src/CleanTasks.Application/Services/CategoryService.cs:11-14 | the service works on the store it is given |
| `CategoryServices.CategoryService.GetById` | src/CleanTasks.Application/Services/CategoryService.cs:16-20 | the stored category (id, name, description), or none when absent |
| `CategoryServices.CategoryService.GetAll` | src/CleanTasks.Application/Services/CategoryService.cs:22-26 | every stored category, once each |
| `CategoryServices.CategoryService.Create` | src/CleanTasks.Application/Services/CategoryService.cs:28-32 | blank name: `ArgumentException`; a name already held, ignoring case: `InvalidOperationException`; either way nothing is stored. Otherwise exactly one category with the fresh non-empty id and the given name and description is stored and returned. Names stay unique |
| `CategoryServices.CategoryService.Update` | src/CleanTasks.Application/Services/CategoryService.cs:34-38 | absent id: none. Blank name: `ArgumentException`. Name held by a different category: `InvalidOperationException`, exactly so while names are unique or the category's own name differs from the new one; keeping its own name is no conflict. Otherwise name and description are replaced and the updated category returned. An existing id with a non-blank name always ends in the conflict or the update, even when names are already duplicated. Names stay unique |
| `CategoryServices.CategoryService.Delete` | src/CleanTasks.Application/Services/CategoryService.cs:40-44 | exactly the store's found-and-removed answer; names stay unique |
| `TaskServices.TaskService.constructor` | src/CleanTasks.Application/Services/TaskService.cs:13-17 | the service works on the two stores it is given and has made no calls yet |
| `TaskServices.TaskService.GetById` | src/CleanTasks.Application/Services/TaskService.cs:19-23 | the stored task, or none when absent |
| `TaskServices.TaskService.GetAll` | src/CleanTasks.Application/Services/TaskService.cs:25-29 | every stored task, once each |
| `TaskServices.TaskService.GetByStatus` | src/CleanTasks.Application/Services/TaskService.cs:31-35 | exactly the stored tasks with that status |
| `TaskServices.TaskService.GetByPriority` | src/CleanTasks.Application/Services/TaskService.cs:37-41 | exactly the stored tasks with that priority |
| `TaskServices.TaskService.GetByCategory` | src/CleanTasks.Application/Services/TaskService.cs:43-47 | exactly the stored tasks in that category |
| `TaskServices.TaskService.GetOverdue` | src/CleanTasks.Application/Services/TaskService.cs:49-53 | one overdue query, at the current time; the result is the stored tasks due before it that are not completed |
| `TaskServices.TaskService.Create` | src/CleanTasks.Application/Services/TaskService.cs:55-59 | succeeds exactly when the title is not blank and any supplied category exists; otherwise `ArgumentException` and nothing stored. The stored, returned task copies the request's fields and has status Pending, the fresh non-empty id and the current (non-default) time. The category store is queried once if the title is not blank and a category id is supplied, never otherwise |
| `TaskServices.TaskService.Update` | src/CleanTasks.Application/Services/TaskService.cs:61-65 | absent id: none. Blank title or unknown supplied category: `ArgumentException`. Otherwise the update always happens (an existing id never answers none): title, description, priority, status, category and due date are replaced from any prior status; id and creation time are kept |
| `TaskServices.TaskService.Complete` | src/CleanTasks.Application/Services/TaskService.cs:67-71 | absent id: none. Otherwise the task is written back and returned with status Completed, whatever its status was |
| `TaskServices.TaskService.Delete` | src/CleanTasks.Application/Services/TaskService.cs:73-77 | exactly the store's found-and-removed answer |
| `Scenarios.TaskStoreRoundTrip` | tests/CleanTasks.Tests/Infrastructure/InMemoryTaskRepositoryTests.cs:16-64 | after adding a task, adding returns it and looking up its id finds it; an unknown id finds nothing; two tasks with distinct ids are listed as two |
| `Scenarios.TaskStoreUpdateDelete` | tests/CleanTasks.Tests/Infrastructure/InMemoryTaskRepositoryTests.cs:152-176 | updating an unknown id answers none; deleting a stored id answers true and it is gone; deleting it again answers false |
| `Scenarios.OverdueQuery` | tests/CleanTasks.Tests/Infrastructure/InMemoryTaskRepositoryTests.cs:107-136 | of four tasks (overdue; overdue but done; due in five days; no due date), only "Overdue" is returned |
| `Scenarios.CategoryLookupIgnoresCase` | tests/CleanTasks.Tests/Infrastructure/InMemoryCategoryRepositoryTests.cs:78-106 | a name lookup in another case finds the stored category; a name nobody holds finds nothing |
| `Scenarios.CategoryNameRules` | tests/CleanTasks.Tests/Application/CategoryServiceTests.cs:67-190 | a blank name is refused; a category is created; the same name in another case then conflicts; keeping its own name while changing the description succeeds |
| `Scenarios.TaskUpdateThroughService` | tests/CleanTasks.Tests/Application/TaskServiceTests.cs:245-268 | a Pending task updated through the service comes back, and is stored, with the new title and description, priority High and status InProgress |
| `Scenarios.DanglingCategoryReference` | src/CleanTasks.Application/Services/TaskService.cs:43-59 | a task created in a category is the only task listed for it; after the category is deleted, the task and its category id remain |
| `Scenarios.OverdueUntilCompleted` | src/CleanTasks.Application/Services/TaskService.cs:49-71 | a task due one day ago is overdue now; once completed it is not; completing again answers the same completed task |

## Left out

- Thread safety: the stores are sequential `map` fields. The concurrent dictionary is
  not modelled. Neither is the check-then-act race by which two concurrent category
  creations with the same name could both succeed. Name uniqueness is proved for
  sequential calls only.
- `async`/`Task<T>`: every operation is a synchronous method.
- Controllers, HTTP status mapping and dependency-injection wiring: no logic lives there.
- DTOs: the services return the entity values themselves. `TaskItemDto` is a
  field-for-field copy of the task, and `CategoryDto` is taken to be one of the
  category. The source files of `Category`, `CategoryDto`, `CreateCategoryRequest` and
  `UpdateCategoryRequest` are not part of this model. The category is modelled as
  `Domain.Category` and both category requests as `Domain.CategoryRequest`, with the
  fields (id, name, description) that the tests use.
- `Guid.NewGuid()` and `DateTime.UtcNow` are parameters. The creating methods require
  the fresh id to be non-empty and unused, and the current time to be non-default.
- `DateTime` is a tick count. `DateTimeKind` and the upper bound `DateTime.MaxValue`
  are not modelled.
- Case-insensitive comparison lowers ASCII letters only. The culture-aware .NET
  comparison is a library call.
- Null strings: a request's title or name is never null in the model.
  `string.IsNullOrWhiteSpace` is modelled by its white-space part.
- Aliasing: in the source, tasks and categories are mutable objects that the stores
  hold by reference. Here they are values, so a change becomes visible only through
  the write-back `UpdateAsync` that the services perform.
- Order: a scan's order is whatever the key iteration yields. Only its contents and
  length are specified.
- Mock objects: the services are modelled against the in-memory stores. The tests use
  arbitrary mocks.
- CategoryServices.CategoryService.Update: the conflict is stated as "exactly when
  another category holds the name" while names are unique, and also whenever the
  category's own stored name differs from the new one. In the one remaining case,
  names are already duplicated and the category itself carries the new name. There
  the store's lookup may return either the category itself, so the update succeeds,
  or another holder, so the update conflicts. Only the weaker "a conflict implies
  another holder" is stated for it. Even then, an existing id with a non-blank name
  is answered with the conflict or the update, never with none or `ArgumentException`.
- Order of checks: for tasks, the comment on `TaskService.UpdateAsync` says "find
  existing, validate, ...", so an update of a missing id answers none even when its
  title is blank. The comment on `CategoryService.UpdateAsync` names no validation
  step. Checking the id first there, then blankness, then the name, is this model's
  own choice, made to match the task service. Creation checks blankness before the
  name lookup or the category lookup.
