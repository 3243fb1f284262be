/**
 * Clients of the stores and services, built on fresh objects, that follow the
 * repository's unit tests and two end-to-end scenarios. Each states as
 * postconditions what the scenario expects to observe; they follow from the
 * operations' contracts alone.
 */
module Scenarios {
  import opened Domain
  import opened Text
  import opened Scans
  import opened InMemoryTasks
  import opened InMemoryCategories
  import opened CategoryServices
  import opened TaskServices

  /** Add a task, find it by id, miss an id never stored, and list the table after a second add. */
  method TaskStoreRoundTrip(a: TaskItem, b: TaskItem, unknown: Guid)
    returns (added: TaskItem, found: Option<TaskItem>, missing: Option<TaskItem>, count: nat)
    requires a.id != b.id && unknown != a.id && unknown != b.id
    ensures added == a && found == Some(a) && missing.None?
    ensures count == 2
  {
    var repository := new InMemoryTaskRepository();
    added := repository.Add(a);
    found := repository.GetById(a.id);
    var b' := repository.Add(b);
    missing := repository.GetById(unknown);
    var all := repository.GetAll();
    count := |all|;
  }

  /** Updating an id never stored answers none; deleting a stored id answers true, after which it is gone and a second delete answers false. */
  method TaskStoreUpdateDelete(t: TaskItem, stranger: TaskItem)
    returns (updatedStranger: Option<TaskItem>, firstDelete: bool, afterDelete: Option<TaskItem>, secondDelete: bool)
    requires stranger.id != t.id
    ensures updatedStranger.None? && firstDelete && afterDelete.None? && !secondDelete
  {
    var repository := new InMemoryTaskRepository();
    var added := repository.Add(t);
    updatedStranger := repository.Update(stranger);
    firstDelete := repository.Delete(t.id);
    afterDelete := repository.GetById(t.id);
    secondDelete := repository.Delete(t.id);
  }

  /**
   * Of a task due yesterday, one due yesterday but completed, one due in five
   * days and one with no due date, only the first is overdue now.
   */
  method OverdueQuery(now: DateTime, ids: seq<Guid>) returns (overdue: seq<TaskItem>)
    requires now >= TicksPerDay
    requires |ids| == 4 && forall i, j :: 0 <= i < j < 4 ==> ids[i] != ids[j]
    ensures |overdue| == 1 && overdue[0].title == "Overdue"
  {
    var repository := new InMemoryTaskRepository();
    var late := TaskItem(ids[0], "Overdue", "", TaskPriority.None, Pending, Option.None, 0, Some(now - TicksPerDay));
    var done := TaskItem(ids[1], "Overdue but Done", "", TaskPriority.None, Completed, Option.None, 0, Some(now - TicksPerDay));
    var future := TaskItem(ids[2], "Future", "", TaskPriority.None, Pending, Option.None, 0, Some(now + 5 * TicksPerDay));
    var undated := TaskItem(ids[3], "No Due Date", "", TaskPriority.None, Pending, Option.None, 0, Option.None);
    var x := repository.Add(late);
    x := repository.Add(done);
    x := repository.Add(future);
    x := repository.Add(undated);
    overdue := repository.GetOverdue(now);
    assert late in overdue;
    OnlyElement(overdue, TaskKey, late);
  }

  /**
   * The category store finds a stored name when asked for it in another case
   * (as "work" finds "Work"), and nothing for a name no stored category holds.
   */
  method CategoryLookupIgnoresCase(id: Guid, name: string, asked: string, unknown: string)
    returns (found: Option<Category>, missing: Option<Category>)
    requires SameName(name, asked) && !SameName(name, unknown)
    ensures found == Some(Category(id, name, "")) && missing.None?
  {
    var repository := new InMemoryCategoryRepository();
    var c := repository.Add(Category(id, name, ""));
    assert repository.store == map[id := Category(id, name, "")];
    found := repository.GetByName(asked);
    assert SameName(repository.store[id].name, asked);
    missing := repository.GetByName(unknown);
  }

  /**
   * A blank name is refused; a category is created; the same name in another
   * case then conflicts; and the category keeps its own name while changing
   * its description.
   */
  method CategoryNameRules(workId: Guid, otherId: Guid, blank: string, name: string, variant: string)
    returns (refused: Result<Category>, created: Result<Category>, duplicate: Result<Category>,
             kept: Result<Option<Category>>)
    requires workId != EmptyGuid && otherId != EmptyGuid && workId != otherId
    requires IsBlank(blank) && !IsBlank(name) && !IsBlank(variant) && SameName(name, variant)
    ensures refused == Failure(ArgumentException)
    ensures created == Success(Category(workId, name, "first"))
    ensures duplicate == Failure(InvalidOperationException)
    ensures kept == Success(Some(Category(workId, name, "second")))
  {
    var repository := new InMemoryCategoryRepository();
    var service := new CategoryService(repository);
    refused := service.Create(CategoryRequest(blank, ""), workId);
    created := service.Create(CategoryRequest(name, "first"), workId);
    assert SameName(repository.store[workId].name, variant);
    duplicate := service.Create(CategoryRequest(variant, "other"), otherId);
    SameNameIsEquivalence(name, name, name);
    kept := service.Update(workId, CategoryRequest(name, "second"));
  }

  /**
   * A Pending task (say "Old") updated through the service with a new title
   * (say "Updated"), a new description, priority High and status InProgress
   * comes back with those fields, keeping its id, and is stored so.
   */
  method TaskUpdateThroughService(id: Guid, now: DateTime, oldTitle: string, title: string, description: string)
    returns (updated: Result<Option<TaskItem>>, stored: Option<TaskItem>)
    requires id != EmptyGuid && now != DefaultDateTime && !IsBlank(oldTitle) && !IsBlank(title)
    ensures updated.Success? && updated.value.Some?
    ensures updated.value.value.id == id && updated.value.value.title == title
    ensures updated.value.value.description == description
    ensures updated.value.value.priority == High && updated.value.value.status == InProgress
    ensures stored == updated.value
  {
    var tasks := new InMemoryTaskRepository();
    var categories := new InMemoryCategoryRepository();
    var service := new TaskService(tasks, categories);
    var created := service.Create(CreateTaskRequest(oldTitle, "", TaskPriority.None, Option.None, Option.None), id, now);
    updated := service.Update(id, UpdateTaskRequest(title, description, High, InProgress, Option.None, Option.None));
    ReviseAllowsAnyStatus(created.value, UpdateTaskRequest(title, description, High, InProgress, Option.None, Option.None));
    stored := service.GetById(id);
  }

  /**
   * Create a category (say "Work") and a task (say "Report") in it; the
   * category view lists exactly that task. Deleting the category leaves the
   * task, and its now dangling category id, as they were.
   */
  method DanglingCategoryReference(workId: Guid, reportId: Guid, now: DateTime, name: string, title: string)
    returns (inCategory: seq<TaskItem>, afterDelete: Option<TaskItem>)
    requires workId != EmptyGuid && reportId != EmptyGuid && now != DefaultDateTime
    requires !IsBlank(name) && !IsBlank(title)
    ensures |inCategory| == 1 && inCategory[0].title == title
    ensures afterDelete.Some? && afterDelete.value.title == title && afterDelete.value.categoryId == Some(workId)
  {
    var tasks := new InMemoryTaskRepository();
    var categories := new InMemoryCategoryRepository();
    var categoryService := new CategoryService(categories);
    var taskService := new TaskService(tasks, categories);
    var work := categoryService.Create(CategoryRequest(name, ""), workId);
    var report := taskService.Create(CreateTaskRequest(title, "", TaskPriority.Medium, Some(workId), Option.None), reportId, now);
    inCategory := taskService.GetByCategory(workId);
    var only := report.value;
    assert only in inCategory;
    OnlyElement(inCategory, TaskKey, only);
    var removed := categoryService.Delete(workId);
    afterDelete := taskService.GetById(reportId);
  }

  /**
   * A task created due one day ago is overdue now; once completed it is not,
   * and completing it again still answers the completed task. Creating it,
   * with no category, never queries the category store, and each overdue
   * view is one query at the current time.
   */
  method OverdueUntilCompleted(taskId: Guid, now: DateTime, title: string)
    returns (before: seq<TaskItem>, completed: Option<TaskItem>, again: Option<TaskItem>,
             after: seq<TaskItem>)
    requires taskId != EmptyGuid && now >= TicksPerDay && !IsBlank(title)
    ensures |before| == 1 && before[0].id == taskId && before[0].status == Pending
    ensures completed.Some? && completed.value.status == Completed
    ensures again == completed
    ensures after == []
  {
    var tasks := new InMemoryTaskRepository();
    var categories := new InMemoryCategoryRepository();
    var service := new TaskService(tasks, categories);
    var created := service.Create(CreateTaskRequest(title, "", TaskPriority.High, Option.None, Some(now - TicksPerDay)), taskId, now);
    assert service.categoryLookups == 0;
    before := service.GetOverdue(now);
    var late := created.value;
    assert late in before;
    OnlyElement(before, TaskKey, late);
    completed := service.Complete(taskId);
    again := service.Complete(taskId);
    after := service.GetOverdue(now);
    assert service.overdueQueries == [now, now];
    DistinctKeysCount(after, TaskKey);
    assert KeysOf(after, TaskKey) == {};
  }
}
