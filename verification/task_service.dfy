/**
 * The task service: title validation, the category-exists check (made only
 * when a category id is supplied), creation as Pending, completion, and the
 * filtered views, on top of the task store and the category store.
 *
 * Two ghost fields record the calls the service makes to its collaborators,
 * so that "the category store is never queried" and "the overdue query is
 * made once, with the current time" can be stated: `categoryLookups` counts
 * id lookups in the category store, `overdueQueries` lists the reference
 * times passed to the overdue query.
 */
module TaskServices {
  import opened Domain
  import opened Text
  import opened Scans
  import opened InMemoryTasks
  import opened InMemoryCategories

  /** The category rule: a supplied category id must name a stored category; an absent one is always accepted. */
  ghost predicate CategoryAccepted(categories: map<Guid, Category>, categoryId: Option<Guid>) {
    categoryId.Some? ==> categoryId.value in categories
  }

  class TaskService {
    const tasks: InMemoryTaskRepository
    const categories: InMemoryCategoryRepository
    ghost var categoryLookups: nat
    ghost var overdueQueries: seq<DateTime>

    ghost predicate Valid()
      reads this, tasks, categories
    {
      tasks.Valid() && categories.Valid()
    }

    constructor (taskRepository: InMemoryTaskRepository, categoryRepository: InMemoryCategoryRepository)
      requires taskRepository.Valid() && categoryRepository.Valid()
      ensures Valid()
      ensures tasks == taskRepository && categories == categoryRepository
      ensures categoryLookups == 0 && overdueQueries == []
    {
      tasks := taskRepository;
      categories := categoryRepository;
      categoryLookups := 0;
      overdueQueries := [];
    }

    /** `GetByIdAsync`: the stored task with this id, or none. */
    method GetById(id: Guid) returns (r: Option<TaskItem>)
      requires Valid()
      ensures r.Some? <==> id in tasks.store
      ensures r.Some? ==> r.value == tasks.store[id]
    {
      r := tasks.GetById(id);
    }

    /** `GetAllAsync`: every stored task, once each. */
    method GetAll() returns (r: seq<TaskItem>)
      requires Valid()
      ensures forall t :: t in r <==> t.id in tasks.store && tasks.store[t.id] == t
      ensures DistinctKeys(r, TaskKey)
      ensures |r| == |tasks.store|
    {
      r := tasks.GetAll();
    }

    /** `GetByStatusAsync`: exactly the stored tasks with this status. */
    method GetByStatus(status: TaskItemStatus) returns (r: seq<TaskItem>)
      requires Valid()
      ensures forall t :: t in r <==> t.id in tasks.store && tasks.store[t.id] == t && t.status == status
      ensures DistinctKeys(r, TaskKey)
    {
      r := tasks.GetByStatus(status);
    }

    /** `GetByPriorityAsync`: exactly the stored tasks with this priority. */
    method GetByPriority(priority: TaskPriority) returns (r: seq<TaskItem>)
      requires Valid()
      ensures forall t :: t in r <==> t.id in tasks.store && tasks.store[t.id] == t && t.priority == priority
      ensures DistinctKeys(r, TaskKey)
    {
      r := tasks.GetByPriority(priority);
    }

    /** `GetByCategoryAsync`: exactly the stored tasks filed under this category. */
    method GetByCategory(categoryId: Guid) returns (r: seq<TaskItem>)
      requires Valid()
      ensures forall t :: t in r <==> t.id in tasks.store && tasks.store[t.id] == t && t.categoryId == Some(categoryId)
      ensures DistinctKeys(r, TaskKey)
    {
      r := tasks.GetByCategoryId(categoryId);
    }

    /**
     * `GetOverdueAsync`: one overdue query against the store, with the
     * current time `now` (`DateTime.UtcNow`) as reference.
     */
    method GetOverdue(now: DateTime) returns (r: seq<TaskItem>)
      requires Valid()
      modifies this
      ensures Valid()
      ensures overdueQueries == old(overdueQueries) + [now]
      ensures categoryLookups == old(categoryLookups)
      ensures forall t :: t in r <==> t.id in tasks.store && tasks.store[t.id] == t && IsOverdue(t, now)
      ensures DistinctKeys(r, TaskKey)
    {
      r := tasks.GetOverdue(now);
      overdueQueries := overdueQueries + [now];
    }

    /**
     * `CreateAsync`: a blank title, or a supplied category id with no stored
     * category, is an `ArgumentException`; otherwise a Pending task with the
     * request's fields is stored under the fresh id and returned. `freshId`
     * stands for `Guid.NewGuid()` and `now` for `DateTime.UtcNow`.
     */
    method Create(request: CreateTaskRequest, freshId: Guid, now: DateTime) returns (r: Result<TaskItem>)
      requires Valid()
      requires freshId != EmptyGuid && freshId !in tasks.store
      requires now != DefaultDateTime
      modifies this, tasks
      ensures Valid()
      ensures r.Failure? ==> r.error == ArgumentException
      ensures r.Success? <==> !IsBlank(request.title) && CategoryAccepted(categories.store, request.categoryId)
      ensures r.Success? ==>
        && r.value == TaskItem(freshId, request.title, request.description, request.priority, Pending,
                               request.categoryId, now, request.dueDate)
        && tasks.store == old(tasks.store)[freshId := r.value]
      ensures r.Success? ==> r.value.id != EmptyGuid && r.value.createdAt != DefaultDateTime
      ensures r.Failure? ==> tasks.store == old(tasks.store)
      ensures categoryLookups ==
        old(categoryLookups) + if !IsBlank(request.title) && request.categoryId.Some? then 1 else 0
      ensures overdueQueries == old(overdueQueries)
    {
      if IsBlank(request.title) {
        return Failure(ArgumentException);
      }
      if request.categoryId.Some? {
        var category := categories.GetById(request.categoryId.value);
        categoryLookups := categoryLookups + 1;
        if category.None? {
          return Failure(ArgumentException);
        }
      }
      var task := TaskItem(freshId, request.title, request.description, request.priority, Pending,
                           request.categoryId, now, request.dueDate);
      var added := tasks.Add(task);
      return Success(added);
    }

    /**
     * `UpdateAsync`: none when no task has this id; otherwise a blank title,
     * or a supplied category id with no stored category, is an
     * `ArgumentException`. On success title, description, priority, status,
     * category and due date are replaced, whatever the old status, and the
     * updated task is returned; id and creation time are kept.
     */
    method Update(id: Guid, request: UpdateTaskRequest) returns (r: Result<Option<TaskItem>>)
      requires Valid()
      modifies this, tasks
      ensures Valid()
      ensures id !in old(tasks.store) ==> r == Success(Option.None)
      ensures r.Failure? ==> r.error == ArgumentException
      ensures id in old(tasks.store) ==>
        (r.Success? <==> !IsBlank(request.title) && CategoryAccepted(categories.store, request.categoryId))
      ensures id in old(tasks.store) && r.Success? ==> r.value.Some?
      ensures r.Success? && r.value.Some? ==>
        && id in old(tasks.store)
        && r.value.value == Revise(old(tasks.store)[id], request)
        && tasks.store == old(tasks.store)[id := r.value.value]
      ensures !(r.Success? && r.value.Some?) ==> tasks.store == old(tasks.store)
      ensures categoryLookups ==
        old(categoryLookups) + if id in old(tasks.store) && !IsBlank(request.title) && request.categoryId.Some? then 1 else 0
      ensures overdueQueries == old(overdueQueries)
    {
      var existing := tasks.GetById(id);
      if existing.None? {
        return Success(Option.None);
      }
      if IsBlank(request.title) {
        return Failure(ArgumentException);
      }
      if request.categoryId.Some? {
        var category := categories.GetById(request.categoryId.value);
        categoryLookups := categoryLookups + 1;
        if category.None? {
          return Failure(ArgumentException);
        }
      }
      var saved := tasks.Update(Revise(existing.value, request));
      return Success(saved);
    }

    /**
     * `CompleteAsync`: none when no task has this id; otherwise the task is
     * written back with status Completed, whatever its status was (so
     * completing a completed task succeeds and changes nothing).
     */
    method Complete(id: Guid) returns (r: Option<TaskItem>)
      requires Valid()
      modifies tasks
      ensures Valid()
      ensures r.Some? <==> id in old(tasks.store)
      ensures r.Some? ==>
        && r.value == MarkCompleted(old(tasks.store)[id])
        && tasks.store == old(tasks.store)[id := r.value]
      ensures r.None? ==> tasks.store == old(tasks.store)
    {
      var existing := tasks.GetById(id);
      if existing.None? {
        return Option.None;
      }
      r := tasks.Update(MarkCompleted(existing.value));
    }

    /** `DeleteAsync`: the store's found-and-removed answer. */
    method Delete(id: Guid) returns (removed: bool)
      requires Valid()
      modifies tasks
      ensures Valid()
      ensures removed == (id in old(tasks.store))
      ensures tasks.store == old(tasks.store) - {id}
    {
      removed := tasks.Delete(id);
    }
  }
}
