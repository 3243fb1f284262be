/**
 * The in-memory task store: one table from task id to task, written by
 * insert, replace-if-present and remove, and read by point lookup, full scan
 * and four filtered scans.
 */
module InMemoryTasks {
  import opened Domain
  import opened Scans

  /** The id a task is filed under. */
  function TaskKey(t: TaskItem): (r: Guid)
    ensures r == t.id
  {
    t.id
  }

  class InMemoryTaskRepository {
    var store: map<Guid, TaskItem>

    ghost predicate Valid()
      reads this
    {
      Keyed(store, TaskKey)
    }

    constructor ()
      ensures Valid() && store == map[]
    {
      store := map[];
    }

    /** `GetByIdAsync`: the task filed under `id`, or none. */
    method GetById(id: Guid) returns (r: Option<TaskItem>)
      requires Valid()
      ensures r.Some? <==> id in store
      ensures r.Some? ==> r.value == store[id] && r.value.id == id
    {
      if id in store {
        r := Some(store[id]);
      } else {
        r := Option.None;
      }
    }

    /** `GetAllAsync`: every stored task, once each. */
    method GetAll() returns (r: seq<TaskItem>)
      requires Valid()
      ensures forall t :: t in r <==> t.id in store && store[t.id] == t
      ensures DistinctKeys(r, TaskKey)
      ensures |r| == |store|
    {
      var all := (t: TaskItem) => true;
      r := Where(all);
      ListsSize(r, store, TaskKey, all);
      assert Matching(store, all) == store.Keys;
    }

    /** A scan of the store keeping the tasks that satisfy `keep`. */
    method Where(keep: TaskItem -> bool) returns (r: seq<TaskItem>)
      requires Valid()
      ensures Lists(r, store, TaskKey, keep)
      ensures forall t :: t in r <==> t.id in store && store[t.id] == t && keep(t)
    {
      r := Scan(store, TaskKey, keep);
    }

    /** `GetByStatusAsync`: exactly the stored tasks with this status. */
    method GetByStatus(status: TaskItemStatus) returns (r: seq<TaskItem>)
      requires Valid()
      ensures forall t :: t in r <==> t.id in store && store[t.id] == t && t.status == status
      ensures DistinctKeys(r, TaskKey)
    {
      r := Where((t: TaskItem) => t.status == status);
    }

    /** `GetByPriorityAsync`: exactly the stored tasks with this priority. */
    method GetByPriority(priority: TaskPriority) returns (r: seq<TaskItem>)
      requires Valid()
      ensures forall t :: t in r <==> t.id in store && store[t.id] == t && t.priority == priority
      ensures DistinctKeys(r, TaskKey)
    {
      r := Where((t: TaskItem) => t.priority == priority);
    }

    /** `GetByCategoryIdAsync`: exactly the stored tasks filed under this category. */
    method GetByCategoryId(categoryId: Guid) returns (r: seq<TaskItem>)
      requires Valid()
      ensures forall t :: t in r <==> t.id in store && store[t.id] == t && t.categoryId == Some(categoryId)
      ensures DistinctKeys(r, TaskKey)
    {
      r := Where((t: TaskItem) => t.categoryId == Some(categoryId));
    }

    /** `GetOverdueAsync`: exactly the stored tasks overdue at `reference`. */
    method GetOverdue(reference: DateTime) returns (r: seq<TaskItem>)
      requires Valid()
      ensures forall t :: t in r <==> t.id in store && store[t.id] == t && IsOverdue(t, reference)
      ensures DistinctKeys(r, TaskKey)
    {
      r := Where((t: TaskItem) => IsOverdue(t, reference));
    }

    /** `AddAsync`: files the task under its id, overwriting any entry already there, and returns it. */
    method Add(task: TaskItem) returns (r: TaskItem)
      requires Valid()
      modifies this
      ensures Valid()
      ensures r == task
      ensures store == old(store)[task.id := task]
    {
      store := store[task.id := task];
      r := task;
    }

    /** `UpdateAsync`: replaces the entry for `task.id` only when there is one. */
    method Update(task: TaskItem) returns (r: Option<TaskItem>)
      requires Valid()
      modifies this
      ensures Valid()
      ensures task.id in old(store) ==> r == Some(task) && store == old(store)[task.id := task]
      ensures task.id !in old(store) ==> r.None? && store == old(store)
    {
      if task.id in store {
        store := store[task.id := task];
        r := Some(task);
      } else {
        r := Option.None;
      }
    }

    /** `DeleteAsync`: removes the entry for `id`; true exactly when there was one. */
    method Delete(id: Guid) returns (removed: bool)
      requires Valid()
      modifies this
      ensures Valid()
      ensures removed == (id in old(store))
      ensures store == old(store) - {id}
    {
      removed := id in store;
      store := store - {id};
    }
  }
}
