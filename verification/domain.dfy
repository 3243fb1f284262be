/**
 * Entities, enumerations and result shapes shared by the task and category
 * stores and the services layered on them.
 *
 * A `Guid` is modelled as a natural number whose zero value is `Guid.Empty`;
 * a `DateTime` as its tick count, whose zero value is `default(DateTime)`.
 */
module Domain {

  /** A value that may be absent: the model of a nullable reference or `T?`. */
  datatype Option<T> = None | Some(value: T)

  type Guid = nat

  /** `Guid.Empty`. */
  const EmptyGuid: Guid := 0

  /** A point in time as a count of 100-nanosecond ticks. */
  type DateTime = nat

  /** `default(DateTime)`, i.e. `DateTime.MinValue`. */
  const DefaultDateTime: DateTime := 0

  /** Ticks in one day (`TimeSpan.TicksPerDay`). */
  const TicksPerDay: nat := 864_000_000_000

  /** Task priorities, in increasing order of urgency (enum values 0 to 4). */
  datatype TaskPriority = None | Low | Medium | High | Critical

  /** Task statuses; no transition between them is forbidden. */
  datatype TaskItemStatus = Pending | InProgress | Completed

  /** A task record. `id` and `createdAt` are set once, when the task is created. */
  datatype TaskItem = TaskItem(
    id: Guid,
    title: string,
    description: string,
    priority: TaskPriority,
    status: TaskItemStatus,
    categoryId: Option<Guid>,
    createdAt: DateTime,
    dueDate: Option<DateTime>)

  /** A category record. */
  datatype Category = Category(id: Guid, name: string, description: string)

  /** Input of `TaskService.CreateAsync`. */
  datatype CreateTaskRequest = CreateTaskRequest(
    title: string,
    description: string,
    priority: TaskPriority,
    categoryId: Option<Guid>,
    dueDate: Option<DateTime>)

  /** Input of `TaskService.UpdateAsync`. */
  datatype UpdateTaskRequest = UpdateTaskRequest(
    title: string,
    description: string,
    priority: TaskPriority,
    status: TaskItemStatus,
    categoryId: Option<Guid>,
    dueDate: Option<DateTime>)

  /** Input of `CategoryService.CreateAsync` and `CategoryService.UpdateAsync`. */
  datatype CategoryRequest = CategoryRequest(name: string, description: string)

  /** The two exception types the services throw. */
  datatype ServiceError = ArgumentException | InvalidOperationException

  /** The outcome of a service call: a value, or the exception it throws. */
  datatype Result<T> = Success(value: T) | Failure(error: ServiceError)

  /**
   * The overdue rule: a due date is set, it lies strictly before the
   * reference time, and the task is not completed. (The lifted comparison
   * `null < reference` is false in C#, so a task without a due date never
   * qualifies.)
   */
  predicate IsOverdue(t: TaskItem, reference: DateTime) {
    t.dueDate.Some? && t.dueDate.value < reference && t.status != Completed
  }

  /** The task as `CompleteAsync` writes it back: every field kept, status Completed. */
  function MarkCompleted(t: TaskItem): (r: TaskItem)
    ensures r.status == Completed
  {
    t.(status := Completed)
  }

  /** The task as `TaskService.UpdateAsync` writes it back: the request's fields over the stored task. */
  function Revise(t: TaskItem, request: UpdateTaskRequest): (r: TaskItem)
    ensures r.id == t.id && r.createdAt == t.createdAt
  {
    t.(title := request.title, description := request.description, priority := request.priority,
       status := request.status, categoryId := request.categoryId, dueDate := request.dueDate)
  }

  /** A task without a due date is never overdue, whatever its status and the reference time. */
  lemma NoDueDateNeverOverdue(t: TaskItem, reference: DateTime)
    requires t.dueDate.None?
    ensures !IsOverdue(t, reference)
  {
  }

  /** Completing a task takes it out of every overdue view, and completing twice is completing once. */
  lemma CompletedNeverOverdue(t: TaskItem, reference: DateTime)
    ensures !IsOverdue(MarkCompleted(t), reference)
    ensures MarkCompleted(MarkCompleted(t)) == MarkCompleted(t)
  {
  }

  /** Completing changes nothing but the status. */
  lemma MarkCompletedKeepsFields(t: TaskItem)
    ensures var r := MarkCompleted(t);
      r.id == t.id && r.title == t.title && r.description == t.description &&
      r.priority == t.priority && r.categoryId == t.categoryId &&
      r.createdAt == t.createdAt && r.dueDate == t.dueDate
  {
  }

  /**
   * An update replaces every field the request carries, and may set any
   * status at all, from any status: there is no transition graph.
   */
  lemma ReviseAllowsAnyStatus(t: TaskItem, request: UpdateTaskRequest)
    ensures Revise(t, request).status == request.status
    ensures Revise(t, request).title == request.title
    ensures Revise(t, request).description == request.description
    ensures Revise(t, request).priority == request.priority
    ensures Revise(t, request).categoryId == request.categoryId
    ensures Revise(t, request).dueDate == request.dueDate
  {
  }
}
