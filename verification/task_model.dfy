/** The task record shared by the task list, the task service and the calendar. */
module TaskModel {
  import opened Wrappers

  /** A point in time reduced to what the application looks at: the local
      calendar day (year, zero-based month as JavaScript's `Date` counts it,
      day of month) and the minute within that day. */
  datatype DateTime = DateTime(year: int, month: int, day: int, minute: int)

  /** date-fns `isSameDay`: both instants fall on the same local calendar day. */
  predicate SameDay(a: DateTime, b: DateTime) {
    a.year == b.year && a.month == b.month && a.day == b.day
  }

  /** One task. `progress` is a JavaScript number that the application uses
      as an integer percentage; nothing in the code keeps it within [0, 100]. */
  datatype Task = Task(
    id: string,
    title: string,
    description: Option<string>,
    date: DateTime,
    time: Option<string>,
    category: string,
    progress: int)

  /** The input of task creation: every field except `id` and `progress`. */
  datatype TaskDraft = TaskDraft(
    title: string,
    description: Option<string>,
    date: DateTime,
    time: Option<string>,
    category: string)

  /** A `Partial<Task>`: `None` means the key is not supplied. For the two
      optional fields, `Some(None)` is a key supplied with the value `undefined`. */
  datatype TaskPatch = TaskPatch(
    id: Option<string>,
    title: Option<string>,
    description: Option<Option<string>>,
    date: Option<DateTime>,
    time: Option<Option<string>>,
    category: Option<string>,
    progress: Option<int>)

  /** The patch that supplies no key at all. */
  const EmptyPatch := TaskPatch(None, None, None, None, None, None, None)

  /** The patch `{ progress }`. */
  function ProgressPatch(progress: int): (p: TaskPatch)
    ensures p.progress == Some(progress)
    ensures p.(progress := None) == EmptyPatch
  {
    EmptyPatch.(progress := Some(progress))
  }

  /** The draft fields of a task, the inverse of building a task from a draft. */
  function DraftOf(t: Task): TaskDraft {
    TaskDraft(t.title, t.description, t.date, t.time, t.category)
  }

  /** `{ ...t, ...patch }`: every supplied field overrides, every other keeps its value. */
  function Merge(t: Task, patch: TaskPatch): (r: Task)
    ensures patch.id.Some? ==> r.id == patch.id.value
    ensures patch.id.None? ==> r.id == t.id
    ensures patch.title.Some? ==> r.title == patch.title.value
    ensures patch.title.None? ==> r.title == t.title
    ensures patch.description.Some? ==> r.description == patch.description.value
    ensures patch.description.None? ==> r.description == t.description
    ensures patch.date.Some? ==> r.date == patch.date.value
    ensures patch.date.None? ==> r.date == t.date
    ensures patch.time.Some? ==> r.time == patch.time.value
    ensures patch.time.None? ==> r.time == t.time
    ensures patch.category.Some? ==> r.category == patch.category.value
    ensures patch.category.None? ==> r.category == t.category
    ensures patch.progress.Some? ==> r.progress == patch.progress.value
    ensures patch.progress.None? ==> r.progress == t.progress
  {
    Task(
      patch.id.GetOr(t.id),
      patch.title.GetOr(t.title),
      patch.description.GetOr(t.description),
      patch.date.GetOr(t.date),
      patch.time.GetOr(t.time),
      patch.category.GetOr(t.category),
      patch.progress.GetOr(t.progress))
  }

  /** The patch whose keys are those of `p` and `q`, with `q` winning on keys both supply. */
  function Overlay(p: TaskPatch, q: TaskPatch): TaskPatch {
    TaskPatch(
      if q.id.Some? then q.id else p.id,
      if q.title.Some? then q.title else p.title,
      if q.description.Some? then q.description else p.description,
      if q.date.Some? then q.date else p.date,
      if q.time.Some? then q.time else p.time,
      if q.category.Some? then q.category else p.category,
      if q.progress.Some? then q.progress else p.progress)
  }

  /** Merging is last-write-wins per field: two merges in a row are one merge
      of the overlaid patches. */
  lemma MergeTwice(t: Task, p: TaskPatch, q: TaskPatch)
    ensures Merge(Merge(t, p), q) == Merge(t, Overlay(p, q))
  {
  }

  /** Merging the same patch again changes nothing. */
  lemma MergeIdempotent(t: Task, p: TaskPatch)
    ensures Merge(Merge(t, p), p) == Merge(t, p)
  {
  }

  /** Merging the empty patch changes nothing. */
  lemma MergeEmpty(t: Task)
    ensures Merge(t, EmptyPatch) == t
  {
  }
}
