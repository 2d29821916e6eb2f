/** The in-memory task store and the statistics derived from it. Every
    operation takes the current store and returns the store it leaves behind
    together with the value it resolves its promise with. */
module TaskService {
  import opened Wrappers
  import opened Seqs
  import opened TaskModel

  /** The module-level `mockTasks` array, in insertion order. */
  type Store = seq<Task>

  /** The store after an operation and the value the operation returns. */
  datatype Reply<T> = Reply(store: Store, value: T)

  /** Some task in `s` carries `id`. */
  ghost predicate HasId(s: Store, id: string) {
    exists i :: 0 <= i < |s| && s[i].id == id
  }

  /** `i` is the first index of `s` whose task carries `id`. */
  ghost predicate IsFirstMatch(s: Store, id: string, i: int) {
    0 <= i < |s| && s[i].id == id && forall j :: 0 <= j < i ==> s[j].id != id
  }

  /** No two tasks share an id. */
  predicate UniqueIds(s: Store) {
    forall i, j :: 0 <= i < j < |s| ==> s[i].id != s[j].id
  }

  /** `findIndex` by id, with `None` for the source's `-1`. */
  function FindIndex(s: Store, id: string): (r: Option<nat>)
    ensures r.Some? ==> IsFirstMatch(s, id, r.value)
    ensures r.None? <==> !HasId(s, id)
    decreases |s|
  {
    if |s| == 0 then None
    else if s[0].id == id then Some(0)
    else
      match FindIndex(s[1..], id)
      case None => None
      case Some(k) => Some(k + 1)
  }

  /** The first match is unique, so any first match is the one `FindIndex` reports. */
  lemma FirstMatchUnique(s: Store, id: string, i: int)
    requires IsFirstMatch(s, id, i)
    ensures FindIndex(s, id) == Some(i)
  {
    var k := FindIndex(s, id).value;
    assert !(k < i) && !(i < k);
  }

  /** `getTasks`: the whole store, in insertion order. */
  function GetTasks(s: Store): (r: Store)
    ensures r == s
  {
    s
  }

  /** `getTaskById`: the first task carrying `id`, or `undefined`. */
  function GetTaskById(s: Store, id: string): (r: Option<Task>)
    ensures r.None? <==> !HasId(s, id)
    ensures r.Some? ==> r.value.id == id
    ensures forall i :: IsFirstMatch(s, id, i) ==> r == Some(s[i])
  {
    match FindIndex(s, id)
    case None => None
    case Some(i) =>
      assert forall j :: IsFirstMatch(s, id, j) ==> j == i by {
        forall j | IsFirstMatch(s, id, j) ensures j == i { FirstMatchUnique(s, id, j); }
      }
      Some(s[i])
  }

  /** `createTask`: appends the draft under the identifier `newId` with progress
      forced to 0. The clock that produces the identifier is a parameter. */
  function CreateTask(s: Store, draft: TaskDraft, newId: string): (r: Reply<Task>)
    ensures |r.store| == |s| + 1
    ensures r.store[..|s|] == s
    ensures r.store[|s|] == r.value
    ensures r.value.id == newId
    ensures r.value.progress == 0
    ensures DraftOf(r.value) == draft
  {
    var t := Task(newId, draft.title, draft.description, draft.date, draft.time, draft.category, 0);
    Reply(s + [t], t)
  }

  /** `updateTask`: merges `patch` into the first task carrying `id` and
      returns it; without such a task, returns `undefined` and changes nothing. */
  function UpdateTask(s: Store, id: string, patch: TaskPatch): (r: Reply<Option<Task>>)
    ensures !HasId(s, id) ==> r.store == s && r.value == None
    ensures HasId(s, id) ==> r.value.Some? && |r.store| == |s|
    ensures forall i :: IsFirstMatch(s, id, i) ==>
              r.store == s[i := Merge(s[i], patch)] && r.value == Some(r.store[i])
  {
    match FindIndex(s, id)
    case None => Reply(s, None)
    case Some(i) =>
      assert forall j :: IsFirstMatch(s, id, j) ==> j == i by {
        forall j | IsFirstMatch(s, id, j) ensures j == i { FirstMatchUnique(s, id, j); }
      }
      var t := Merge(s[i], patch);
      Reply(s[i := t], Some(t))
  }

  /** `updateProgress`: `updateTask` with the patch `{ progress }`; the value is
      stored as given, without any range check or clamping. */
  function UpdateProgress(s: Store, id: string, progress: int): (r: Reply<Option<Task>>)
    ensures r == UpdateTask(s, id, ProgressPatch(progress))
    ensures r.value.Some? <==> HasId(s, id)
    ensures r.value.Some? ==> r.value.value.progress == progress
  {
    UpdateTask(s, id, ProgressPatch(progress))
  }

  /** `deleteTask`: removes the first task carrying `id` and reports whether
      one was removed. */
  function DeleteTask(s: Store, id: string): (r: Reply<bool>)
    ensures r.value <==> HasId(s, id)
    ensures !r.value ==> r.store == s
    ensures r.value ==> |r.store| == |s| - 1
    ensures forall i :: IsFirstMatch(s, id, i) ==> r.store == s[..i] + s[i + 1..]
  {
    match FindIndex(s, id)
    case None => Reply(s, false)
    case Some(i) =>
      assert forall j :: IsFirstMatch(s, id, j) ==> j == i by {
        forall j | IsFirstMatch(s, id, j) ensures j == i { FirstMatchUnique(s, id, j); }
      }
      Reply(s[..i] + s[i + 1..], true)
  }

  /** `getTasksByCategory`: exactly the tasks of category `c`, in store order. */
  function GetTasksByCategory(s: Store, c: string): (r: Store)
    ensures forall i :: 0 <= i < |r| ==> r[i].category == c
    ensures forall t :: multiset(r)[t] == if t.category == c then multiset(s)[t] else 0
    ensures SubsequenceOf(r, s)
  {
    FilterMultiset(s, (t: Task) => t.category == c);
    Filter(s, (t: Task) => t.category == c)
  }

  // ---------------------------------------------------------------------
  // Statistics

  /** The three buckets of `getTasksStats`. */
  datatype Bucket = Completed | InProgress | Upcoming

  /** The bucket a task is counted in, if any. A progress outside [0, 100]
      satisfies none of the three filters of the source. */
  function BucketOf(t: Task): (b: Option<Bucket>)
    ensures b == Some(Completed) <==> t.progress == 100
    ensures b == Some(InProgress) <==> 0 < t.progress < 100
    ensures b == Some(Upcoming) <==> t.progress == 0
    ensures b.None? <==> !InRange(t)
  {
    if t.progress == 100 then Some(Completed)
    else if 0 < t.progress < 100 then Some(InProgress)
    else if t.progress == 0 then Some(Upcoming)
    else None
  }

  predicate InRange(t: Task) { 0 <= t.progress <= 100 }

  predicate AllInRange(s: Store) {
    forall i :: 0 <= i < |s| ==> InRange(s[i])
  }

  /** How many tasks of `s` fall in bucket `b`. */
  function CountIn(s: Store, b: Bucket): nat {
    |Filter(s, (t: Task) => BucketOf(t) == Some(b))|
  }

  /** How many tasks of `s` fall in no bucket. */
  function CountOutOfRange(s: Store): nat {
    |Filter(s, (t: Task) => !InRange(t))|
  }

  datatype Stats = Stats(completed: nat, inProgress: nat, upcoming: nat) {
    function Total(): nat { completed + inProgress + upcoming }
  }

  /** `getTasksStats`: the number of tasks at progress 100, strictly between
      0 and 100, and at 0. */
  function GetTasksStats(s: Store): (r: Stats)
    ensures r.completed == |Filter(s, (t: Task) => t.progress == 100)|
    ensures r.inProgress == |Filter(s, (t: Task) => t.progress > 0 && t.progress < 100)|
    ensures r.upcoming == |Filter(s, (t: Task) => t.progress == 0)|
    ensures r.Total() + CountOutOfRange(s) == |s|
  {
    FilterCongruent(s, (t: Task) => t.progress == 100, (t: Task) => BucketOf(t) == Some(Completed));
    FilterCongruent(s, (t: Task) => t.progress > 0 && t.progress < 100, (t: Task) => BucketOf(t) == Some(InProgress));
    FilterCongruent(s, (t: Task) => t.progress == 0, (t: Task) => BucketOf(t) == Some(Upcoming));
    BucketsPartition(s);
    Stats(CountIn(s, Completed), CountIn(s, InProgress), CountIn(s, Upcoming))
  }

  /** Every task is counted in exactly one bucket or is out of range. */
  lemma {:induction false} BucketsPartition(s: Store)
    ensures CountIn(s, Completed) + CountIn(s, InProgress) + CountIn(s, Upcoming) + CountOutOfRange(s) == |s|
    decreases |s|
  {
    if |s| > 0 {
      BucketsPartition(s[1..]);
    }
  }

  /** The counts add up to the number of tasks exactly when every progress is in [0, 100]. */
  lemma StatsTotalIff(s: Store)
    ensures GetTasksStats(s).Total() == |s| <==> AllInRange(s)
  {
    FilterEmptyIff(s, (t: Task) => !InRange(t));
  }

  /** `getWeeklyProgress`: a fixed placeholder series, Monday to Sunday. */
  datatype DayCount = DayCount(name: string, completed: nat)

  function GetWeeklyProgress(): (r: seq<DayCount>)
    ensures |r| == 7
    ensures [r[0].name, r[1].name, r[2].name, r[3].name, r[4].name, r[5].name, r[6].name]
            == ["Mon", "Tue", "Wed", "Thu", "Fri", "Sat", "Sun"]
  {
    [DayCount("Mon", 3), DayCount("Tue", 5), DayCount("Wed", 2), DayCount("Thu", 4),
     DayCount("Fri", 6), DayCount("Sat", 3), DayCount("Sun", 1)]
  }

  // ---------------------------------------------------------------------
  // Properties relating several operations

  /** A created task under a fresh identifier is found by that identifier,
      and identifiers stay unique. */
  lemma CreateThenGet(s: Store, draft: TaskDraft, newId: string)
    requires !HasId(s, newId)
    ensures GetTaskById(CreateTask(s, draft, newId).store, newId) == Some(CreateTask(s, draft, newId).value)
    ensures UniqueIds(s) ==> UniqueIds(CreateTask(s, draft, newId).store)
  {
    var s' := CreateTask(s, draft, newId).store;
    assert IsFirstMatch(s', newId, |s|);
  }

  /** A created task is counted as upcoming and nothing else moves. */
  lemma CreateCountsUpcoming(s: Store, draft: TaskDraft, newId: string)
    ensures GetTasksStats(CreateTask(s, draft, newId).store)
            == GetTasksStats(s).(upcoming := GetTasksStats(s).upcoming + 1)
  {
    var r := CreateTask(s, draft, newId);
    assert r.store == s + [r.value];
    FilterAppend(s, [r.value], (t: Task) => BucketOf(t) == Some(Completed));
    FilterAppend(s, [r.value], (t: Task) => BucketOf(t) == Some(InProgress));
    FilterAppend(s, [r.value], (t: Task) => BucketOf(t) == Some(Upcoming));
  }

  /** With unique identifiers, a lookup after an update returns the updated
      task, unless the patch gave it another identifier, in which case the
      old identifier is no longer found. */
  lemma UpdateThenGet(s: Store, id: string, patch: TaskPatch)
    requires UniqueIds(s) && HasId(s, id)
    ensures var r := UpdateTask(s, id, patch);
            r.value.Some? &&
            GetTaskById(r.store, id) == if r.value.value.id == id then r.value else None
  {
    var i := FindIndex(s, id).value;
    var s' := UpdateTask(s, id, patch).store;
    assert s' == s[i := Merge(s[i], patch)];
    assert forall k :: 0 <= k < |s'| && k != i ==> s'[k] == s[k] && s[k].id != id;
    if s'[i].id == id {
      assert IsFirstMatch(s', id, i);
    }
  }

  /** After a deletion with unique identifiers, the identifier is gone and the
      remaining identifiers stay unique. */
  lemma DeleteThenGet(s: Store, id: string)
    requires UniqueIds(s)
    ensures GetTaskById(DeleteTask(s, id).store, id) == None
    ensures UniqueIds(DeleteTask(s, id).store)
  {
    var s' := DeleteTask(s, id).store;
    if HasId(s, id) {
      var i := FindIndex(s, id).value;
      assert s' == s[..i] + s[i + 1..];
      assert forall k :: 0 <= k < |s'| ==> s'[k] == (if k < i then s[k] else s[k + 1]);
    }
  }

  /** Without unique identifiers a deletion can leave the identifier behind:
      only the first carrier is removed. */
  lemma DeleteKeepsLaterDuplicate(t: Task)
    ensures DeleteTask([t, t], t.id) == Reply([t], true)
    ensures GetTaskById(DeleteTask([t, t], t.id).store, t.id) == Some(t)
  {
    assert IsFirstMatch([t, t], t.id, 0);
    assert IsFirstMatch([t], t.id, 0);
  }

  /** `updateProgress(id, p)` moves the task out of its old bucket and into the
      bucket of `p`; the other counts are unchanged. */
  lemma {:induction false} UpdateProgressMovesBucket(s: Store, id: string, p: int, b: Bucket)
    requires HasId(s, id)
    ensures var before := s[FindIndex(s, id).value];
            CountIn(UpdateProgress(s, id, p).store, b)
            == CountIn(s, b) - (if BucketOf(before) == Some(b) then 1 else 0)
                             + (if BucketOf(before.(progress := p)) == Some(b) then 1 else 0)
  {
    var i := FindIndex(s, id).value;
    var t := Merge(s[i], ProgressPatch(p));
    assert t == s[i].(progress := p);
    assert UpdateProgress(s, id, p).store == s[i := t];
    FilterCountUpdate(s, i, t, (x: Task) => BucketOf(x) == Some(b));
  }

  /** `updateProgress(id, 100)` counts the task as completed next time. */
  lemma UpdateProgressToComplete(s: Store, id: string)
    requires HasId(s, id)
    ensures var before := s[FindIndex(s, id).value];
            GetTasksStats(UpdateProgress(s, id, 100).store).completed
            == GetTasksStats(s).completed + (if before.progress == 100 then 0 else 1)
  {
    UpdateProgressMovesBucket(s, id, 100, Completed);
  }

  /** Because progress is not clamped, one out-of-range update makes the
      counts fall short of the number of tasks. */
  lemma OutOfRangeProgressEscapesStats(t: Task)
    requires InRange(t)
    ensures GetTasksStats(UpdateProgress([t], t.id, 150).store).Total() == 0
    ensures GetTasksStats([t]).Total() == 1
  {
    assert IsFirstMatch([t], t.id, 0);
    StatsTotalIff([t]);
    var s' := UpdateProgress([t], t.id, 150).store;
    assert s' == [t.(progress := 150)];
    assert !AllInRange(s');
    BucketsPartition(s');
    FilterKeepsAll(s', (x: Task) => !InRange(x));
  }

  // ---------------------------------------------------------------------
  // The seed data

  /** The six tasks the store starts with; dates are in July 2023 at midnight. */
  const SeedTasks: Store := [
    Task("1", "Complete Project Proposal", Some("Finish the draft and send it to the client for review."),
         DateTime(2023, 6, 15, 0), Some("14:00"), "Work", 75),
    Task("2", "Gym Workout", Some("30 minutes cardio and strength training."),
         DateTime(2023, 6, 16, 0), Some("06:30"), "Health", 100),
    Task("3", "Read Book", Some("Continue reading chapter 5 of 'Atomic Habits'."),
         DateTime(2023, 6, 17, 0), Some("20:00"), "Personal", 30),
    Task("4", "Doctor Appointment", Some("Annual check-up at City Hospital."),
         DateTime(2023, 6, 18, 0), Some("10:15"), "Health", 0),
    Task("5", "Team Meeting", Some("Weekly sprint planning with the development team."),
         DateTime(2023, 6, 19, 0), Some("09:00"), "Work", 0),
    Task("6", "Grocery Shopping", Some("Buy fruits, vegetables, and other essentials."),
         DateTime(2023, 6, 20, 0), Some("17:30"), "Home", 50)
  ]

  /** The seed store has unique identifiers, in-range progress, and one
      completed, three in-progress and two upcoming tasks. */
  lemma SeedFacts()
    ensures UniqueIds(SeedTasks)
    ensures AllInRange(SeedTasks)
    ensures GetTasksStats(SeedTasks) == Stats(1, 3, 2)
  {
    SeedIdsUnique();
    SeedProgress();
    SeedStats();
  }

  lemma SeedIdsUnique()
    ensures UniqueIds(SeedTasks)
  {
    var ids := ["1", "2", "3", "4", "5", "6"];
    assert forall i :: 0 <= i < |SeedTasks| ==> SeedTasks[i].id == ids[i];
  }

  lemma SeedProgress()
    ensures forall i :: 0 <= i < |SeedTasks| ==> SeedTasks[i].progress == [75, 100, 30, 0, 0, 50][i]
    ensures AllInRange(SeedTasks)
  {
  }

  lemma SeedStats()
    ensures GetTasksStats(SeedTasks) == Stats(1, 3, 2)
  {
    SeedProgress();
    StatsOfSixProgress(SeedTasks);
  }

  /** Bucket counts add over concatenation. */
  lemma CountInAppend(a: Store, c: Store, k: Bucket)
    ensures CountIn(a + c, k) == CountIn(a, k) + CountIn(c, k)
  {
    FilterAppend(a, c, (t: Task) => BucketOf(t) == Some(k));
  }

  /** Any six tasks with the seed's progress values give the seed's counts. */
  lemma StatsOfSixProgress(s: Store)
    requires |s| == 6
    requires forall i :: 0 <= i < 6 ==> s[i].progress == [75, 100, 30, 0, 0, 50][i]
    ensures GetTasksStats(s) == Stats(1, 3, 2)
  {
    var front, back := s[..3], s[3..];
    assert s == front + back;
    assert front == [s[0]] + [s[1], s[2]] && [s[1], s[2]] == [s[1]] + [s[2]];
    assert back == [s[3]] + [s[4], s[5]] && [s[4], s[5]] == [s[4]] + [s[5]];
    forall k: Bucket
      ensures CountIn(s, k) == CountIn([s[0]], k) + CountIn([s[1]], k) + CountIn([s[2]], k)
                             + CountIn([s[3]], k) + CountIn([s[4]], k) + CountIn([s[5]], k)
    {
      CountInAppend(front, back, k);
      CountInAppend([s[0]], [s[1], s[2]], k);
      CountInAppend([s[1]], [s[2]], k);
      CountInAppend([s[3]], [s[4], s[5]], k);
      CountInAppend([s[4]], [s[5]], k);
    }
  }

  /** A store holding one upcoming task "1": after `updateProgress("1", 50)`
      the task reads back with progress 50 and is the one task in progress. */
  lemma UpdateProgressScenario(t: Task)
    requires t.id == "1" && t.progress == 0
    ensures GetTaskById(UpdateProgress([t], "1", 50).store, "1") == Some(t.(progress := 50))
    ensures GetTasksStats(UpdateProgress([t], "1", 50).store) == Stats(0, 1, 0)
  {
    assert IsFirstMatch([t], "1", 0);
    var s' := UpdateProgress([t], "1", 50).store;
    assert s' == [t.(progress := 50)];
    assert IsFirstMatch(s', "1", 0);
  }
}
