/**
 * The record store: the `Store` and `TaskRecord` shapes and the operations
 * that look up, add, update and remove task records and replace the two
 * view preferences. Every operation returns a new store instead of
 * mutating the single module-level one.
 */
module Tasks {
  import opened Wrappers
  import opened Seqs

  /** One todo item; `createdAt` is epoch milliseconds. */
  datatype TaskRecord = TaskRecord(createdAt: int, complete: bool, id: string, title: string)

  /**
   * The whole application state. `sortType` is kept as the raw string the
   * source stores (the select box value or whatever was loaded); it is only
   * checked when the display list is sorted.
   */
  datatype Store = Store(hideComplete: bool, sortType: string, tasks: seq<TaskRecord>)

  /**
   * A `Partial<TaskRecord>`: `Some` for every key present in the update
   * object. The `createdAt` and `id` entries are accepted and ignored.
   */
  datatype TaskUpdates = TaskUpdates(
    createdAt: Option<int>,
    complete: Option<bool>,
    id: Option<string>,
    title: Option<string>)

  /** The errors the source throws. */
  datatype Error = TaskNotFound(id: string) | UnknownSortType(sortType: string)

  /** No record in `tasks` carries `id`. */
  predicate IdFresh(id: string, tasks: seq<TaskRecord>) {
    forall i :: 0 <= i < |tasks| ==> tasks[i].id != id
  }

  /** No two records share an id. */
  ghost predicate UniqueIds(tasks: seq<TaskRecord>) {
    forall i, j :: 0 <= i < j < |tasks| ==> tasks[i].id != tasks[j].id
  }

  /** Position `i` holds the first record whose id is `id`. */
  ghost predicate IsFirstWithId(tasks: seq<TaskRecord>, i: int, id: string) {
    && 0 <= i < |tasks|
    && tasks[i].id == id
    && forall j :: 0 <= j < i ==> tasks[j].id != id
  }

  /** The index `Array.prototype.find` stops at when searching by id. */
  function FirstIndex(tasks: seq<TaskRecord>, id: string): (r: Option<nat>)
    ensures r.None? <==> IdFresh(id, tasks)
    ensures r.Some? ==> IsFirstWithId(tasks, r.value, id)
  {
    if tasks == [] then None
    else if tasks[0].id == id then Some(0)
    else match FirstIndex(tasks[1..], id)
      case None => None
      case Some(k) => Some(k + 1)
  }

  /** `findTaskById`: the first record with that id, if any. */
  function FindTaskById(store: Store, id: string): (r: Option<TaskRecord>)
    ensures r.None? <==> IdFresh(id, store.tasks)
    ensures r.Some? ==> exists i :: IsFirstWithId(store.tasks, i, id) && store.tasks[i] == r.value
  {
    match FirstIndex(store.tasks, id)
    case None => None
    case Some(k) => Some(store.tasks[k])
  }

  /**
   * `addTask`: appends a copy of `task` whose `createdAt` and `id` are
   * replaced by the clock reading and the generated id, both supplied by
   * the caller.
   */
  function AddTask(store: Store, task: TaskRecord, createdAt: int, id: string): (r: Store)
    ensures r.hideComplete == store.hideComplete && r.sortType == store.sortType
    ensures |r.tasks| == |store.tasks| + 1
    ensures r.tasks[..|store.tasks|] == store.tasks
    ensures r.tasks[|store.tasks|] == TaskRecord(createdAt, task.complete, id, task.title)
  {
    store.(tasks := store.tasks + [task.(createdAt := createdAt, id := id)])
  }

  /** A freshly added task is what a lookup of its id finds. */
  lemma AddTaskThenFind(store: Store, task: TaskRecord, createdAt: int, id: string)
    requires IdFresh(id, store.tasks)
    ensures FindTaskById(AddTask(store, task, createdAt, id), id)
            == Some(TaskRecord(createdAt, task.complete, id, task.title))
  {
  }

  /**
   * Adding under an id the store already holds does not change what a
   * lookup finds: the older record still comes first.
   */
  lemma AddTaskThenFindExisting(store: Store, task: TaskRecord, createdAt: int, id: string)
    requires !IdFresh(id, store.tasks)
    ensures FindTaskById(AddTask(store, task, createdAt, id), id) == FindTaskById(store, id)
  {
  }

  /** Adding a record under a fresh id keeps ids unique. */
  lemma AddTaskKeepsIdsUnique(store: Store, task: TaskRecord, createdAt: int, id: string)
    requires UniqueIds(store.tasks)
    requires IdFresh(id, store.tasks)
    ensures UniqueIds(AddTask(store, task, createdAt, id).tasks)
  {
  }

  /**
   * `updateTask`: fails when no record has `id`; otherwise overwrites
   * `complete` and `title` of the first record with that id, each only when
   * the update carries it.
   */
  function UpdateTask(store: Store, id: string, updates: TaskUpdates): (r: Result<Store, Error>)
    ensures r.Failure? <==> IdFresh(id, store.tasks)
    ensures r.Failure? ==> r.error == TaskNotFound(id)
    ensures r.Success? ==>
      && r.value.hideComplete == store.hideComplete
      && r.value.sortType == store.sortType
      && |r.value.tasks| == |store.tasks|
    ensures r.Success? ==> forall i :: 0 <= i < |store.tasks| ==>
      && r.value.tasks[i].id == store.tasks[i].id
      && r.value.tasks[i].createdAt == store.tasks[i].createdAt
    ensures r.Success? ==> forall i :: 0 <= i < |store.tasks| ==>
      if IsFirstWithId(store.tasks, i, id) then
        && r.value.tasks[i].complete == (if updates.complete.Some? then updates.complete.value else store.tasks[i].complete)
        && r.value.tasks[i].title == (if updates.title.Some? then updates.title.value else store.tasks[i].title)
      else
        r.value.tasks[i] == store.tasks[i]
  {
    match FirstIndex(store.tasks, id)
    case None => Failure(TaskNotFound(id))
    case Some(k) =>
      var task := store.tasks[k];
      var complete := if updates.complete.Some? then updates.complete.value else task.complete;
      var title := if updates.title.Some? then updates.title.value else task.title;
      Success(store.(tasks := store.tasks[k := task.(complete := complete, title := title)]))
  }

  /** Applying the same update a second time changes nothing more. */
  lemma {:induction false} UpdateTaskIdempotent(store: Store, id: string, updates: TaskUpdates)
    requires UpdateTask(store, id, updates).Success?
    ensures UpdateTask(UpdateTask(store, id, updates).value, id, updates)
            == UpdateTask(store, id, updates)
  {
    var once := UpdateTask(store, id, updates).value;
    var twice := UpdateTask(once, id, updates);
    assert twice.Success?;
    forall i | 0 <= i < |store.tasks|
      ensures IsFirstWithId(once.tasks, i, id) == IsFirstWithId(store.tasks, i, id)
    {
    }
    assert twice.value.tasks == once.tasks;
  }

  /** An update never changes which ids the store holds, so uniqueness survives it. */
  lemma UpdateTaskKeepsIdsUnique(store: Store, id: string, updates: TaskUpdates)
    requires UniqueIds(store.tasks)
    requires UpdateTask(store, id, updates).Success?
    ensures UniqueIds(UpdateTask(store, id, updates).value.tasks)
  {
  }

  /**
   * After an update, looking the id up finds the record found before, with
   * the update's `complete` and `title` written over it.
   */
  lemma UpdateTaskThenFind(store: Store, id: string, updates: TaskUpdates)
    requires UpdateTask(store, id, updates).Success?
    ensures FindTaskById(store, id).Some?
    ensures var before := FindTaskById(store, id).value;
      var after := FindTaskById(UpdateTask(store, id, updates).value, id);
      && after.Some?
      && after.value.id == before.id
      && after.value.createdAt == before.createdAt
      && after.value.complete == (if updates.complete.Some? then updates.complete.value else before.complete)
      && after.value.title == (if updates.title.Some? then updates.title.value else before.title)
  {
  }

  /** `removeTask`: keeps exactly the records whose id differs, in order. */
  function RemoveTask(store: Store, id: string): (r: Store)
    ensures r.hideComplete == store.hideComplete && r.sortType == store.sortType
    ensures IsSubsequence(r.tasks, store.tasks)
    ensures forall t :: multiset(r.tasks)[t] == if t.id == id then 0 else multiset(store.tasks)[t]
    ensures IdFresh(id, r.tasks)
    ensures IdFresh(id, store.tasks) ==> r == store
  {
    store.(tasks := Filter(store.tasks, (t: TaskRecord) => t.id != id))
  }

  /** Removing the same id twice is removing it once. */
  lemma RemoveTaskIdempotent(store: Store, id: string)
    ensures RemoveTask(RemoveTask(store, id), id) == RemoveTask(store, id)
  {
  }

  /** Ids stay unique in any order-preserving selection of the records. */
  lemma {:induction false} SubsequenceKeepsIdsUnique(a: seq<TaskRecord>, b: seq<TaskRecord>)
    requires IsSubsequence(a, b)
    requires UniqueIds(b)
    ensures UniqueIds(a)
    decreases |b|
  {
    if a != [] {
      assert UniqueIds(b[1..]) by {
        forall i, j | 0 <= i < j < |b[1..]|
          ensures b[1..][i].id != b[1..][j].id
        {
          assert b[1..][i] == b[i + 1] && b[1..][j] == b[j + 1];
        }
      }
      if a[0] == b[0] && IsSubsequence(a[1..], b[1..]) {
        SubsequenceKeepsIdsUnique(a[1..], b[1..]);
        forall i, j | 0 <= i < j < |a|
          ensures a[i].id != a[j].id
        {
          if i == 0 {
            SubsequenceMembers(a[1..], b[1..], a[j]);
            var k :| 0 <= k < |b[1..]| && b[1..][k] == a[j];
            assert b[k + 1] == a[j];
          } else {
            assert a[i] == a[1..][i - 1] && a[j] == a[1..][j - 1];
          }
        }
      } else {
        SubsequenceKeepsIdsUnique(a, b[1..]);
      }
    }
  }

  /** Removing a record keeps ids unique. */
  lemma RemoveTaskKeepsIdsUnique(store: Store, id: string)
    requires UniqueIds(store.tasks)
    ensures UniqueIds(RemoveTask(store, id).tasks)
  {
    SubsequenceKeepsIdsUnique(RemoveTask(store, id).tasks, store.tasks);
  }

  /** `setSortType`: replaces the sort preference only. */
  function SetSortType(store: Store, sortType: string): (r: Store)
    ensures r.sortType == sortType
    ensures r.hideComplete == store.hideComplete && r.tasks == store.tasks
  {
    store.(sortType := sortType)
  }

  /** `setHideComplete`: replaces the hide-complete preference only. */
  function SetHideComplete(store: Store, hideComplete: bool): (r: Store)
    ensures r.hideComplete == hideComplete
    ensures r.sortType == store.sortType && r.tasks == store.tasks
  {
    store.(hideComplete := hideComplete)
  }

  /**
   * The two preference setters touch disjoint fields, so they commute, and
   * the later of two calls to the same setter wins.
   */
  lemma PreferenceSettersIndependent(store: Store, sortType: string, sortType': string, hideComplete: bool, hideComplete': bool)
    ensures SetSortType(SetHideComplete(store, hideComplete), sortType)
            == SetHideComplete(SetSortType(store, sortType), hideComplete)
    ensures SetSortType(SetSortType(store, sortType'), sortType) == SetSortType(store, sortType)
    ensures SetHideComplete(SetHideComplete(store, hideComplete'), hideComplete) == SetHideComplete(store, hideComplete)
  {
  }
}
