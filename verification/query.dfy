/**
 * The query pipeline: the hide-complete filter, the comparator chosen by
 * sort type, the sort, and their composition into the list that is
 * rendered. None of these change the store.
 *
 * `String.prototype.localeCompare` is a parameter `collate`: a comparator
 * on titles whose sign says which title comes first.
 */
module Query {
  import opened Wrappers
  import opened Seqs
  import opened Tasks

  /** The four sort strategies, each with the spelling stored in `Store.sortType`. */
  datatype SortType = CreatedAtDown | CreatedAtUp | NameDown | NameUp {

    function Name(): string {
      match this
      case CreatedAtDown => "createdAt-down"
      case CreatedAtUp => "createdAt-up"
      case NameDown => "name-down"
      case NameUp => "name-up"
    }

  }

  /** The sort type spellings the comparator selector accepts: the strategies' own names. */
  const SortTypeNames: set<string> := set k: SortType :: k.Name()

  /**
   * The comparator `getSortComparator` hands to `Array.prototype.sort`: a
   * negative or zero result keeps `v` before `u`, a positive one swaps them.
   * The createdAt comparators put the newer (resp. older) record first and
   * tie exactly on equal timestamps; the name comparators ask the collation
   * about the titles, ascending or with the arguments swapped.
   */
  function Comparator(sortType: SortType, collate: (string, string) -> int): (cmp: (TaskRecord, TaskRecord) -> int)
    ensures sortType.CreatedAtDown? ==> forall v, u ::
      && (cmp(v, u) <= 0 <==> v.createdAt >= u.createdAt)
      && (cmp(v, u) == 0 <==> v.createdAt == u.createdAt)
    ensures sortType.CreatedAtUp? ==> forall v, u ::
      && (cmp(v, u) <= 0 <==> v.createdAt <= u.createdAt)
      && (cmp(v, u) == 0 <==> v.createdAt == u.createdAt)
    ensures sortType.NameUp? ==> forall v, u :: cmp(v, u) == collate(v.title, u.title)
    ensures sortType.NameDown? ==> forall v, u :: cmp(v, u) == collate(u.title, v.title)
  {
    match sortType
    case CreatedAtDown => (v: TaskRecord, u: TaskRecord) => u.createdAt - v.createdAt
    case CreatedAtUp => (v: TaskRecord, u: TaskRecord) => v.createdAt - u.createdAt
    case NameDown => (v: TaskRecord, u: TaskRecord) => collate(u.title, v.title)
    case NameUp => (v: TaskRecord, u: TaskRecord) => collate(v.title, u.title)
  }

  /** Each descending comparator is its ascending partner with the arguments swapped. */
  lemma DescendingReversesAscending(collate: (string, string) -> int, v: TaskRecord, u: TaskRecord)
    ensures Comparator(CreatedAtDown, collate)(v, u) == Comparator(CreatedAtUp, collate)(u, v)
    ensures Comparator(NameDown, collate)(v, u) == Comparator(NameUp, collate)(u, v)
  {
  }

  /** `filteredTasks`: everything, or only the incomplete records in their original order. */
  function FilteredTasks(tasks: seq<TaskRecord>, hideComplete: bool): (r: seq<TaskRecord>)
    ensures !hideComplete ==> r == tasks
    ensures hideComplete ==> IsSubsequence(r, tasks)
    ensures hideComplete ==> forall i :: 0 <= i < |r| ==> !r[i].complete
    ensures hideComplete ==> forall t :: multiset(r)[t] == if t.complete then 0 else multiset(tasks)[t]
  {
    if !hideComplete then tasks
    else Filter(tasks, (t: TaskRecord) => !t.complete)
  }

  /** `getSortComparator`: accepts exactly the four spellings and throws on anything else. */
  function GetSortComparator(sortType: string): (r: Result<SortType, Error>)
    ensures r.Success? <==> sortType in SortTypeNames
    ensures r.Success? ==> r.value.Name() == sortType
    ensures r.Failure? ==> r.error == UnknownSortType(sortType)
  {
    if sortType == "createdAt-down" then Success(CreatedAtDown)
    else if sortType == "createdAt-up" then Success(CreatedAtUp)
    else if sortType == "name-down" then Success(NameDown)
    else if sortType == "name-up" then Success(NameUp)
    else Failure(UnknownSortType(sortType))
  }

  /** Every strategy's stored spelling selects that strategy again. */
  lemma SortTypeNameRoundTrip(sortType: SortType)
    ensures sortType.Name() in SortTypeNames
    ensures GetSortComparator(sortType.Name()) == Success(sortType)
  {
  }

  /** The comparators can order any two records (the name ones when the collation can). */
  lemma ComparatorStronglyConnected(sortType: SortType, collate: (string, string) -> int)
    requires sortType.NameDown? || sortType.NameUp? ==> StronglyConnected(collate)
    ensures StronglyConnected(Comparator(sortType, collate))
  {
  }

  /**
   * `getSortedTasks`: a sorted copy of `tasks`, failing for an unknown sort
   * type. The name orders are promised only for a total collation.
   */
  function GetSortedTasks(sortType: string, tasks: seq<TaskRecord>, collate: (string, string) -> int)
    : (r: Result<seq<TaskRecord>, Error>)
    ensures r.Failure? <==> sortType !in SortTypeNames
    ensures r.Failure? ==> r.error == UnknownSortType(sortType)
    ensures r.Success? ==> multiset(r.value) == multiset(tasks)
    ensures sortType == "createdAt-down" ==>
      && r.Success?
      && forall i :: 0 <= i && i + 1 < |r.value| ==> r.value[i].createdAt >= r.value[i + 1].createdAt
    ensures sortType == "createdAt-up" ==>
      && r.Success?
      && forall i :: 0 <= i && i + 1 < |r.value| ==> r.value[i].createdAt <= r.value[i + 1].createdAt
    ensures sortType == "name-down" && StronglyConnected(collate) ==>
      && r.Success?
      && forall i :: 0 <= i && i + 1 < |r.value| ==> collate(r.value[i + 1].title, r.value[i].title) <= 0
    ensures sortType == "name-up" && StronglyConnected(collate) ==>
      && r.Success?
      && forall i :: 0 <= i && i + 1 < |r.value| ==> collate(r.value[i].title, r.value[i + 1].title) <= 0
  {
    match GetSortComparator(sortType)
    case Failure(e) => Failure(e)
    case Success(k) =>
      var cmp := Comparator(k, collate);
      var sorted := SortBy(tasks, cmp);
      assert (k.NameDown? || k.NameUp? ==> StronglyConnected(collate)) ==> Sorted(sorted, cmp) by {
        if k.NameDown? || k.NameUp? ==> StronglyConnected(collate) {
          ComparatorStronglyConnected(k, collate);
        }
      }
      Success(sorted)
  }

  /**
   * The list `render` draws: `getSortedTasks(store.sortType,
   * filteredTasks(store.tasks, store.hideComplete))`.
   */
  function DisplaySnapshot(store: Store, collate: (string, string) -> int): (r: Result<seq<TaskRecord>, Error>)
    ensures r.Failure? <==> store.sortType !in SortTypeNames
    ensures r.Failure? ==> r.error == UnknownSortType(store.sortType)
    ensures r.Success? ==> forall t ::
      multiset(r.value)[t] == if store.hideComplete && t.complete then 0 else multiset(store.tasks)[t]
    ensures r.Success? && store.hideComplete ==> forall i :: 0 <= i < |r.value| ==> !r.value[i].complete
    ensures store.sortType == "createdAt-down" ==>
      && r.Success?
      && forall i :: 0 <= i && i + 1 < |r.value| ==> r.value[i].createdAt >= r.value[i + 1].createdAt
  {
    var filtered := FilteredTasks(store.tasks, store.hideComplete);
    var r := GetSortedTasks(store.sortType, filtered, collate);
    assert r.Success? ==> forall i :: 0 <= i < |r.value| ==> r.value[i] in multiset(filtered);
    r
  }

  /** In a newest-first list the head is at least as new as every record. */
  lemma {:induction false} NewestFirstHead(s: seq<TaskRecord>)
    requires forall i :: 0 <= i && i + 1 < |s| ==> s[i].createdAt >= s[i + 1].createdAt
    ensures forall i :: 0 <= i < |s| ==> s[0].createdAt >= s[i].createdAt
  {
    if |s| > 1 {
      var tail := s[1..];
      NewestFirstHead(tail);
      forall i | 1 <= i < |s|
        ensures s[0].createdAt >= s[i].createdAt
      {
        assert s[i] == tail[i - 1] && s[1] == tail[0];
      }
    }
  }

  /** Under "createdAt-down" the first record shown is at least as new as every other one. */
  lemma NewestShownFirst(store: Store, collate: (string, string) -> int)
    requires store.sortType == "createdAt-down"
    ensures DisplaySnapshot(store, collate).Success?
    ensures var shown := DisplaySnapshot(store, collate).value;
      forall i :: 0 <= i < |shown| ==> shown[0].createdAt >= shown[i].createdAt
  {
    NewestFirstHead(DisplaySnapshot(store, collate).value);
  }
}
