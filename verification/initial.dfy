/**
 * The default store used on first run: preferences at their defaults and
 * three seed tasks, the first still open and the other two done. Clock
 * readings and generated ids are parameters.
 */
module InitialState {
  import opened Wrappers
  import opened Tasks
  import opened Query

  const OpenSeedTitle: string := "なんかおもしろいこという"
  const HelloSeedTitle: string := "Say hello to the world!"
  const SushiSeedTitle: string := "おいしいお寿司をたべる"

  /**
   * `createInitialStore` as the source writes it: each seed task reads the
   * clock separately (`now0`, `now1`, `now2`) and subtracts its own offset.
   */
  function InitialStore(now0: int, now1: int, now2: int, id0: string, id1: string, id2: string): (r: Store)
    ensures !r.hideComplete && r.sortType == "createdAt-down"
    ensures |r.tasks| == 3
    ensures r.tasks[0].id == id0 && r.tasks[1].id == id1 && r.tasks[2].id == id2
    ensures FilteredTasks(r.tasks, true) == [r.tasks[0]]
    ensures r.tasks[0].title == OpenSeedTitle
  {
    var tasks := [
      TaskRecord(now0, false, id0, OpenSeedTitle),
      TaskRecord(now1 - 2, true, id1, HelloSeedTitle),
      TaskRecord(now2 - 1, true, id2, SushiSeedTitle)
    ];
    assert FilteredTasks(tasks, true) == [tasks[0]] by {
      var open := FilteredTasks(tasks, true);
      assert multiset(open)[tasks[0]] == 1;
      assert forall t :: t != tasks[0] ==> multiset(open)[t] == 0;
      assert multiset(open) == multiset{tasks[0]};
      assert |open| == 1;
      assert open[0] in multiset(open);
    }
    Store(false, "createdAt-down", tasks)
  }

  /**
   * The seed createdAt values are pairwise distinct exactly when no pair of
   * readings happens to cancel the offsets.
   */
  lemma InitialStoreDistinctTimes(now0: int, now1: int, now2: int, id0: string, id1: string, id2: string)
    ensures var tasks := InitialStore(now0, now1, now2, id0, id1, id2).tasks;
      (forall i, j :: 0 <= i < j < 3 ==> tasks[i].createdAt != tasks[j].createdAt)
      <==> (now1 != now0 + 2 && now2 != now0 + 1 && now2 != now1 - 1)
  {
  }

  /** A clock tick between the first and third reading gives two seeds the same createdAt. */
  lemma InitialStoreClockTickCollides(now: int, id0: string, id1: string, id2: string)
    ensures var tasks := InitialStore(now, now, now + 1, id0, id1, id2).tasks;
      tasks[0].createdAt == tasks[2].createdAt
  {
  }

  /**
   * The default store with the clock read once, which is what the offsets
   * `- 2` and `- 1` are relative to: the open task is newest, then the
   * sushi task, then the hello task.
   */
  function InitialStoreAt(now: int, id0: string, id1: string, id2: string): (r: Store)
    ensures !r.hideComplete && r.sortType == "createdAt-down"
    ensures |r.tasks| == 3
    ensures r.tasks[0].id == id0 && r.tasks[1].id == id1 && r.tasks[2].id == id2
    ensures FilteredTasks(r.tasks, true) == [r.tasks[0]]
    ensures r.tasks[1].createdAt < r.tasks[2].createdAt < r.tasks[0].createdAt == now
  {
    Store(false, "createdAt-down", [
      TaskRecord(now, false, id0, OpenSeedTitle),
      TaskRecord(now - 2, true, id1, HelloSeedTitle),
      TaskRecord(now - 1, true, id2, SushiSeedTitle)
    ])
  }

  /** When the three readings coincide, the source's store is the one-reading store. */
  lemma InitialStoreAtAgrees(now: int, id0: string, id1: string, id2: string)
    ensures InitialStore(now, now, now, id0, id1, id2) == InitialStoreAt(now, id0, id1, id2)
  {
  }

  /** Distinct generated ids make the seed ids unique. */
  lemma InitialStoreIdsUnique(now0: int, now1: int, now2: int, id0: string, id1: string, id2: string)
    requires id0 != id1 && id0 != id2 && id1 != id2
    ensures UniqueIds(InitialStore(now0, now1, now2, id0, id1, id2).tasks)
  {
  }

  /** Hiding completed tasks in the default store leaves only the open seed. */
  lemma DefaultHideCompleteShowsOne(now0: int, now1: int, now2: int, id0: string, id1: string, id2: string,
                                    collate: (string, string) -> int)
    ensures var store := SetHideComplete(InitialStore(now0, now1, now2, id0, id1, id2), true);
      var shown := DisplaySnapshot(store, collate);
      && shown.Success?
      && shown.value == [TaskRecord(now0, false, id0, OpenSeedTitle)]
  {
  }

  /**
   * Adding a task later than the default store was created puts it first
   * in the default newest-first display, ahead of the three seeds. The
   * clock readings are taken in order, as successive `Date.now()` calls are.
   */
  lemma DefaultAddShowsNewestFirst(now0: int, now1: int, now2: int, id0: string, id1: string, id2: string,
                                   input: TaskRecord, later: int, newId: string,
                                   collate: (string, string) -> int)
    requires now0 <= now1 <= now2 < later
    ensures var store := AddTask(InitialStore(now0, now1, now2, id0, id1, id2), input, later, newId);
      var shown := DisplaySnapshot(store, collate);
      && shown.Success?
      && |shown.value| == 4
      && shown.value[0] == TaskRecord(later, input.complete, newId, input.title)
  {
    var seeded := InitialStore(now0, now1, now2, id0, id1, id2);
    var store := AddTask(seeded, input, later, newId);
    var shown := DisplaySnapshot(store, collate).value;
    var added := TaskRecord(later, input.complete, newId, input.title);
    assert store.tasks == seeded.tasks + [added];
    assert multiset(shown) == multiset(store.tasks);
    assert |shown| == 4 by {
      assert |multiset(shown)| == |multiset(store.tasks)|;
    }
    NewestShownFirst(store, collate);
    assert added in multiset(shown);
    var k :| 0 <= k < |shown| && shown[k] == added;
    assert shown[0].createdAt >= later;
    assert shown[0] in multiset(store.tasks);
    assert shown[0] in store.tasks;
  }

  /** The same scenario for the one-reading store: only the single reading must precede `later`. */
  lemma DefaultAtAddShowsNewestFirst(now: int, id0: string, id1: string, id2: string,
                                     input: TaskRecord, later: int, newId: string,
                                     collate: (string, string) -> int)
    requires now < later
    ensures var store := AddTask(InitialStoreAt(now, id0, id1, id2), input, later, newId);
      var shown := DisplaySnapshot(store, collate);
      && shown.Success?
      && |shown.value| == 4
      && shown.value[0] == TaskRecord(later, input.complete, newId, input.title)
  {
    InitialStoreAtAgrees(now, id0, id1, id2);
    DefaultAddShowsNewestFirst(now, now, now, id0, id1, id2, input, later, newId, collate);
  }
}
