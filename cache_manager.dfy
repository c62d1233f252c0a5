/**
 * The cache manager: a process-wide cache of retrieved values, a per-request
 * snapshot of it, and a shared `cache` table of generation counters through
 * which processes tell each other that a value is stale.
 *
 * Each operation is first written as a function on values (`GetStep`,
 * `InvalidateStep`, `Reset`), about which the properties are proved; the class
 * `CacheManager` then performs the same operations by updating its fields and
 * the shared `GenerationStore`, and its methods are proved to agree with the
 * functions.
 */
module CacheManagement {
  import opened Wrappers
  import opened CacheKeys

  /** A cached value together with the generation it was retrieved under. */
  datatype Entry<D> = Entry(data: D, generation: int)

  /** A row of the `cache` table: the generation counter and the (advisory) key. */
  datatype Row = Row(generation: int, key: string)

  /** The `cache` table, indexed by id. */
  type Table = map<int, Row>

  /** What one call of the retriever produced: a value, or an exception it raised. */
  datatype Fetched<D> = Retrieved(data: D) | RetrieverError

  /** The generation a query of the table reports for `id`: the row's, or -1 when there is no row. */
  function Observed(table: Table, id: int): int {
    if id in table then table[id].generation else -1
  }

  /** The snapshot of all generations read at the first `get` of a request. */
  function Generations(table: Table): (m: map<int, int>)
    ensures m.Keys == table.Keys
    ensures forall id :: Observed(table, id) == MetaGeneration(m, id)
  {
    map id | id in table :: table[id].generation
  }

  /** `local_meta.get(id, -1)`. */
  function MetaGeneration(meta: map<int, int>, id: int): int {
    if id in meta then meta[id] else -1
  }

  /**
   * The state one manager keeps about one request thread: the process cache,
   * and the thread's generation snapshot and cache copy (None before the first `get`
   * of the request).
   */
  datatype ManagerState<D> = ManagerState(
    cache: map<int, Entry<D>>,
    meta: Option<map<int, int>>,
    local: Option<map<int, Entry<D>>>)

  /** The snapshot and the thread's copy are set and cleared together. */
  predicate Consistent<D>(s: ManagerState<D>) {
    s.meta.None? <==> s.local.None?
  }

  /** No generation the manager holds is ahead of the table. */
  predicate Bounded<D>(s: ManagerState<D>, table: Table) {
    && (forall id :: id in s.cache ==> s.cache[id].generation <= Observed(table, id))
    && (s.local.Some? ==> forall id :: id in s.local.value ==> s.local.value[id].generation <= Observed(table, id))
    && (s.meta.Some? ==> forall id :: id in s.meta.value ==> s.meta.value[id] <= Observed(table, id))
  }

  /** The table only grew: no generation went down and no row disappeared. */
  ghost predicate Grows(before: Table, after: Table) {
    forall id :: Observed(before, id) <= Observed(after, id)
  }

  /** Generations stored in the table are never negative: rows start at 0 and only go up. */
  predicate NonNegative(table: Table) {
    forall id :: id in table ==> table[id].generation >= 0
  }

  /** The outcome of one `get`. */
  datatype GetOutcome<D> = GetOutcome(
    state: ManagerState<D>,
    value: Fetched<D>,
    called: bool,     // the retriever was called
    reloaded: bool)   // the generation snapshot was read from the table

  /**
   * `get(id, retriever, instance)` against `table`, where `fetched` is what the
   * retriever would produce if it were called.
   */
  function GetStep<D>(s: ManagerState<D>, table: Table, id: int, fetched: Fetched<D>): (g: GetOutcome<D>)
    requires Consistent(s)
    ensures Consistent(g.state) && g.state.meta.Some?
    ensures g.reloaded <==> s.meta.None?
    ensures forall k :: k != id ==> (k in g.state.cache <==> k in s.cache)
    ensures forall k :: k != id && k in s.cache ==> g.state.cache[k] == s.cache[k]
    ensures g.called ==> g.value == fetched
    ensures g.called && fetched.Retrieved? ==> id in g.state.cache && g.state.cache[id] == Entry(fetched.data, Observed(table, id))
    ensures !g.called ==> g.state.cache == s.cache && g.value.Retrieved?
  {
    var meta := if s.meta.None? then Generations(table) else s.meta.value;
    var local := if s.meta.None? then s.cache else s.local.value;
    var reloaded := s.meta.None?;
    var dbGeneration := MetaGeneration(meta, id);
    if id in local && local[id].generation == dbGeneration then
      // the thread's copy is as new as the snapshot
      GetOutcome(ManagerState(s.cache, Some(meta), Some(local)), Retrieved(local[id].data), false, reloaded)
    else
      // under the lock: the process entry is copied into the thread's copy first
      var local' := if id in s.cache then local[id := s.cache[id]] else local;
      var current := Observed(table, id);
      if id in s.cache && (s.cache[id].generation == dbGeneration || s.cache[id].generation == current) then
        // the process cache matches the snapshot, or the table as it is now
        GetOutcome(ManagerState(s.cache, Some(meta), Some(local')), Retrieved(s.cache[id].data), false, reloaded)
      else
        match fetched
        case RetrieverError =>
          GetOutcome(ManagerState(s.cache, Some(meta), Some(local')), RetrieverError, true, reloaded)
        case Retrieved(d) =>
          var e := Entry(d, current);
          GetOutcome(ManagerState(s.cache[id := e], Some(meta[id := current]), Some(local'[id := e])),
                     Retrieved(d), true, reloaded)
  }

  /**
   * The generation bump of `invalidate(id)`: an existing row's generation goes
   * up by one, a missing row is inserted with generation 0 and `key`.
   */
  function Bump(table: Table, id: int, key: string): (t: Table)
    ensures t.Keys == table.Keys + {id}
    ensures Observed(t, id) == Observed(table, id) + 1 || (id !in table && Observed(t, id) == 0)
    ensures Observed(t, id) > Observed(table, id)
    ensures NonNegative(table) ==> NonNegative(t)
    ensures forall k :: k != id ==> Observed(t, k) == Observed(table, k)
    ensures id in table ==> t[id].key == table[id].key
    ensures id !in table ==> t[id].key == key
  {
    if id in table then table[id := Row(table[id].generation + 1, table[id].key)]
    else table[id := Row(0, key)]
  }

  /** The in-memory part of `invalidate(id)`: the entry leaves the process cache and the thread's copy. */
  function InvalidateStep<D>(s: ManagerState<D>, id: int): (r: ManagerState<D>)
    ensures id !in r.cache && r.cache == s.cache - {id}
    ensures r.meta == s.meta
    ensures r.local.Some? <==> s.local.Some?
    ensures r.local.Some? ==> id !in r.local.value && r.local.value == s.local.value - {id}
  {
    ManagerState(s.cache - {id}, s.meta, if s.local.Some? then Some(s.local.value - {id}) else None)
  }

  /** `reset_metadata()`: the next `get` of the thread starts a new request. */
  function Reset<D>(s: ManagerState<D>): (r: ManagerState<D>)
    ensures r.cache == s.cache && r.meta.None? && r.local.None?
  {
    ManagerState(s.cache, None, None)
  }

  /** The thread's copy answers `get` on its own. */
  predicate ServedLocally<D>(s: ManagerState<D>, id: int)
    requires Consistent(s)
  {
    s.meta.Some? && id in s.local.value && s.local.value[id].generation == MetaGeneration(s.meta.value, id)
  }

  // ---------------------------------------------------------------------------
  // Properties of one operation

  /** A hit in the thread's copy returns that copy and changes nothing. */
  lemma LocalHit<D>(s: ManagerState<D>, table: Table, id: int, fetched: Fetched<D>)
    requires Consistent(s) && ServedLocally(s, id)
    ensures var g := GetStep(s, table, id, fetched);
      !g.called && !g.reloaded && g.state == s && g.value == Retrieved(s.local.value[id].data)
  {
  }

  /**
   * A process entry as new as the table is returned without calling the
   * retriever, and is copied into the thread's copy.
   */
  lemma ProcessHit<D>(s: ManagerState<D>, table: Table, id: int, fetched: Fetched<D>)
    requires Consistent(s) && !ServedLocally(s, id)
    requires id in s.cache && s.cache[id].generation == Observed(table, id)
    ensures var g := GetStep(s, table, id, fetched);
      !g.called && g.value == Retrieved(s.cache[id].data) && g.state.cache == s.cache
      && g.state.local.value[id] == s.cache[id]
  {
  }

  /** The first `get` of a request finds an up-to-date process entry and returns it without calling the retriever. */
  lemma FirstGetOfRequest<D>(s: ManagerState<D>, table: Table, id: int, fetched: Fetched<D>)
    requires s.meta.None? && s.local.None?
    requires id in s.cache && s.cache[id].generation == Observed(table, id)
    ensures var g := GetStep(s, table, id, fetched);
      g.reloaded && !g.called && g.value == Retrieved(s.cache[id].data)
      && g.state.meta == Some(Generations(table)) && g.state.local == Some(s.cache)
  {
  }

  /**
   * The retriever is called exactly when neither the thread's copy nor the
   * process cache holds an entry of the snapshot's or the table's generation.
   */
  lemma CalledExactlyWhenStale<D>(s: ManagerState<D>, table: Table, id: int, fetched: Fetched<D>)
    requires Consistent(s)
    ensures var meta := if s.meta.None? then Generations(table) else s.meta.value;
      var local := if s.meta.None? then s.cache else s.local.value;
      var g := GetStep(s, table, id, fetched);
      g.called <==>
        !(id in local && local[id].generation == MetaGeneration(meta, id))
        && !(id in s.cache && s.cache[id].generation in {MetaGeneration(meta, id), Observed(table, id)})
  {
  }

  /** A failing retriever caches nothing, though the request's snapshot is still taken. */
  lemma RetrieverErrorCachesNothing<D>(s: ManagerState<D>, table: Table, id: int)
    requires Consistent(s)
    ensures var g := GetStep(s, table, id, RetrieverError);
      g.state.cache == s.cache
      && (g.called ==> g.value == RetrieverError && g.state.meta.value.Keys == (if s.meta.None? then table.Keys else s.meta.value.Keys))
  {
  }

  /** A second `get` of the same id, with the table unchanged, is answered from memory with the same value. */
  lemma RepeatedGet<D>(s: ManagerState<D>, table: Table, id: int, first: Fetched<D>, second: Fetched<D>)
    requires Consistent(s)
    requires GetStep(s, table, id, first).value.Retrieved?
    ensures var g1 := GetStep(s, table, id, first);
      var g2 := GetStep(g1.state, table, id, second);
      !g2.called && !g2.reloaded && g2.value == g1.value && g2.state.cache == g1.state.cache
  {
  }

  /** Invalidating an id twice from scratch leaves it at generation 1. */
  lemma InvalidateTwice(table: Table, id: int, key: string)
    requires id !in table
    ensures Observed(Bump(table, id, key), id) == 0
    ensures Observed(Bump(Bump(table, id, key), id, key), id) == 1
  {
  }

  // ---------------------------------------------------------------------------
  // The invariant and cross-request properties

  lemma GrowsTransitive(a: Table, b: Table, c: Table)
    requires Grows(a, b) && Grows(b, c)
    ensures Grows(a, c)
  {
  }

  /** Invalidation makes the table grow. */
  lemma BumpGrows(table: Table, id: int, key: string)
    ensures Grows(table, Bump(table, id, key))
  {
  }

  /** A manager's generations stay behind the table however the table grows (other processes invalidating). */
  lemma {:induction false} BoundedWhenTableGrows<D>(s: ManagerState<D>, before: Table, after: Table)
    requires Bounded(s, before) && Grows(before, after)
    ensures Bounded(s, after)
  {
    forall id | id in s.cache
      ensures s.cache[id].generation <= Observed(after, id)
    {
      assert Observed(before, id) <= Observed(after, id);
    }
    if s.local.Some? {
      forall id | id in s.local.value
        ensures s.local.value[id].generation <= Observed(after, id)
      {
        assert Observed(before, id) <= Observed(after, id);
      }
    }
    if s.meta.Some? {
      forall id | id in s.meta.value
        ensures s.meta.value[id] <= Observed(after, id)
      {
        assert Observed(before, id) <= Observed(after, id);
      }
    }
  }

  /** `get` keeps the manager behind the table. */
  lemma GetKeepsBounded<D>(s: ManagerState<D>, table: Table, id: int, fetched: Fetched<D>)
    requires Consistent(s) && Bounded(s, table)
    ensures Bounded(GetStep(s, table, id, fetched).state, table)
  {
  }

  /** `invalidate` keeps the manager behind the new table. */
  lemma InvalidateKeepsBounded<D>(s: ManagerState<D>, table: Table, id: int, key: string)
    requires Bounded(s, table)
    ensures Bounded(InvalidateStep(s, id), Bump(table, id, key))
  {
    BoundedWhenTableGrows(s, table, Bump(table, id, key));
  }

  /** `reset_metadata` keeps the manager behind the table. */
  lemma ResetKeepsBounded<D>(s: ManagerState<D>, table: Table)
    requires Bounded(s, table)
    ensures Bounded(Reset(s), table)
  {
  }

  /** The `get` right after this thread's own `invalidate` calls the retriever and caches what it returns. */
  lemma ReadYourOwnInvalidation<D>(s: ManagerState<D>, table: Table, id: int, key: string, fetched: Fetched<D>)
    requires Consistent(s)
    ensures var table' := Bump(table, id, key);
      var g := GetStep(InvalidateStep(s, id), table', id, fetched);
      g.called && g.value == fetched
      && (fetched.Retrieved? ==> g.state.cache[id] == Entry(fetched.data, Observed(table', id)))
  {
  }

  /**
   * Once another process has invalidated `id` (the table's generation passed
   * every generation this manager holds), the first `get` of the next request
   * calls the retriever.
   */
  lemma OtherProcessInvalidation<D>(s: ManagerState<D>, table: Table, key: string, id: int, fetched: Fetched<D>)
    requires Bounded(s, table)
    ensures var g := GetStep(Reset(s), Bump(table, id, key), id, fetched);
      g.called && g.reloaded
  {
  }

  /**
   * Within one request a thread keeps answering from its snapshot: after another
   * process invalidated `id`, a thread that already holds an entry of the
   * snapshot's generation still returns it without calling the retriever.
   */
  lemma SnapshotHidesOtherProcesses<D>(data: D, newer: D, key: string)
    ensures var table := map[7 := Row(0, key)];
      var s := ManagerState(map[7 := Entry(data, 0)], Some(map[7 := 0]), Some(map[7 := Entry(data, 0)]));
      var g := GetStep(s, Bump(table, 7, key), 7, Retrieved(newer));
      Bounded(s, table) && !g.called && g.value == Retrieved(data)
  {
  }

  // ---------------------------------------------------------------------------
  // The stateful manager

  /** The `cache` table shared by every process on one database. */
  class GenerationStore {
    var rows: Table

    constructor()
      ensures rows == map[]
    {
      rows := map[];
    }
  }

  /** `CacheManager`: the process cache and one request thread's snapshot of it. */
  class CacheManager<D> {
    var cache: map<int, Entry<D>>
    var localMeta: Option<map<int, int>>
    var localCache: Option<map<int, Entry<D>>>
    const store: GenerationStore
    const registry: KeyRegistry
    ghost var retrieverCalls: nat

    function State(): ManagerState<D>
      reads this
    {
      ManagerState(cache, localMeta, localCache)
    }

    ghost predicate Valid()
      reads this, store
    {
      Consistent(State()) && Bounded(State(), store.rows) && NonNegative(store.rows)
    }

    constructor(store: GenerationStore, registry: KeyRegistry)
      requires NonNegative(store.rows)
      ensures this.store == store && this.registry == registry
      ensures cache == map[] && localMeta.None? && localCache.None? && retrieverCalls == 0
      ensures Valid()
    {
      this.store := store;
      this.registry := registry;
      cache := map[];
      localMeta := None;
      localCache := None;
      retrieverCalls := 0;
    }

    /** `reset_metadata()`. */
    method ResetMetadata()
      requires Valid()
      modifies this
      ensures State() == Reset(old(State())) && retrieverCalls == old(retrieverCalls)
      ensures Valid()
    {
      localMeta := None;
      localCache := None;
    }

    /** `get(id, retriever, instance)`. */
    method Get<O>(id: int, retriever: O -> Fetched<D>, instance: O) returns (value: Fetched<D>)
      requires Valid()
      modifies this
      ensures var g := GetStep(old(State()), store.rows, id, retriever(instance));
        State() == g.state && value == g.value
        && retrieverCalls == old(retrieverCalls) + (if g.called then 1 else 0)
      ensures Valid()
    {
      ghost var g := GetStep(State(), store.rows, id, retriever(instance));
      GetKeepsBounded(State(), store.rows, id, retriever(instance));
      if localMeta.None? {
        localMeta := Some(Generations(store.rows));
        localCache := Some(cache);
      }
      var meta := localMeta.value;
      var local := localCache.value;
      var dbGeneration := if id in meta then meta[id] else -1;
      if id in local && local[id].generation == dbGeneration {
        return Retrieved(local[id].data);
      }
      if id in cache {
        var entry := cache[id];
        local := local[id := entry];
        localCache := Some(local);
        if entry.generation == dbGeneration {
          return Retrieved(entry.data);
        }
      }
      var current := if id in store.rows then store.rows[id].generation else -1;
      if id in cache && cache[id].generation == current {
        return Retrieved(cache[id].data);
      }
      value := retriever(instance);
      retrieverCalls := retrieverCalls + 1;
      if value.Retrieved? {
        var entry := Entry(value.data, current);
        cache := cache[id := entry];
        localCache := Some(local[id := entry]);
        localMeta := Some(meta[id := current]);
      }
    }

    /** `invalidate(id)`: bumps the shared generation, then drops the entry from the process cache and the thread's copy. */
    method Invalidate(id: int)
      requires Valid()
      modifies this, store
      ensures store.rows == Bump(old(store.rows), id, registry.KeyFor(id))
      ensures State() == InvalidateStep(old(State()), id) && retrieverCalls == old(retrieverCalls)
      ensures Valid()
    {
      InvalidateKeepsBounded(State(), store.rows, id, registry.KeyFor(id));
      if id in store.rows {
        store.rows := store.rows[id := Row(store.rows[id].generation + 1, store.rows[id].key)];
      } else {
        store.rows := store.rows[id := Row(0, registry.KeyFor(id))];
      }
      cache := cache - {id};
      if localCache.Some? {
        localCache := Some(localCache.value - {id});
      }
    }
  }

  /**
   * Two processes on one database: after `other` invalidates `id`, the next
   * request of `manager` calls the retriever again.
   */
  method RefreshAfterOtherProcess<D, O>(manager: CacheManager<D>, other: CacheManager<D>, id: int,
                                        retriever: O -> Fetched<D>, instance: O) returns (value: Fetched<D>)
    requires manager != other && manager.store == other.store
    requires manager.Valid() && other.Valid()
    modifies manager, other, manager.store
    ensures value == retriever(instance)
    ensures manager.retrieverCalls == old(manager.retrieverCalls) + 1
  {
    other.Invalidate(id);
    BumpGrows(old(manager.store.rows), id, other.registry.KeyFor(id));
    BoundedWhenTableGrows(manager.State(), old(manager.store.rows), manager.store.rows);
    manager.ResetMetadata();
    value := manager.Get(id, retriever, instance);
  }
}
