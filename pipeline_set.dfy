/**
 * The event pipeline set: a map from event type key to the one pipeline that
 * holds the listeners of that type, created on first lookup and replaced
 * wholesale when plugins are reloaded.
 *
 * The class EventListenerPipelineSet keeps the source's single mutable field,
 * the map `pipelines`. Its methods are specified twice over: by what they do
 * to the map of pipeline objects (identity, freshness, sharing) and by what
 * they do to the listener table, the pure value that maps each key to the
 * listeners its pipeline holds. The functions on listener tables below are
 * that second specification; the lemmas about them relate several calls.
 */
module PipelineSet {
  import opened EventListeners

  // ---------------------------------------------------------------------------
  // The object invariant

  /** Every key is bound to a pipeline that was constructed for that key. */
  predicate Consistent(m: map<TypeKey, EventListenerPipeline>) {
    forall k :: k in m ==> m[k].eventType == k
  }

  /** In a consistent map no pipeline is bound to two keys, so there are as many pipelines as keys. */
  lemma {:induction false} ConsistentValuesCount(m: map<TypeKey, EventListenerPipeline>)
    requires Consistent(m)
    ensures |m.Values| == |m|
    decreases |m|
  {
    if m != map[] {
      var k :| k in m;
      var rest := m - {k};
      ConsistentValuesCount(rest);
      assert rest.Keys == m.Keys - {k};
      forall p | p in m.Values ensures p in rest.Values + {m[k]} {
        var k' :| k' in m && m[k'] == p;
        if k' != k { assert rest[k'] == p; }
      }
      assert m.Values == rest.Values + {m[k]};
      assert m[k] !in rest.Values;
    }
  }

  // ---------------------------------------------------------------------------
  // Listener tables: the value the pipeline set stands for

  /** Each registered key with the listeners of its pipeline, in registration order. */
  type ListenerTable = map<TypeKey, seq<EventListener>>

  /** The listeners registered under `k`; a key without a pipeline has none. */
  function Chain(t: ListenerTable, k: TypeKey): seq<EventListener> {
    if k in t then t[k] else []
  }

  /** The table after `get(k)`: `k` now has a chain, and a new one is empty. */
  function GetTable(t: ListenerTable, k: TypeKey): (r: ListenerTable)
    ensures r.Keys == t.Keys + {k}
    ensures r[k] == Chain(t, k)
    ensures forall k' :: k' in t ==> r[k'] == t[k']
    ensures |r| == if k in t then |t| else |t| + 1
  {
    if k in t then t else t[k := []]
  }

  /** `get` on tables: the looked-up key gets its chain, every other chain stays. */
  lemma GetTableByChains(t: ListenerTable, r: ListenerTable, k: TypeKey)
    requires r.Keys == t.Keys + {k} && r[k] == Chain(t, k)
    requires forall k' :: k' in t ==> r[k'] == t[k']
    ensures r == GetTable(t, k)
  {
  }

  /**
   * The table after `add(listener)`: a listener of an event type is appended to
   * the chain of its type, creating the chain if needed; any other listener is
   * dropped and the table stays as it was.
   */
  function AddTable(t: ListenerTable, listener: EventListener): (r: ListenerTable)
    ensures !IsEventType(listener.eventType) ==> r == t
    ensures IsEventType(listener.eventType) ==>
              r.Keys == t.Keys + {listener.eventType} &&
              Chain(r, listener.eventType) == Chain(t, listener.eventType) + [listener]
    ensures forall k :: k in t && k != listener.eventType ==> k in r && r[k] == t[k]
  {
    var k := listener.eventType;
    if IsEventType(k) then
      var t' := GetTable(t, k);
      t'[k := t'[k] + [listener]]
    else
      t
  }

  /**
   * `add` as the source performs it: look the chain up (creating it if
   * needed), then append to that chain alone.
   */
  lemma AddTableByChains(t: ListenerTable, mid: ListenerTable, r: ListenerTable, listener: EventListener)
    requires IsEventType(listener.eventType) && mid == GetTable(t, listener.eventType)
    requires r.Keys == mid.Keys && r[listener.eventType] == mid[listener.eventType] + [listener]
    requires forall k :: k in mid && k != listener.eventType ==> r[k] == mid[k]
    ensures r == AddTable(t, listener)
  {
  }

  /** The table after `add` has been called with each of `ls`, from first to last. */
  function AddAllTable(t: ListenerTable, ls: seq<EventListener>): ListenerTable
    decreases |ls|
  {
    if ls == [] then t else AddTable(AddAllTable(t, ls[..|ls| - 1]), ls[|ls| - 1])
  }

  /** The listeners among `ls` that `add` files under `k`, in the order of `ls`. */
  function RegisteredUnder(ls: seq<EventListener>, k: TypeKey): seq<EventListener>
    decreases |ls|
  {
    if ls == [] then []
    else
      var last := ls[|ls| - 1];
      RegisteredUnder(ls[..|ls| - 1], k) + (if last.eventType == k && IsEventType(k) then [last] else [])
  }

  /**
   * Registration order is dispatch order: after a series of `add` calls, the
   * chain of every key is its old chain followed by exactly the listeners of an
   * event type filed under that key, in the order they were added.
   */
  lemma {:induction false} AddAllChain(t: ListenerTable, ls: seq<EventListener>, k: TypeKey)
    ensures Chain(AddAllTable(t, ls), k) == Chain(t, k) + RegisteredUnder(ls, k)
    decreases |ls|
  {
    if ls != [] {
      var init, last := ls[..|ls| - 1], ls[|ls| - 1];
      AddAllChain(t, init, k);
      var before := AddAllTable(t, init);
      if last.eventType == k && IsEventType(k) {
        assert Chain(AddTable(before, last), k) == Chain(before, k) + [last];
      } else if IsEventType(last.eventType) {
        assert Chain(AddTable(before, last), k) == Chain(before, k);
      }
    }
  }

  /**
   * After a series of `add` calls a key has a pipeline exactly when it had one
   * before or some listener was filed under it: dropped listeners create no
   * pipeline, and the pipeline count grows by the number of new event types,
   * not by the number of listeners.
   */
  lemma {:induction false} AddAllKeys(t: ListenerTable, ls: seq<EventListener>, k: TypeKey)
    ensures k in AddAllTable(t, ls) <==> k in t || RegisteredUnder(ls, k) != []
    decreases |ls|
  {
    if ls != [] {
      AddAllKeys(t, ls[..|ls| - 1], k);
    }
  }

  // ---------------------------------------------------------------------------
  // The pipeline set

  class EventListenerPipelineSet {
    /** The map of pipelines (a plain, unsynchronised hash map in the source). */
    var pipelines: map<TypeKey, EventListenerPipeline>

    ghost predicate Valid()
      reads this
    {
      Consistent(pipelines)
    }

    /** The listener table this set stands for. */
    ghost function Listeners(): ListenerTable
      reads this, pipelines.Values
    {
      map k | k in pipelines :: pipelines[k].listeners
    }

    constructor ()
      ensures Valid()
      ensures pipelines == map[]
    {
      pipelines := map[];
    }

    /**
     * `add(listener)`: a listener whose type is an event type is appended to
     * the pipeline of that type, which is created first if there is none; any
     * other listener is silently dropped. No pipeline of another key changes.
     */
    method Add(listener: EventListener)
      requires Valid()
      modifies this, pipelines.Values
      ensures Valid()
      ensures Listeners() == AddTable(old(Listeners()), listener)
      ensures if IsEventType(listener.eventType) && listener.eventType !in old(pipelines)
              then listener.eventType in pipelines && fresh(pipelines[listener.eventType]) &&
                   pipelines == old(pipelines)[listener.eventType := pipelines[listener.eventType]]
              else pipelines == old(pipelines)
      ensures fresh(pipelines.Values - old(pipelines.Values))
    {
      var eventType := listener.eventType;
      if IsEventType(eventType) {
        ghost var before := Listeners();
        var pipeline := Get(eventType);
        ghost var mid := Listeners();
        pipeline.Add(listener);
        forall k | k in pipelines && k != eventType
          ensures pipelines[k].listeners == mid[k]
        {
          assert pipelines[k].eventType == k;
        }
        AddTableByChains(before, mid, Listeners(), listener);
      }
    }

    /**
     * `get(eventType)`: the pipeline bound to `eventType`. On a miss a new,
     * empty pipeline for `eventType` is inserted and returned and the count
     * grows by one; on a hit the bound pipeline is returned and nothing changes.
     */
    method Get(eventType: TypeKey) returns (pipeline: EventListenerPipeline)
      requires Valid()
      modifies this
      ensures Valid()
      ensures pipeline.eventType == eventType
      ensures pipelines == old(pipelines)[eventType := pipeline]
      ensures eventType in old(pipelines) ==> pipeline == old(pipelines)[eventType] && pipelines == old(pipelines)
      ensures eventType !in old(pipelines) ==> fresh(pipeline) && pipeline.listeners == []
      ensures fresh(pipelines.Values - old(pipelines.Values))
      ensures Size() == if eventType in old(pipelines) then old(Size()) else old(Size()) + 1
      ensures Listeners() == GetTable(old(Listeners()), eventType)
    {
      ghost var before := Listeners();
      if eventType in pipelines {
        pipeline := pipelines[eventType];
      } else {
        pipeline := new EventListenerPipeline(eventType);
        pipelines := pipelines[eventType := pipeline];
      }
      forall k | k in before
        ensures k in pipelines && pipelines[k].listeners == before[k]
      {
      }
      GetTableByChains(before, Listeners(), eventType);
    }

    /** `getTyped(eventType)`: `get` for a key the caller knows to be an event type. */
    method GetTyped(eventType: TypeKey) returns (pipeline: EventListenerPipeline)
      requires Valid()
      requires IsEventType(eventType)
      modifies this
      ensures Valid()
      ensures pipeline.eventType == eventType
      ensures pipelines == old(pipelines)[eventType := pipeline]
      ensures eventType in old(pipelines) ==> pipeline == old(pipelines)[eventType] && pipelines == old(pipelines)
      ensures eventType !in old(pipelines) ==> fresh(pipeline) && pipeline.listeners == []
      ensures fresh(pipelines.Values - old(pipelines.Values))
      ensures Size() == if eventType in old(pipelines) then old(Size()) else old(Size()) + 1
      ensures Listeners() == GetTable(old(Listeners()), eventType)
    {
      pipeline := Get(eventType);
    }

    /**
     * `replaceAll(set)`: clear the map, then put every entry of the source's
     * map. Afterwards this set holds exactly the pipeline objects the source
     * held (shared, not copied) and nothing of its own old map; the source is
     * unchanged. Given
     * itself, the clear empties the very map that is then copied, so the
     * result is empty.
     */
    method ReplaceAll(source: EventListenerPipelineSet)
      requires Valid() && source.Valid()
      modifies this
      ensures Valid()
      ensures source != this ==> pipelines == old(source.pipelines) && unchanged(source)
      ensures source != this ==> Listeners() == old(source.Listeners())
      ensures source == this ==> pipelines == map[] && Listeners() == map[]
    {
      pipelines := map[];
      pipelines := pipelines + source.pipelines;
    }

    /**
     * `iterator()`: every pipeline of the set exactly once, in no promised
     * order, without changing the set. The result is a snapshot.
     */
    method Iterator() returns (ps: seq<EventListenerPipeline>)
      requires Valid()
      ensures |ps| == Size()
      ensures forall i :: 0 <= i < |ps| ==> ps[i] in pipelines.Values
      ensures forall k :: k in pipelines ==> pipelines[k] in ps
      ensures forall i, j :: 0 <= i < j < |ps| ==> ps[i] != ps[j]
    {
      var rest := pipelines.Keys;
      ps := [];
      ghost var keys: seq<TypeKey> := [];
      while rest != {}
        invariant rest <= pipelines.Keys
        invariant |keys| == |ps|
        invariant |ps| + |rest| == |pipelines|
        invariant forall i :: 0 <= i < |keys| ==> keys[i] in pipelines && keys[i] !in rest
        invariant forall i :: 0 <= i < |ps| ==> ps[i] == pipelines[keys[i]]
        invariant forall k :: k in pipelines && k !in rest ==> pipelines[k] in ps
        invariant forall i, j :: 0 <= i < j < |keys| ==> keys[i] != keys[j]
        decreases |rest|
      {
        var k :| k in rest;
        ps := ps + [pipelines[k]];
        keys := keys + [k];
        rest := rest - {k};
      }
    }

    /** `size()`: the number of pipelines (not of listeners). */
    function Size(): (n: nat)
      reads this
      ensures Valid() ==> n == |pipelines.Values|
    {
      ValuesCountIfConsistent(pipelines);
      |pipelines|
    }
  }

  lemma ValuesCountIfConsistent(m: map<TypeKey, EventListenerPipeline>)
    ensures Consistent(m) ==> |m.Values| == |m|
  {
    if Consistent(m) {
      ConsistentValuesCount(m);
    }
  }

  // ---------------------------------------------------------------------------
  // Clients: what callers can conclude from the contracts alone

  /** Two successive lookups of one key yield the same pipeline object. */
  method GetTwice(pipelineSet: EventListenerPipelineSet, eventType: TypeKey)
      returns (first: EventListenerPipeline, second: EventListenerPipeline)
    requires pipelineSet.Valid()
    modifies pipelineSet
    ensures pipelineSet.Valid()
    ensures first == second && first.eventType == eventType
    ensures pipelineSet.pipelines == old(pipelineSet.pipelines)[eventType := first]
  {
    first := pipelineSet.Get(eventType);
    second := pipelineSet.Get(eventType);
  }

  /**
   * Two listeners for one event type are dispatched in registration order;
   * after a reload from an empty set, the lookup of that type creates a fresh,
   * empty pipeline and the count reflects only keys touched since.
   */
  method ReloadScenario() {
    var login := TypeKey("io.luna.game.event.impl.LoginEvent", {EventClassName});
    var l1 := new EventListener(login);
    var l2 := new EventListener(login);
    var live := new EventListenerPipelineSet();
    live.Add(l1);
    live.Add(l2);
    var p := live.Get(login);
    assert p.listeners == [l1, l2];
    assert live.Size() == 1;

    var staged := new EventListenerPipelineSet();
    live.ReplaceAll(staged);
    assert live.Size() == 0;
    var q := live.Get(login);
    assert q != p && q.listeners == [];
    assert p.listeners == [l1, l2];
    assert live.Size() == 1;
  }
}
