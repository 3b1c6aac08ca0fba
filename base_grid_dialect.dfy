/** The default behaviour a grid dialect inherits from its base class: fixed
    answers to the capability queries, and the bulk enumeration helper that
    fans out over entity types through the per-type tuple hook. */
module GridDialectSpi {
  import opened Wrappers
  import opened Sums
  import opened OgmModel

  /** An entity persister that can be locked (Hibernate's Lockable). */
  type Lockable

  /** A Hibernate lock mode. */
  type LockMode(==)

  /** A Hibernate value type, as the engine sees it. */
  type LogicalType

  /** A datastore-specific replacement for a Hibernate value type. */
  type GridType

  /** Whether the engine reads before inserting to avoid duplicate keys
      (LookUp), or relies on the backend to reject them (Native). */
  datatype DuplicateInsertPreventionStrategy = LookUp | Native

  /** The exception a locking strategy raises when it cannot lock. */
  datatype LockError = UnsupportedLockMode(lockMode: LockMode)

  /** The locking strategies a default dialect hands out: one that remembers
      the requested mode and refuses every lock request. */
  datatype LockingStrategy = ExceptionThrowingLockingStrategy(lockMode: LockMode)

  /** Requesting a lock on the entity with identifier id, waiting at most timeout. */
  function Lock(strategy: LockingStrategy, id: Value, timeout: int): Outcome<LockError>
  {
    match strategy
    case ExceptionThrowingLockingStrategy(mode) => Fail(UnsupportedLockMode(mode))
  }

  /** forEachTuple dereferenced the null list the hook returned for metadata. */
  datatype DialectError = NullDereference(metadata: EntityKeyMetadata)

  /** The protected getTuples extension point: all tuples stored for one
      entity type, or None for the Java null the base class returns. */
  type TuplesHook = EntityKeyMetadata -> Option<seq<Tuple>>

  /** The hook yields a list for every metadata in ms. */
  predicate AllProvided(hook: TuplesHook, ms: seq<EntityKeyMetadata>)
  {
    forall i :: 0 <= i < |ms| ==> hook(ms[i]).Some?
  }

  /** The position of the first metadata for which the hook yields null, or
      |ms| if it yields a list for all of them. */
  function FirstWithoutTuples(hook: TuplesHook, ms: seq<EntityKeyMetadata>): (k: nat)
    ensures k <= |ms|
    ensures AllProvided(hook, ms[..k])
    ensures k < |ms| ==> hook(ms[k]).None?
  {
    if ms == [] then 0
    else if hook(ms[0]).None? then 0
    else
      var k := 1 + FirstWithoutTuples(hook, ms[1..]);
      assert forall i :: 1 <= i < k ==> ms[..k][i] == ms[1..][..k - 1][i - 1];
      k
  }

  /** The hook's tuple lists for ms, concatenated in metadata order. */
  function TuplesOf(hook: TuplesHook, ms: seq<EntityKeyMetadata>): seq<Tuple>
    requires AllProvided(hook, ms)
  {
    if ms == [] then []
    else
      assert AllProvided(hook, ms[1..]) by {
        assert forall i :: 0 <= i < |ms[1..]| ==> ms[1..][i] == ms[i + 1];
      }
      hook(ms[0]).value + TuplesOf(hook, ms[1..])
  }

  /** The number of tuples the hook reports for one metadata (0 for null). */
  function HookCount(hook: TuplesHook): EntityKeyMetadata -> nat
  {
    m => if hook(m).Some? then |hook(m).value| else 0
  }

  /** The total number of tuples the hook reports over ms. */
  function TupleCount(hook: TuplesHook, ms: seq<EntityKeyMetadata>): nat
  {
    SumOf(ms, HookCount(hook))
  }

  lemma AllProvidedSplit(hook: TuplesHook, a: seq<EntityKeyMetadata>, b: seq<EntityKeyMetadata>)
    ensures AllProvided(hook, a + b) <==> AllProvided(hook, a) && AllProvided(hook, b)
  {
    if AllProvided(hook, a) && AllProvided(hook, b) {
      forall i | 0 <= i < |a + b| ensures hook((a + b)[i]).Some? {
        if i >= |a| { assert (a + b)[i] == b[i - |a|]; }
      }
    }
    if AllProvided(hook, a + b) {
      forall i | 0 <= i < |b| ensures hook(b[i]).Some? {
        assert (a + b)[|a| + i] == b[i];
      }
      forall i | 0 <= i < |a| ensures hook(a[i]).Some? {
        assert (a + b)[i] == a[i];
      }
    }
  }

  /** Enumerating a + b yields the tuples of a, then those of b. */
  lemma {:induction false} TuplesOfConcat(hook: TuplesHook, a: seq<EntityKeyMetadata>, b: seq<EntityKeyMetadata>)
    requires AllProvided(hook, a) && AllProvided(hook, b)
    ensures AllProvided(hook, a + b)
    ensures TuplesOf(hook, a + b) == TuplesOf(hook, a) + TuplesOf(hook, b)
  {
    AllProvidedSplit(hook, a, b);
    if a == [] {
      assert a + b == b;
    } else {
      assert (a + b)[1..] == a[1..] + b;
      AllProvidedSplit(hook, [a[0]], a[1..]);
      assert a == [a[0]] + a[1..];
      TuplesOfConcat(hook, a[1..], b);
    }
  }

  /** The number of tuples enumerated is the sum of the per-type list lengths. */
  lemma {:induction false} TuplesOfLength(hook: TuplesHook, ms: seq<EntityKeyMetadata>)
    requires AllProvided(hook, ms)
    ensures |TuplesOf(hook, ms)| == TupleCount(hook, ms)
  {
    if ms != [] {
      AllProvidedSplit(hook, [ms[0]], ms[1..]);
      assert ms == [ms[0]] + ms[1..];
      TuplesOfLength(hook, ms[1..]);
    }
  }

  /** A tuple is enumerated exactly when the hook reports it for one of the
      supplied metadata: nothing from an unsupplied type appears. */
  lemma {:induction false} TuplesOfMembership(hook: TuplesHook, ms: seq<EntityKeyMetadata>, t: Tuple)
    requires AllProvided(hook, ms)
    ensures t in TuplesOf(hook, ms) <==> exists i :: 0 <= i < |ms| && t in hook(ms[i]).value
  {
    if ms != [] {
      AllProvidedSplit(hook, [ms[0]], ms[1..]);
      assert ms == [ms[0]] + ms[1..];
      TuplesOfMembership(hook, ms[1..], t);
      if t in TuplesOf(hook, ms[1..]) {
        var i :| 0 <= i < |ms[1..]| && t in hook(ms[1..][i]).value;
        assert ms[i + 1] == ms[1..][i];
      }
      if exists i :: 0 <= i < |ms| && t in hook(ms[i]).value {
        var i :| 0 <= i < |ms| && t in hook(ms[i]).value;
        if i > 0 { assert ms[1..][i - 1] == ms[i]; }
      }
    }
  }

  /** Order is kept: the j-th tuple of the i-th metadata comes right after the
      tuples of the metadata before it. */
  lemma TuplesOfAt(hook: TuplesHook, ms: seq<EntityKeyMetadata>, i: nat, j: nat)
    requires AllProvided(hook, ms)
    requires i < |ms| && j < |hook(ms[i]).value|
    ensures AllProvided(hook, ms[..i])
    ensures TupleCount(hook, ms[..i]) + j < |TuplesOf(hook, ms)|
    ensures TuplesOf(hook, ms)[TupleCount(hook, ms[..i]) + j] == hook(ms[i]).value[j]
  {
    assert ms == ms[..i] + ms[i..];
    AllProvidedSplit(hook, ms[..i], ms[i..]);
    TuplesOfConcat(hook, ms[..i], ms[i..]);
    TuplesOfLength(hook, ms[..i]);
    assert ms[i..][0] == ms[i];
    assert TuplesOf(hook, ms[i..]) == hook(ms[i]).value + TuplesOf(hook, ms[i..][1..]);
  }

  /** With the base class's hook every supplied metadata yields null, so
      enumeration fails at the first one, before anything is consumed. */
  lemma DefaultHookFailsAtOnce(hook: TuplesHook, ms: seq<EntityKeyMetadata>)
    requires forall m :: hook(m) == None
    requires |ms| > 0
    ensures FirstWithoutTuples(hook, ms) == 0
    ensures TuplesOf(hook, ms[..0]) == []
  {
  }

  /** The recipient of enumerated tuples; it records every tuple handed to it. */
  class ModelConsumer {
    var received: seq<Tuple>

    constructor ()
      ensures received == []
    {
      received := [];
    }

    method Consume(tuple: Tuple)
      modifies this
      ensures received == old(received) + [tuple]
    {
      received := received + [tuple];
    }
  }

  /** A dialect that keeps every default of the base class except, possibly,
      the getTuples hook. */
  class BaseGridDialect {
    const getTuples: TuplesHook

    /** A dialect that does not override getTuples. */
    constructor ()
      ensures forall m :: getTuples(m) == None
    {
      getTuples := m => None;
    }

    /** A dialect whose subclass overrides getTuples with hook. */
    constructor Overriding(hook: TuplesHook)
      ensures getTuples == hook
    {
      getTuples := hook;
    }

    /** Every lock requested through the returned strategy fails, for the
        requested mode. */
    function GetLockingStrategy(lockable: Lockable, lockMode: LockMode): (s: LockingStrategy)
      ensures forall id, timeout :: Lock(s, id, timeout) == Fail(UnsupportedLockMode(lockMode))
    {
      ExceptionThrowingLockingStrategy(lockMode)
    }

    /** No type is replaced: the engine's own type handling applies. */
    function OverrideType(logicalType: LogicalType): (r: Option<GridType>)
      ensures r == None
    {
      None
    }

    function SupportsSequences(): (r: bool)
      ensures !r
    {
      false
    }

    function GetDuplicateInsertPreventionStrategy(metadata: EntityKeyMetadata): (r: DuplicateInsertPreventionStrategy)
      ensures r == LookUp
    {
      LookUp
    }

    /** Hands every tuple of every supplied entity type to consumer, type by
        type. If the hook yields null for some type, the tuples of the types
        before it have been consumed and the null is then dereferenced. */
    method ForEachTuple(consumer: ModelConsumer, entityKeyMetadatas: seq<EntityKeyMetadata>)
      returns (outcome: Outcome<DialectError>)
      modifies consumer
      ensures var k := FirstWithoutTuples(getTuples, entityKeyMetadatas);
        && consumer.received == old(consumer.received) + TuplesOf(getTuples, entityKeyMetadatas[..k])
        && outcome == (if k == |entityKeyMetadatas| then Pass else Fail(NullDereference(entityKeyMetadatas[k])))
    {
      for i := 0 to |entityKeyMetadatas|
        invariant AllProvided(getTuples, entityKeyMetadatas[..i])
        invariant consumer.received == old(consumer.received) + TuplesOf(getTuples, entityKeyMetadatas[..i])
      {
        var tuples := getTuples(entityKeyMetadatas[i]);
        if tuples.None? {
          assert FirstWithoutTuples(getTuples, entityKeyMetadatas) == i;
          return Fail(NullDereference(entityKeyMetadatas[i]));
        }
        for j := 0 to |tuples.value|
          invariant consumer.received
            == old(consumer.received) + TuplesOf(getTuples, entityKeyMetadatas[..i]) + tuples.value[..j]
        {
          consumer.Consume(tuples.value[j]);
          assert tuples.value[..j + 1] == tuples.value[..j] + [tuples.value[j]];
        }
        assert tuples.value[..|tuples.value|] == tuples.value;
        assert entityKeyMetadatas[..i + 1] == entityKeyMetadatas[..i] + [entityKeyMetadatas[i]];
        TuplesOfConcat(getTuples, entityKeyMetadatas[..i], [entityKeyMetadatas[i]]);
      }
      assert entityKeyMetadatas[..|entityKeyMetadatas|] == entityKeyMetadatas;
      assert FirstWithoutTuples(getTuples, entityKeyMetadatas) == |entityKeyMetadatas|;
      return Pass;
    }
  }
}
