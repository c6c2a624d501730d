/**
 * The init actor's state invariant check: a walk over the address map that
 * records every violation it meets and never stops early, plus the summary
 * (address -> actor id map and next id) that other checks compare against.
 *
 * The persisted map is given as the sequence of its entries in iteration
 * order; loading and iterating it (a content-addressed store) is replaced by
 * an `AddressMapSource` input. The reserved-id threshold
 * FIRST_NON_SINGLETON_ADDR is the parameter `threshold`.
 */
module InitTesting {
  import opened Wrappers
  import opened Addresses

  /** An actor id (a 64-bit id in the source; no arithmetic is done on it here). */
  type ActorId = nat

  datatype Entry = Entry(key: Address, id: ActorId)

  /** The parts of the init actor's state this check reads, apart from the map root. */
  datatype InitState = InitState(networkName: string, nextId: ActorId)

  /**
   * What loading and walking the address map yields: the entries visited
   * (all of them, or those visited before an iteration error), or a load failure.
   */
  datatype AddressMapSource =
    | Loaded(entries: seq<Entry>, iterationError: Option<string>)
    | LoadFailed(error: string)

  /** One accumulated message, as its kind and the ids and keys it names. */
  datatype Violation =
    | NetworkNameEmpty
    | NextIdTooLow(nextId: ActorId)
    | IdAddressKey(key: Address)
    | UnexpectedSingletonId(id: ActorId)
    | DuplicateMapping(id: ActorId, key: Address, duplicate: Address)
    | ErrorIteratingAddressMap(error: string)
    | ErrorLoadingAddressMap(error: string)

  datatype StateSummary = StateSummary(idsByAddress: map<Address, ActorId>, nextId: ActorId)

  /** The two sub-namespaces in which actor ids must be unique. */
  datatype Namespace = StableNamespace | DelegatedNamespace

  /**
   * The namespace whose duplicate map a key goes into: none for an ID key,
   * the delegated one for a delegated key, the stable one for every other protocol.
   */
  function NamespaceOf(key: Address): Option<Namespace>
  {
    match key.protocol
    case ID => None
    case Delegated => Some(DelegatedNamespace)
    case _ => Some(StableNamespace)
  }

  predicate InNamespace(key: Address, ns: Namespace)
  {
    NamespaceOf(key) == Some(ns)
  }

  predicate DistinctKeys(entries: seq<Entry>)
  {
    forall i, j :: 0 <= i < j < |entries| ==> entries[i].key != entries[j].key
  }

  // ---------------------------------------------------------------------------
  // The walk as a function on prefixes of the entry sequence
  // ---------------------------------------------------------------------------

  /** The state of the walk: the two duplicate-detection maps, the summary map, the messages so far. */
  datatype Walk = Walk(
    stableById: map<ActorId, Address>,
    delegatedById: map<ActorId, Address>,
    idsByAddress: map<Address, ActorId>,
    violations: seq<Violation>)
  {
    function ById(ns: Namespace): map<ActorId, Address>
    {
      if ns == DelegatedNamespace then delegatedById else stableById
    }
  }

  /** `acc.require(cond, msg)`: the message when the condition fails, nothing otherwise. */
  function Require(cond: bool, v: Violation): seq<Violation>
  {
    if cond then [] else [v]
  }

  /** The duplicate message an insert of `e` into `byId` produces: one naming the key it replaces. */
  function DuplicateOf(byId: map<ActorId, Address>, e: Entry): seq<Violation>
  {
    if e.id in byId then [DuplicateMapping(e.id, e.key, byId[e.id])] else []
  }

  /** The messages the visitor adds for one entry. */
  function VisitViolations(w: Walk, e: Entry, threshold: ActorId): seq<Violation>
  {
    Require(e.key.protocol != ID, IdAddressKey(e.key))
    + Require(e.id >= threshold, UnexpectedSingletonId(e.id))
    + ArmViolations(w, e)
  }

  /** The visitor run on one entry: it inserts into its namespace's map and the summary, and adds its messages. */
  function Visit(w: Walk, e: Entry, threshold: ActorId): Walk
  {
    var ids := w.idsByAddress[e.key := e.id];
    var violations := w.violations + VisitViolations(w, e, threshold);
    match NamespaceOf(e.key)
    case None => Walk(w.stableById, w.delegatedById, ids, violations)
    case Some(StableNamespace) => Walk(w.stableById[e.id := e.key], w.delegatedById, ids, violations)
    case Some(DelegatedNamespace) => Walk(w.stableById, w.delegatedById[e.id := e.key], ids, violations)
  }

  function WalkEntries(entries: seq<Entry>, threshold: ActorId): Walk
    decreases |entries|
  {
    if |entries| == 0 then Walk(map[], map[], map[], [])
    else Visit(WalkEntries(entries[..|entries| - 1], threshold), entries[|entries| - 1], threshold)
  }

  /** The two checks made before the map is loaded. */
  function Preamble(state: InitState, threshold: ActorId): seq<Violation>
  {
    Require(|state.networkName| != 0, NetworkNameEmpty)
    + Require(state.nextId >= threshold, NextIdTooLow(state.nextId))
  }

  /** The messages contributed by loading and walking the map. */
  function MapViolations(source: AddressMapSource, threshold: ActorId): seq<Violation>
  {
    match source
    case LoadFailed(e) => [ErrorLoadingAddressMap(e)]
    case Loaded(entries, err) =>
      WalkEntries(entries, threshold).violations
      + (if err.Some? then [ErrorIteratingAddressMap(err.value)] else [])
  }

  // ---------------------------------------------------------------------------
  // The check itself
  // ---------------------------------------------------------------------------

  method CheckStateInvariants(state: InitState, source: AddressMapSource, threshold: ActorId)
    returns (summary: StateSummary, acc: seq<Violation>)
    ensures acc == Preamble(state, threshold) + MapViolations(source, threshold)
    ensures summary.nextId == state.nextId
    ensures source.LoadFailed? ==> summary.idsByAddress == map[]
    ensures source.Loaded? ==> summary.idsByAddress == WalkEntries(source.entries, threshold).idsByAddress
    ensures source.Loaded? && DistinctKeys(source.entries) ==>
      forall i :: 0 <= i < |source.entries| ==>
        source.entries[i].key in summary.idsByAddress
        && summary.idsByAddress[source.entries[i].key] == source.entries[i].id
  {
    acc := [];
    if |state.networkName| == 0 {
      acc := acc + [NetworkNameEmpty];
    }
    if state.nextId < threshold {
      acc := acc + [NextIdTooLow(state.nextId)];
    }
    assert acc == Preamble(state, threshold);
    var idsByAddress: map<Address, ActorId> := map[];
    match source {
      case LoadFailed(e) =>
        acc := acc + [ErrorLoadingAddressMap(e)];
      case Loaded(entries, err) =>
        var added;
        idsByAddress, added := ForEachEntry(entries, threshold);
        acc := acc + added;
        if err.Some? {
          acc := acc + [ErrorIteratingAddressMap(err.value)];
        }
        assert acc == Preamble(state, threshold)
          + (WalkEntries(entries, threshold).violations
             + (if err.Some? then [ErrorIteratingAddressMap(err.value)] else []));
        if DistinctKeys(entries) {
          SummaryHoldsEveryEntry(entries, threshold);
        }
    }
    summary := StateSummary(idsByAddress, state.nextId);
  }

  /**
   * `for_each` over the loaded map with the visitor closure: every entry is
   * visited, in order, and the visitor never fails. The two duplicate maps
   * are the closure's captured locals; `added` is what it appends to the
   * accumulator.
   */
  method ForEachEntry(entries: seq<Entry>, threshold: ActorId)
    returns (idsByAddress: map<Address, ActorId>, added: seq<Violation>)
    ensures idsByAddress == WalkEntries(entries, threshold).idsByAddress
    ensures added == WalkEntries(entries, threshold).violations
  {
    var stableById: map<ActorId, Address> := map[];
    var delegatedById: map<ActorId, Address> := map[];
    idsByAddress, added := map[], [];
    var i := 0;
    while i < |entries|
      invariant 0 <= i <= |entries|
      invariant Walk(stableById, delegatedById, idsByAddress, added) == WalkEntries(entries[..i], threshold)
    {
      assert entries[..i + 1][..i] == entries[..i];
      WalkStep(entries[..i + 1], threshold);
      stableById, delegatedById, idsByAddress, added :=
        VisitEntry(entries[i], threshold, stableById, delegatedById, idsByAddress, added);
      i := i + 1;
    }
    assert entries[..i] == entries;
  }

  /**
   * The closure `for_each` runs on one entry, over the variables it captures:
   * the protocol and id checks, the insert into the key's namespace map
   * (reporting the key it replaces) and the insert into the summary.
   */
  method VisitEntry(e: Entry, threshold: ActorId,
                    stableById: map<ActorId, Address>, delegatedById: map<ActorId, Address>,
                    idsByAddress: map<Address, ActorId>, acc: seq<Violation>)
    returns (stableById': map<ActorId, Address>, delegatedById': map<ActorId, Address>,
             idsByAddress': map<Address, ActorId>, acc': seq<Violation>)
    ensures Walk(stableById', delegatedById', idsByAddress', acc')
            == Visit(Walk(stableById, delegatedById, idsByAddress, acc), e, threshold)
  {
    ghost var w := Walk(stableById, delegatedById, idsByAddress, acc);
    VisitViolationsParts(w, e, threshold);
    stableById', delegatedById', acc' := stableById, delegatedById, acc;
    var key, id := e.key, e.id;
    if key.protocol == ID {
      acc' := acc' + [IdAddressKey(key)];
    }
    if id < threshold {
      acc' := acc' + [UnexpectedSingletonId(id)];
    }
    ghost var checked := acc';
    assert checked == acc + Require(key.protocol != ID, IdAddressKey(key))
                          + Require(id >= threshold, UnexpectedSingletonId(id));
    match key.protocol {
      case ID =>
        acc' := acc' + [IdAddressKey(key)];
        assert ArmViolations(w, e) == [IdAddressKey(key)];
      case Delegated =>
        if id in delegatedById {
          acc' := acc' + [DuplicateMapping(id, key, delegatedById[id])];
        }
        delegatedById' := delegatedById[id := key];
        assert NamespaceOf(key) == Some(DelegatedNamespace);
        assert acc' == checked + ArmViolations(w, e);
      case _ =>
        if id in stableById {
          acc' := acc' + [DuplicateMapping(id, key, stableById[id])];
        }
        stableById' := stableById[id := key];
        assert NamespaceOf(key) == Some(StableNamespace);
        assert acc' == checked + ArmViolations(w, e);
    }
    idsByAddress' := idsByAddress[key := id];
  }

  // ---------------------------------------------------------------------------
  // One visit
  // ---------------------------------------------------------------------------

  /** WalkEntries on a non-empty sequence is one visit after the walk of its prefix. */
  lemma WalkStep(entries: seq<Entry>, threshold: ActorId)
    requires |entries| > 0
    ensures WalkEntries(entries, threshold)
            == Visit(WalkEntries(entries[..|entries| - 1], threshold), entries[|entries| - 1], threshold)
  {
  }

  /** The message the ID arm or the namespace insert adds for one entry. */
  function ArmViolations(w: Walk, e: Entry): seq<Violation>
  {
    match NamespaceOf(e.key)
    case None => [IdAddressKey(e.key)]
    case Some(ns) => DuplicateOf(w.ById(ns), e)
  }

  lemma VisitViolationsParts(w: Walk, e: Entry, threshold: ActorId)
    ensures VisitViolations(w, e, threshold)
            == Require(e.key.protocol != ID, IdAddressKey(e.key))
               + Require(e.id >= threshold, UnexpectedSingletonId(e.id))
               + ArmViolations(w, e)
  {
  }

  /** A visit adds only messages of the three per-entry kinds. */
  lemma VisitKinds(w: Walk, e: Entry, threshold: ActorId)
    ensures forall v :: v in VisitViolations(w, e, threshold) ==>
      v.IdAddressKey? || v.UnexpectedSingletonId? || v.DuplicateMapping?
  {
    VisitViolationsParts(w, e, threshold);
  }

  /** How often `v` occurs among a visit's messages, summed over its three parts. */
  lemma VisitCount(w: Walk, e: Entry, threshold: ActorId, v: Violation)
    ensures multiset(VisitViolations(w, e, threshold))[v]
            == multiset(Require(e.key.protocol != ID, IdAddressKey(e.key)))[v]
               + multiset(Require(e.id >= threshold, UnexpectedSingletonId(e.id)))[v]
               + multiset(ArmViolations(w, e))[v]
  {
    VisitViolationsParts(w, e, threshold);
    var a := Require(e.key.protocol != ID, IdAddressKey(e.key));
    var b := Require(e.id >= threshold, UnexpectedSingletonId(e.id));
    assert multiset(a + b + ArmViolations(w, e)) == multiset(a) + multiset(b) + multiset(ArmViolations(w, e));
  }

  /** A failed `require` contributes its message once; a passed one nothing. */
  lemma RequireCount(cond: bool, m: Violation, v: Violation)
    ensures multiset(Require(cond, m))[v] == if !cond && m == v then 1 else 0
  {
  }

  /** The ID arm reports an ID key once; a namespace insert never reports a key as an ID key. */
  lemma ArmIdCount(w: Walk, e: Entry, k: Address)
    ensures multiset(ArmViolations(w, e))[IdAddressKey(k)]
            == if k == e.key && k.protocol == ID then 1 else 0
  {
    match NamespaceOf(e.key)
    case None =>
      assert ArmViolations(w, e) == [IdAddressKey(e.key)];
    case Some(n) =>
      assert ArmViolations(w, e) == DuplicateOf(w.ById(n), e);
  }

  /** Neither arm reports a singleton id. */
  lemma ArmSingletonCount(w: Walk, e: Entry, id: ActorId)
    ensures multiset(ArmViolations(w, e))[UnexpectedSingletonId(id)] == 0
  {
    match NamespaceOf(e.key)
    case None =>
      assert ArmViolations(w, e) == [IdAddressKey(e.key)];
    case Some(n) =>
      assert ArmViolations(w, e) == DuplicateOf(w.ById(n), e);
  }

  /** A visit of an ID key reports it twice; no other key is reported as one. */
  lemma VisitIdMessages(w: Walk, e: Entry, threshold: ActorId, k: Address)
    ensures multiset(VisitViolations(w, e, threshold))[IdAddressKey(k)]
            == (if k == e.key && k.protocol == ID then 2 else 0)
  {
    VisitCount(w, e, threshold, IdAddressKey(k));
    RequireCount(e.key.protocol != ID, IdAddressKey(e.key), IdAddressKey(k));
    RequireCount(e.id >= threshold, UnexpectedSingletonId(e.id), IdAddressKey(k));
    ArmIdCount(w, e, k);
  }

  /** A visit reports its id once if it is below the threshold; no other id is reported. */
  lemma VisitSingletonMessages(w: Walk, e: Entry, threshold: ActorId, id: ActorId)
    ensures multiset(VisitViolations(w, e, threshold))[UnexpectedSingletonId(id)]
            == (if id == e.id && id < threshold then 1 else 0)
  {
    VisitCount(w, e, threshold, UnexpectedSingletonId(id));
    RequireCount(e.key.protocol != ID, IdAddressKey(e.key), UnexpectedSingletonId(id));
    RequireCount(e.id >= threshold, UnexpectedSingletonId(e.id), UnexpectedSingletonId(id));
    ArmSingletonCount(w, e, id);
  }

  /** A visit always inserts into the summary and appends its own messages. */
  lemma VisitSummary(w: Walk, e: Entry, threshold: ActorId)
    ensures Visit(w, e, threshold).idsByAddress == w.idsByAddress[e.key := e.id]
    ensures Visit(w, e, threshold).violations == w.violations + VisitViolations(w, e, threshold)
  {
  }

  /** A visit inserts the key into its own namespace's map only. */
  lemma VisitById(w: Walk, e: Entry, threshold: ActorId, ns: Namespace)
    ensures Visit(w, e, threshold).ById(ns)
      == if InNamespace(e.key, ns) then w.ById(ns)[e.id := e.key] else w.ById(ns)
  {
  }

  /** A visit reports a duplicate exactly when its id is already in its namespace's map. */
  lemma VisitDuplicateCount(w: Walk, e: Entry, threshold: ActorId, ns: Namespace)
    ensures DuplicatesIn(VisitViolations(w, e, threshold), ns)
      == if InNamespace(e.key, ns) && e.id in w.ById(ns) then 1 else 0
  {
    var checks := Require(e.key.protocol != ID, IdAddressKey(e.key))
                + Require(e.id >= threshold, UnexpectedSingletonId(e.id));
    var tail := ArmViolations(w, e);
    VisitViolationsParts(w, e, threshold);
    assert forall v :: v in checks ==> !v.DuplicateMapping?;
    NoDuplicatesIn(checks, ns);
    DuplicatesInAppend(checks, tail, ns);
    match NamespaceOf(e.key)
    case None =>
      assert tail == [IdAddressKey(e.key)];
      DuplicatesInSingle(IdAddressKey(e.key), ns);
    case Some(n) =>
      if e.id in w.ById(n) {
        assert tail == [DuplicateMapping(e.id, e.key, w.ById(n)[e.id])];
        DuplicatesInSingle(DuplicateMapping(e.id, e.key, w.ById(n)[e.id]), ns);
      } else {
        assert tail == [];
      }
  }

  /** Every duplicate message a visit adds names the visited key and the key stored for its id in its namespace. */
  lemma VisitDuplicateForm(w: Walk, e: Entry, threshold: ActorId)
    ensures forall v :: v in VisitViolations(w, e, threshold) && v.DuplicateMapping? ==>
      && NamespaceOf(e.key).Some?
      && e.id in w.ById(NamespaceOf(e.key).value)
      && v == DuplicateMapping(e.id, e.key, w.ById(NamespaceOf(e.key).value)[e.id])
  {
    VisitViolationsParts(w, e, threshold);
    match NamespaceOf(e.key)
    case None =>
      assert ArmViolations(w, e) == [IdAddressKey(e.key)];
    case Some(n) =>
      if e.id in w.ById(n) {
        assert ArmViolations(w, e) == [DuplicateMapping(e.id, e.key, w.ById(n)[e.id])];
      } else {
        assert ArmViolations(w, e) == [];
      }
  }

  // ---------------------------------------------------------------------------
  // Properties of the walk
  // ---------------------------------------------------------------------------

  function KeysOf(entries: seq<Entry>): set<Address>
    decreases |entries|
  {
    if |entries| == 0 then {} else KeysOf(entries[..|entries| - 1]) + {entries[|entries| - 1].key}
  }

  /** The summary's keys are exactly the visited keys. */
  lemma {:induction false} SummaryKeys(entries: seq<Entry>, threshold: ActorId)
    ensures WalkEntries(entries, threshold).idsByAddress.Keys == KeysOf(entries)
    decreases |entries|
  {
    if |entries| > 0 {
      var prefix := entries[..|entries| - 1];
      SummaryKeys(prefix, threshold);
      WalkStep(entries, threshold);
      VisitSummary(WalkEntries(prefix, threshold), entries[|entries| - 1], threshold);
    }
  }

  /** The walk never stops early: every visited entry is in the summary with its own id. */
  lemma {:induction false} SummaryHoldsEveryEntry(entries: seq<Entry>, threshold: ActorId)
    requires DistinctKeys(entries)
    ensures forall i :: 0 <= i < |entries| ==>
      entries[i].key in WalkEntries(entries, threshold).idsByAddress
      && WalkEntries(entries, threshold).idsByAddress[entries[i].key] == entries[i].id
    decreases |entries|
  {
    if |entries| > 0 {
      var n := |entries| - 1;
      var prefix := entries[..n];
      SummaryHoldsEveryEntry(prefix, threshold);
      WalkStep(entries, threshold);
      VisitSummary(WalkEntries(prefix, threshold), entries[n], threshold);
      var before := WalkEntries(prefix, threshold).idsByAddress;
      var ids := WalkEntries(entries, threshold).idsByAddress;
      assert ids == before[entries[n].key := entries[n].id];
      forall i | 0 <= i < |entries|
        ensures entries[i].key in ids && ids[entries[i].key] == entries[i].id
      {
        if i < n {
          assert prefix[i] == entries[i];
          assert entries[i].key != entries[n].key;
        }
      }
    }
  }

  /** The number of entries whose key is `key`. */
  function CountKey(entries: seq<Entry>, key: Address): nat
    decreases |entries|
  {
    if |entries| == 0 then 0
    else CountKey(entries[..|entries| - 1], key) + (if entries[|entries| - 1].key == key then 1 else 0)
  }

  /** The number of entries that map to `id`. */
  function CountId(entries: seq<Entry>, id: ActorId): nat
    decreases |entries|
  {
    if |entries| == 0 then 0
    else CountId(entries[..|entries| - 1], id) + (if entries[|entries| - 1].id == id then 1 else 0)
  }

  /**
   * An ID-protocol key is reported twice per visit (once by the protocol
   * requirement, once by the ID arm of the match); any other key never is.
   */
  lemma {:induction false} IdKeyReportedTwice(entries: seq<Entry>, threshold: ActorId, key: Address)
    ensures multiset(WalkEntries(entries, threshold).violations)[IdAddressKey(key)]
            == if key.protocol == ID then 2 * CountKey(entries, key) else 0
    decreases |entries|
  {
    if |entries| > 0 {
      var prefix, e := entries[..|entries| - 1], entries[|entries| - 1];
      IdKeyReportedTwice(prefix, threshold, key);
      WalkStep(entries, threshold);
      VisitIdMessages(WalkEntries(prefix, threshold), e, threshold, key);
    }
  }

  /** An actor id below the threshold is reported once per entry that maps to it; others never. */
  lemma {:induction false} SingletonIdsReported(entries: seq<Entry>, threshold: ActorId, id: ActorId)
    ensures multiset(WalkEntries(entries, threshold).violations)[UnexpectedSingletonId(id)]
            == if id < threshold then CountId(entries, id) else 0
    decreases |entries|
  {
    if |entries| > 0 {
      var prefix, e := entries[..|entries| - 1], entries[|entries| - 1];
      SingletonIdsReported(prefix, threshold, id);
      WalkStep(entries, threshold);
      VisitSingletonMessages(WalkEntries(prefix, threshold), e, threshold, id);
    }
  }

  /**
   * The duplicate-detection maps only ever hold keys of their own namespace:
   * in particular an ID key is never inserted into either.
   */
  lemma {:induction false} ByIdMapsStayInNamespace(entries: seq<Entry>, threshold: ActorId, ns: Namespace)
    ensures forall id :: id in WalkEntries(entries, threshold).ById(ns) ==>
      InNamespace(WalkEntries(entries, threshold).ById(ns)[id], ns)
    decreases |entries|
  {
    if |entries| > 0 {
      var prefix, e := entries[..|entries| - 1], entries[|entries| - 1];
      ByIdMapsStayInNamespace(prefix, threshold, ns);
      WalkStep(entries, threshold);
      VisitById(WalkEntries(prefix, threshold), e, threshold, ns);
    }
  }

  /**
   * Every duplicate message names two keys of the same namespace: the key
   * being visited and the one stored for its id. Cross-namespace sharing of
   * an id is never reported.
   */
  lemma {:induction false} DuplicatesStayInNamespace(entries: seq<Entry>, threshold: ActorId)
    ensures forall v :: v in WalkEntries(entries, threshold).violations && v.DuplicateMapping? ==>
      NamespaceOf(v.key).Some? && NamespaceOf(v.key) == NamespaceOf(v.duplicate)
    decreases |entries|
  {
    if |entries| > 0 {
      var prefix, e := entries[..|entries| - 1], entries[|entries| - 1];
      var w := WalkEntries(prefix, threshold);
      DuplicatesStayInNamespace(prefix, threshold);
      WalkStep(entries, threshold);
      ByIdMapsStayInNamespace(prefix, threshold, StableNamespace);
      ByIdMapsStayInNamespace(prefix, threshold, DelegatedNamespace);
      VisitDuplicateForm(w, e, threshold);
    }
  }

  /** The entries of namespace `ns`, counted. */
  function CountIn(entries: seq<Entry>, ns: Namespace): nat
    decreases |entries|
  {
    if |entries| == 0 then 0
    else CountIn(entries[..|entries| - 1], ns) + (if InNamespace(entries[|entries| - 1].key, ns) then 1 else 0)
  }

  /** The distinct actor ids mapped to by entries of namespace `ns`. */
  function IdsIn(entries: seq<Entry>, ns: Namespace): set<ActorId>
    decreases |entries|
  {
    if |entries| == 0 then {}
    else IdsIn(entries[..|entries| - 1], ns)
         + (if InNamespace(entries[|entries| - 1].key, ns) then {entries[|entries| - 1].id} else {})
  }

  predicate IsDuplicateIn(v: Violation, ns: Namespace)
  {
    v.DuplicateMapping? && InNamespace(v.key, ns)
  }

  /** The duplicate messages about keys of namespace `ns`, counted. */
  function DuplicatesIn(vs: seq<Violation>, ns: Namespace): nat
    decreases |vs|
  {
    if |vs| == 0 then 0
    else DuplicatesIn(vs[..|vs| - 1], ns) + (if IsDuplicateIn(vs[|vs| - 1], ns) then 1 else 0)
  }

  lemma {:induction false} DuplicatesInAppend(a: seq<Violation>, b: seq<Violation>, ns: Namespace)
    ensures DuplicatesIn(a + b, ns) == DuplicatesIn(a, ns) + DuplicatesIn(b, ns)
    decreases |b|
  {
    if |b| == 0 {
      assert a + b == a;
    } else {
      var b' := b[..|b| - 1];
      assert (a + b)[..|a + b| - 1] == a + b';
      DuplicatesInAppend(a, b', ns);
    }
  }

  lemma DuplicatesInSingle(v: Violation, ns: Namespace)
    ensures DuplicatesIn([v], ns) == if IsDuplicateIn(v, ns) then 1 else 0
  {
    assert [v][..0] == [];
  }

  lemma {:induction false} NoDuplicatesIn(vs: seq<Violation>, ns: Namespace)
    requires forall v :: v in vs ==> !v.DuplicateMapping?
    ensures DuplicatesIn(vs, ns) == 0
    decreases |vs|
  {
    if |vs| > 0 {
      NoDuplicatesIn(vs[..|vs| - 1], ns);
    }
  }

  /**
   * Within one namespace, the number of duplicate messages is the number of
   * entries minus the number of distinct ids; the namespace's map holds
   * exactly those distinct ids.
   */
  lemma {:induction false} DuplicateCount(entries: seq<Entry>, threshold: ActorId, ns: Namespace)
    ensures WalkEntries(entries, threshold).ById(ns).Keys == IdsIn(entries, ns)
    ensures DuplicatesIn(WalkEntries(entries, threshold).violations, ns) + |IdsIn(entries, ns)|
            == CountIn(entries, ns)
    decreases |entries|
  {
    if |entries| > 0 {
      var prefix, e := entries[..|entries| - 1], entries[|entries| - 1];
      var w := WalkEntries(prefix, threshold);
      DuplicateCount(prefix, threshold, ns);
      WalkStep(entries, threshold);
      VisitById(w, e, threshold, ns);
      VisitDuplicateCount(w, e, threshold, ns);
      DuplicatesInAppend(w.violations, VisitViolations(w, e, threshold), ns);
    }
  }

  /** The key of the last entry of namespace `ns` that maps to `id`, if any. */
  function LastKeyWithId(entries: seq<Entry>, ns: Namespace, id: ActorId): Option<Address>
    decreases |entries|
  {
    if |entries| == 0 then None
    else if InNamespace(entries[|entries| - 1].key, ns) && entries[|entries| - 1].id == id
    then Some(entries[|entries| - 1].key)
    else LastKeyWithId(entries[..|entries| - 1], ns, id)
  }

  /**
   * `insert` replaces the stored key, so each namespace's map holds, for every
   * id, the most recent key of that namespace mapped to it; a later duplicate
   * is reported against that key (VisitDuplicateForm).
   */
  lemma {:induction false} MostRecentKeyStored(entries: seq<Entry>, threshold: ActorId, ns: Namespace, id: ActorId)
    ensures id in WalkEntries(entries, threshold).ById(ns) <==> LastKeyWithId(entries, ns, id).Some?
    ensures id in WalkEntries(entries, threshold).ById(ns) ==>
      WalkEntries(entries, threshold).ById(ns)[id] == LastKeyWithId(entries, ns, id).value
    decreases |entries|
  {
    if |entries| > 0 {
      var prefix, e := entries[..|entries| - 1], entries[|entries| - 1];
      MostRecentKeyStored(prefix, threshold, ns, id);
      WalkStep(entries, threshold);
      VisitById(WalkEntries(prefix, threshold), e, threshold, ns);
    }
  }

  /** Two keys of one namespace mapping to the same (non-singleton) id: exactly one message, naming both. */
  lemma SameNamespaceDuplicate(k1: Address, k2: Address, id: ActorId, threshold: ActorId, ns: Namespace)
    requires InNamespace(k1, ns) && InNamespace(k2, ns)
    requires id >= threshold
    ensures WalkEntries([Entry(k1, id), Entry(k2, id)], threshold).violations == [DuplicateMapping(id, k2, k1)]
  {
    var entries := [Entry(k1, id), Entry(k2, id)];
    assert entries[..1] == [Entry(k1, id)];
    assert entries[..1][..0] == [];
    var w0 := Walk(map[], map[], map[], []);
    WalkStep(entries[..1], threshold);
    WalkStep(entries, threshold);
    var w1 := Visit(w0, entries[0], threshold);
    VisitById(w0, entries[0], threshold, ns);
    assert VisitViolations(w0, entries[0], threshold) == [];
    assert VisitViolations(w1, entries[1], threshold) == [DuplicateMapping(id, k2, k1)];
  }

  /** One stable and one delegated key sharing an id is allowed: no message at all, in either order. */
  lemma CrossNamespaceSharingAllowed(stable: Address, delegated: Address, id: ActorId, threshold: ActorId)
    requires InNamespace(stable, StableNamespace) && InNamespace(delegated, DelegatedNamespace)
    requires id >= threshold
    ensures WalkEntries([Entry(stable, id), Entry(delegated, id)], threshold).violations == []
    ensures WalkEntries([Entry(delegated, id), Entry(stable, id)], threshold).violations == []
  {
    var w0 := Walk(map[], map[], map[], []);
    var e1 := [Entry(stable, id), Entry(delegated, id)];
    var e2 := [Entry(delegated, id), Entry(stable, id)];
    assert e1[..1] == [Entry(stable, id)] && e1[..1][..0] == [];
    assert e2[..1] == [Entry(delegated, id)] && e2[..1][..0] == [];
    WalkStep(e1, threshold);
    WalkStep(e2, threshold);
    WalkStep(e1[..1], threshold);
    WalkStep(e2[..1], threshold);
    VisitById(w0, e1[0], threshold, DelegatedNamespace);
    VisitById(w0, e2[0], threshold, StableNamespace);
  }

  // ---------------------------------------------------------------------------
  // Properties of the whole check
  // ---------------------------------------------------------------------------

  /** The walk contributes only per-entry messages. */
  lemma {:induction false} WalkOnlyEntryMessages(entries: seq<Entry>, threshold: ActorId)
    ensures forall v :: v in WalkEntries(entries, threshold).violations ==>
      v.IdAddressKey? || v.UnexpectedSingletonId? || v.DuplicateMapping?
    decreases |entries|
  {
    if |entries| > 0 {
      var prefix := entries[..|entries| - 1];
      WalkOnlyEntryMessages(prefix, threshold);
      WalkStep(entries, threshold);
      VisitKinds(WalkEntries(prefix, threshold), entries[|entries| - 1], threshold);
    }
  }

  /** Two entries under distinct keys leave both in the summary, each with its own id. */
  lemma TwoEntrySummary(k1: Address, k2: Address, id1: ActorId, id2: ActorId, threshold: ActorId)
    requires k1 != k2
    ensures WalkEntries([Entry(k1, id1), Entry(k2, id2)], threshold).idsByAddress == map[k1 := id1, k2 := id2]
  {
    var entries := [Entry(k1, id1), Entry(k2, id2)];
    assert entries[..1] == [Entry(k1, id1)];
    assert entries[..1][..0] == [];
    WalkStep(entries[..1], threshold);
    WalkStep(entries, threshold);
    var w0 := Walk(map[], map[], map[], []);
    VisitSummary(w0, entries[0], threshold);
    VisitSummary(Visit(w0, entries[0], threshold), entries[1], threshold);
  }

  /** Loading and walking the map never produces a network-name or next-id message. */
  lemma MapViolationKinds(source: AddressMapSource, threshold: ActorId)
    ensures forall v :: v in MapViolations(source, threshold) ==> !v.NetworkNameEmpty? && !v.NextIdTooLow?
  {
    if source.Loaded? {
      WalkOnlyEntryMessages(source.entries, threshold);
    }
  }

  /** "network name is empty" is reported exactly when the name is empty, whatever the map holds. */
  lemma NetworkNameReported(state: InitState, source: AddressMapSource, threshold: ActorId)
    ensures NetworkNameEmpty in Preamble(state, threshold) + MapViolations(source, threshold)
            <==> |state.networkName| == 0
  {
    MapViolationKinds(source, threshold);
  }

  /** "next id is too low" is reported exactly when next_id is below the threshold. */
  lemma NextIdReported(state: InitState, source: AddressMapSource, threshold: ActorId)
    ensures NextIdTooLow(state.nextId) in Preamble(state, threshold) + MapViolations(source, threshold)
            <==> state.nextId < threshold
  {
    MapViolationKinds(source, threshold);
  }

  /** A load failure yields exactly one load message; a loaded map none. */
  lemma LoadFailureReported(state: InitState, source: AddressMapSource, threshold: ActorId)
    ensures source.LoadFailed? ==>
      multiset(Preamble(state, threshold) + MapViolations(source, threshold))[ErrorLoadingAddressMap(source.error)] == 1
    ensures source.Loaded? ==>
      forall v :: v in Preamble(state, threshold) + MapViolations(source, threshold) ==> !v.ErrorLoadingAddressMap?
  {
    var pre := Preamble(state, threshold);
    assert forall v :: v in pre ==> v.NetworkNameEmpty? || v.NextIdTooLow?;
    match source
    case LoadFailed(e) =>
      assert multiset(pre)[ErrorLoadingAddressMap(e)] == 0;
      assert MapViolations(source, threshold) == [ErrorLoadingAddressMap(e)];
    case Loaded(entries, err) =>
      WalkOnlyEntryMessages(entries, threshold);
  }

  /** An iteration error is reported, with its own text, exactly when the loaded map's walk ended in one. */
  lemma IterationErrorReported(state: InitState, source: AddressMapSource, threshold: ActorId, error: string)
    ensures ErrorIteratingAddressMap(error) in Preamble(state, threshold) + MapViolations(source, threshold)
            <==> source.Loaded? && source.iterationError == Some(error)
  {
    var pre := Preamble(state, threshold);
    assert forall v :: v in pre ==> v.NetworkNameEmpty? || v.NextIdTooLow?;
    if source.Loaded? {
      WalkOnlyEntryMessages(source.entries, threshold);
    }
  }

  /** Two delegated keys mapping to one id, run through the whole check. */
  method DelegatedDuplicateScenario(k1: Address, k2: Address, id: ActorId, threshold: ActorId)
    returns (summary: StateSummary, acc: seq<Violation>)
    requires k1.protocol == Delegated && k2.protocol == Delegated && k1 != k2
    requires id >= threshold
    ensures acc == [DuplicateMapping(id, k2, k1)]
    ensures summary.idsByAddress == map[k1 := id, k2 := id]
  {
    var entries := [Entry(k1, id), Entry(k2, id)];
    var state := InitState("testnet", threshold);
    summary, acc := CheckStateInvariants(state, Loaded(entries, None), threshold);
    assert Preamble(state, threshold) == [];
    SameNamespaceDuplicate(k1, k2, id, threshold, DelegatedNamespace);
    TwoEntrySummary(k1, k2, id, id, threshold);
  }
}
