/** The reconcile diff engine as a function of the database
    (services/reconciliation/src/infra_twin/reconciliation/reconcile.py), and what it guarantees. */
module Reconciling {
  import opened Model
  import opened Observations
  import opened Versions
  import opened Store

  datatype DiscoveredCi = DiscoveredCi(key: CiKey, name: Option<string>, attributes: map<string, string>, aliasKeys: seq<string>)

  datatype DiscoveredEdge = DiscoveredEdge(etype: EdgeType, from: CiKey, to: CiKey, edgeKey: string, data: EdgeData)

  /** One call: the events of a run split by kind, the source, and the types it is authoritative for. */
  datatype Batch = Batch(source: string, cis: seq<DiscoveredCi>, edges: seq<DiscoveredEdge>,
                         ciTypes: set<CiType>, edgeTypes: set<EdgeType>)

  /** Which source's row comes first when several sources know one native id. */
  type RowOrder = string -> string

  datatype Result = Result(cisCreated: nat, cisUpdated: nat, cisUnchanged: nat, cisClosed: nat,
                           edgesWritten: nat, edgesClosed: nat)

  /* ---------------------------------------------------------------- 1. upsert observed CIs */

  datatype CiPhase = CiPhase(db: Db, idByKey: map<CiKey, nat>, seen: set<CiKey>, stored: seq<CiRow>,
                             created: nat, updated: nat, same: nat)

  function RegisterAliases(aliases: map<string, Alias>, keys: seq<string>, a: Alias): map<string, Alias> {
    if keys == [] then aliases else RegisterAliases(aliases, keys[..|keys| - 1], a)[keys[|keys| - 1] := a]
  }

  /** Every key is registered, whatever it was registered for before; no other one changes. */
  lemma {:induction false} RegisterIs(aliases: map<string, Alias>, keys: seq<string>, a: Alias)
    ensures var after := RegisterAliases(aliases, keys, a);
            && (forall k :: k in keys ==> k in after && after[k] == a)
            && (forall k :: k !in keys ==> (k in after <==> k in aliases))
            && (forall k :: k in aliases && k !in keys ==> after[k] == aliases[k])
    decreases |keys|
  {
    if keys != [] {
      assert keys == keys[..|keys| - 1] + [keys[|keys| - 1]];
      RegisterIs(aliases, keys[..|keys| - 1], a);
    }
  }

  function Bind(db: Db, source: string, dci: DiscoveredCi, id: nat): Db {
    db.(sourceKeys := db.sourceKeys[SourceKey(source, dci.key.externalId) := id],
        aliases := RegisterAliases(db.aliases, dci.aliasKeys, Alias(id, dci.key.ctype, source)))
  }

  /** The CIs other sources registered under one of the aliases. */
  function AliasCandidates(aliases: map<string, Alias>, dci: DiscoveredCi, source: string): set<nat> {
    set k | k in dci.aliasKeys && k in aliases && aliases[k].ctype == dci.key.ctype && aliases[k].source != source
      :: aliases[k].ciId
  }

  /** Exactly one candidate, still open and of the same type; otherwise no merge. */
  ghost function ResolveCanonical(db: Db, dci: DiscoveredCi, source: string): (r: Option<CiRow>)
    ensures r.Some? ==> r.value in db.cis && r.value.Open() && r.value.key.ctype == dci.key.ctype
  {
    var ids := AliasCandidates(db.aliases, dci, source);
    if |ids| != 1 then None
    else
      var id :| id in ids;
      match CurrentById(db.cis, id)
      case None => None
      case Some(r) => if r.key.ctype == dci.key.ctype then Some(r) else None
  }

  lemma OnlyOne<T>(s: set<T>, x: T, y: T)
    requires |s| == 1 && x in s && y in s
    ensures x == y
  {
    assert |s - {x}| == 0;
    assert y !in s - {x};
  }

  /** An alias of the event that another source registered for a CI of the same type. */
  ghost predicate Registered(aliases: map<string, Alias>, dci: DiscoveredCi, source: string, a: string) {
    a in dci.aliasKeys && a in aliases && aliases[a].ctype == dci.key.ctype && aliases[a].source != source
  }

  lemma CanonicalIs(db: Db, dci: DiscoveredCi, source: string)
    requires Coherent(db.cis, db.now)
    ensures forall r :: ResolveCanonical(db, dci, source) == Some(r) <==>
              && r in db.cis && r.Open() && r.key.ctype == dci.key.ctype
              && (exists a :: Registered(db.aliases, dci, source, a) && db.aliases[a].ciId == r.id)
              && (forall a :: Registered(db.aliases, dci, source, a) ==> db.aliases[a].ciId == r.id)
  {
    var ids := AliasCandidates(db.aliases, dci, source);
    forall a | Registered(db.aliases, dci, source, a) ensures db.aliases[a].ciId in ids { }
    forall i | i in ids ensures exists a :: Registered(db.aliases, dci, source, a) && db.aliases[a].ciId == i {
      var k :| k in dci.aliasKeys && k in db.aliases && db.aliases[k].ctype == dci.key.ctype && db.aliases[k].source != source
               && db.aliases[k].ciId == i;
      assert Registered(db.aliases, dci, source, k);
    }
    forall r | r in db.cis && r.Open() ensures CurrentById(db.cis, r.id) == Some(r) { OpenRow(db.cis, db.now, r); }
    hide Coherent, Registered, AliasCandidates;
    forall r | r in db.cis && r.Open() && r.key.ctype == dci.key.ctype && r.id in ids && forall i :: i in ids ==> i == r.id
      ensures ResolveCanonical(db, dci, source) == Some(r)
    {
      assert ids == {r.id};
    }
    if |ids| == 1 {
      var id :| id in ids;
      forall i | i in ids ensures i == id { OnlyOne(ids, i, id); }
    }
  }

  /** The CI an event is about: a native match, else an alias match. */
  ghost function MatchCi(db: Db, dci: DiscoveredCi, source: string): (r: Option<CiRow>)
    ensures r.Some? ==> r.value in db.cis && r.value.Open()
    ensures r.None? ==> Current(db.cis, dci.key).None?
  {
    match Current(db.cis, dci.key)
    case Some(r) => Some(r)
    case None => ResolveCanonical(db, dci, source)
  }

  ghost function IsMerge(db: Db, dci: DiscoveredCi, source: string): bool {
    Current(db.cis, dci.key).None? && ResolveCanonical(db, dci, source).Some?
  }

  ghost function DiscoverCi(p: CiPhase, dci: DiscoveredCi, source: string): Outcome<CiPhase> {
    var m := MatchCi(p.db, dci, source);
    var key := if m.Some? then m.value.key else dci.key;
    match UpsertCi(p.db, key, dci.name, dci.attributes)
    case Abort => Abort
    case Ok((db, r)) =>
      var bound := Bind(db, source, dci, r.id);
      var merges := if IsMerge(p.db, dci, source) then [Merge(r.id, source, dci.key.externalId)] else [];
      var isUpdate := m.Some? && m.value.validFrom != r.validFrom;
      Ok(CiPhase(bound.(merges := bound.merges + merges), p.idByKey[dci.key := r.id][key := r.id], p.seen + {key},
                 p.stored + [r], p.created + (if m.None? then 1 else 0), p.updated + (if isUpdate then 1 else 0),
                 p.same + (if m.Some? && !isUpdate then 1 else 0)))
  }

  ghost function DiscoverCis(db: Db, cis: seq<DiscoveredCi>, source: string): Outcome<CiPhase> {
    if cis == [] then Ok(CiPhase(db, map[], {}, [], 0, 0, 0))
    else
      match DiscoverCis(db, cis[..|cis| - 1], source)
      case Abort => Abort
      case Ok(p) => DiscoverCi(p, cis[|cis| - 1], source)
  }

  /** Everything but the CI table and the identity maps; merges are only added. */
  ghost predicate OnlyCis(a: Db, b: Db) {
    b == a.(cis := b.cis, nextId := b.nextId, sourceKeys := b.sourceKeys, aliases := b.aliases, merges := b.merges)
    && a.nextId <= b.nextId && |a.merges| <= |b.merges|
  }

  ghost predicate IdsPersist(a: Rows<CiKey, CiData>, b: Rows<CiKey, CiData>) {
    forall k :: k in OpenMap(a) && k in OpenMap(b) ==> OpenMap(b)[k].id == OpenMap(a)[k].id
  }

  /** Ids in use before, or fresh. */
  ghost predicate OldOrFresh(v: map<nat, CiKey>, cis: map<nat, CiKey>, nextId: nat) {
    forall i :: i in v ==> i in cis || i >= nextId
  }

  ghost predicate CacheOpen(idByKey: map<CiKey, nat>, cis: map<nat, CiKey>, seen: set<CiKey>) {
    forall k :: k in idByKey ==> idByKey[k] in cis && cis[idByKey[k]] in seen
  }

  ghost predicate CiInv(start: Db, p: CiPhase) {
    && Tables(p.db) && OnlyCis(start, p.db)
    && CiView(p.db.cis) == CiView(start.cis) + KeysOf(p.stored)
    && OpenKeys(p.db.cis) == OpenKeys(start.cis) + p.seen
    && |OpenKeys(p.db.cis)| == |OpenKeys(start.cis)| + p.created
    && IdsPersist(start.cis, p.db.cis)
    && CacheOpen(p.idByKey, CiView(p.db.cis), p.seen)
    && OldOrFresh(KeysOf(p.stored), CiView(start.cis), start.nextId)
    && Stable(start.cis, p.db.cis, start.now)
    && |p.stored| == p.created + p.updated + p.same
  }

  lemma StepKeys(start: Rows<CiKey, CiData>, before: Rows<CiKey, CiData>, after: Rows<CiKey, CiData>, seen: set<CiKey>,
                 created: nat, r: CiRow)
    requires OpenMap(after) == OpenMap(before)[r.key := r]
    requires r.key in OpenMap(before) ==> r.id == OpenMap(before)[r.key].id
    requires OpenKeys(before) == OpenKeys(start) + seen && |OpenKeys(before)| == |OpenKeys(start)| + created
    requires IdsPersist(start, before)
    ensures OpenKeys(after) == OpenKeys(start) + (seen + {r.key})
    ensures |OpenKeys(after)| == |OpenKeys(start)| + created + (if r.key in OpenMap(before) then 0 else 1)
    ensures IdsPersist(start, after)
  {
    hide OpenMap, OpenKeys;
    assert OpenKeys(after) == OpenKeys(before) + {r.key};
  }

  lemma StepViews(start: Db, before: map<nat, CiKey>, after: map<nat, CiKey>, stored: seq<CiRow>, r: CiRow)
    requires before == CiView(start.cis) + KeysOf(stored) && after == before[r.id := r.key]
    requires OldOrFresh(KeysOf(stored), CiView(start.cis), start.nextId)
    requires r.id in before || r.id >= start.nextId
    ensures after == CiView(start.cis) + KeysOf(stored + [r])
    ensures OldOrFresh(KeysOf(stored + [r]), CiView(start.cis), start.nextId)
  {
    hide CiView;
    KeysOfAppend(stored, r);
  }

  lemma StepCache(idByKey: map<CiKey, nat>, before: map<nat, CiKey>, seen: set<CiKey>, r: CiRow, named: CiKey)
    requires CacheOpen(idByKey, before, seen)
    ensures CacheOpen(idByKey[named := r.id][r.key := r.id], before[r.id := r.key], seen + {r.key})
  {
  }

  /** The bookkeeping of one event, given what the upsert did. */
  lemma DiscoverStep(start: Db, p: CiPhase, dci: DiscoveredCi, source: string)
    requires CiInv(start, p) && DiscoverCi(p, dci, source).Ok?
    ensures CiInv(start, DiscoverCi(p, dci, source).value)
  {
    hide Tables, CiView, Stable, UpsertCi, OpenMap, OpenKeys, KeysOf, IdsPersist, OldOrFresh, CacheOpen, IsMerge;
    var m := MatchCi(p.db, dci, source);
    var key := if m.Some? then m.value.key else dci.key;
    UpsertCiEffect(p.db, key, dci.name, dci.attributes);
    MatchedKey(p.db, dci, source);
    hide MatchCi;
    var (db, r) := UpsertCi(p.db, key, dci.name, dci.attributes).value;
    var q := DiscoverCi(p, dci, source).value;
    if key in OpenMap(p.db.cis) { OpenIdKnown(p.db, key); }
    StepKeys(start.cis, p.db.cis, db.cis, p.seen, p.created, r);
    StepViews(start, CiView(p.db.cis), CiView(db.cis), p.stored, r);
    StepCache(p.idByKey, CiView(p.db.cis), p.seen, r, dci.key);
    StableTrans(start.cis, p.db.cis, db.cis, start.now);
    BindTables(db, source, dci, r.id, q.db);
  }

  lemma BindTables(db: Db, source: string, dci: DiscoveredCi, id: nat, after: Db)
    requires Tables(db) && after == db.(sourceKeys := after.sourceKeys, aliases := after.aliases, merges := after.merges)
    ensures Tables(after)
  {
  }

  lemma MatchedKey(db: Db, dci: DiscoveredCi, source: string)
    requires Tables(db)
    ensures var m := MatchCi(db, dci, source);
            && (m.Some? ==> m.value.key in OpenMap(db.cis) && OpenMap(db.cis)[m.value.key] == m.value)
            && (m.None? ==> dci.key !in OpenMap(db.cis))
  {
    var m := MatchCi(db, dci, source);
    if m.Some? { OpenRow(db.cis, db.now, m.value); }
  }

  lemma OpenIdKnown(db: Db, key: CiKey)
    requires Tables(db) && key in OpenMap(db.cis)
    ensures OpenMap(db.cis)[key].id in CiView(db.cis) && CiView(db.cis)[OpenMap(db.cis)[key].id] == key
  {
    OpenMapRow(db.cis, key);
    CiViewIs(db.cis, db.now, OpenMap(db.cis)[key].id, OpenMap(db.cis)[key]);
  }

  lemma StartInv(db: Db)
    requires Tables(db)
    ensures CiInv(db, CiPhase(db, map[], {}, [], 0, 0, 0))
  {
    hide Tables, CiView, OpenMap;
    assert CiView(db.cis) + map[] == CiView(db.cis);
  }

  lemma {:induction false} DiscoverAll(db: Db, cis: seq<DiscoveredCi>, source: string)
    requires Tables(db)
    ensures DiscoverCis(db, cis, source).Ok? ==> CiInv(db, DiscoverCis(db, cis, source).value)
    decreases |cis|
  {
    hide CiInv, Tables, DiscoverCi;
    if cis == [] {
      StartInv(db);
    } else {
      DiscoverAll(db, cis[..|cis| - 1], source);
      if DiscoverCis(db, cis, source).Ok? {
        DiscoverStep(db, DiscoverCis(db, cis[..|cis| - 1], source).value, cis[|cis| - 1], source);
      }
    }
  }

  /* ---------------------------------------------------------------- 2. close what was not observed */

  function OwnedBy(sourceKeys: map<SourceKey, nat>, source: string): set<nat> {
    set k | k in sourceKeys && k.source == source :: sourceKeys[k]
  }

  /** Open CIs in scope, not observed, and bound to this source. */
  ghost function CisToClose(p: CiPhase, b: Batch): set<CiKey> {
    set k | k in OpenMap(p.db.cis) && k.ctype in b.ciTypes && k !in p.seen
            && OpenMap(p.db.cis)[k].id in OwnedBy(p.db.sourceKeys, b.source)
  }

  lemma CacheSurvives(p: CiPhase, keys: set<CiKey>)
    requires CacheOpen(p.idByKey, CiView(p.db.cis), p.seen) && keys !! p.seen
    ensures CacheOpen(p.idByKey, CiView(p.db.cis) - IdsUnder(p.db.cis, keys), p.seen)
  {
    hide CiView;
  }

  /* ---------------------------------------------------------------- 3. upsert observed edges */

  datatype EdgePhase = EdgePhase(db: Db, seen: set<EdgeKey>, stored: seq<EdgeRow>)

  /** The run's cache, then the current CI, then a source key whose CI is still open. */
  ghost function ResolveRef(db: Db, idByKey: map<CiKey, nat>, order: RowOrder, ref: CiKey): Option<nat> {
    if ref in idByKey then Some(idByKey[ref])
    else
      match Current(db.cis, ref)
      case Some(r) => Some(r.id)
      case None =>
        var k := SourceKey(order(ref.externalId), ref.externalId);
        if k in db.sourceKeys && CurrentById(db.cis, db.sourceKeys[k]).Some? then Some(db.sourceKeys[k]) else None
  }

  lemma ResolvedIsOpen(db: Db, idByKey: map<CiKey, nat>, order: RowOrder, ref: CiKey)
    requires Tables(db) && forall k :: k in idByKey ==> idByKey[k] in CiView(db.cis)
    ensures ResolveRef(db, idByKey, order, ref).Some? ==> ResolveRef(db, idByKey, order, ref).value in CiView(db.cis)
  {
    match Current(db.cis, ref) {
      case Some(r) => CiViewIs(db.cis, db.now, r.id, r);
      case None =>
    }
  }

  ghost function EdgeTarget(db: Db, idByKey: map<CiKey, nat>, order: RowOrder, de: DiscoveredEdge): Option<EdgeKey> {
    match (ResolveRef(db, idByKey, order, de.from), ResolveRef(db, idByKey, order, de.to))
    case (Some(f), Some(t)) => Some(EdgeKey(de.etype, f, t, de.edgeKey))
    case _ => None
  }

  /** An edge with an endpoint out of scope is skipped. */
  ghost function WriteEdge(p: EdgePhase, idByKey: map<CiKey, nat>, order: RowOrder, de: DiscoveredEdge): Outcome<EdgePhase> {
    match EdgeTarget(p.db, idByKey, order, de)
    case None => Ok(p)
    case Some(key) =>
      match UpsertEdge(p.db, key, de.data)
      case Abort => Abort
      case Ok((db, r)) => Ok(EdgePhase(db, p.seen + {key}, p.stored + [r]))
  }

  ghost function WriteEdges(db: Db, idByKey: map<CiKey, nat>, order: RowOrder, edges: seq<DiscoveredEdge>): Outcome<EdgePhase> {
    if edges == [] then Ok(EdgePhase(db, {}, []))
    else
      match WriteEdges(db, idByKey, order, edges[..|edges| - 1])
      case Abort => Abort
      case Ok(p) => WriteEdge(p, idByKey, order, edges[|edges| - 1])
  }

  ghost predicate EdgeInv(start: Db, p: EdgePhase) {
    && Tables(p.db) && p.db == start.(edges := p.db.edges, nextId := p.db.nextId) && start.nextId <= p.db.nextId
    && EdgeView(p.db.edges) == EdgeView(start.edges) + Shown(p.stored)
    && Shown(p.stored).Keys == p.seen
    && Stable(start.edges, p.db.edges, start.now)
  }

  lemma OpenIdTaken(db: Db, id: nat)
    requires Tables(db) && id in CiView(db.cis)
    ensures id < db.nextId
  {
    var r :| r in db.cis && r.Open() && r.id == id;
  }

  lemma TargetOpen(db: Db, idByKey: map<CiKey, nat>, order: RowOrder, de: DiscoveredEdge)
    requires Tables(db) && forall k :: k in idByKey ==> idByKey[k] in CiView(db.cis)
    requires EdgeTarget(db, idByKey, order, de).Some?
    ensures var k := EdgeTarget(db, idByKey, order, de).value;
            && k.fromId in CiView(db.cis) && k.toId in CiView(db.cis) && k.fromId < db.nextId && k.toId < db.nextId
  {
    hide Tables, CiView, ResolveRef;
    var key := EdgeTarget(db, idByKey, order, de).value;
    ResolvedIsOpen(db, idByKey, order, de.from);
    ResolvedIsOpen(db, idByKey, order, de.to);
    OpenIdTaken(db, key.fromId);
    OpenIdTaken(db, key.toId);
  }

  lemma WriteStep(start: Db, p: EdgePhase, idByKey: map<CiKey, nat>, order: RowOrder, de: DiscoveredEdge)
    requires EdgeInv(start, p) && (forall k :: k in idByKey ==> idByKey[k] in CiView(start.cis))
    requires WriteEdge(p, idByKey, order, de).Ok?
    ensures EdgeInv(start, WriteEdge(p, idByKey, order, de).value)
  {
    hide Tables, CiView, EdgeView, Stable, UpsertEdge, OpenMap, Shown, EdgeTarget, EdgeInv;
    if EdgeTarget(p.db, idByKey, order, de).Some? {
      var key := EdgeTarget(p.db, idByKey, order, de).value;
      PhaseTables(start, p);
      TargetOpen(p.db, idByKey, order, de);
      UpsertEdgeEffect(p.db, key, de.data);
      var (db, r) := UpsertEdge(p.db, key, de.data).value;
      Stored(start, p, db, r);
    }
  }

  lemma PhaseTables(start: Db, p: EdgePhase)
    requires EdgeInv(start, p)
    ensures Tables(p.db) && p.db.cis == start.cis
  {
    hide Tables, EdgeView, Shown, Stable;
  }

  lemma Stored(start: Db, p: EdgePhase, db: Db, r: EdgeRow)
    requires EdgeInv(start, p) && Tables(db) && db == p.db.(edges := db.edges, nextId := db.nextId) && p.db.nextId <= db.nextId
    requires EdgeView(db.edges) == EdgeView(p.db.edges)[r.key := Seen(r)] && Stable(p.db.edges, db.edges, p.db.now)
    ensures EdgeInv(start, EdgePhase(db, p.seen + {r.key}, p.stored + [r]))
  {
    hide Tables, EdgeView, Stable, Shown;
    ShownAppend(p.stored, r);
    StableTrans(start.edges, p.db.edges, db.edges, start.now);
    PutLast(EdgeView(start.edges), Shown(p.stored), r.key, Seen(r));
  }

  lemma PutLast<K, V>(m: map<K, V>, added: map<K, V>, k: K, v: V)
    ensures (m + added)[k := v] == m + added[k := v] && added[k := v].Keys == added.Keys + {k}
  {
  }

  lemma {:induction false} WriteAll(db: Db, idByKey: map<CiKey, nat>, order: RowOrder, edges: seq<DiscoveredEdge>)
    requires Tables(db) && forall k :: k in idByKey ==> idByKey[k] in CiView(db.cis)
    ensures WriteEdges(db, idByKey, order, edges).Ok? ==> EdgeInv(db, WriteEdges(db, idByKey, order, edges).value)
    decreases |edges|
  {
    hide Tables, CiView, EdgeView, WriteEdge, EdgeInv;
    if edges == [] {
      NoEdgesYet(db);
    } else {
      WriteAll(db, idByKey, order, edges[..|edges| - 1]);
      if WriteEdges(db, idByKey, order, edges).Ok? {
        WriteStep(db, WriteEdges(db, idByKey, order, edges[..|edges| - 1]).value, idByKey, order, edges[|edges| - 1]);
      }
    }
  }

  lemma NoEdgesYet(db: Db)
    requires Tables(db)
    ensures EdgeInv(db, EdgePhase(db, {}, []))
  {
    hide Tables, CiView, EdgeView, FactsAt;
    assert EdgeView(db.edges) + map[] == EdgeView(db.edges);
  }

  /* ---------------------------------------------------------------- 4. and 5. close edges, project */

  ghost function EdgesToClose(p: EdgePhase, b: Batch): set<EdgeKey> {
    set k | k in EdgeView(p.db.edges) && k.etype in b.edgeTypes && k !in p.seen
  }

  ghost function Finish(c: CiPhase, e: EdgePhase, b: Batch): (Db, Result) {
    var cis, edges := CisToClose(c, b), EdgesToClose(e, b);
    var db := CloseEdges(e.db, edges);
    (db.(graph := Project(db.graph, c.stored, e.stored, edges, IdsUnder(c.db.cis, cis))),
     Result(c.created, c.updated, c.same, |cis|, |e.stored|, |edges|))
  }

  ghost function Reconcile(db: Db, b: Batch, order: RowOrder): Outcome<(Db, Result)> {
    match DiscoverCis(db, b.cis, b.source)
    case Abort => Abort
    case Ok(c) =>
      match WriteEdges(CloseCis(c.db, CisToClose(c, b)), c.idByKey, order, b.edges)
      case Abort => Abort
      case Ok(e) => Ok(Finish(c, e, b))
  }

  /* ---------------------------------------------------------------- what a run guarantees */

  lemma EndpointsTaken(db: Db, more: map<nat, CiKey>)
    requires Tables(db) && OldOrFresh(more, CiView(db.cis), db.nextId)
    ensures NoneDangling(CiView(db.cis), EdgeView(db.edges), more)
  {
    hide CiView, EdgeView;
    EndpointsBelow(db);
    hide Tables;
  }

  lemma EndpointsBelow(db: Db)
    requires Tables(db)
    ensures forall k :: k in EdgeView(db.edges) ==> k.fromId < db.nextId && k.toId < db.nextId
  {
    forall k | k in EdgeView(db.edges) ensures k.fromId < db.nextId && k.toId < db.nextId {
      OpenMapRow(db.edges, k);
    }
  }

  /** The two phases of a successful run and how they are linked. */
  ghost predicate Ran(db: Db, b: Batch, order: RowOrder, c: CiPhase, e: EdgePhase) {
    && DiscoverCis(db, b.cis, b.source) == Ok(c)
    && WriteEdges(CloseCis(c.db, CisToClose(c, b)), c.idByKey, order, b.edges) == Ok(e)
    && CiInv(db, c) && EdgeInv(CloseCis(c.db, CisToClose(c, b)), e)
    && CiView(CloseCis(c.db, CisToClose(c, b)).cis) == CiView(c.db.cis) - IdsUnder(c.db.cis, CisToClose(c, b))
    && OpenMap(CloseCis(c.db, CisToClose(c, b)).cis) == OpenMap(c.db.cis) - CisToClose(c, b)
    && Stable(c.db.cis, CloseCis(c.db, CisToClose(c, b)).cis, db.now)
  }

  lemma Phases(db: Db, b: Batch, order: RowOrder) returns (c: CiPhase, e: EdgePhase)
    requires Tables(db) && Reconcile(db, b, order).Ok?
    ensures Ran(db, b, order, c, e) && Reconcile(db, b, order) == Ok(Finish(c, e, b))
  {
    hide Tables, CiView, DiscoverCis, WriteEdges, CloseCis, Finish, EdgeInv, OpenMap, Stable, IdsUnder;
    c := DiscoverCis(db, b.cis, b.source).value;
    var keys := CisToClose(c, b);
    DiscoverAll(db, b.cis, b.source);
    CloseCisEffect(c.db, keys);
    CacheSurvives(c, keys);
    hide CiInv;
    WriteAll(CloseCis(c.db, keys), c.idByKey, order, b.edges);
    e := WriteEdges(CloseCis(c.db, keys), c.idByKey, order, b.edges).value;
  }

  /** The tables stay coherent and the graph is again the projection of the current state. */
  lemma ReconcileKeeps(db: Db, b: Batch, order: RowOrder)
    requires Tables(db) && Reconcile(db, b, order).Ok?
    ensures Tables(Reconcile(db, b, order).value.0) && (Agree(db) ==> Agree(Reconcile(db, b, order).value.0))
  {
    var c, e := Phases(db, b, order);
    KeepsAgreement(db, b, order, c, e);
  }

  lemma KeepsAgreement(db: Db, b: Batch, order: RowOrder, c: CiPhase, e: EdgePhase)
    requires Tables(db) && Ran(db, b, order, c, e)
    ensures Tables(Finish(c, e, b).0) && (Agree(db) ==> Agree(Finish(c, e, b).0))
  {
    hide Tables, CiView, EdgeView, OpenMap, Stable, Project, KeysOf, Shown, IdsUnder, GraphIs, DiscoverCis, WriteEdges;
    var keys, edges := CisToClose(c, b), EdgesToClose(e, b);
    var closed := IdsUnder(c.db.cis, keys);
    CloseEdgesEffect(e.db, edges);
    GraphOnly(CloseEdges(e.db, edges), Finish(c, e, b).0);
    if Agree(db) {
      EndpointsTaken(db, KeysOf(c.stored));
      ProjectKeeps(db.graph, CiView(db.cis), EdgeView(db.edges), c.stored, e.stored, edges, closed);
    }
  }

  lemma GraphOnly(db: Db, after: Db)
    requires Tables(db) && after == db.(graph := after.graph)
    ensures Tables(after)
  {
  }

  /** The keys the observed edges resolve to, against the CIs the run left open. */
  ghost function TargetsOf(db: Db, idByKey: map<CiKey, nat>, order: RowOrder, edges: seq<DiscoveredEdge>): set<EdgeKey> {
    set de | de in edges && EdgeTarget(db, idByKey, order, de).Some? :: EdgeTarget(db, idByKey, order, de).value
  }

  lemma SameTargets(a: Db, b: Db, idByKey: map<CiKey, nat>, order: RowOrder, de: DiscoveredEdge)
    requires a.cis == b.cis && a.sourceKeys == b.sourceKeys
    ensures EdgeTarget(a, idByKey, order, de) == EdgeTarget(b, idByKey, order, de)
  {
  }

  lemma {:induction false} WrittenTargets(db: Db, idByKey: map<CiKey, nat>, order: RowOrder, edges: seq<DiscoveredEdge>)
    requires Tables(db) && forall k :: k in idByKey ==> idByKey[k] in CiView(db.cis)
    requires WriteEdges(db, idByKey, order, edges).Ok?
    ensures WriteEdges(db, idByKey, order, edges).value.seen == TargetsOf(db, idByKey, order, edges)
    decreases |edges|
  {
    hide Tables, CiView, EdgeView, ResolveRef, Shown, Stable, WriteEdge, EdgeTarget, TargetsOf;
    if edges == [] {
      NoTargets(db, idByKey, order);
    } else {
      var init, de := edges[..|edges| - 1], edges[|edges| - 1];
      WrittenTargets(db, idByKey, order, init);
      WriteAll(db, idByKey, order, init);
      WriteSeen(WriteEdges(db, idByKey, order, init).value, idByKey, order, de);
      SameTargets(db, WriteEdges(db, idByKey, order, init).value.db, idByKey, order, de);
      TargetsAppend(db, idByKey, order, init, de);
      assert edges == init + [de];
    }
  }

  lemma NoTargets(db: Db, idByKey: map<CiKey, nat>, order: RowOrder)
    ensures TargetsOf(db, idByKey, order, []) == {}
  {
    hide EdgeTarget;
  }

  lemma WriteSeen(p: EdgePhase, idByKey: map<CiKey, nat>, order: RowOrder, de: DiscoveredEdge)
    requires WriteEdge(p, idByKey, order, de).Ok?
    ensures WriteEdge(p, idByKey, order, de).value.seen ==
            p.seen + (match EdgeTarget(p.db, idByKey, order, de) case Some(k) => {k} case None => {})
  {
    hide UpsertEdge, EdgeTarget;
  }

  lemma TargetsAppend(db: Db, idByKey: map<CiKey, nat>, order: RowOrder, edges: seq<DiscoveredEdge>, de: DiscoveredEdge)
    ensures TargetsOf(db, idByKey, order, edges + [de]) == TargetsOf(db, idByKey, order, edges)
              + (match EdgeTarget(db, idByKey, order, de) case Some(k) => {k} case None => {})
  {
    hide EdgeTarget;
    forall x ensures x in edges + [de] <==> x in edges || x == de {
    }
  }

  lemma ShownIsView(e: EdgePhase, start: Db)
    requires EdgeInv(start, e)
    ensures OpenKeys(e.db.edges) == OpenKeys(start.edges) + e.seen
  {
    hide Tables, Stable, Shown, CiView;
  }

  /** The open CIs a run leaves open without seeing them: out of scope or not owned by its source. */
  ghost function KeptCis(cis: Rows<CiKey, CiData>, b: Batch, sourceKeys: map<SourceKey, nat>): set<CiKey> {
    set k | k in OpenMap(cis) && !(k.ctype in b.ciTypes && OpenMap(cis)[k].id in OwnedBy(sourceKeys, b.source))
  }

  ghost function OutOfScope(edges: Rows<EdgeKey, EdgeData>, b: Batch): set<EdgeKey> {
    set k | k in OpenKeys(edges) && k.etype !in b.edgeTypes
  }

  /** Exactly what is open after a run, and what the counters say about it. */
  lemma ReconcileExact(db: Db, b: Batch, order: RowOrder)
    requires Tables(db) && Reconcile(db, b, order).Ok?
    ensures var (after, r) := Reconcile(db, b, order).value;
            var c := DiscoverCis(db, b.cis, b.source).value;
            var closed := CloseCis(c.db, CisToClose(c, b));
            && OpenKeys(after.cis) == c.seen + KeptCis(db.cis, b, after.sourceKeys)
            && IdsPersist(db.cis, after.cis)
            && |OpenKeys(after.cis)| == |OpenKeys(db.cis)| + r.cisCreated - r.cisClosed
            && |b.cis| == r.cisCreated + r.cisUpdated + r.cisUnchanged
            && OpenKeys(after.edges) == TargetsOf(closed, c.idByKey, order, b.edges)
                 + OutOfScope(db.edges, b)
            && |OpenKeys(after.edges)| == |OpenKeys(db.edges) + TargetsOf(closed, c.idByKey, order, b.edges)| - r.edgesClosed
  {
    hide DiscoverCis, WriteEdges, CiInv, EdgeInv, CloseCis, CisToClose, KeptCis, OutOfScope, TargetsOf, IdsPersist, Finish, OpenKeys, Tables, Reconcile;
    var c, e := Phases(db, b, order);
    ExactCis(db, b, order, c, e);
    ExactEdges(db, b, order, c, e);
    CountStored(db, b.cis, b.source);
  }

  lemma {:induction false} CountStored(db: Db, cis: seq<DiscoveredCi>, source: string)
    requires DiscoverCis(db, cis, source).Ok?
    ensures |DiscoverCis(db, cis, source).value.stored| == |cis|
    decreases |cis|
  {
    hide MatchCi, UpsertCi, IsMerge, Bind;
    if cis != [] { CountStored(db, cis[..|cis| - 1], source); }
  }

  lemma ExactCis(db: Db, b: Batch, order: RowOrder, c: CiPhase, e: EdgePhase)
    requires Tables(db) && Ran(db, b, order, c, e)
    ensures var (after, r) := Finish(c, e, b);
            && OpenKeys(after.cis) == c.seen + KeptCis(db.cis, b, after.sourceKeys)
            && IdsPersist(db.cis, after.cis)
            && |OpenKeys(after.cis)| == |OpenKeys(db.cis)| + r.cisCreated - r.cisClosed
            && |c.stored| == r.cisCreated + r.cisUpdated + r.cisUnchanged
  {
    hide Tables, CiView, EdgeView, Stable, Shown, KeysOf, DiscoverCis, WriteEdges, EdgeInv, OwnedBy, OldOrFresh, CacheOpen, Project;
    hide OpenMap, OpenKeys, CloseCis, CisToClose, KeptCis, IdsPersist;
    var keys := CisToClose(c, b);
    var closed := CloseCis(c.db, keys);
    var after := Finish(c, e, b).0;
    EdgesLeaveCis(closed, e);
    SameEdges(c.db, keys);
    assert after.cis == closed.cis && after.sourceKeys == c.db.sourceKeys;
    ExactKeys(db, c, b, closed);
  }

  lemma EdgesLeaveCis(closed: Db, e: EdgePhase)
    requires EdgeInv(closed, e)
    ensures e.db.cis == closed.cis && e.db.sourceKeys == closed.sourceKeys
    ensures e.db.aliases == closed.aliases && e.db.merges == closed.merges
  {
    hide Tables, CiView, EdgeView, Stable, Shown;
  }

  lemma ExactKeys(db: Db, c: CiPhase, b: Batch, closed: Db)
    requires OpenMap(closed.cis) == OpenMap(c.db.cis) - CisToClose(c, b)
    requires OpenKeys(c.db.cis) == OpenKeys(db.cis) + c.seen
    requires |OpenKeys(c.db.cis)| == |OpenKeys(db.cis)| + c.created
    requires IdsPersist(db.cis, c.db.cis)
    ensures OpenKeys(closed.cis) == c.seen + KeptCis(db.cis, b, c.db.sourceKeys)
    ensures IdsPersist(db.cis, closed.cis)
    ensures |OpenKeys(closed.cis)| == |OpenKeys(db.cis)| + c.created - |CisToClose(c, b)|
  {
    hide OwnedBy;
    hide OpenMap, OpenKeys;
    var keys := CisToClose(c, b);
    assert OpenKeys(closed.cis) == OpenKeys(c.db.cis) - keys && keys <= OpenKeys(c.db.cis);
    assert |OpenKeys(c.db.cis) - keys| == |OpenKeys(c.db.cis)| - |keys|;
  }

  lemma ExactEdges(db: Db, b: Batch, order: RowOrder, c: CiPhase, e: EdgePhase)
    requires Tables(db) && Ran(db, b, order, c, e)
    ensures var (after, r) := Finish(c, e, b);
            var targets := TargetsOf(CloseCis(c.db, CisToClose(c, b)), c.idByKey, order, b.edges);
            && e.seen == targets
            && OpenKeys(after.edges) == targets + OutOfScope(db.edges, b)
            && |OpenKeys(after.edges)| == |OpenKeys(db.edges) + targets| - r.edgesClosed
  {
    hide CiView, EdgeView, OpenMap, OpenKeys, DiscoverCis, WriteEdges, Tables, Project, CloseCis, CisToClose, TargetsOf, CloseEdges;
    var keys, edges := CisToClose(c, b), EdgesToClose(e, b);
    var closed := CloseCis(c.db, keys);
    TargetsSeen(db, b, order, c, e);
    ShownIsView(e, closed);
    SameEdges(c.db, keys);
    EdgeTables(closed, e);
    CloseEdgesEffect(e.db, edges);
    hide CiInv, EdgeInv, Ran, Finish, EdgesToClose;
    ExactEdgeKeys(db.edges, e, b, CloseEdges(e.db, edges).edges);
  }

  lemma EdgeTables(closed: Db, e: EdgePhase)
    requires EdgeInv(closed, e)
    ensures Tables(e.db)
  {
    hide Tables, CiView, EdgeView, Stable, Shown;
  }

  lemma ExactEdgeKeys(start: Rows<EdgeKey, EdgeData>, e: EdgePhase, b: Batch, after: Rows<EdgeKey, EdgeData>)
    requires OpenKeys(e.db.edges) == OpenKeys(start) + e.seen
    requires OpenKeys(after) == OpenKeys(e.db.edges) - EdgesToClose(e, b)
    ensures OpenKeys(after) == e.seen + OutOfScope(start, b)
    ensures |OpenKeys(after)| == |OpenKeys(start) + e.seen| - |EdgesToClose(e, b)|
  {
    hide OpenKeys, EdgeView;
    var edges := EdgesToClose(e, b);
    assert edges <= OpenKeys(e.db.edges) by { assert EdgeView(e.db.edges).Keys == OpenKeys(e.db.edges); }
    assert |OpenKeys(e.db.edges) - edges| == |OpenKeys(e.db.edges)| - |edges|;
  }

  lemma TargetsSeen(db: Db, b: Batch, order: RowOrder, c: CiPhase, e: EdgePhase)
    requires Tables(db) && Ran(db, b, order, c, e)
    ensures e.seen == TargetsOf(CloseCis(c.db, CisToClose(c, b)), c.idByKey, order, b.edges)
  {
    hide CiView, EdgeView, OpenMap, OpenKeys, DiscoverCis, WriteEdges, Tables, TargetsOf, EdgeInv, CloseCis;
    var keys := CisToClose(c, b);
    CloseCisEffect(c.db, keys);
    CacheSurvives(c, keys);
    WrittenTargets(CloseCis(c.db, keys), c.idByKey, order, b.edges);
  }

  lemma SameEdges(db: Db, keys: set<CiKey>)
    ensures CloseCis(db, keys).edges == db.edges && CloseCis(db, keys).sourceKeys == db.sourceKeys
    ensures CloseCis(db, keys).aliases == db.aliases && CloseCis(db, keys).merges == db.merges
  {
  }

  /** Every instant before the run is remembered as it was. */
  lemma ReconcileStable(db: Db, b: Batch, order: RowOrder)
    requires Tables(db) && Reconcile(db, b, order).Ok?
    ensures var after := Reconcile(db, b, order).value.0;
            Stable(db.cis, after.cis, db.now) && Stable(db.edges, after.edges, db.now)
  {
    var c, e := Phases(db, b, order);
    StableRun(db, b, order, c, e);
  }

  lemma StableRun(db: Db, b: Batch, order: RowOrder, c: CiPhase, e: EdgePhase)
    requires Tables(db) && Ran(db, b, order, c, e)
    ensures Stable(db.cis, Finish(c, e, b).0.cis, db.now) && Stable(db.edges, Finish(c, e, b).0.edges, db.now)
  {
    hide Tables, CiView, EdgeView, Stable, Shown, KeysOf, OpenMap, DiscoverCis, WriteEdges, Project, EdgesToClose, CisToClose;
    var closed := CloseCis(c.db, CisToClose(c, b));
    StableTrans(db.cis, c.db.cis, closed.cis, db.now);
    CloseEdgesEffect(e.db, EdgesToClose(e, b));
    StableTrans(db.edges, e.db.edges, CloseEdges(e.db, EdgesToClose(e, b)).edges, db.now);
  }
}
