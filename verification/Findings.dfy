/** Risk findings: the bitemporal finding table (packages/db/src/infra_twin/db/findings.py) and the
    rule for internet-reachable databases
    (services/reconciliation/src/infra_twin/reconciliation/findings.py). */
module Findings {
  import opened Model
  import opened Reach
  import opened Traversal
  import opened Queries
  import Steps

  const RULE_INTERNET_REACHABLE_DATABASE := "internet_reachable_database"
  const DEFAULT_MAX_FANOUT: nat := 1000

  /** One finding: subject, the nearest internet source cited as evidence with its distance and path,
      validity interval. */
  datatype Finding = Finding(rule: string, subject: nat, internetSource: nat, distance: nat, path: seq<PathHop>,
                             validFrom: int, validTo: Option<int>)

  datatype EvaluateResult = EvaluateResult(evaluated: nat, openedNow: nat, resolvedNow: nat, openCount: nat)

  class FindingRepository {
    var rows: map<nat, Finding>
    var nextId: nat
    const now: int

    constructor (rows: map<nat, Finding>, nextId: nat, now: int)
      ensures this.rows == rows && this.nextId == nextId && this.now == now
    {
      this.rows, this.nextId, this.now := rows, nextId, now;
    }

    /** Ids are not reused, and a rule has at most one open finding per subject. */
    ghost predicate Valid()
      reads this
    {
      && (forall i :: i in rows ==> i < nextId)
      && UniqueOpen(rows)
    }

    ghost function OpenSubjects(rule: string): set<nat>
      reads this
    {
      SubjectsOf(rows, rule)
    }

    ghost predicate IsOpen(i: nat, rule: string, subject: nat)
      reads this
    {
      OpenRow(rows, i, rule, subject)
    }

    /** The open findings of a rule, by subject. */
    method GetOpen(rule: string) returns (bySubject: map<nat, nat>)
      requires Valid()
      ensures bySubject.Keys == OpenSubjects(rule)
      ensures forall s :: s in bySubject ==> IsOpen(bySubject[s], rule, s)
    {
      bySubject := map[];
      var todo := rows.Keys;
      while todo != {}
        invariant todo <= rows.Keys
        invariant bySubject.Keys == set i | i in rows && i !in todo && rows[i].validTo.None? && rows[i].rule == rule :: rows[i].subject
        invariant forall s :: s in bySubject ==> IsOpen(bySubject[s], rule, s)
        decreases todo
      {
        var i :| i in todo;
        todo := todo - {i};
        if rows[i].validTo.None? && rows[i].rule == rule {
          bySubject := bySubject[rows[i].subject := i];
        }
      }
    }

    /** Insert one open row. The open-identity index refuses a second one. */
    method OpenFinding(rule: string, subject: nat, internetSource: nat, distance: nat, path: seq<PathHop>) returns (inserted: bool)
      requires Valid()
      modifies this`rows, this`nextId
      ensures Valid()
      ensures inserted <==> subject !in old(OpenSubjects(rule))
      ensures !inserted ==> rows == old(rows) && nextId == old(nextId)
      ensures inserted ==>
        rows == old(rows)[old(nextId) := Finding(rule, subject, internetSource, distance, path, now, None)]
      ensures OpenSubjects(rule) == old(OpenSubjects(rule)) + {subject}
      ensures forall r :: r != rule ==> OpenSubjects(r) == old(OpenSubjects(r))
    {
      if i :| i in rows && rows[i].validTo.None? && rows[i].rule == rule && rows[i].subject == subject {
        assert subject in OpenSubjects(rule);
        return false;
      }
      inserted := true;
      ghost var before := rows;
      rows := rows[nextId := Finding(rule, subject, internetSource, distance, path, now, None)];
      nextId := nextId + 1;
      forall r ensures OpenSubjects(r) == SubjectsOf(before, r) + (if r == rule then {subject} else {}) {
        InsertedSubjects(before, old(nextId), rows[old(nextId)], r);
      }
    }

    /** Close the open version; never deletes. */
    method Resolve(id: nat) returns (closed: bool)
      requires Valid()
      modifies this`rows
      ensures Valid()
      ensures closed <==> id in old(rows) && old(rows)[id].validTo.None?
      ensures rows == if closed then old(rows)[id := old(rows)[id].(validTo := Some(now))] else old(rows)
      ensures closed ==> OpenSubjects(old(rows)[id].rule) == old(OpenSubjects(rows[id].rule)) - {old(rows)[id].subject}
      ensures forall r :: (closed ==> r != old(rows)[id].rule) ==> OpenSubjects(r) == old(OpenSubjects(r))
    {
      closed := id in rows && rows[id].validTo.None?;
      if closed {
        ghost var before := rows;
        rows := rows[id := rows[id].(validTo := Some(now))];
        forall r ensures OpenSubjects(r) == SubjectsOf(before, r) - (if r == before[id].rule then {before[id].subject} else {}) {
          ClosedSubjects(before, id, now, r);
        }
      }
    }
  }

  predicate SameOpen(a: Finding, b: Finding) {
    a.validTo.None? && b.validTo.None? && a.rule == b.rule && a.subject == b.subject
  }

  ghost predicate UniqueOpen(rows: map<nat, Finding>) {
    forall i, j :: i in rows && j in rows && SameOpen(rows[i], rows[j]) ==> i == j
  }

  ghost predicate OpenRow(rows: map<nat, Finding>, i: nat, rule: string, subject: nat) {
    i in rows && rows[i].validTo.None? && rows[i].rule == rule && rows[i].subject == subject
  }

  ghost function SubjectsOf(rows: map<nat, Finding>, rule: string): set<nat> {
    set i | i in rows && rows[i].validTo.None? && rows[i].rule == rule :: rows[i].subject
  }

  lemma InsertedSubjects(rows: map<nat, Finding>, id: nat, f: Finding, r: string)
    requires id !in rows && f.validTo.None?
    ensures SubjectsOf(rows[id := f], r) == SubjectsOf(rows, r) + (if r == f.rule then {f.subject} else {})
  {
    var after := rows[id := f];
    forall s | s in SubjectsOf(rows, r) ensures s in SubjectsOf(after, r) {
      var i :| i in rows && rows[i].validTo.None? && rows[i].rule == r && rows[i].subject == s;
      assert i in after && after[i] == rows[i];
    }
    assert id in after && after[id] == f;
  }

  lemma ClosedSubjects(rows: map<nat, Finding>, id: nat, now: int, r: string)
    requires id in rows && rows[id].validTo.None? && UniqueOpen(rows)
    ensures SubjectsOf(rows[id := rows[id].(validTo := Some(now))], r)
            == SubjectsOf(rows, r) - (if r == rows[id].rule then {rows[id].subject} else {})
  {
    var after := rows[id := rows[id].(validTo := Some(now))];
    forall s | s in SubjectsOf(rows, r) && !(r == rows[id].rule && s == rows[id].subject)
      ensures s in SubjectsOf(after, r)
    {
      var i :| i in rows && rows[i].validTo.None? && rows[i].rule == r && rows[i].subject == s;
      assert i in after && after[i] == rows[i];
    }
    forall i | i in after && after[i].validTo.None? && after[i].rule == r ensures !SameOpen(rows[i], rows[id]) {
    }
  }

  /* ---------------------------------------------------------------- the rule */

  ghost predicate InternetReaches(links: seq<Link>, present: map<nat, CiType>, target: nat, maxDepth: nat, c: real) {
    exists x :: x in FoundCis(AccessQuery(links, c, DEFAULT_MAX_FANOUT), present.Keys, target, maxDepth)
                && present[x] == INTERNET
  }

  function Databases(present: map<nat, CiType>): set<nat> { set x | x in present && present[x] == RDS }

  /** The subjects the rule should have open findings for. */
  ghost function ExposedDatabases(links: seq<Link>, present: map<nat, CiType>, maxDepth: nat, c: real): set<nat> {
    set x | x in present && present[x] == RDS && InternetReaches(links, present, x, maxDepth, c)
  }

  /** In terms of paths: an exposed database is a current RDS CI to which a walk of at most
      maxDepth hops leads, in the capped graph read backwards, from a current internet CI. */
  lemma ExposedByPath(links: seq<Link>, present: map<nat, CiType>, maxDepth: nat, c: real, db: nat)
    ensures db in ExposedDatabases(links, present, maxDepth, c) <==>
      && db in present && present[db] == RDS
      && exists x, p :: x in present && present[x] == INTERNET
           && IsPath(ArcsOf(AccessQuery(links, c, DEFAULT_MAX_FANOUT)), p) && Joins(p, db, x) && |p| - 1 <= maxDepth
  {
    hide ArcsOf, IsPath, Within;
    var g := ArcsOf(AccessQuery(links, c, DEFAULT_MAX_FANOUT));
    forall x ensures x in Within(g, db, maxDepth) <==> exists p :: IsPath(g, p) && Joins(p, db, x) && |p| - 1 <= maxDepth {
      WithinIsPaths(g, db, x, maxDepth);
    }
  }

  /** In terms of relationships, where the search of the database reported no supernode: an exposed
      database is a current "rds" CI that a current "internet" CI enters by at most maxDepth hops. */
  lemma ExposedByRoutes(links: seq<Link>, present: map<nat, CiType>, maxDepth: nat, c: real, db: nat)
    requires AllTruncated(AccessQuery(links, c, 1000), db, maxDepth) == {}
    ensures db in ExposedDatabases(links, present, maxDepth, c) <==>
      && db in present && present[db] == "rds"
      && exists x, p :: x in present && x != db && present[x] == "internet"
           && Steps.Route(AccessQuery(links, c, 1000), p, db, x) && |p| - 1 <= maxDepth
  {
    hide AllTruncated, FoundCis, Steps.Route;
    var q := AccessQuery(links, c, 1000);
    forall x ensures x in FoundCis(q, present.Keys, db, maxDepth) <==>
        x in present.Keys && x != db && exists p :: Steps.Route(q, p, db, x) && |p| - 1 <= maxDepth
    {
      Steps.FoundByRoutes(q, present.Keys, db, maxDepth, x);
    }
  }

  /** What one evaluation looks at. */
  datatype Scene = Scene(links: seq<Link>, present: map<nat, CiType>, maxDepth: nat, minConfidence: real)

  /** The finding cites the nearest internet CI that reaches the subject (the smaller id on a tie),
      its distance, and a path of real relationships of that length from it to the subject. */
  ghost predicate Cites(scene: Scene, f: Finding) {
    var found := FoundCis(AccessQuery(scene.links, scene.minConfidence, 1000), scene.present.Keys, f.subject, scene.maxDepth);
    && f.internetSource in found && scene.present[f.internetSource] == "internet"
    && f.distance == found[f.internetSource] == |f.path|
    && AccessPath(scene.links, scene.minConfidence, f.path, f.internetSource, f.subject)
    && (forall x :: x in found && scene.present[x] == "internet" ==>
          f.distance < found[x] || (f.distance == found[x] && f.internetSource <= x))
  }

  ghost predicate Opened(scene: Scene, exposed: set<nat>, now: int, f: Finding) {
    f.rule == "internet_reachable_database" && f.subject in exposed && f.validFrom == now && f.validTo.None? && Cites(scene, f)
  }

  ghost predicate Resolved(exposed: set<nat>, now: int, was: Finding, f: Finding) {
    && was.rule == "internet_reachable_database" && was.validTo.None? && was.subject !in exposed
    && f == was.(validTo := Some(now))
  }

  /** Every new row is an opened finding with its evidence; every old one is as it was or resolved. */
  ghost predicate Explained(before: map<nat, Finding>, after: map<nat, Finding>, scene: Scene, exposed: set<nat>, now: int) {
    && before.Keys <= after.Keys
    && (forall i :: i in after && i !in before ==> Opened(scene, exposed, now, after[i]))
    && (forall i :: i in before ==> after[i] == before[i] || Resolved(exposed, now, before[i], after[i]))
  }

  lemma ExplainedNothing(rows: map<nat, Finding>, scene: Scene, exposed: set<nat>, now: int)
    ensures Explained(rows, rows, scene, exposed, now)
  {
  }

  lemma ExplainedTrans(a: map<nat, Finding>, b: map<nat, Finding>, c: map<nat, Finding>, scene: Scene, exposed: set<nat>, now: int)
    requires Explained(a, b, scene, exposed, now) && Explained(b, c, scene, exposed, now)
    ensures Explained(a, c, scene, exposed, now)
  {
    hide Cites;
  }

  lemma CitesNearest(scene: Scene, db: nat, sources: map<nat, ReachingSource>, chosen: nat, now: int)
    requires ReachingSources(scene.links, scene.present, db, scene.maxDepth, scene.minConfidence, DEFAULT_MAX_FANOUT, sources)
    requires chosen in sources && sources[chosen].isInternet
    requires forall x :: x in sources && sources[x].isInternet ==>
               sources[chosen].distance < sources[x].distance || (sources[chosen].distance == sources[x].distance && chosen <= x)
    ensures Cites(scene, Finding(RULE_INTERNET_REACHABLE_DATABASE, db, chosen, sources[chosen].distance, sources[chosen].path, now, None))
  {
    hide FoundCis, AccessPath, AccessQuery;
  }

  /** The nearest internet source; ties go to the smaller id. */
  method NearestInternetSource(sources: map<nat, ReachingSource>) returns (chosen: nat)
    requires exists x :: x in sources && sources[x].isInternet
    ensures chosen in sources && sources[chosen].isInternet
    ensures forall x :: x in sources && sources[x].isInternet ==>
      sources[chosen].distance < sources[x].distance
      || (sources[chosen].distance == sources[x].distance && chosen <= x)
  {
    chosen :| chosen in sources && sources[chosen].isInternet;
    var todo := sources.Keys;
    while todo != {}
      invariant todo <= sources.Keys
      invariant chosen in sources && sources[chosen].isInternet
      invariant forall x :: x in sources && x !in todo && sources[x].isInternet ==>
        sources[chosen].distance < sources[x].distance
        || (sources[chosen].distance == sources[x].distance && chosen <= x)
      decreases todo
    {
      var x :| x in todo;
      todo := todo - {x};
      if sources[x].isInternet
         && (sources[x].distance < sources[chosen].distance
             || (sources[x].distance == sources[chosen].distance && x < chosen)) {
        chosen := x;
      }
    }
  }

  /** What the table looks like when the databases in `done` have been evaluated. */
  ghost function Target(start: set<nat>, exposed: set<nat>, done: set<nat>): set<nat> {
    (start - done) + (exposed * done)
  }

  lemma OneMore(s: set<nat>, done: set<nat>, x: nat)
    requires x !in done
    ensures |s * (done + {x})| == |s * done| + (if x in s then 1 else 0)
  {
    assert s * (done + {x}) == if x in s then s * done + {x} else s * done;
  }

  lemma CountStep(start: set<nat>, exposed: set<nat>, done: set<nat>, x: nat)
    requires x !in done
    ensures Target(start, exposed, done + {x}) == if x in exposed then Target(start, exposed, done) + {x}
                                                   else Target(start, exposed, done) - {x}
    ensures |(exposed - start) * (done + {x})| ==
            |(exposed - start) * done| + (if x in exposed && x !in start then 1 else 0)
    ensures |(start - exposed) * (done + {x})| ==
            |(start - exposed) * done| + (if x in start && x !in exposed then 1 else 0)
  {
    OneMore(exposed - start, done, x);
    OneMore(start - exposed, done, x);
  }

  lemma ExposedAreDatabases(links: seq<Link>, present: map<nat, CiType>, maxDepth: nat, c: real)
    ensures ExposedDatabases(links, present, maxDepth, c) <= Databases(present)
  {
    hide FoundCis;
  }

  lemma SupersetFinal(start: set<nat>, exposed: set<nat>, done: set<nat>)
    requires start <= done && exposed <= done
    ensures Target(start, exposed, done) == exposed
    ensures (exposed - start) * done == exposed - start && (start - exposed) * done == start - exposed
  {
  }

  /** One database: open if it is exposed and has no open finding, resolve if it is not and has one. */
  method EvaluateDatabase(repo: FindingRepository, openBySubject: map<nat, nat>, db: nat, links: seq<Link>,
                          present: map<nat, CiType>, maxDepth: nat, minConfidence: real)
    returns (openedNow: bool, resolvedNow: bool)
    requires repo.Valid() && db in present && present[db] == RDS
    requires db in openBySubject <==> db in repo.OpenSubjects(RULE_INTERNET_REACHABLE_DATABASE)
    requires db in openBySubject ==> repo.IsOpen(openBySubject[db], RULE_INTERNET_REACHABLE_DATABASE, db)
    modifies repo
    ensures repo.Valid() && Step(old(repo.rows), repo.rows, db)
    ensures var exposed := db in ExposedDatabases(links, present, maxDepth, minConfidence);
            && repo.OpenSubjects(RULE_INTERNET_REACHABLE_DATABASE) ==
               (if exposed then old(repo.OpenSubjects(RULE_INTERNET_REACHABLE_DATABASE)) + {db}
                else old(repo.OpenSubjects(RULE_INTERNET_REACHABLE_DATABASE)) - {db})
            && openedNow == (exposed && db !in openBySubject) && resolvedNow == (!exposed && db in openBySubject)
    ensures !openedNow && !resolvedNow ==> repo.rows == old(repo.rows)
    ensures Explained(old(repo.rows), repo.rows, Scene(links, present, maxDepth, minConfidence),
                      ExposedDatabases(links, present, maxDepth, minConfidence), repo.now)
  {
    hide Cites, FoundCis, ReachingSources, ArcsOf, Distances, ExposedDatabases, SubjectsOf, UniqueOpen, AllTruncated;
    var sources, byInternet, truncated := Reachability(links, present, db, maxDepth, minConfidence, DEFAULT_MAX_FANOUT);
    ReachedIffExposed(links, present, db, maxDepth, minConfidence, sources);
    openedNow, resolvedNow := false, false;
    if x :| x in sources && sources[x].isInternet {
      if db !in openBySubject {
        var chosen := NearestInternetSource(sources);
        ghost var mid, id := repo.rows, repo.nextId;
        CitesNearest(Scene(links, present, maxDepth, minConfidence), db, sources, chosen, repo.now);
        var inserted := repo.OpenFinding(RULE_INTERNET_REACHABLE_DATABASE, db, chosen, sources[chosen].distance, sources[chosen].path);
        InsertIsStep(mid, repo.rows, id, repo.rows[id]);
        openedNow := true;
      }
    } else {
      if db in openBySubject {
        ghost var mid := repo.rows;
        var closed := repo.Resolve(openBySubject[db]);
        ResolveIsStep(mid, repo.rows, openBySubject[db], db, repo.now);
        resolvedNow := true;
      }
    }
  }

  lemma InsertIsStep(mid: map<nat, Finding>, after: map<nat, Finding>, id: nat, f: Finding)
    requires id !in mid && f.validTo.None? && f.rule == RULE_INTERNET_REACHABLE_DATABASE && after == mid[id := f]
    ensures Step(mid, after, f.subject)
  {
    forall r | r != RULE_INTERNET_REACHABLE_DATABASE ensures SubjectsOf(after, r) == SubjectsOf(mid, r) {
      InsertedSubjects(mid, id, f, r);
    }
  }

  /** Nothing is deleted, other rules and other subjects are left alone. */
  ghost predicate Step(before: map<nat, Finding>, after: map<nat, Finding>, subject: nat) {
    && before.Keys <= after.Keys
    && (forall i :: i in before && !(before[i].rule == RULE_INTERNET_REACHABLE_DATABASE && before[i].subject == subject)
          ==> after[i] == before[i])
    && (forall r :: r != RULE_INTERNET_REACHABLE_DATABASE ==> SubjectsOf(after, r) == SubjectsOf(before, r))
  }

  /** The loop position: `done` subjects are settled, the others untouched. */
  ghost predicate Settled(before: map<nat, Finding>, after: map<nat, Finding>, openBySubject: map<nat, nat>,
                          exposed: set<nat>, done: set<nat>, openedNow: nat, resolvedNow: nat)
  {
    var start := openBySubject.Keys;
    && SubjectsOf(after, RULE_INTERNET_REACHABLE_DATABASE) == Target(start, exposed, done)
    && (forall r :: r != RULE_INTERNET_REACHABLE_DATABASE ==> SubjectsOf(after, r) == SubjectsOf(before, r))
    && openedNow == |(exposed - start) * done| && resolvedNow == |(start - exposed) * done|
    && (forall s :: s in openBySubject && s !in done ==> OpenRow(after, openBySubject[s], RULE_INTERNET_REACHABLE_DATABASE, s))
    && (openedNow + resolvedNow == 0 ==> after == before)
    && before.Keys <= after.Keys
  }

  lemma SettleOne(before: map<nat, Finding>, mid: map<nat, Finding>, after: map<nat, Finding>, openBySubject: map<nat, nat>,
                  exposed: set<nat>, done: set<nat>, o: nat, v: nat, x: nat)
    requires Settled(before, mid, openBySubject, exposed, done, o, v) && x !in done
    requires Step(mid, after, x)
    requires SubjectsOf(after, RULE_INTERNET_REACHABLE_DATABASE) ==
             if x in exposed then SubjectsOf(mid, RULE_INTERNET_REACHABLE_DATABASE) + {x}
             else SubjectsOf(mid, RULE_INTERNET_REACHABLE_DATABASE) - {x}
    requires (x in exposed <==> x in openBySubject) ==> after == mid
    ensures var o' := o + (if x in exposed && x !in openBySubject then 1 else 0);
            var v' := v + (if x !in exposed && x in openBySubject then 1 else 0);
            Settled(before, after, openBySubject, exposed, done + {x}, o', v')
  {
    hide SubjectsOf, Target;
    CountStep(openBySubject.Keys, exposed, done, x);
  }

  /** The last loop: findings whose subject is no longer a current database. */
  method ResolveUnmatched(repo: FindingRepository, openBySubject: map<nat, nat>, unmatched: set<nat>, ghost openedNow: nat,
                          resolvedBefore: nat, ghost before: map<nat, Finding>, ghost scene: Scene, ghost exposed: set<nat>,
                          ghost done: set<nat>)
    returns (resolvedNow: nat)
    requires repo.Valid() && unmatched == openBySubject.Keys - done && exposed <= done
    requires Settled(before, repo.rows, openBySubject, exposed, done, openedNow, resolvedBefore)
    requires Explained(before, repo.rows, scene, exposed, repo.now)
    modifies repo
    ensures repo.Valid() && Settled(before, repo.rows, openBySubject, exposed, done + unmatched, openedNow, resolvedNow)
    ensures Explained(before, repo.rows, scene, exposed, repo.now)
  {
    hide Explained, Cites, SubjectsOf, UniqueOpen, Settled, Step, OpenRow;
    resolvedNow := resolvedBefore;
    var todo := unmatched;
    assert done + (unmatched - todo) == done;
    while todo != {}
      invariant todo <= unmatched
      invariant repo.Valid()
      invariant Settled(before, repo.rows, openBySubject, exposed, done + (unmatched - todo), openedNow, resolvedNow)
      invariant Explained(before, repo.rows, scene, exposed, repo.now)
      decreases todo
    {
      var subject :| subject in todo;
      ghost var mid := repo.rows;
      ghost var settled := done + (unmatched - todo);
      SettledFacts(before, mid, openBySubject, exposed, settled, openedNow, resolvedNow, subject);
      var closed := repo.Resolve(openBySubject[subject]);
      ResolveIsStep(mid, repo.rows, openBySubject[subject], subject, repo.now);
      ResolveIsExplained(mid, repo.rows, openBySubject[subject], subject, scene, exposed, repo.now);
      ExplainedTrans(before, mid, repo.rows, scene, exposed, repo.now);
      SettleOne(before, mid, repo.rows, openBySubject, exposed, settled, openedNow, resolvedNow, subject);
      resolvedNow := resolvedNow + 1;
      todo := todo - {subject};
      assert done + (unmatched - todo) == settled + {subject};
    }
    assert done + (unmatched - todo) == done + unmatched;
  }

  /** The first loop: every current database. */
  method EvaluateDatabases(repo: FindingRepository, openBySubject: map<nat, nat>, dbs: set<nat>, links: seq<Link>,
                           present: map<nat, CiType>, maxDepth: nat, minConfidence: real, ghost before: map<nat, Finding>,
                           ghost exposed: set<nat>)
    returns (openedNow: nat, resolvedNow: nat, unmatched: set<nat>)
    requires repo.Valid() && (forall x :: x in dbs ==> x in present && present[x] == RDS)
    requires exposed == ExposedDatabases(links, present, maxDepth, minConfidence)
    requires Settled(before, repo.rows, openBySubject, exposed, {}, 0, 0) && before == repo.rows
    modifies repo
    ensures repo.Valid() && unmatched == openBySubject.Keys - dbs
    ensures Settled(before, repo.rows, openBySubject, exposed, dbs, openedNow, resolvedNow)
    ensures Explained(before, repo.rows, Scene(links, present, maxDepth, minConfidence), exposed, repo.now)
  {
    hide Explained, Cites, ExposedDatabases, Target, SubjectsOf, UniqueOpen, Settled, Step, OpenRow;
    openedNow, resolvedNow, unmatched := 0, 0, openBySubject.Keys;
    var todo := dbs;
    ghost var done: set<nat> := {};
    ghost var scene := Scene(links, present, maxDepth, minConfidence);
    ExplainedNothing(before, scene, exposed, repo.now);
    while todo != {}
      invariant todo <= dbs && done == dbs - todo && unmatched == openBySubject.Keys - done
      invariant repo.Valid() && Settled(before, repo.rows, openBySubject, exposed, done, openedNow, resolvedNow)
      invariant Explained(before, repo.rows, scene, exposed, repo.now)
      decreases todo
    {
      var db :| db in todo;
      ghost var mid := repo.rows;
      SettledFacts(before, mid, openBySubject, exposed, done, openedNow, resolvedNow, db);
      var o, v := EvaluateDatabase(repo, openBySubject, db, links, present, maxDepth, minConfidence);
      ExplainedTrans(before, mid, repo.rows, scene, exposed, repo.now);
      SettleOne(before, mid, repo.rows, openBySubject, exposed, done, openedNow, resolvedNow, db);
      unmatched := unmatched - {db};
      if o { openedNow := openedNow + 1; }
      if v { resolvedNow := resolvedNow + 1; }
      todo := todo - {db};
      done := done + {db};
    }
    assert done == dbs;
  }

  /** Open and resolve until the open findings of the rule are exactly the exposed databases. */
  method EvaluateInternetReachableDatabase(repo: FindingRepository, links: seq<Link>, present: map<nat, CiType>,
                                           maxDepth: nat, minConfidence: real)
    returns (r: EvaluateResult)
    requires repo.Valid()
    modifies repo
    ensures repo.Valid()
    ensures repo.OpenSubjects(RULE_INTERNET_REACHABLE_DATABASE) == ExposedDatabases(links, present, maxDepth, minConfidence)
    ensures forall rule :: rule != RULE_INTERNET_REACHABLE_DATABASE ==> repo.OpenSubjects(rule) == old(repo.OpenSubjects(rule))
    ensures var start := old(repo.OpenSubjects(RULE_INTERNET_REACHABLE_DATABASE));
            var exposed := ExposedDatabases(links, present, maxDepth, minConfidence);
            && r.openedNow == |exposed - start| && r.resolvedNow == |start - exposed| && r.openCount == |exposed|
            && r.evaluated == |Databases(present)|
            && (start == exposed ==> repo.rows == old(repo.rows))
    ensures old(repo.rows).Keys <= repo.rows.Keys
    ensures Explained(old(repo.rows), repo.rows, Scene(links, present, maxDepth, minConfidence),
                      ExposedDatabases(links, present, maxDepth, minConfidence), repo.now)
  {
    hide Explained, Cites, ExposedDatabases, Target, SubjectsOf, UniqueOpen, Settled, Step, OpenRow;
    var openBySubject := repo.GetOpen(RULE_INTERNET_REACHABLE_DATABASE);
    ghost var before := repo.rows;
    ghost var exposed := ExposedDatabases(links, present, maxDepth, minConfidence);
    SettledAtStart(before, openBySubject, exposed);
    var dbs := Databases(present);
    var openedNow, resolvedNow, unmatched :=
      EvaluateDatabases(repo, openBySubject, dbs, links, present, maxDepth, minConfidence, before, exposed);
    ghost var done := dbs;
    ExposedAreDatabases(links, present, maxDepth, minConfidence);
    resolvedNow := ResolveUnmatched(repo, openBySubject, unmatched, openedNow, resolvedNow, before,
                                    Scene(links, present, maxDepth, minConfidence), exposed, done);
    done := done + unmatched;
    SettledAtEnd(before, repo.rows, openBySubject, exposed, done, openedNow, resolvedNow);
    var final := repo.GetOpen(RULE_INTERNET_REACHABLE_DATABASE);
    r := EvaluateResult(|dbs|, openedNow, resolvedNow, |final.Keys|);
  }

  lemma SettledAtStart(rows: map<nat, Finding>, openBySubject: map<nat, nat>, exposed: set<nat>)
    requires openBySubject.Keys == SubjectsOf(rows, RULE_INTERNET_REACHABLE_DATABASE)
    requires forall s :: s in openBySubject ==> OpenRow(rows, openBySubject[s], RULE_INTERNET_REACHABLE_DATABASE, s)
    ensures Settled(rows, rows, openBySubject, exposed, {}, 0, 0)
  {
    hide SubjectsOf, OpenRow, Target;
    NothingSettled(openBySubject.Keys, exposed);
  }

  lemma NothingSettled(start: set<nat>, exposed: set<nat>)
    ensures Target(start, exposed, {}) == start && |(exposed - start) * {}| == 0 && |(start - exposed) * {}| == 0
  {
    assert (exposed - start) * {} == {} && (start - exposed) * {} == {};
  }

  lemma SettledFacts(before: map<nat, Finding>, mid: map<nat, Finding>, openBySubject: map<nat, nat>,
                     exposed: set<nat>, done: set<nat>, o: nat, v: nat, x: nat)
    requires Settled(before, mid, openBySubject, exposed, done, o, v) && x !in done
    ensures x in openBySubject <==> x in SubjectsOf(mid, RULE_INTERNET_REACHABLE_DATABASE)
    ensures x in openBySubject ==>
      var i := openBySubject[x];
      && OpenRow(mid, i, RULE_INTERNET_REACHABLE_DATABASE, x)
      && i in mid && mid[i].validTo.None? && mid[i].rule == RULE_INTERNET_REACHABLE_DATABASE && mid[i].subject == x
  {
    hide SubjectsOf;
  }

  lemma ResolveIsExplained(mid: map<nat, Finding>, after: map<nat, Finding>, id: nat, subject: nat, scene: Scene, exposed: set<nat>, now: int)
    requires OpenRow(mid, id, RULE_INTERNET_REACHABLE_DATABASE, subject) && subject !in exposed
    requires after == mid[id := mid[id].(validTo := Some(now))]
    ensures Explained(mid, after, scene, exposed, now)
  {
    hide Cites;
  }

  lemma ResolveIsStep(mid: map<nat, Finding>, after: map<nat, Finding>, id: nat, subject: nat, now: int)
    requires OpenRow(mid, id, RULE_INTERNET_REACHABLE_DATABASE, subject) && UniqueOpen(mid)
    requires after == mid[id := mid[id].(validTo := Some(now))]
    ensures Step(mid, after, subject)
  {
    forall r | r != RULE_INTERNET_REACHABLE_DATABASE ensures SubjectsOf(after, r) == SubjectsOf(mid, r) {
      ClosedSubjects(mid, id, now, r);
    }
  }

  lemma SettledAtEnd(before: map<nat, Finding>, after: map<nat, Finding>, openBySubject: map<nat, nat>,
                     exposed: set<nat>, done: set<nat>, o: nat, v: nat)
    requires Settled(before, after, openBySubject, exposed, done, o, v)
    requires openBySubject.Keys <= done && exposed <= done
    ensures SubjectsOf(after, RULE_INTERNET_REACHABLE_DATABASE) == exposed
    ensures o == |exposed - openBySubject.Keys| && v == |openBySubject.Keys - exposed|
    ensures openBySubject.Keys == exposed ==> after == before
    ensures before.Keys <= after.Keys
    ensures forall r :: r != RULE_INTERNET_REACHABLE_DATABASE ==> SubjectsOf(after, r) == SubjectsOf(before, r)
  {
    hide SubjectsOf;
    SupersetFinal(openBySubject.Keys, exposed, done);
    if openBySubject.Keys == exposed {
      assert exposed - openBySubject.Keys == {} && openBySubject.Keys - exposed == {};
    }
  }

  lemma ReachedIffExposed(links: seq<Link>, present: map<nat, CiType>, db: nat, maxDepth: nat, c: real,
                          sources: map<nat, ReachingSource>)
    requires db in present && present[db] == RDS
    requires ReachingSources(links, present, db, maxDepth, c, DEFAULT_MAX_FANOUT, sources)
    ensures (exists x :: x in sources && sources[x].isInternet) <==> db in ExposedDatabases(links, present, maxDepth, c)
  {
    hide FoundCis;
    var found := FoundCis(AccessQuery(links, c, DEFAULT_MAX_FANOUT), present.Keys, db, maxDepth);
    if x :| x in sources && sources[x].isInternet {
      assert x in found && present[x] == INTERNET;
    }
    if db in ExposedDatabases(links, present, maxDepth, c) {
      var x :| x in found && present[x] == INTERNET;
      assert x in sources && sources[x].isInternet;
    }
  }
}
