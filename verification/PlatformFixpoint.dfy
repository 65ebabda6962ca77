/** Synchronizing reaches a fixpoint: the batched plan does what a simple loop of upserts
    would do, and exactly for listings that agree with themselves it ends up changing nothing. */
module PlatformFixpoint {
  import opened Basics
  import opened RepoPaging
  import opened PlatformSync

  // ---------------------------------------------------------------- the plan refines the loop

  /** The table with the rows in memory in place of the stored ones. */
  function Overlaid(db: Table, local: Table): Table {
    map k | k in db :: if k in local then local[k] else db[k]
  }

  /** What the rows in memory have to do with the stored ones. */
  ghost predicate Linked(db: Table, p: Plan, s: Site) {
    && p.local.Keys == Local(db, s).Keys
    && (forall k :: k in p.local ==> WithMeta(db[k], p.local[k]) == p.local[k])
    && (forall k :: k in p.local && k !in p.update ==> p.local[k] == db[k])
    && (forall k :: k in p.update ==> k in p.local)
  }

  /** One row after the other; a taken key is refused. */
  function InsertedNew(db: Table, drafts: seq<Draft>): Table {
    if drafts == [] then db
    else
      var rows, d := InsertedNew(db, drafts[..|drafts| - 1]), drafts[|drafts| - 1];
      if d.key in rows then rows else rows[d.key := d.row]
  }

  lemma {:induction false} NewKeys(db: Table, drafts: seq<Draft>, k: string)
    ensures k in InsertedNew(db, drafts) <==> k in db || exists d :: d in drafts && d.key == k
    ensures k in db ==> InsertedNew(db, drafts)[k] == db[k]
  {
    if drafts != [] {
      var n := |drafts| - 1;
      NewKeys(db, drafts[..n], k);
      assert drafts == drafts[..n] + [drafts[n]];
    }
  }

  lemma {:induction false} NewElsewhere(db: Table, drafts: seq<Draft>, k: string, row: Row)
    requires k in db
    ensures InsertedNew(db[k := row], drafts) == InsertedNew(db, drafts)[k := row]
  {
    if drafts != [] {
      var n := |drafts| - 1;
      NewElsewhere(db, drafts[..n], k, row);
      NewKeys(db, drafts[..n], k);
    }
  }

  lemma {:induction false} EachIsNew(db: Table, drafts: seq<Draft>, ok: nat -> bool)
    requires forall i: nat :: ok(i)
    ensures InsertedEach(db, drafts, ok).0 == InsertedNew(db, drafts)
  {
    if drafts != [] {
      EachIsNew(db, drafts[..|drafts| - 1], ok);
    }
  }

  lemma {:induction false} AllIsNew(db: Table, drafts: seq<Draft>)
    requires NoConflict(db, drafts)
    ensures Inserted(db, drafts) == InsertedNew(db, drafts)
  {
    if drafts != [] {
      var n := |drafts| - 1;
      assert drafts[n] in drafts && forall d :: d in drafts[..n] ==> d in drafts;
      AllIsNew(db, drafts[..n]);
      NewKeys(db, drafts[..n], drafts[n].key);
    }
  }

  lemma MergeKeepsLinked(db: Table, p: Plan, r: RemoteRepo, s: Site)
    requires Linked(db, p, s)
    ensures Linked(db, Merge(p, r, s), s)
  {
    var found := Found(p.local, r, s);
    if found.Some? {
      assert WithMeta(db[found.value], p.local[found.value]) == p.local[found.value];
      assert Merge(p, r, s).local.Keys == p.local.Keys;
    }
  }

  /** One repository merged into the plan is one upsert of the table that the plan stands for. */
  lemma MergeIsUpsert(db: Table, p: Plan, r: RemoteRepo, s: Site)
    requires Linked(db, p, s)
    requires (KeyOf(r, s) in db ==> Mine(db[KeyOf(r, s)], s)) && (r.fullName == "" ==> "" !in Local(db, s))
    ensures var p' := Merge(p, r, s);
            InsertedNew(Overlaid(db, p'.local), p'.create)
              == Upserted(db.Keys, InsertedNew(Overlaid(db, p.local), p.create), r, s)
  {
    FoundIsKey(p.local, r, s);
    var k, mid := KeyOf(r, s), Overlaid(db, p.local);
    NewKeys(mid, p.create, k);
    var p' := Merge(p, r, s);
    if k in p.local {
      assert k in db;
      var row := p.local[k];
      StaleMeansChanged(row, r, s);
      assert Overlaid(db, p'.local) == mid[k := Refreshed(row, r, s)];
      NewElsewhere(mid, p.create, k, Refreshed(row, r, s));
    } else {
      assert k in db ==> k in Local(db, s);
      assert p'.create[..|p'.create| - 1] == p.create;
    }
  }

  lemma {:induction false} PlanIsUpserts(db: Table, repos: seq<RemoteRepo>, s: Site)
    requires Free(db, repos, s)
    ensures var p := PlanOf(db, repos, s, true);
            Linked(db, p, s) && InsertedNew(Overlaid(db, p.local), p.create) == UpsertedAll(db, repos, s)
  {
    if repos == [] {
      assert Overlaid(db, Local(db, s)) == db;
    } else {
      var n := |repos| - 1;
      assert repos[n] in repos && forall r :: r in repos[..n] ==> r in repos;
      PlanIsUpserts(db, repos[..n], s);
      var p := PlanOf(db, repos[..n], s, true);
      MergeKeepsLinked(db, p, repos[n], s);
      MergeIsUpsert(db, p, repos[n], s);
    }
  }

  /** Every call succeeds that may decide whether a row is written. */
  ghost predicate Calm(f: Faults) { f.load && f.update && forall i: nat :: f.single(i) }

  /** The batched synchronization leaves the table that the simple loop leaves, also when two
      drafts are in conflict or the batch insertion fails and rows are inserted one by one. */
  lemma SyncIsUpserts(db: Table, repos: seq<RemoteRepo>, s: Site, f: Faults)
    requires Free(db, repos, s) && Calm(f)
    ensures Synced(db, repos, s, f).0 == UpsertedAll(db, repos, s)
  {
    PlanIsUpserts(db, repos, s);
    var p := PlanOf(db, repos, s, true);
    assert Updated(db, p) == Overlaid(db, p.local);
    EachIsNew(Updated(db, p), p.create, f.single);
    if NoConflict(Updated(db, p), p.create) {
      AllIsNew(Updated(db, p), p.create);
    }
  }

  // ---------------------------------------------------------------- what the loop leaves

  /** Rows that are not listed stay as they are, and none appears. */
  lemma {:induction false} UnlistedStay(db: Table, repos: seq<RemoteRepo>, s: Site, k: string)
    requires k !in Keys(repos, s)
    ensures k in UpsertedAll(db, repos, s) <==> k in db
    ensures k in db ==> UpsertedAll(db, repos, s)[k] == db[k]
  {
    if repos != [] {
      var n := |repos| - 1;
      assert repos[n] in repos && repos == repos[..n] + [repos[n]];
      assert k !in Keys(repos[..n], s);
      UnlistedStay(db, repos[..n], s, k);
    }
  }

  /** A row that was there keeps its other columns. */
  lemma {:induction false} KnownKeepRest(db: Table, repos: seq<RemoteRepo>, s: Site, k: string)
    requires k in db
    ensures k in UpsertedAll(db, repos, s)
      && WithMeta(db[k], UpsertedAll(db, repos, s)[k]) == UpsertedAll(db, repos, s)[k]
  {
    if repos != [] {
      KnownKeepRest(db, repos[..|repos| - 1], s, k);
    }
  }

  /** What the last repository of the list does to a row that was there. */
  lemma LastOfKnown(db: Table, repos: seq<RemoteRepo>, s: Site, k: string)
    requires repos != [] && k in db
    ensures var before, after := UpsertedAll(db, repos[..|repos| - 1], s), UpsertedAll(db, repos, s);
            && k in before && k in after
            && after[k] == if KeyOf(repos[|repos| - 1], s) == k then Refreshed(before[k], repos[|repos| - 1], s)
              else before[k]
  {
    KnownKeepRest(db, repos[..|repos| - 1], s, k);
  }

  predicate FirstOfKey(repos: seq<RemoteRepo>, i: nat, s: Site) {
    i < |repos| && forall q :: 0 <= q < i ==> KeyOf(repos[q], s) != KeyOf(repos[i], s)
  }

  /** A missing row is that of the first repository listed under its key. */
  lemma {:induction false} NewIsFirst(db: Table, repos: seq<RemoteRepo>, s: Site, i: nat)
    requires FirstOfKey(repos, i, s) && KeyOf(repos[i], s) !in db
    ensures KeyOf(repos[i], s) in UpsertedAll(db, repos, s)
    ensures UpsertedAll(db, repos, s)[KeyOf(repos[i], s)] == NewRow(repos[i], s)
  {
    var n := |repos| - 1;
    if i < n {
      NewIsFirst(db, repos[..n], s, i);
    } else {
      UnlistedStay(db, repos[..n], s, KeyOf(repos[i], s));
    }
  }

  /** With distinct keys, each listed repository has its row, old or new. */
  lemma {:induction false} ListedHaveRows(db: Table, repos: seq<RemoteRepo>, s: Site, i: nat)
    requires i < |repos| && Distinct(repos, s)
    ensures var k := KeyOf(repos[i], s);
            && k in UpsertedAll(db, repos, s)
            && UpsertedAll(db, repos, s)[k] == if k in db then Refreshed(db[k], repos[i], s) else NewRow(repos[i], s)
  {
    var n := |repos| - 1;
    assert repos == repos[..n] + [repos[n]];
    if i < n {
      ListedHaveRows(db, repos[..n], s, i);
    } else {
      UnlistedStay(db, repos[..n], s, KeyOf(repos[n], s));
    }
  }

  lemma LastKeepsMine(db: Table, repos: seq<RemoteRepo>, s: Site, k: string)
    requires repos != [] && k in UpsertedAll(db, repos[..|repos| - 1], s)
      && Mine(UpsertedAll(db, repos[..|repos| - 1], s)[k], s)
    ensures k in UpsertedAll(db, repos, s) && Mine(UpsertedAll(db, repos, s)[k], s)
  {
  }

  lemma {:induction false} ListedAreMine(db: Table, repos: seq<RemoteRepo>, s: Site, i: nat)
    requires i < |repos| && Free(db, repos, s)
    ensures KeyOf(repos[i], s) in UpsertedAll(db, repos, s) && Mine(UpsertedAll(db, repos, s)[KeyOf(repos[i], s)], s)
  {
    var n, k := |repos| - 1, KeyOf(repos[i], s);
    assert repos[i] in repos && forall r :: r in repos[..n] ==> r in repos;
    assert i < n ==> repos[i] in repos[..n];
    if k in Keys(repos[..n], s) {
      var j :| 0 <= j < n && KeyOf(repos[j], s) == k;
      ListedAreMine(db, repos[..n], s, j);
      LastKeepsMine(db, repos, s, k);
    } else if k in db {
      UnlistedStay(db, repos[..n], s, k);
      LastKeepsMine(db, repos, s, k);
    } else {
      UnlistedStay(db, repos[..n], s, k);
    }
  }

  lemma StaysFree(db: Table, repos: seq<RemoteRepo>, s: Site)
    requires Free(db, repos, s)
    ensures Free(UpsertedAll(db, repos, s), repos, s)
    ensures forall r :: r in repos ==> KeyOf(r, s) in UpsertedAll(db, repos, s)
  {
    var db' := UpsertedAll(db, repos, s);
    forall r | r in repos
      ensures KeyOf(r, s) in db' && Mine(db'[KeyOf(r, s)], s) && (r.fullName == "" ==> "" !in Local(db', s)) {
      var i :| 0 <= i < |repos| && repos[i] == r;
      ListedAreMine(db, repos, s, i);
      assert "" !in Keys(repos, s);
      UnlistedStay(db, repos, s, "");
    }
  }

  // ---------------------------------------------------------------- settled tables

  /** The table says of every listed repository what the platform says. */
  ghost predicate Settled(db: Table, repos: seq<RemoteRepo>, s: Site) {
    forall r :: r in repos ==>
      && KeyOf(r, s) in db && Mine(db[KeyOf(r, s)], s) && !Stale(db[KeyOf(r, s)], r, s)
      && (r.fullName == "" ==> "" !in Local(db, s))
  }

  lemma {:induction false} SettledNeedsNoPlan(db: Table, repos: seq<RemoteRepo>, s: Site)
    requires Settled(db, repos, s)
    ensures PlanOf(db, repos, s, true) == Plan(Local(db, s), [], [])
  {
    if repos != [] {
      var n := |repos| - 1;
      assert repos[n] in repos && forall r :: r in repos[..n] ==> r in repos;
      SettledNeedsNoPlan(db, repos[..n], s);
      FoundIsKey(Local(db, s), repos[n], s);
    }
  }

  /** Nothing is written to a settled table, whatever the writes would have come to. */
  lemma SettledStays(db: Table, repos: seq<RemoteRepo>, s: Site, f: Faults)
    requires Settled(db, repos, s) && f.load
    ensures Synced(db, repos, s, f) == (db, 0)
  {
    SettledNeedsNoPlan(db, repos, s);
    assert Updated(db, Plan(Local(db, s), [], [])) == db;
  }

  lemma {:induction false} OneIsInserted(db: Table, drafts: seq<Draft>, ok: nat -> bool)
    requires drafts != [] && drafts[0].key !in db && ok(0)
    ensures InsertedEach(db, drafts, ok).1 > 0
  {
    if |drafts| > 1 {
      OneIsInserted(db, drafts[..|drafts| - 1], ok);
    }
  }

  lemma {:induction false} PlannedAreListed(db: Table, repos: seq<RemoteRepo>, s: Site)
    requires Free(db, repos, s)
    ensures var p := PlanOf(db, repos, s, true);
            && p.local.Keys == Local(db, s).Keys
            && (forall d :: d in p.create ==> d.key !in db)
            && (p.update == [] ==> p.local == Local(db, s))
            && (p.update == [] && p.create == [] ==> Settled(db, repos, s))
  {
    if repos != [] {
      var n := |repos| - 1;
      var r, front := repos[n], repos[..n];
      assert r in repos && repos == front + [r];
      assert Free(db, front, s);
      PlannedAreListed(db, front, s);
      var p := PlanOf(db, front, s, true);
      FoundIsKey(p.local, r, s);
      assert KeyOf(r, s) in db ==> KeyOf(r, s) in Local(db, s);
    }
  }

  /** A synchronization reports 0 exactly when there was nothing to do. */
  lemma ZeroMeansSettled(db: Table, repos: seq<RemoteRepo>, s: Site, f: Faults)
    requires Free(db, repos, s) && Calm(f)
    ensures Synced(db, repos, s, f).1 == 0 <==> Settled(db, repos, s)
  {
    if Settled(db, repos, s) {
      SettledStays(db, repos, s, f);
    } else {
      PlannedAreListed(db, repos, s);
      var p := PlanOf(db, repos, s, true);
      if p.create != [] {
        assert p.create[0] in p.create;
        OneIsInserted(Updated(db, p), p.create, f.single);
      }
    }
  }

  // ---------------------------------------------------------------- which listings settle

  lemma FreshForBothMeansAgree(row: Row, a: RemoteRepo, b: RemoteRepo, s: Site)
    requires !Stale(row, a, s) && !Stale(row, b, s)
    ensures Agree(a, b, s)
  {
  }

  lemma RefreshingKeepsFresh(row: Row, a: RemoteRepo, b: RemoteRepo, s: Site)
    requires !Stale(row, a, s) && Agree(a, b, s)
    ensures !Stale(Refreshed(row, b, s), a, s)
  {
  }

  /** A row that was there is fresh for everything listed under its key, if that agrees. */
  lemma {:induction false} KnownAreFresh(db: Table, repos: seq<RemoteRepo>, s: Site, i: nat)
    requires i < |repos| && AllAgree(repos, s) && KeyOf(repos[i], s) in db
    ensures KeyOf(repos[i], s) in UpsertedAll(db, repos, s)
    ensures !Stale(UpsertedAll(db, repos, s)[KeyOf(repos[i], s)], repos[i], s)
  {
    var n, k := |repos| - 1, KeyOf(repos[i], s);
    assert repos[i] in repos && repos[n] in repos && forall r :: r in repos[..n] ==> r in repos;
    LastOfKnown(db, repos, s, k);
    var row := UpsertedAll(db, repos[..n], s)[k];
    if i < n {
      KnownAreFresh(db, repos[..n], s, i);
      if KeyOf(repos[n], s) == k {
        RefreshingKeepsFresh(row, repos[i], repos[n], s);
      }
    } else {
      StaleMeansChanged(row, repos[n], s);
    }
  }

  /** A new row is made of the first repository listed under its key; it leaves nothing to do
      if the others have no name or branch that the first lacks. */
  ghost predicate FirstsSuffice(db: Table, repos: seq<RemoteRepo>, s: Site) {
    forall i: nat, r :: FirstOfKey(repos, i, s) && r in repos && KeyOf(r, s) == KeyOf(repos[i], s) && KeyOf(r, s) !in db
      ==> !Stale(NewRow(repos[i], s), r, s)
  }

  lemma FirstUnderKey(repos: seq<RemoteRepo>, s: Site, j: nat) returns (i: nat)
    requires j < |repos|
    ensures FirstOfKey(repos, i, s) && KeyOf(repos[i], s) == KeyOf(repos[j], s)
  {
    i := j;
    if q :| 0 <= q < j && KeyOf(repos[q], s) == KeyOf(repos[j], s) {
      i := FirstUnderKey(repos, s, q);
    }
  }

  lemma SettledMeansAgree(db: Table, repos: seq<RemoteRepo>, s: Site)
    requires Settled(db, repos, s)
    ensures AllAgree(repos, s)
  {
    forall a, b | a in repos && b in repos && KeyOf(a, s) == KeyOf(b, s) ensures Agree(a, b, s) {
      FreshForBothMeansAgree(db[KeyOf(a, s)], a, b, s);
    }
  }

  lemma UpsertsSettleExactlyWhen(db: Table, repos: seq<RemoteRepo>, s: Site)
    requires Free(db, repos, s)
    ensures Settled(UpsertedAll(db, repos, s), repos, s) <==> AllAgree(repos, s) && FirstsSuffice(db, repos, s)
  {
    var db' := UpsertedAll(db, repos, s);
    StaysFree(db, repos, s);
    if Settled(db', repos, s) {
      SettledMeansAgree(db', repos, s);
      forall i: nat, r | FirstOfKey(repos, i, s) && r in repos && KeyOf(r, s) == KeyOf(repos[i], s)
        && KeyOf(r, s) !in db
        ensures !Stale(NewRow(repos[i], s), r, s)
      {
        NewIsFirst(db, repos, s, i);
      }
    }
    if AllAgree(repos, s) && FirstsSuffice(db, repos, s) {
      forall r | r in repos ensures !Stale(db'[KeyOf(r, s)], r, s) {
        var j :| 0 <= j < |repos| && repos[j] == r;
        if KeyOf(r, s) in db {
          KnownAreFresh(db, repos, s, j);
        } else {
          var i := FirstUnderKey(repos, s, j);
          NewIsFirst(db, repos, s, i);
        }
      }
    }
  }

  // ---------------------------------------------------------------- the results

  /** One synchronization keeps every row that is not listed and every column that is not the
      platform's; it settles the table exactly if the listing agrees with itself and its firsts
      suffice, and then the next one writes nothing and reports 0. */
  lemma OneSyncIsEnough(db: Table, repos: seq<RemoteRepo>, s: Site, f: Faults, again: Faults)
    requires Free(db, repos, s) && Calm(f) && again.load
    ensures var db' := Synced(db, repos, s, f).0;
            && (Settled(db', repos, s) <==> AllAgree(repos, s) && FirstsSuffice(db, repos, s))
            && (Settled(db', repos, s) ==> Synced(db', repos, s, again) == (db', 0))
            && (forall k :: k !in Keys(repos, s) ==> (k in db' <==> k in db) && (k in db ==> db'[k] == db[k]))
            && (forall k :: k in db ==> k in db' && WithMeta(db[k], db'[k]) == db'[k])
  {
    var db' := Synced(db, repos, s, f).0;
    SyncIsUpserts(db, repos, s, f);
    UpsertsSettleExactlyWhen(db, repos, s);
    if Settled(db', repos, s) {
      SettledStays(db', repos, s, again);
    }
    forall k | k !in Keys(repos, s) ensures (k in db' <==> k in db) && (k in db ==> db'[k] == db[k]) {
      UnlistedStay(db, repos, s, k);
    }
    forall k | k in db ensures k in db' && WithMeta(db[k], db'[k]) == db'[k] {
      KnownKeepRest(db, repos, s, k);
    }
  }

  /** In particular if its keys are distinct. */
  lemma DistinctAgree(db: Table, repos: seq<RemoteRepo>, s: Site)
    requires Distinct(repos, s)
    ensures AllAgree(repos, s) && FirstsSuffice(db, repos, s)
  {
    forall a, b | a in repos && b in repos && KeyOf(a, s) == KeyOf(b, s) ensures a == b {
      var i, j :| 0 <= i < |repos| && 0 <= j < |repos| && repos[i] == a && repos[j] == b;
    }
  }

  /** Two synchronizations settle the table, and the third reports 0, exactly if the listing
      agrees with itself: a condition on the listing alone. */
  lemma TwoSyncsSettleExactlyWhen(db: Table, repos: seq<RemoteRepo>, s: Site, f: Faults, g: Faults, h: Faults)
    requires Free(db, repos, s) && Calm(f) && Calm(g) && Calm(h)
    ensures var db2 := Synced(Synced(db, repos, s, f).0, repos, s, g).0;
            && (Settled(db2, repos, s) <==> AllAgree(repos, s))
            && (Synced(db2, repos, s, h).1 == 0 <==> AllAgree(repos, s))
  {
    var db1 := Synced(db, repos, s, f).0;
    SyncIsUpserts(db, repos, s, f);
    StaysFree(db, repos, s);
    SyncIsUpserts(db1, repos, s, g);
    StaysFree(db1, repos, s);
    UpsertsSettleExactlyWhen(db1, repos, s);
    assert FirstsSuffice(db1, repos, s);
    ZeroMeansSettled(Synced(db1, repos, s, g).0, repos, s, h);
  }

  /** Two listed repositories that share a key and disagree keep every synchronization of every
      table writing. */
  lemma TwinsNeverSettle(db: Table, repos: seq<RemoteRepo>, s: Site, f: Faults, a: RemoteRepo, b: RemoteRepo)
    requires a in repos && b in repos && KeyOf(a, s) == KeyOf(b, s) && !Agree(a, b, s)
    requires Free(db, repos, s) && Calm(f)
    ensures Synced(db, repos, s, f).1 > 0
  {
    ZeroMeansSettled(db, repos, s, f);
    if Settled(db, repos, s) {
      SettledMeansAgree(db, repos, s);
    }
  }

  // ---------------------------------------------------------------- what is reported

  /** How many listed repositories have no row or a stale one. */
  function Outdated(db: Table, repos: seq<RemoteRepo>, s: Site): nat {
    if repos == [] then 0
    else
      var r := repos[|repos| - 1];
      Outdated(db, repos[..|repos| - 1], s) + if KeyOf(r, s) !in db || Stale(db[KeyOf(r, s)], r, s) then 1 else 0
  }

  ghost predicate Planned(db: Table, p: Plan, keys: set<string>) {
    && NoConflict(db, p.create) && (forall d :: d in p.create ==> d.key in keys)
    && (forall k :: k in p.local && k !in keys ==> k in db && p.local[k] == db[k])
  }

  lemma MergeKeepsPlanned(db: Table, p: Plan, r: RemoteRepo, s: Site, keys: set<string>)
    requires Linked(db, p, s) && Planned(db, p, keys)
    requires KeyOf(r, s) !in keys && (KeyOf(r, s) in db ==> Mine(db[KeyOf(r, s)], s))
      && (r.fullName == "" ==> "" !in Local(db, s))
    ensures Planned(db, Merge(p, r, s), keys + {KeyOf(r, s)})
  {
    FoundIsKey(p.local, r, s);
    if KeyOf(r, s) in db {
      assert KeyOf(r, s) in Local(db, s);
    }
    var create := Merge(p, r, s).create;
    forall i, j | 0 <= i < j < |create| ensures create[i].key != create[j].key {
      assert create[i] in p.create;
    }
  }

  lemma MergeCounts(db: Table, p: Plan, r: RemoteRepo, s: Site, keys: set<string>)
    requires Linked(db, p, s) && Planned(db, p, keys)
    requires KeyOf(r, s) !in keys && (KeyOf(r, s) in db ==> Mine(db[KeyOf(r, s)], s))
    requires r.fullName == "" ==> "" !in Local(db, s)
    ensures var p' := Merge(p, r, s);
            |p'.update| + |p'.create| == |p.update| + |p.create|
              + if KeyOf(r, s) !in db || Stale(db[KeyOf(r, s)], r, s) then 1 else 0
  {
    FoundIsKey(p.local, r, s);
  }

  lemma LastIsNew(db: Table, repos: seq<RemoteRepo>, s: Site)
    requires repos != [] && Distinct(repos, s) && Free(db, repos, s)
    ensures var front, r := repos[..|repos| - 1], repos[|repos| - 1];
            && Distinct(front, s) && Free(db, front, s)
            && KeyOf(r, s) !in Keys(front, s) && Keys(repos, s) == Keys(front, s) + {KeyOf(r, s)}
            && (KeyOf(r, s) in db ==> Mine(db[KeyOf(r, s)], s)) && (r.fullName == "" ==> "" !in Local(db, s))
  {
    assert repos[|repos| - 1] in repos && repos == repos[..|repos| - 1] + [repos[|repos| - 1]];
  }

  lemma {:induction false} PlanCountsOutdated(db: Table, repos: seq<RemoteRepo>, s: Site)
    requires Distinct(repos, s) && Free(db, repos, s)
    ensures var p := PlanOf(db, repos, s, true);
            Planned(db, p, Keys(repos, s)) && |p.update| + |p.create| == Outdated(db, repos, s)
  {
    if repos != [] {
      var n := |repos| - 1;
      LastIsNew(db, repos, s);
      PlanCountsOutdated(db, repos[..n], s);
      PlanIsUpserts(db, repos[..n], s);
      var p := PlanOf(db, repos[..n], s, true);
      MergeCounts(db, p, repos[n], s, Keys(repos[..n], s));
      MergeKeepsPlanned(db, p, repos[n], s, Keys(repos[..n], s));
    }
  }

  lemma {:induction false} EachCountsAll(db: Table, drafts: seq<Draft>, ok: nat -> bool)
    requires NoConflict(db, drafts) && forall i: nat :: ok(i)
    ensures InsertedEach(db, drafts, ok).1 == |drafts|
  {
    if drafts != [] {
      var n := |drafts| - 1;
      assert drafts[n] in drafts && forall d :: d in drafts[..n] ==> d in drafts;
      EachCountsAll(db, drafts[..n], ok);
      EachIsNew(db, drafts[..n], ok);
      NewKeys(db, drafts[..n], drafts[n].key);
    }
  }

  /** With distinct keys, the report counts the listed repositories without a row or with a
      stale one. */
  lemma ReportCountsOutdated(db: Table, repos: seq<RemoteRepo>, s: Site, f: Faults)
    requires Distinct(repos, s) && Free(db, repos, s) && Calm(f)
    ensures Synced(db, repos, s, f).1 == Outdated(db, repos, s)
  {
    PlanCountsOutdated(db, repos, s);
    var p := PlanOf(db, repos, s, true);
    assert NoConflict(Updated(db, p), p.create);
    EachCountsAll(Updated(db, p), p.create, f.single);
  }
}
