/** What a synchronization does to single rows, whatever becomes of its calls: which rows it
    never touches, what it writes into the others, what new rows look like, what it counts. */
module PlatformRows {
  import opened Basics
  import opened RepoPaging
  import opened PlatformSync
  import opened PlatformFixpoint

  // ---------------------------------------------------------------- the key and the path

  lemma KeyMeans(r: RemoteRepo, s: Site)
    ensures r.fullName != "" ==> KeyOf(r, s) == r.fullName && OwnerPath(r, s) == s.split(r.fullName)
    ensures r.fullName == "" ==> KeyOf(r, s) == r.owner + "/" + r.name && OwnerPath(r, s) == (r.owner, r.name)
  {
  }

  /** A settled table has for every listed repository a row of this platform, with the rewritten
      addresses, the owner and the path of its full name, and its name and branch if it has any. */
  lemma SettledMeans(db: Table, repos: seq<RemoteRepo>, s: Site, r: RemoteRepo)
    requires Settled(db, repos, s) && r in repos
    ensures var key := if r.fullName != "" then r.fullName else r.owner + "/" + r.name;
            && key in db && db[key].platform == s.id && !db[key].deleted
            && db[key].cloneURL == s.rewrite(r.cloneURL) && db[key].sshURL == s.rewrite(r.sshURL)
            && (db[key].owner, db[key].path) == (if r.fullName != "" then s.split(r.fullName) else (r.owner, r.name))
            && (r.name != "" ==> db[key].name == r.name)
            && (r.defaultBranch != "" ==> db[key].defaultBranch == r.defaultBranch)
  {
    KeyMeans(r, s);
  }

  // ---------------------------------------------------------------- what a plan touches

  /** The plan updates rows of this platform under listed keys, and inserts for listed keys. */
  ghost predicate Targets(p: Plan, local: Table, repos: seq<RemoteRepo>, s: Site) {
    && p.local.Keys == local.Keys
    && (forall k :: k in p.update ==> k in local && (k in Keys(repos, s) || k == ""))
    && (forall k :: k in local && k !in p.update ==> p.local[k] == local[k])
    && (forall d :: d in p.create ==> exists r :: r in repos && d == Draft(KeyOf(r, s), NewRow(r, s)))
  }

  lemma FoundIsListed(p: Plan, local: Table, front: seq<RemoteRepo>, r: RemoteRepo, s: Site)
    requires Found(p.local, r, s).Some?
    ensures Found(p.local, r, s).value in Keys(front + [r], s) || Found(p.local, r, s).value == ""
    ensures Keys(front, s) <= Keys(front + [r], s)
  {
    assert r in front + [r] && forall q :: q in front ==> q in front + [r];
    assert KeyOf(r, s) in Keys(front + [r], s);
  }

  lemma MergeTargets(p: Plan, local: Table, front: seq<RemoteRepo>, r: RemoteRepo, s: Site)
    requires Targets(p, local, front, s)
    ensures Targets(Merge(p, r, s), local, front + [r], s)
  {
    var p', repos := Merge(p, r, s), front + [r];
    if Found(p.local, r, s).Some? {
      FoundIsListed(p, local, front, r, s);
    } else {
      assert forall q :: q in front ==> q in repos;
    }
    forall d | d in p'.create ensures exists q :: q in repos && d == Draft(KeyOf(q, s), NewRow(q, s)) {
      if d in p.create {
        var q :| q in front && d == Draft(KeyOf(q, s), NewRow(q, s));
        assert q in repos;
      } else {
        assert r in repos;
      }
    }
  }

  lemma {:induction false} PlanTargets(db: Table, repos: seq<RemoteRepo>, s: Site, load: bool)
    ensures Targets(PlanOf(db, repos, s, load), if load then Local(db, s) else map[], repos, s)
  {
    if repos != [] {
      var n := |repos| - 1;
      PlanTargets(db, repos[..n], s, load);
      MergeTargets(PlanOf(db, repos[..n], s, load), if load then Local(db, s) else map[], repos[..n], repos[n], s);
      assert repos == repos[..n] + [repos[n]];
    }
  }

  // ---------------------------------------------------------------- what the writes leave

  lemma {:induction false} EachKeeps(db: Table, drafts: seq<Draft>, ok: nat -> bool, k: string)
    ensures var (rows, count) := InsertedEach(db, drafts, ok);
            && |rows| == |db| + count
            && (k in db ==> k in rows && rows[k] == db[k])
            && (k in rows && k !in db ==> Draft(k, rows[k]) in drafts)
  {
    if drafts != [] {
      var n := |drafts| - 1;
      EachKeeps(db, drafts[..n], ok, k);
      var rows := InsertedEach(db, drafts[..n], ok).0;
      if drafts[n].key !in rows {
        OneMoreRow(rows, drafts[n].key, drafts[n].row);
      }
    }
  }

  lemma OneMoreRow(rows: Table, k: string, row: Row)
    requires k !in rows
    ensures |rows[k := row]| == |rows| + 1
  {
    assert rows[k := row].Keys == rows.Keys + {k};
  }

  /** Inserting all without a conflict is inserting one by one. */
  lemma {:induction false} AllIsEach(db: Table, drafts: seq<Draft>)
    requires NoConflict(db, drafts)
    ensures InsertedEach(db, drafts, i => true) == (Inserted(db, drafts), |drafts|)
  {
    EachIsNew(db, drafts, i => true);
    AllIsNew(db, drafts);
    EachCountsAll(db, drafts, i => true);
  }

  lemma WrittenKeeps(db: Table, p: Plan, f: Faults, k: string)
    ensures var (rows, count) := Written(db, p, f);
            var kept := if f.update then Updated(db, p) else db;
            && count == (if f.update then |p.update| else 0) + |rows| - |db|
            && (k in db ==> k in rows && rows[k] == kept[k])
            && (k in rows && k !in db ==> Draft(k, rows[k]) in p.create)
  {
    var kept := if f.update then Updated(db, p) else db;
    assert kept.Keys == db.Keys && |kept| == |kept.Keys| == |db.Keys| == |db|;
    if f.batch && NoConflict(kept, p.create) {
      AllIsEach(kept, p.create);
      EachKeeps(kept, p.create, i => true, k);
    } else {
      EachKeeps(kept, p.create, f.single, k);
    }
  }

  // ---------------------------------------------------------------- the results

  /** Rows of other platforms and deleted rows are never touched, nor are rows that are not listed
      or that could not be loaded, and no failed update changes anything.  (A row without a key
      may be taken for a repository without a full name.) */
  lemma OthersStay(db: Table, repos: seq<RemoteRepo>, s: Site, f: Faults, k: string)
    requires k in db
    requires db[k].platform != s.id || db[k].deleted || (k !in Keys(repos, s) && k != "") || !f.load || !f.update
    ensures k in Synced(db, repos, s, f).0 && Synced(db, repos, s, f).0[k] == db[k]
  {
    PlanTargets(db, repos, s, f.load);
    WrittenKeeps(db, PlanOf(db, repos, s, f.load), f, k);
  }

  /** No row loses its platform, its state or its secret. */
  lemma OtherColumnsStay(db: Table, repos: seq<RemoteRepo>, s: Site, f: Faults, k: string)
    requires k in db
    ensures k in Synced(db, repos, s, f).0
    ensures var row := Synced(db, repos, s, f).0[k];
            row.platform == db[k].platform && row.status == db[k].status && row.secret == db[k].secret
              && row.deleted == db[k].deleted
  {
    PlanTargets(db, repos, s, f.load);
    WrittenKeeps(db, PlanOf(db, repos, s, f.load), f, k);
  }

  /** A new row stands under the key of a listed repository; it is active, belongs to the platform,
      and has the repository's data: the path for a missing name, main for a missing branch. */
  lemma NewRowsAre(db: Table, repos: seq<RemoteRepo>, s: Site, f: Faults, k: string) returns (r: RemoteRepo)
    requires k in Synced(db, repos, s, f).0 && k !in db
    ensures r in repos && k == (if r.fullName != "" then r.fullName else r.owner + "/" + r.name)
    ensures var row := Synced(db, repos, s, f).0[k];
            && row.platform == s.id && row.status == "active" && row.secret == "" && !row.deleted
            && row.cloneURL == s.rewrite(r.cloneURL) && row.sshURL == s.rewrite(r.sshURL)
            && (row.owner, row.path) == (if r.fullName != "" then s.split(r.fullName) else (r.owner, r.name))
            && row.name == (if r.name != "" then r.name else row.path)
            && row.defaultBranch == (if r.defaultBranch != "" then r.defaultBranch else "main")
  {
    var p := PlanOf(db, repos, s, f.load);
    PlanTargets(db, repos, s, f.load);
    WrittenKeeps(db, p, f, k);
    var row := Synced(db, repos, s, f).0[k];
    assert Draft(k, row) in p.create;
    r :| r in repos && Draft(k, row) == Draft(KeyOf(r, s), NewRow(r, s));
    KeyMeans(r, s);
  }

  /** The report counts the new rows and, if the update went through, the updated ones. */
  lemma ReportIsHonest(db: Table, repos: seq<RemoteRepo>, s: Site, f: Faults)
    ensures var (rows, count) := Synced(db, repos, s, f);
            |rows| >= |db| && count == (if f.update then |PlanOf(db, repos, s, f.load).update| else 0) + (|rows| - |db|)
  {
    WrittenKeeps(db, PlanOf(db, repos, s, f.load), f, "");
    var p := PlanOf(db, repos, s, f.load);
    var kept := if f.update then Updated(db, p) else db;
    assert kept.Keys == db.Keys && |kept| == |kept.Keys| == |db.Keys| == |db|;
    EachKeeps(kept, p.create, f.single, "");
  }

  /** Whatever fails, two calm synchronizations of a listing that agrees with itself settle the
      table: no failure leaves anything that cannot be made good. */
  lemma FailuresAreMadeGood(db: Table, repos: seq<RemoteRepo>, s: Site, f: Faults, g: Faults, h: Faults)
    requires Free(db, repos, s) && AllAgree(repos, s) && Calm(g) && Calm(h)
    ensures Settled(Synced(Synced(Synced(db, repos, s, f).0, repos, s, g).0, repos, s, h).0, repos, s)
  {
    var db' := Synced(db, repos, s, f).0;
    forall r | r in repos && KeyOf(r, s) in db' ensures Mine(db'[KeyOf(r, s)], s) {
      if KeyOf(r, s) in db {
        OtherColumnsStay(db, repos, s, f, KeyOf(r, s));
      } else {
        var _ := NewRowsAre(db, repos, s, f, KeyOf(r, s));
      }
    }
    if "" in Local(db', s) && "" !in db {
      var r := NewRowsAre(db, repos, s, f, "");
    } else if "" in Local(db', s) {
      OtherColumnsStay(db, repos, s, f, "");
    }
    TwoSyncsSettleExactlyWhen(db', repos, s, g, h, h);
  }
}
