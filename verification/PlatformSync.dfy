/** Bringing the table of repositories up to date with what a platform lists. */
module PlatformSync {
  import opened Basics
  import opened RepoPaging

  /** A row of the table; its key is unique in the table. */
  datatype Row = Row(platform: nat, owner: string, path: string, name: string, cloneURL: string, sshURL: string,
    defaultBranch: string, status: string, secret: string, deleted: bool)

  type Table = map<string, Row>

  /** The platform, how it rewrites the host of an address, and how a full name splits into an
      owner and a path. */
  datatype Site = Site(id: nat, rewrite: string -> string, split: string -> (string, string))

  /** Which calls of the database succeed; single is for the i-th of single insertions. */
  datatype Faults = Faults(load: bool, update: bool, batch: bool, single: nat -> bool)

  function OwnerPath(r: RemoteRepo, s: Site): (string, string) {
    if r.fullName != "" then s.split(r.fullName) else (r.owner, r.name)
  }

  function KeyOf(r: RemoteRepo, s: Site): string {
    if r.fullName != "" then r.fullName else OwnerPath(r, s).0 + "/" + OwnerPath(r, s).1
  }

  predicate Mine(row: Row, s: Site) { row.platform == s.id && !row.deleted }

  function Local(db: Table, s: Site): Table { map k | k in db && Mine(db[k], s) :: db[k] }

  // ---------------------------------------------------------------- one repository

  predicate Stale(row: Row, r: RemoteRepo, s: Site) {
    || row.cloneURL != s.rewrite(r.cloneURL)
    || row.sshURL != s.rewrite(r.sshURL)
    || row.owner != OwnerPath(r, s).0
    || row.path != OwnerPath(r, s).1
    || (r.name != "" && row.name != r.name)
    || (r.defaultBranch != "" && row.defaultBranch != r.defaultBranch)
  }

  function Refreshed(row: Row, r: RemoteRepo, s: Site): Row {
    row.(cloneURL := s.rewrite(r.cloneURL),
         sshURL := s.rewrite(r.sshURL),
         owner := OwnerPath(r, s).0,
         path := OwnerPath(r, s).1,
         name := if r.name != "" then r.name else row.name,
         defaultBranch := if r.defaultBranch != "" then r.defaultBranch else row.defaultBranch)
  }

  /** An inserted row; the column of the default branch has a default of its own. */
  function NewRow(r: RemoteRepo, s: Site): Row {
    Row(s.id, OwnerPath(r, s).0, OwnerPath(r, s).1,
        if r.name != "" then r.name else OwnerPath(r, s).1,
        s.rewrite(r.cloneURL), s.rewrite(r.sshURL),
        if r.defaultBranch != "" then r.defaultBranch else "main", "active", "", false)
  }

  function Found(local: Table, r: RemoteRepo, s: Site): Option<string> {
    if r.fullName in local then Some(r.fullName)
    else if r.fullName == "" && KeyOf(r, s) in local then Some(KeyOf(r, s))
    else None
  }

  // ---------------------------------------------------------------- the plan

  datatype Draft = Draft(key: string, row: Row)

  /** The rows in memory, the keys to be written, the rows to be inserted. */
  datatype Plan = Plan(local: Table, update: seq<string>, create: seq<Draft>)

  function Merge(p: Plan, r: RemoteRepo, s: Site): Plan {
    var found := Found(p.local, r, s);
    if found == None then p.(create := p.create + [Draft(KeyOf(r, s), NewRow(r, s))])
    else
      var row := p.local[found.value];
      if Stale(row, r, s) then
        p.(local := p.local[found.value := Refreshed(row, r, s)], update := p.update + [found.value])
      else p
  }

  function MergeAll(p: Plan, repos: seq<RemoteRepo>, s: Site): Plan {
    if repos == [] then p else Merge(MergeAll(p, repos[..|repos| - 1], s), repos[|repos| - 1], s)
  }

  // ---------------------------------------------------------------- writing

  /** The six columns that an update writes. */
  function WithMeta(row: Row, from: Row): Row {
    row.(cloneURL := from.cloneURL, sshURL := from.sshURL, owner := from.owner, path := from.path, name := from.name,
      defaultBranch := from.defaultBranch)
  }

  function Updated(db: Table, p: Plan): Table {
    map k | k in db :: if k in p.update && k in p.local then WithMeta(db[k], p.local[k]) else db[k]
  }

  function Inserted(db: Table, drafts: seq<Draft>): Table {
    if drafts == [] then db
    else
      var last := drafts[|drafts| - 1];
      Inserted(db, drafts[..|drafts| - 1])[last.key := last.row]
  }

  predicate NoConflict(db: Table, drafts: seq<Draft>) {
    && (forall d :: d in drafts ==> d.key !in db)
    && (forall i, j :: 0 <= i < j < |drafts| ==> drafts[i].key != drafts[j].key)
  }

  /** One row after the other; a taken key is refused. */
  function InsertedEach(db: Table, drafts: seq<Draft>, ok: nat -> bool): (Table, nat) {
    if drafts == [] then (db, 0)
    else
      var n := |drafts| - 1;
      var (rows, count) := InsertedEach(db, drafts[..n], ok);
      if ok(n) && drafts[n].key !in rows then (rows[drafts[n].key := drafts[n].row], count + 1) else (rows, count)
  }

  function PlanOf(db: Table, repos: seq<RemoteRepo>, s: Site, load: bool): Plan {
    MergeAll(Plan(if load then Local(db, s) else map[], [], []), repos, s)
  }

  function Written(db: Table, p: Plan, f: Faults): (Table, nat) {
    var rows := if f.update then Updated(db, p) else db;
    var count := if f.update then |p.update| else 0;
    if f.batch && NoConflict(rows, p.create) then (Inserted(rows, p.create), count + |p.create|)
    else
      var (rows', more) := InsertedEach(rows, p.create, f.single);
      (rows', count + more)
  }

  /** One synchronization: the table after it, and how many rows it reports. */
  function Synced(db: Table, repos: seq<RemoteRepo>, s: Site, f: Faults): (Table, nat) {
    Written(db, PlanOf(db, repos, s, f.load), f)
  }

  class Store {
    var rows: Table

    constructor (rows: Table)
      ensures this.rows == rows
    {
      this.rows := rows;
    }

    method SyncPlatformRepos(provider: Provider, perPage: nat, s: Site, f: Faults) returns (r: Option<nat>)
      modifies this
      ensures var pages := From(provider, perPage, 1);
              if pages == None then r == None && rows == old(rows)
              else r.Some? && (rows, r.value) == Synced(old(rows), Firsts(pages.value), s, f)
    {
      var fetched := FetchAllPlatformRepos(provider, perPage);
      if fetched == None {
        return None;
      }
      var repos := fetched.value;
      var existing := if f.load then Local(rows, s) else map[];
      var local, toUpdate, toCreate := existing, [], [];
      for i := 0 to |repos|
        invariant Plan(local, toUpdate, toCreate) == MergeAll(Plan(existing, [], []), repos[..i], s)
      {
        assert repos[..i + 1][..i] == repos[..i];
        var repo := repos[i];
        var found := Found(local, repo, s);
        if found.Some? {
          if Stale(local[found.value], repo, s) {
            local := local[found.value := Refreshed(local[found.value], repo, s)];
            toUpdate := toUpdate + [found.value];
          }
          continue;
        }
        toCreate := toCreate + [Draft(KeyOf(repo, s), NewRow(repo, s))];
      }
      assert repos[..|repos|] == repos;
      var count := Write(Plan(local, toUpdate, toCreate), f);
      return Some(count);
    }

    method Write(p: Plan, f: Faults) returns (count: nat)
      modifies this
      ensures (rows, count) == Written(old(rows), p, f)
    {
      count := 0;
      if f.update {
        rows := Updated(rows, p);
        count := count + |p.update|;
      }
      if f.batch && NoConflict(rows, p.create) {
        rows := Inserted(rows, p.create);
        count := count + |p.create|;
      } else {
        var more := CreateEach(p.create, f.single);
        count := count + more;
      }
    }

    method CreateEach(drafts: seq<Draft>, ok: nat -> bool) returns (count: nat)
      modifies this
      ensures (rows, count) == InsertedEach(old(rows), drafts, ok)
    {
      count := 0;
      for i := 0 to |drafts|
        invariant (rows, count) == InsertedEach(old(rows), drafts[..i], ok)
      {
        assert drafts[..i + 1][..i] == drafts[..i];
        if ok(i) && drafts[i].key !in rows {
          rows := rows[drafts[i].key := drafts[i].row];
          count := count + 1;
        }
      }
      assert drafts[..|drafts|] == drafts;
    }
  }

  // ---------------------------------------------------------------- the simple form

  /** What one listed repository is to do to the table: a row that was there before is refreshed,
      a missing one is inserted, and one that has just been inserted stays. */
  function Upserted(known: set<string>, db: Table, r: RemoteRepo, s: Site): Table {
    var k := KeyOf(r, s);
    if k !in db then db[k := NewRow(r, s)]
    else if k in known then db[k := Refreshed(db[k], r, s)]
    else db
  }

  function UpsertedAll(db: Table, repos: seq<RemoteRepo>, s: Site): Table {
    if repos == [] then db
    else Upserted(db.Keys, UpsertedAll(db, repos[..|repos| - 1], s), repos[|repos| - 1], s)
  }

  function Keys(repos: seq<RemoteRepo>, s: Site): set<string> { set r | r in repos :: KeyOf(r, s) }

  /** No two repositories have one key. */
  ghost predicate Distinct(repos: seq<RemoteRepo>, s: Site) {
    forall i, j :: 0 <= i < j < |repos| ==> KeyOf(repos[i], s) != KeyOf(repos[j], s)
  }

  /** Two repositories ask for the same of a row that both can be found under. */
  predicate Agree(a: RemoteRepo, b: RemoteRepo, s: Site) {
    && s.rewrite(a.cloneURL) == s.rewrite(b.cloneURL)
    && s.rewrite(a.sshURL) == s.rewrite(b.sshURL)
    && OwnerPath(a, s) == OwnerPath(b, s)
    && (a.name == b.name || a.name == "" || b.name == "")
    && (a.defaultBranch == b.defaultBranch || a.defaultBranch == "" || b.defaultBranch == "")
  }

  ghost predicate AllAgree(repos: seq<RemoteRepo>, s: Site) {
    forall a, b :: a in repos && b in repos && KeyOf(a, s) == KeyOf(b, s) ==> Agree(a, b, s)
  }

  /** No listed key belongs to another platform or to a deleted row, and no row without a key
      can be mistaken for a repository without a full name. */
  ghost predicate Free(db: Table, repos: seq<RemoteRepo>, s: Site) {
    && (forall r :: r in repos && KeyOf(r, s) in db ==> Mine(db[KeyOf(r, s)], s))
    && (forall r :: r in repos && r.fullName == "" ==> "" !in Local(db, s))
  }

  lemma FoundIsKey(local: Table, r: RemoteRepo, s: Site)
    requires r.fullName == "" ==> "" !in local
    ensures Found(local, r, s) == if KeyOf(r, s) in local then Some(KeyOf(r, s)) else None
  {
  }

  lemma StaleMeansChanged(row: Row, r: RemoteRepo, s: Site)
    ensures Stale(row, r, s) <==> Refreshed(row, r, s) != row
    ensures !Stale(Refreshed(row, r, s), r, s) && !Stale(NewRow(r, s), r, s)
  {
  }
}
