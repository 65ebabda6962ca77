/** All repositories of a platform, fetched page by page. */
module RepoPaging {
  import opened Basics

  datatype RemoteRepo = RemoteRepo(fullName: string, owner: string, name: string, cloneURL: string, sshURL: string,
      defaultBranch: string)

  const MAX_PAGES: nat := 100

  /** What the platform answers for a page, the first being 1. */
  type Provider = nat -> Option<seq<RemoteRepo>>

  function IdOf(r: RemoteRepo): string { if r.cloneURL == "" then r.fullName else r.cloneURL }

  function Ids(repos: seq<RemoteRepo>): set<string> { set r | r in repos :: IdOf(r) }

  /** The list without later repositories of the same identity. */
  function Firsts(repos: seq<RemoteRepo>): seq<RemoteRepo> {
    if repos == [] then []
    else
      var n := |repos| - 1;
      Firsts(repos[..n]) + if IdOf(repos[n]) in Ids(repos[..n]) then [] else [repos[n]]
  }

  /** The pages from page on, up to the first that is not full. */
  function From(provider: Provider, perPage: nat, page: nat): Option<seq<RemoteRepo>>
    decreases MAX_PAGES + 1 - page
  {
    if page > MAX_PAGES then Some([])
    else if provider(page) == None then None
    else
      var repos := provider(page).value;
      if |repos| < perPage then Some(repos)
      else
        var rest := From(provider, perPage, page + 1);
        if rest == None then None else Some(repos + rest.value)
  }

  method FetchAllPlatformRepos(provider: Provider, perPage: nat) returns (r: Option<seq<RemoteRepo>>)
    ensures var pages := From(provider, perPage, 1);
            r == if pages == None then None else Some(Firsts(pages.value))
  {
    var all, seen := [], {};
    ghost var raw: seq<RemoteRepo> := [];
    var page := 1;
    BehindNothing(raw, From(provider, perPage, 1));
    while page <= MAX_PAGES
      invariant 1 <= page <= MAX_PAGES + 1
      invariant all == Firsts(raw) && seen == Ids(raw)
      invariant From(provider, perPage, 1) == Behind(raw, From(provider, perPage, page))
    {
      if provider(page) == None {
        return None;
      }
      var repos := provider(page).value;
      all, seen := Append(all, seen, repos, raw);
      BehindBehind(raw, repos, if |repos| < perPage then Some([]) else From(provider, perPage, page + 1));
      raw := raw + repos;
      if |repos| < perPage {
        break;
      }
      page := page + 1;
    }
    BehindNothing(raw, Some([]));
    return Some(all);
  }

  /** One page. */
  method Append(all: seq<RemoteRepo>, seen: set<string>, repos: seq<RemoteRepo>, ghost raw: seq<RemoteRepo>)
      returns (all': seq<RemoteRepo>, seen': set<string>)
    requires all == Firsts(raw) && seen == Ids(raw)
    ensures all' == Firsts(raw + repos) && seen' == Ids(raw + repos)
  {
    all', seen' := all, seen;
    assert raw + repos[..0] == raw;
    for i := 0 to |repos|
      invariant all' == Firsts(raw + repos[..i]) && seen' == Ids(raw + repos[..i])
    {
      OneMoreRepo(raw, repos, i);
      if IdOf(repos[i]) in seen' {
        continue;
      }
      seen' := seen' + {IdOf(repos[i])};
      all' := all' + [repos[i]];
    }
    assert repos[..|repos|] == repos;
  }

  lemma OneMoreRepo(raw: seq<RemoteRepo>, repos: seq<RemoteRepo>, i: nat)
    requires i < |repos|
    ensures var before, after := raw + repos[..i], raw + repos[..i + 1];
            && Firsts(after) == Firsts(before) + (if IdOf(repos[i]) in Ids(before) then [] else [repos[i]])
            && Ids(after) == Ids(before) + {IdOf(repos[i])}
  {
    var before, after := raw + repos[..i], raw + repos[..i + 1];
    assert after == before + [repos[i]] && after[..|after| - 1] == before;
  }

  function Behind(a: seq<RemoteRepo>, b: Option<seq<RemoteRepo>>): Option<seq<RemoteRepo>> {
    if b == None then None else Some(a + b.value)
  }

  lemma BehindNothing(a: seq<RemoteRepo>, b: Option<seq<RemoteRepo>>)
    ensures Behind(a, Some([])) == Some(a) && Behind([], b) == b
  {
    assert a + [] == a;
    if b.Some? {
      assert [] + b.value == b.value;
    }
  }

  lemma BehindBehind(a: seq<RemoteRepo>, b: seq<RemoteRepo>, c: Option<seq<RemoteRepo>>)
    ensures Behind(a, Behind(b, c)) == Behind(a + b, c)
    ensures Behind(b, Some([])) == Some(b)
  {
    assert b + [] == b;
    if c.Some? {
      assert a + (b + c.value) == a + b + c.value;
    }
  }

  // ---------------------------------------------------------------- what is returned

  ghost predicate IsFirst(repos: seq<RemoteRepo>, i: nat, r: RemoteRepo) {
    i < |repos| && repos[i] == r && IdOf(r) !in Ids(repos[..i])
  }

  lemma FirstOfMore(repos: seq<RemoteRepo>, i: nat, r: RemoteRepo)
    requires repos != []
    ensures i < |repos| - 1 ==> (IsFirst(repos, i, r) <==> IsFirst(repos[..|repos| - 1], i, r))
  {
    if i < |repos| - 1 {
      assert repos[..|repos| - 1][..i] == repos[..i];
    }
  }

  /** A repository is kept exactly when none before it has its identity. */
  lemma {:induction false} FirstsAreFirst(repos: seq<RemoteRepo>, r: RemoteRepo)
    ensures r in Firsts(repos) <==> exists i :: IsFirst(repos, i, r)
  {
    if repos != [] {
      var n := |repos| - 1;
      FirstsAreFirst(repos[..n], r);
      if i :| IsFirst(repos, i, r) {
        FirstOfMore(repos, i, r);
      }
      if i :| IsFirst(repos[..n], i, r) {
        FirstOfMore(repos, i, r);
      }
      if IsFirst(repos, n, r) {
      }
    }
  }

  /** Two repositories count as one if both have a clone address and it is the same, or neither has
      one and their full names are the same, or the one's address is the other's name. */
  lemma SameIdentityExactlyWhen(a: RemoteRepo, b: RemoteRepo)
    ensures IdOf(a) == IdOf(b) <==>
              || (a.cloneURL != "" && a.cloneURL == b.cloneURL)
              || (a.cloneURL == "" && b.cloneURL == "" && a.fullName == b.fullName)
              || (a.cloneURL != "" && b.cloneURL == "" && a.cloneURL == b.fullName)
              || (a.cloneURL == "" && b.cloneURL != "" && a.fullName == b.cloneURL)
  {
  }

  /** The pages before this one are there and full, so that it is asked for. */
  ghost predicate IsAsked(provider: Provider, perPage: nat, first: nat, page: nat) {
    && first <= page <= MAX_PAGES
    && (forall p: nat :: first <= p < page ==> provider(p).Some? && |provider(p).value| >= perPage)
  }

  /** The whole call fails exactly if some page that is asked for fails. */
  lemma {:induction false} FailsExactlyWhen(provider: Provider, perPage: nat, first: nat)
    ensures From(provider, perPage, first) == None <==>
              exists page: nat :: IsAsked(provider, perPage, first, page) && provider(page) == None
    decreases MAX_PAGES + 1 - first
  {
    if first <= MAX_PAGES {
      if provider(first) == None {
        assert IsAsked(provider, perPage, first, first);
      } else if |provider(first).value| >= perPage {
        FailsExactlyWhen(provider, perPage, first + 1);
        forall page: nat | page > first
          ensures IsAsked(provider, perPage, first, page) <==> IsAsked(provider, perPage, first + 1, page) {
        }
      }
    }
  }

  lemma IdsOfSum(a: seq<RemoteRepo>, b: seq<RemoteRepo>)
    ensures Ids(a + b) == Ids(a) + Ids(b)
  {
  }

  lemma {:induction false} FirstsAreDistinct(repos: seq<RemoteRepo>)
    ensures Ids(Firsts(repos)) == Ids(repos)
    ensures forall i, j :: 0 <= i < j < |Firsts(repos)| ==> IdOf(Firsts(repos)[i]) != IdOf(Firsts(repos)[j])
  {
    if repos != [] {
      var n := |repos| - 1;
      FirstsAreDistinct(repos[..n]);
      assert repos == repos[..n] + [repos[n]];
      IdsOfSum(repos[..n], [repos[n]]);
      IdsOfSum(Firsts(repos[..n]), if IdOf(repos[n]) in Ids(repos[..n]) then [] else [repos[n]]);
      var before := Firsts(repos[..n]);
      forall i | 0 <= i < |before| ensures IdOf(before[i]) in Ids(repos[..n]) {
        assert before[i] in before && IdOf(before[i]) in Ids(before);
      }
    }
  }

  /** Page by page, a platform that cuts one fixed list. */
  ghost predicate Cuts(provider: Provider, list: seq<RemoteRepo>, perPage: nat) {
    forall page: nat :: 1 <= page <= MAX_PAGES ==>
      provider(page) == Some(list[Upto(list, perPage, page - 1)..Upto(list, perPage, page)])
  }

  /** How many repositories the first pages hold. */
  function Upto(list: seq<RemoteRepo>, perPage: nat, pages: nat): nat {
    if Times(pages, perPage) <= |list| then Times(pages, perPage) else |list|
  }

  function Times(pages: nat, perPage: nat): (n: nat)
    ensures n == pages * perPage
  {
    if pages == 0 then 0 else Times(pages - 1, perPage) + perPage
  }

  lemma {:induction false} TimesGrows(a: nat, b: nat, perPage: nat)
    requires a <= b
    ensures Times(a, perPage) <= Times(b, perPage)
  {
    if a < b {
      TimesGrows(a, b - 1, perPage);
    }
  }

  lemma {:induction false} PagesFrom(provider: Provider, list: seq<RemoteRepo>, perPage: nat, page: nat)
    requires 1 <= page <= MAX_PAGES + 1 && Cuts(provider, list, perPage)
    ensures Upto(list, perPage, page - 1) <= Upto(list, perPage, MAX_PAGES)
    ensures From(provider, perPage, page) == Some(list[Upto(list, perPage, page - 1)..Upto(list, perPage, MAX_PAGES)])
    decreases MAX_PAGES + 1 - page
  {
    TimesGrows(page - 1, MAX_PAGES, perPage);
    if page > MAX_PAGES {
      assert list[Upto(list, perPage, MAX_PAGES)..Upto(list, perPage, MAX_PAGES)] == [];
    } else {
      PagesFrom(provider, list, perPage, page + 1);
      TimesGrows(page - 1, page, perPage);
      TimesGrows(page, MAX_PAGES, perPage);
      OnePage(list, Upto(list, perPage, page - 1), Upto(list, perPage, page), Upto(list, perPage, MAX_PAGES));
    }
  }

  lemma OnePage(list: seq<RemoteRepo>, a: nat, b: nat, c: nat)
    requires a <= b <= c <= |list|
    ensures list[a..b] + list[b..c] == list[a..c]
  {
  }

  /** The first hundred pages of a fixed list are fetched, and so the whole list if it has no
      more; later duplicates are dropped. */
  lemma FetchesFixedList(provider: Provider, list: seq<RemoteRepo>, perPage: nat)
    requires Cuts(provider, list, perPage)
    ensures From(provider, perPage, 1)
      == Some(list[..if MAX_PAGES * perPage <= |list| then MAX_PAGES * perPage else |list|])
    ensures |list| <= MAX_PAGES * perPage ==> From(provider, perPage, 1) == Some(list)
  {
    PagesFrom(provider, list, perPage, 1);
    assert list[..|list|] == list;
  }
}
