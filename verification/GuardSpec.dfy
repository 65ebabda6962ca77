/** What a concurrency guard promises, whatever it is made of: a bounded set of token
    holders, some of which run a task key that nobody else runs. */
module GuardSpec {

  datatype Guard = Guard(cap: nat, tokens: set<nat>, running: map<nat, string>)

  datatype Move =
    | Stutter
    | TakeToken(id: nat)
    | Start(id: nat, key: string)
    | Stop(id: nat)
    | Leave(id: nat)

  predicate Allowed(g: Guard, m: Move) {
    match m
    case Stutter => true
    case TakeToken(id) => id !in g.tokens && |g.tokens| < g.cap
    case Start(id, key) => id in g.tokens && id !in g.running && forall other :: other in g.running ==>
      g.running[other] != key
    case Stop(id) => id in g.running
    case Leave(id) => id in g.tokens
  }

  function Do(g: Guard, m: Move): Guard {
    match m
    case Stutter => g
    case TakeToken(id) => g.(tokens := g.tokens + {id})
    case Start(id, key) => g.(running := g.running[id := key])
    case Stop(id) => g.(running := g.running - {id})
    case Leave(id) => g.(tokens := g.tokens - {id}, running := g.running - {id})
  }

  ghost predicate Next(g: Guard, g': Guard) {
    exists m :: Allowed(g, m) && Do(g, m) == g'
  }

  function Empty(cap: nat): Guard { Guard(cap, {}, map[]) }

  ghost predicate Safe(g: Guard) {
    && |g.tokens| <= g.cap
    && g.running.Keys <= g.tokens
    && (forall a, b :: a in g.running && b in g.running && g.running[a] == g.running[b] ==> a == b)
  }

  ghost predicate IsBehavior(gs: seq<Guard>) {
    && |gs| > 0
    && gs[0] == Empty(gs[0].cap)
    && (forall i :: 0 < i < |gs| ==> Next(gs[i - 1], gs[i]))
  }

  lemma MoveKeepsSafe(g: Guard, m: Move)
    requires Safe(g) && Allowed(g, m)
    ensures Safe(Do(g, m)) && Do(g, m).cap == g.cap
  {
    if m.Leave? || m.Stop? {
      var g' := Do(g, m);
      assert |g'.tokens| <= |g.tokens|;
    }
  }

  /** Every behaviour of the abstract guard is safe in every state. */
  lemma {:induction false} BehaviorsAreSafe(gs: seq<Guard>, i: nat)
    requires IsBehavior(gs) && i < |gs|
    ensures Safe(gs[i]) && gs[i].cap == gs[0].cap
  {
    if i > 0 {
      BehaviorsAreSafe(gs, i - 1);
      assert Next(gs[i - 1], gs[i]);
      var m :| Allowed(gs[i - 1], m) && Do(gs[i - 1], m) == gs[i];
      MoveKeepsSafe(gs[i - 1], m);
    }
  }
}
