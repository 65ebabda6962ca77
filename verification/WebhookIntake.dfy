/** Webhook events: deliveries, retries and workers whose database calls interleave. */
module WebhookIntake {
  datatype Status = Received | Processing | Processed

  /** A stored event.  from is the delivery that stored it. */
  datatype Row = Row(event: string, status: Status, from: nat)

  /** How far the work on a row has come. */
  datatype Stage = Begun | Found | Ready | Worked | Ended

  datatype Thread =
    | Arrived(event: string)           // a delivery with a valid signature
    | Checked(event: string)           // its event was not stored yet
    | Inserted(row: nat)               // about to launch its worker
    | Asked(row: nat)                  // a retry
    | AskFound(row: nat)               // about to mark its row
    | AskMarked(row: nat)              // about to launch its worker
    | Working(row: nat, stage: Stage, retry: bool)
    | Answered(event: string)          // the delivery was accepted as a duplicate
    | Refused                          // an error was returned
  {
    /** The row the thread has stored or found. */
    predicate Has(r: nat) {
      (Inserted? && row == r) || (AskFound? && row == r) || (AskMarked? && row == r) || (Working? && row == r)
    }

    predicate CreatorOf(r: nat) { (Inserted? && row == r) || (Working? && row == r && !retry) }

    /** The thread is going to mark the row as processed. */
    predicate Owes(r: nat) {
      (Inserted? && row == r) || (AskMarked? && row == r) || (Working? && row == r && !stage.Ended?)
    }

    predicate Idle() { Answered? || Refused? || (Working? && stage.Ended?) }
  }

  type Rows = map<nat, Row>

  /** unclosed are the rows whose last mark of being processed failed to be written. */
  datatype State = State(rows: Rows, next: nat, threads: map<nat, Thread>, unclosed: set<nat>)

  /** ok says whether the database answers. */
  datatype Step =
    | Deliver(t: nat, event: string)
    | Lookup(t: nat, ok: bool)
    | Insert(t: nat, ok: bool)
    | Ask(t: nat, row: nat)
    | AskFind(t: nat, ok: bool)
    | AskMark(t: nat, ok: bool)
    | Launch(t: nat)
    | Find(t: nat, ok: bool)
    | Mark(t: nat, ok: bool)
    | Work(t: nat)
    | Close(t: nat, ok: bool)

  predicate Stored(rows: Rows, event: string) {
    exists r :: r in rows && rows[r].event == event
  }

  predicate At(s: State, t: nat, stage: Stage) {
    t in s.threads && s.threads[t].Working? && s.threads[t].stage == stage
  }

  predicate Enabled(s: State, a: Step) {
    match a
    case Deliver(t, _) => t !in s.threads
    case Ask(t, _) => t !in s.threads
    case Lookup(t, _) => t in s.threads && s.threads[t].Arrived?
    case Insert(t, _) => t in s.threads && s.threads[t].Checked?
    case AskFind(t, _) => t in s.threads && s.threads[t].Asked?
    case AskMark(t, _) => t in s.threads && s.threads[t].AskFound?
    case Launch(t) => t in s.threads && (s.threads[t].Inserted? || s.threads[t].AskMarked?)
    case Find(t, _) => At(s, t, Begun)
    case Mark(t, _) => At(s, t, Found)
    case Work(t) => At(s, t, Ready)
    case Close(t, _) => At(s, t, Worked)
  }

  function ThreadAfter(s: State, a: Step): Thread
    requires Enabled(s, a)
  {
    match a
    case Deliver(_, event) => Arrived(event)
    case Ask(_, row) => Asked(row)
    case Lookup(t, ok) =>
      var event := s.threads[t].event;
      if !ok then Refused else if Stored(s.rows, event) then Answered(event) else Checked(event)
    case Insert(t, ok) =>
      var event := s.threads[t].event;
      if !ok then Refused else if Stored(s.rows, event) then Answered(event) else Inserted(s.next)
    case AskFind(t, ok) => if ok && s.threads[t].row in s.rows then AskFound(s.threads[t].row) else Refused
    case AskMark(t, _) => AskMarked(s.threads[t].row)
    case Launch(t) => Working(s.threads[t].row, Begun, s.threads[t].AskMarked?)
    case Find(t, ok) => s.threads[t].(stage := if ok && s.threads[t].row in s.rows then Found else Ready)
    case Mark(t, _) => s.threads[t].(stage := Ready)
    case Work(t) => s.threads[t].(stage := Worked)
    case Close(t, _) => s.threads[t].(stage := Ended)
  }

  /** Writing the status of a row. */
  function Marked(rows: Rows, row: nat, status: Status): Rows {
    if row in rows then rows[row := rows[row].(status := status)] else rows
  }

  function RowsAfter(s: State, a: Step): Rows
    requires Enabled(s, a)
  {
    if a.Insert? && a.ok && !Stored(s.rows, s.threads[a.t].event) then
      s.rows[s.next := Row(s.threads[a.t].event, Received, a.t)]
    else if (a.AskMark? || a.Mark?) && a.ok then Marked(s.rows, s.threads[a.t].row, Processing)
    else if a.Close? && a.ok then Marked(s.rows, s.threads[a.t].row, Processed)
    else s.rows
  }

  function UnclosedAfter(s: State, a: Step): set<nat>
    requires Enabled(s, a)
  {
    if !a.Close? then s.unclosed
    else if a.ok then s.unclosed - {s.threads[a.t].row}
    else s.unclosed + {s.threads[a.t].row}
  }

  function Apply(s: State, a: Step): State
    requires Enabled(s, a)
  {
    var next := if a.Insert? then s.next + 1 else s.next;
    State(RowsAfter(s, a), next, s.threads[a.t := ThreadAfter(s, a)], UnclosedAfter(s, a))
  }

  /** ss is what the steps acts lead through, from its first state on. */
  ghost predicate IsRun(ss: seq<State>, acts: seq<Step>) {
    && |ss| == |acts| + 1
    && (forall i :: 0 <= i < |acts| ==> Enabled(ss[i], acts[i]) && ss[i + 1] == Apply(ss[i], acts[i]))
  }

  const Empty := State(map[], 0, map[], {})

  // ---------------------------------------------------------------- what every step keeps

  /** No two rows have the same event, and each has one creator. */
  ghost predicate Once(s: State) {
    && (forall r :: r in s.rows ==> r < s.next && s.rows[r].from in s.threads && s.threads[s.rows[r].from].CreatorOf(r))
    && (forall r, q :: r in s.rows && q in s.rows && s.rows[r].event == s.rows[q].event ==> r == q)
  }

  ghost predicate Rooted(s: State) {
    && (forall t, r :: t in s.threads && s.threads[t].Has(r) ==> r in s.rows)
    && (forall t, r :: t in s.threads && s.threads[t].CreatorOf(r) ==> r in s.rows && s.rows[r].from == t)
    && (forall t :: t in s.threads && s.threads[t].Answered? ==> Stored(s.rows, s.threads[t].event))
  }

  ghost predicate Debtor(s: State, t: nat, r: nat) {
    t in s.threads && s.threads[t].Owes(r)
  }

  /** Whatever is not processed will be marked so, unless that has failed before. */
  ghost predicate Owed(s: State) {
    forall r :: r in s.rows && s.rows[r].status != Processed && r !in s.unclosed ==> exists t :: Debtor(s, t, r)
  }

  ghost predicate Valid(s: State) { Once(s) && Rooted(s) && Owed(s) }

  lemma StepKeepsStored(s: State, a: Step, event: string)
    requires Once(s) && Enabled(s, a) && Stored(s.rows, event)
    ensures Stored(RowsAfter(s, a), event)
  {
    var r :| r in s.rows && s.rows[r].event == event;
    assert r in RowsAfter(s, a) && RowsAfter(s, a)[r].event == event;
  }

  /** A step stores at most one row, of an event that had none, and keeps the rest. */
  lemma RowsGrow(s: State, a: Step)
    requires Once(s) && Enabled(s, a)
    ensures var rows := RowsAfter(s, a);
            && s.rows.Keys <= rows.Keys <= s.rows.Keys + {s.next}
            && (forall r :: r in s.rows ==> rows[r].event == s.rows[r].event && rows[r].from == s.rows[r].from)
            && (s.next in rows ==>
                  && a.Insert? && rows[s.next].from == a.t && ThreadAfter(s, a) == Inserted(s.next)
                  && !Stored(s.rows, rows[s.next].event))
  {
  }

  lemma ThreadKeepsRow(s: State, a: Step, r: nat)
    requires Once(s) && Enabled(s, a) && a.t in s.threads
    ensures s.threads[a.t].CreatorOf(r) ==> ThreadAfter(s, a).CreatorOf(r)
    ensures ThreadAfter(s, a).CreatorOf(r) ==> s.threads[a.t].CreatorOf(r) || (r == s.next && r in RowsAfter(s, a))
    ensures ThreadAfter(s, a).Has(r) ==> s.threads[a.t].Has(r) || r in RowsAfter(s, a)
  {
  }

  lemma StepKeepsOnce(s: State, a: Step)
    requires Once(s) && Rooted(s) && Enabled(s, a)
    ensures Once(Apply(s, a))
  {
    RowsGrow(s, a);
    var s' := Apply(s, a);
    forall r | r in s'.rows
      ensures r < s'.next && s'.rows[r].from in s'.threads && s'.threads[s'.rows[r].from].CreatorOf(r) {
      if r in s.rows && s.rows[r].from == a.t {
        ThreadKeepsRow(s, a, r);
      }
    }
    forall r, q | r in s'.rows && q in s'.rows && s'.rows[r].event == s'.rows[q].event ensures r == q {
      assert r in s.rows ==> Stored(s.rows, s.rows[r].event);
      assert q in s.rows ==> Stored(s.rows, s.rows[q].event);
    }
  }

  lemma StepKeepsRooted(s: State, a: Step)
    requires Once(s) && Rooted(s) && Enabled(s, a)
    ensures Rooted(Apply(s, a))
  {
    RowsGrow(s, a);
    var s' := Apply(s, a);
    forall t, r | t in s'.threads && s'.threads[t].Has(r) ensures r in s'.rows {
      if t == a.t && t in s.threads {
        ThreadKeepsRow(s, a, r);
      }
    }
    forall t, r | t in s'.threads && s'.threads[t].CreatorOf(r) ensures r in s'.rows && s'.rows[r].from == t {
      if t == a.t && t in s.threads {
        ThreadKeepsRow(s, a, r);
      }
    }
    forall t | t in s'.threads && s'.threads[t].Answered? ensures Stored(s'.rows, s'.threads[t].event) {
      AnswersHold(s, a, t);
    }
  }

  lemma AnswersHold(s: State, a: Step, t: nat)
    requires Once(s) && Rooted(s) && Enabled(s, a)
    requires t in Apply(s, a).threads && Apply(s, a).threads[t].Answered?
    ensures Stored(RowsAfter(s, a), Apply(s, a).threads[t].event)
  {
    var event := Apply(s, a).threads[t].event;
    assert Stored(s.rows, event);
    StepKeepsStored(s, a, event);
  }

  lemma StepKeepsOwed(s: State, a: Step)
    requires Valid(s) && Enabled(s, a)
    ensures Owed(Apply(s, a))
  {
    var s' := Apply(s, a);
    forall r | r in s'.rows && s'.rows[r].status != Processed && r !in s'.unclosed
      ensures exists t :: Debtor(s', t, r) {
      if Debtor(s', a.t, r) {
      } else {
        var t :| Debtor(s, t, r);
        assert Debtor(s', t, r);
      }
    }
  }

  lemma {:induction false} RunKeepsValid(ss: seq<State>, acts: seq<Step>, i: nat)
    requires IsRun(ss, acts) && ss[0] == Empty && i < |ss|
    ensures Valid(ss[i])
  {
    if i > 0 {
      RunKeepsValid(ss, acts, i - 1);
      StepKeepsOnce(ss[i - 1], acts[i - 1]);
      StepKeepsRooted(ss[i - 1], acts[i - 1]);
      StepKeepsOwed(ss[i - 1], acts[i - 1]);
    }
  }

  // ---------------------------------------------------------------- the results

  /** Thread t has launched the rules for an event because it was delivered. */
  predicate LaunchedBy(s: State, t: nat, event: string) {
    t in s.threads && s.threads[t].Working? && !s.threads[t].retry && s.threads[t].row in s.rows
      && s.rows[s.threads[t].row].event == event
  }

  /** However many copies of an event arrive, and however they interleave, it is stored once
      and its rules are launched at most once; whoever is told of a duplicate can rely on it. */
  lemma StoredAndLaunchedOnce(ss: seq<State>, acts: seq<Step>, i: nat, event: string)
    requires IsRun(ss, acts) && ss[0] == Empty && i < |ss|
    ensures forall r, q ::
              r in ss[i].rows && q in ss[i].rows && ss[i].rows[r].event == event && ss[i].rows[q].event == event ==>
                r == q
    ensures forall t, u :: LaunchedBy(ss[i], t, event) && LaunchedBy(ss[i], u, event) ==> t == u
    ensures forall t :: t in ss[i].threads && ss[i].threads[t] == Answered(event) ==> Stored(ss[i].rows, event)
  {
    RunKeepsValid(ss, acts, i);
    var s := ss[i];
    forall t, u | LaunchedBy(s, t, event) && LaunchedBy(s, u, event) ensures t == u {
      assert s.threads[t].CreatorOf(s.threads[t].row) && s.threads[u].CreatorOf(s.threads[u].row);
    }
  }

  predicate Quiet(s: State) {
    forall t :: t in s.threads ==> s.threads[t].Idle()
  }

  /** When nothing is in flight, the rules of every stored event have been launched by a
      delivery, and it is processed unless that mark could not be written. */
  lemma QuietMeansProcessed(ss: seq<State>, acts: seq<Step>, i: nat, row: nat)
    requires IsRun(ss, acts) && ss[0] == Empty && i < |ss| && Quiet(ss[i]) && row in ss[i].rows
    ensures LaunchedBy(ss[i], ss[i].rows[row].from, ss[i].rows[row].event)
    ensures ss[i].rows[row].status.Processed? || row in ss[i].unclosed
  {
    RunKeepsValid(ss, acts, i);
    var s := ss[i];
    assert s.threads[s.rows[row].from].CreatorOf(row) && s.threads[s.rows[row].from].Idle();
    forall t ensures !Debtor(s, t, row) {
      assert t in s.threads ==> s.threads[t].Idle();
    }
  }

  /** A row is unclosed only because of a write that failed. */
  lemma {:induction false} WritesSucceed(ss: seq<State>, acts: seq<Step>, i: nat)
    requires IsRun(ss, acts) && ss[0] == Empty && i < |ss|
    requires forall k :: 0 <= k < |acts| && acts[k].Close? ==> acts[k].ok
    ensures ss[i].unclosed == {}
  {
    if i > 0 {
      WritesSucceed(ss, acts, i - 1);
    }
  }

  /** Every step only ever adds rows. */
  lemma {:induction false} RowsStay(ss: seq<State>, acts: seq<Step>, i: nat, j: nat, row: nat)
    requires IsRun(ss, acts) && ss[0] == Empty && i <= j < |ss| && row in ss[i].rows
    ensures row in ss[j].rows && ss[j].rows[row].event == ss[i].rows[row].event
      && ss[j].rows[row].from == ss[i].rows[row].from
    decreases j - i
  {
    if i < j {
      RowsStay(ss, acts, i, j - 1, row);
      RunKeepsValid(ss, acts, j - 1);
    }
  }

  // ---------------------------------------------------------------- the service

  datatype Answer = Accepted | NotFound | Error

  /** A run of steps of one thread. */
  ghost predicate IsPath(ss: seq<State>, acts: seq<Step>, t: nat) {
    IsRun(ss, acts) && forall k :: 0 <= k < |acts| ==> acts[k].t == t
  }

  lemma PathGrows(ss: seq<State>, acts: seq<Step>, t: nat, a: Step)
    requires IsPath(ss, acts, t) && Enabled(ss[|acts|], a) && a.t == t
    ensures IsPath(ss + [Apply(ss[|acts|], a)], acts + [a], t)
  {
  }

  /** The calls of the service as they run when no other goroutine gets in between. */
  class Service {
    var rows: Rows
    var next: nat

    ghost predicate Mirrors(s: State) reads this { s.rows == rows && s.next == next }

    constructor ()
      ensures Mirrors(Empty)
    {
      rows, next := map[], 0;
    }

    /** A delivery whose signature is valid; finds and inserts say whether the database answers
        them.  It launches a worker exactly when it stores the event. */
    method ReceiveWebhook(event: string, finds: bool, inserts: bool, t: nat, ghost s: State)
      returns (answer: Answer, launched: bool, ghost ss: seq<State>, ghost acts: seq<Step>)
      requires Once(s) && Mirrors(s) && t in s.threads && s.threads[t] == Arrived(event)
      modifies this
      ensures IsPath(ss, acts, t) && ss[0] == s && Mirrors(ss[|acts|]) && t in ss[|acts|].threads
      ensures var known := Stored(old(rows), event);
              && (answer.Accepted? <==> finds && (known || inserts))
              && (launched <==> finds && !known && inserts)
              && rows == (if launched then old(rows)[old(next) := Row(event, Received, t)] else old(rows))
              && ss[|acts|].threads[t] ==
                   (if launched then Working(old(next), Begun, false)
                    else if answer.Accepted? then Answered(event)
                    else Refused)
    {
      ghost var s1 := Apply(s, Lookup(t, finds));
      PathGrows([s], [], t, Lookup(t, finds));
      ss, acts := [s] + [s1], [] + [Lookup(t, finds)];
      if !finds {
        return Error, false, ss, acts;
      }
      if Stored(rows, event) {
        return Accepted, false, ss, acts;
      }
      ghost var s2 := Apply(s1, Insert(t, inserts));
      PathGrows(ss, acts, t, Insert(t, inserts));
      ss, acts := ss + [s2], acts + [Insert(t, inserts)];
      if !inserts {
        next := next + 1;
        return Error, false, ss, acts;
      }
      rows, next := rows[next := Row(event, Received, t)], next + 1;
      PathGrows(ss, acts, t, Launch(t));
      ss, acts := ss + [Apply(s2, Launch(t))], acts + [Launch(t)];
      return Accepted, true, ss, acts;
    }

    /** What the worker does with its row, whatever becomes of the rules. */
    method ApplyRules(row: nat, finds: bool, marks: bool, closes: bool, t: nat, ghost s: State)
        returns (ghost ss: seq<State>, ghost acts: seq<Step>)
      requires Mirrors(s) && At(s, t, Begun) && s.threads[t].row == row
      modifies this
      ensures IsPath(ss, acts, t) && ss[0] == s && Mirrors(ss[|acts|]) && At(ss[|acts|], t, Ended)
      ensures rows == if closes then Marked(old(rows), row, Processed)
                      else if finds && marks then Marked(old(rows), row, Processing)
                      else old(rows)
    {
      ghost var s1 := Apply(s, Find(t, finds));
      PathGrows([s], [], t, Find(t, finds));
      ss, acts := [s] + [s1], [] + [Find(t, finds)];
      if finds && row in rows {
        PathGrows(ss, acts, t, Mark(t, marks));
        s1 := Apply(s1, Mark(t, marks));
        ss, acts := ss + [s1], acts + [Mark(t, marks)];
        if marks {
          rows := Marked(rows, row, Processing);
        }
      }
      PathGrows(ss, acts, t, Work(t));
      s1 := Apply(s1, Work(t));
      ss, acts := ss + [s1], acts + [Work(t)];
      PathGrows(ss, acts, t, Close(t, closes));
      s1 := Apply(s1, Close(t, closes));
      ss, acts := ss + [s1], acts + [Close(t, closes)];
      if closes {
        rows := Marked(rows, row, Processed);
      }
    }

    /** A retry marks an event and launches its rules once more. */
    method RetryEvent(row: nat, finds: bool, marks: bool, t: nat, ghost s: State)
      returns (answer: Answer, ghost ss: seq<State>, ghost acts: seq<Step>)
      requires Mirrors(s) && t in s.threads && s.threads[t] == Asked(row)
      modifies this
      ensures IsPath(ss, acts, t) && ss[0] == s && Mirrors(ss[|acts|]) && t in ss[|acts|].threads
      ensures answer == if !finds then Error else if row in old(rows) then Accepted else NotFound
      ensures rows == if answer.Accepted? && marks then old(rows)[row := old(rows)[row].(status := Processing)]
                      else old(rows)
      ensures ss[|acts|].threads[t] == if answer.Accepted? then Working(row, Begun, true) else Refused
    {
      ghost var s1 := Apply(s, AskFind(t, finds));
      PathGrows([s], [], t, AskFind(t, finds));
      ss, acts := [s] + [s1], [] + [AskFind(t, finds)];
      if !finds {
        return Error, ss, acts;
      }
      if row !in rows {
        return NotFound, ss, acts;
      }
      ghost var s2 := Apply(s1, AskMark(t, marks));
      PathGrows(ss, acts, t, AskMark(t, marks));
      ss, acts := ss + [s2], acts + [AskMark(t, marks)];
      if marks {
        rows := Marked(rows, row, Processing);
      }
      PathGrows(ss, acts, t, Launch(t));
      ss, acts := ss + [Apply(s2, Launch(t))], acts + [Launch(t)];
      return Accepted, ss, acts;
    }
  }
}
