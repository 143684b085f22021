/** How long a transaction lives without being committed, over whole runs. */
module Expiry {
  import opened TransactionLog
  import opened LogProperties

  function Ticks(es: seq<Event>): nat {
    if es == [] then 0 else (if es[0] == Tick then 1 else 0) + Ticks(es[1..])
  }

  ghost predicate NoRequestFor(es: seq<Event>, t: Tsn) {
    forall e :: e in es ==> e == Tick || e.m.t != t
  }

  function Stage(s: Status): nat
    requires s in {Active, Flag, Expired}
  {
    if s == Active then 0 else if s == Flag then 1 else 2
  }

  function StatusAt(stage: nat): Status
    requires stage < 3
  {
    if stage == 0 then Active else if stage == 1 then Flag else Expired
  }

  /** Requests for other transactions do not touch this one. */
  lemma StepElsewhere(role: Role, nd: Node, e: Event, t: Tsn)
    requires WellFormed(nd.log) && e.Op? && e.m.t != t
    ensures t in Step(role, nd, e).log <==> t in nd.log
    ensures t in nd.log ==> Step(role, nd, e).log[t] == nd.log[t]
  {
    ExecFrame(role, e.disk, nd, e.m);
    if Exec(role, e.disk, nd, e.m).1 == Committing { CommittingIsFilled(role, e.disk, nd, e.m); }
  }

  /** One pass moves an uncommitted transaction one stage on, and removes it at the last. */
  lemma OnePass(log: map<Tsn, Txn>, t: Tsn)
    requires t >= 0 && t in log && log[t].status in {Active, Flag, Expired}
    ensures if log[t].status == Expired then t !in Timeouts(log)
      else t in Timeouts(log) && Timeouts(log)[t] == log[t].(status := StatusAt(Stage(log[t].status) + 1))
  {
  }

  lemma NotRevived(log: map<Tsn, Txn>, t: Tsn)
    requires t !in log
    ensures t !in Timeouts(log)
  {
  }

  /** t after it has aged by `passes` stages with no request for it. */
  ghost predicate Idled(log: map<Tsn, Txn>, t: Tsn, passes: nat, log': map<Tsn, Txn>)
    requires t in log ==> log[t].status in {Active, Flag, Expired}
  {
    if t !in log || Stage(log[t].status) + passes >= 3 then t !in log'
    else t in log' && log'[t] == log[t].(status := StatusAt(Stage(log[t].status) + passes))
  }

  lemma IdleStep(role: Role, nd: Node, e: Event, t: Tsn)
    requires WellFormed(nd.log) && t >= 0 && (e.Op? ==> e.m.t != t)
    requires t in nd.log ==> nd.log[t].status in {Active, Flag, Expired}
    ensures Idled(nd.log, t, if e == Tick then 1 else 0, Step(role, nd, e).log)
  {
    if e.Op? {
      StepElsewhere(role, nd, e, t);
    } else if t in nd.log {
      OnePass(nd.log, t);
    } else {
      NotRevived(nd.log, t);
    }
  }

  /** A transaction nobody asks for goes ACTIVE, FLAG, EXPIRED and is removed, one
    * step each pass: from ACTIVE it is gone after exactly three passes. */
  lemma {:induction false} IdleLifecycle(role: Role, nd: Node, es: seq<Event>, t: Tsn)
    requires WellFormed(nd.log) && NoRequestFor(es, t) && t >= 0
    requires t in nd.log ==> nd.log[t].status in {Active, Flag, Expired}
    ensures Idled(nd.log, t, Ticks(es), Run(role, nd, es).log)
    decreases |es|
  {
    if es != [] {
      assert es[0] in es;
      var nd' := Step(role, nd, es[0]);
      StepWellFormed(role, nd, es[0]);
      IdleStep(role, nd, es[0], t);
      IdleLifecycle(role, nd', es[1..], t);
    }
  }

  /** An accepted write restarts the count of an ACTIVE or FLAG transaction. */
  lemma WriteRestartsTheCount(role: Role, nd: Node, es: seq<Event>, t: Tsn, k: int, data: string)
    requires WellFormed(nd.log) && NoRequestFor(es, t) && t >= 0
    requires t in nd.log && nd.log[t].status in {Active, Flag} && k >= 1 && k !in nd.log[t].writes
    ensures var r := Run(role, nd, [Op(Write(t, k, data), true, true)] + es);
      && (t in r.log <==> Ticks(es) < 3)
      && (t in r.log ==> r.log[t].status == StatusAt(Ticks(es)) && r.log[t].writes == nd.log[t].writes[k := data])
  {
    var e := Op(Write(t, k, data), true, true);
    StepWellFormed(role, nd, e);
    IdleWrite(role, nd, t, k, data);
    assert ([e] + es)[1..] == es;
    IdleLifecycle(role, Step(role, nd, e), es, t);
  }

  lemma IdleWrite(role: Role, nd: Node, t: Tsn, k: int, data: string)
    requires WellFormed(nd.log) && t in nd.log && nd.log[t].status in {Active, Flag}
    requires k >= 1 && k !in nd.log[t].writes
    ensures var r := Step(role, nd, Op(Write(t, k, data), true, true));
      t in r.log && r.log[t] == nd.log[t].(status := Active, writes := nd.log[t].writes[k := data])
  {
  }

  ghost predicate IsWaiting(nd: Node, t: Tsn) {
    t in nd.log && nd.log[t].status == Waiting
  }

  function ZStage(z: ZStatus): nat {
    if z == Fresh then 0 else if z == ZFlag then 1 else 2
  }

  /** One step from WAITING leaves the transaction WAITING with its count of passes, or its
    * own write or commit starts the commit at the pending number, or it is removed: by its
    * own abort, or by the pass that finds it at the last stage. */
  lemma WaitingStep(role: Role, nd: Node, e: Event, t: Tsn)
    requires WellFormed(nd.log) && t >= 0 && IsWaiting(nd, t)
    ensures if IsWaiting(Step(role, nd, e), t)
      then ZStage(Step(role, nd, e).log[t].z) == ZStage(nd.log[t].z) + (if e == Tick then 1 else 0)
      else LeavesWaiting(role, nd, e, t)
    ensures e == Tick ==> (t in Step(role, nd, e).log <==> nd.log[t].z != ZExpired)
  {
    if e.Op? {
      if e.m.t != t {
        StepElsewhere(role, nd, e, t);
      } else if e.m.Write? {
        WaitingWrite(role, e.disk, nd, t, e.m.k, e.m.data);
      }
    }
  }

  /** The ways out of WAITING. */
  ghost predicate LeavesWaiting(role: Role, nd: Node, e: Event, t: Tsn)
    requires WellFormed(nd.log) && t in nd.log
  {
    var nd' := Step(role, nd, e);
    if t !in nd'.log then (if e.Tick? then nd.log[t].z == ZExpired else e.m == Abort(t))
    else
      && e.Op? && e.m.t == t && (e.m.Write? || e.m.Commit?)
      && nd'.log[t].status in {Writing, Committed} && nd'.log[t].num == nd.log[t].num
  }

  ghost predicate WaitingThroughout(role: Role, nd: Node, es: seq<Event>, t: Tsn)
    requires WellFormed(nd.log)
    decreases |es|
  {
    && IsWaiting(nd, t)
    && if es == [] then true
       else
         StepWellFormed(role, nd, es[0]);
         WaitingThroughout(role, Step(role, nd, es[0]), es[1..], t)
  }

  /** A transaction that has been WAITING through es has aged one stage each pass, whatever
    * requests arrived. So the next pass removes it exactly if it is the third from Fresh. */
  lemma {:induction false} WaitingAges(role: Role, nd: Node, es: seq<Event>, t: Tsn)
    requires WellFormed(nd.log) && t >= 0 && WaitingThroughout(role, nd, es, t)
    ensures var r := Run(role, nd, es);
      && IsWaiting(r, t)
      && ZStage(r.log[t].z) == ZStage(nd.log[t].z) + Ticks(es)
      && (t !in Timeouts(r.log) <==> ZStage(nd.log[t].z) + Ticks(es) == 2)
    decreases |es|
  {
    if es != [] {
      StepWellFormed(role, nd, es[0]);
      WaitingStep(role, nd, es[0], t);
      WaitingAges(role, Step(role, nd, es[0]), es[1..], t);
    }
  }

  /** Whatever requests arrive meanwhile, a transaction does not stay WAITING through three
    * passes. There is a first event at which it leaves: the third pass, which removes it,
    * or before that its abort or the start of its commit at the pending number. */
  lemma {:induction false} WaitingEndsWithinThreePasses(role: Role, nd: Node, es: seq<Event>, t: Tsn)
    requires WellFormed(nd.log) && t >= 0 && IsWaiting(nd, t) && ZStage(nd.log[t].z) + Ticks(es) >= 3
    ensures exists i :: 0 <= i < |es| && FirstExit(role, nd, es, i, t)
    decreases |es|
  {
    var nd' := Step(role, nd, es[0]);
    StepWellFormed(role, nd, es[0]);
    WaitingStep(role, nd, es[0], t);
    if IsWaiting(nd', t) {
      WaitingEndsWithinThreePasses(role, nd', es[1..], t);
      var i :| 0 <= i < |es[1..]| && FirstExit(role, nd', es[1..], i, t);
      assert es[..i + 1][1..] == es[1..][..i] && es[..i + 1][0] == es[0];
      assert FirstExit(role, nd, es, i + 1, t);
    } else {
      assert es[..0] == [];
      assert FirstExit(role, nd, es, 0, t);
    }
  }

  /** t stays WAITING before es[i] and leaves at it, having seen at most two passes. */
  ghost predicate FirstExit(role: Role, nd: Node, es: seq<Event>, i: nat, t: Tsn)
    requires WellFormed(nd.log) && i < |es|
  {
    RunWellFormed(role, nd, es[..i]);
    var r := Run(role, nd, es[..i]);
    && WaitingThroughout(role, nd, es[..i], t)
    && t in r.log && LeavesWaiting(role, r, es[i], t) && !IsWaiting(Step(role, r, es[i]), t)
    && ZStage(nd.log[t].z) + Ticks(es[..i]) <= 2
    && (es[i] == Tick ==> t !in Step(role, r, es[i]).log && ZStage(nd.log[t].z) + Ticks(es[..i]) == 2)
  }
}
