/** Primary and backup over whole runs: what stays in step whatever is asked and whichever
  * messages are lost on the way. */
module Simulation {
  import opened TransactionLog
  import opened Delivery

  // ----- in step but for what is lost ---------------------------------------------------------

  /** In step as far as the transactions outside `lost` go; with nothing lost, in step. */
  ghost predicate InSyncBut(lost: set<Tsn>, p: Node, e: Node) {
    && WellFormed(p.log) && WellFormed(e.log)
    && (lost == {} ==> p.files == e.files)
    && forall t :: t !in lost ==> AgreeOn(t, p, e)
  }

  ghost predicate AgreeOn(t: Tsn, p: Node, e: Node) {
    (t in p.log <==> t in e.log) && (t in p.log ==> SameTxn(p.log[t], e.log[t]))
  }

  lemma InSyncButNothing(p: Node, e: Node)
    ensures InSyncBut({}, p, e) <==> InSync(p, e)
  {
    if InSyncBut({}, p, e) {
      forall t: Tsn ensures t in p.log.Keys <==> t in e.log.Keys { assert AgreeOn(t, p, e); }
      assert p.log.Keys == e.log.Keys;
      forall t | t in p.log ensures SameTxn(p.log[t], e.log[t]) { assert AgreeOn(t, p, e); }
    }
    if InSync(p, e) {
      forall t: Tsn ensures AgreeOn(t, p, e) {
        assert t in p.log.Keys <==> t in e.log.Keys;
      }
    }
  }

  /** The server as far as t goes. */
  ghost function Only(nd: Node, t: Tsn): Node {
    Node(if t in nd.log then map[t := nd.log[t]] else map[], map[])
  }

  lemma AgreeMeansInSync(t: Tsn, p: Node, e: Node)
    requires WellFormed(p.log) && WellFormed(e.log)
    ensures AgreeOn(t, p, e) <==> InSync(Only(p, t), Only(e, t))
  {
    var p1, e1 := Only(p, t), Only(e, t);
    assert t in p1.log.Keys <==> t in p.log;
    assert t in e1.log.Keys <==> t in e.log;
    if AgreeOn(t, p, e) { assert p1.log.Keys == e1.log.Keys; }
  }

  /** What a request does to its transaction depends on that transaction alone. */
  lemma ExecOwn(role: Role, disk: bool, nd: Node, m: Msg)
    ensures Only(Exec(role, disk, nd, m).0, m.t) == Only(Exec(role, disk, Only(nd, m.t), m).0, m.t)
    ensures Exec(role, disk, nd, m).1 == Exec(role, disk, Only(nd, m.t), m).1
  {
    match m
    case Make(t, name) =>
    case Write(t, k, data) => WriteOwn(role, disk, nd, t, k, data);
    case Commit(t, n) => CommitOwn(role, disk, nd, t, n);
    case Abort(t) =>
  }

  lemma CommitOwn(role: Role, disk: bool, nd: Node, t: Tsn, n: int)
    ensures Only(CommitTxn(role, disk, nd, t, n).0, t) == Only(CommitTxn(role, disk, Only(nd, t), t, n).0, t)
    ensures CommitTxn(role, disk, nd, t, n).1 == CommitTxn(role, disk, Only(nd, t), t, n).1
  {
  }

  lemma WriteOwn(role: Role, disk: bool, nd: Node, t: Tsn, k: int, data: string)
    ensures Only(AddEntry(role, disk, nd, t, k, data).0, t) == Only(AddEntry(role, disk, Only(nd, t), t, k, data).0, t)
    ensures AddEntry(role, disk, nd, t, k, data).1 == AddEntry(role, disk, Only(nd, t), t, k, data).1
  {
    if t in nd.log {
      var y := nd.log[t].(writes := nd.log[t].writes[k := data]);
      var nd1 := nd.(log := nd.log[t := y]);
      assert Only(nd1, t) == Only(nd, t).(log := Only(nd, t).log[t := y]);
      CommitOwn(role, disk, nd1, t, y.num);
    }
  }

  lemma OnlyTwice(nd: Node, t: Tsn)
    ensures Only(Only(nd, t), t) == Only(nd, t)
    ensures WellFormed(nd.log) ==> WellFormed(Only(nd, t).log)
  {
  }

  lemma AgreeByOnly(t: Tsn, p: Node, e: Node, p1: Node, e1: Node)
    requires Only(p, t) == Only(p1, t) && Only(e, t) == Only(e1, t)
    ensures AgreeOn(t, p, e) <==> AgreeOn(t, p1, e1)
  {
    assert t in Only(p, t).log <==> t in Only(p1, t).log;
    assert t in Only(e, t).log <==> t in Only(e1, t).log;
  }

  lemma InSyncAgrees(t: Tsn, p: Node, e: Node)
    requires InSync(p, e)
    ensures AgreeOn(t, p, e)
  {
    assert t in p.log.Keys <==> t in e.log.Keys;
  }

  lemma DeliverOwn(m: Msg, nd: Node)
    ensures Only(Deliver(m, nd), m.t) == Only(Deliver(m, Only(nd, m.t)), m.t)
    ensures UnchangedBut(nd, Deliver(m, nd), m.t)
  {
    ExecOwn(Backup, true, nd, m);
    ExecFrame(Backup, true, nd, m);
    OnlyTwice(nd, m.t);
  }

  ghost predicate AllOf(ms: seq<Msg>, t: Tsn) {
    forall m :: m in ms ==> m.t == t
  }

  lemma {:induction false} DeliverAllOwn(ms: seq<Msg>, nd: Node, t: Tsn)
    requires AllOf(ms, t)
    ensures Only(DeliverAll(ms, nd), t) == Only(DeliverAll(ms, Only(nd, t)), t)
    ensures UnchangedBut(nd, DeliverAll(ms, nd), t)
    decreases |ms|
  {
    if ms == [] {
      OnlyTwice(nd, t);
    } else {
      assert ms[0] in ms;
      var nd1, nd2 := Deliver(ms[0], nd), Deliver(ms[0], Only(nd, t));
      DeliverOwn(ms[0], nd);
      DeliverAllOwn(ms[1..], nd1, t);
      DeliverAllOwn(ms[1..], nd2, t);
    }
  }

  lemma FinishOwn(nd: Node, t: Tsn)
    requires t in nd.log && Filled(nd.log[t].writes, nd.log[t].num)
    ensures t in Only(nd, t).log && Only(FinishCommit(nd, t), t) == Only(FinishCommit(Only(nd, t), t), t)
    ensures UnchangedBut(nd, FinishCommit(nd, t), t)
  {
  }

  lemma StepOwn(nd: Node, m: Msg)
    requires WellFormed(nd.log)
    ensures WellFormed(Only(nd, m.t).log)
    ensures var e := Op(m, true, true);
      && Only(Step(Primary, nd, e), m.t) == Only(Step(Primary, Only(nd, m.t), e), m.t)
      && UnchangedBut(nd, Step(Primary, nd, e), m.t)
  {
    var own := Only(nd, m.t);
    OnlyTwice(nd, m.t);
    ExecOwn(Primary, true, nd, m);
    ExecFrame(Primary, true, nd, m);
    if Exec(Primary, true, nd, m).1 == Committing {
      var nd1, own1 := Exec(Primary, true, nd, m).0, Exec(Primary, true, own, m).0;
      CommittingIsFilled(Primary, true, nd, m);
      CommittingIsFilled(Primary, true, own, m);
      FinishOwn(nd1, m.t);
      FinishOwn(own1, m.t);
    }
  }

  lemma ForwardedOwn(m: Msg, p: Node)
    ensures Forwarded(m, Only(p, m.t)) == Forwarded(m, p) && AllOf(Forwarded(m, p), m.t)
  {
    ExecOwn(Primary, true, p, m);
    var p1, own1 := Exec(Primary, true, p, m).0, Exec(Primary, true, Only(p, m.t), m).0;
    assert m.t in Only(p1, m.t).log <==> m.t in Only(own1, m.t).log;
    assert m.t in p1.log ==> Only(p1, m.t).log[m.t] == Only(own1, m.t).log[m.t];
  }

  /** Whether replication loses m when the primary serves it at p: it is forwarded, but its
    * payload is too short to arrive. */
  ghost predicate LosesMessage(m: Msg, p: Node) {
    Short(m) && Forwarded(m, p) != []
  }

  lemma ForwardingAgrees(m: Msg, p: Node, e: Node)
    requires WellFormed(p.log) && WellFormed(e.log) && AgreeOn(m.t, p, e) && !LosesMessage(m, p)
    ensures AgreeOn(m.t, Step(Primary, p, Op(m, true, true)), DeliverAll(Forwarded(m, p), e))
  {
    var t, op, fs := m.t, Op(m, true, true), Forwarded(m, p);
    var p1, e1 := Only(p, t), Only(e, t);
    AgreeMeansInSync(t, p, e);
    StepOwn(p, m);
    ForwardedOwn(m, p);
    DeliverAllOwn(fs, e, t);
    ForwardingKeepsSync(m, p1, e1);
    InSyncAgrees(t, Step(Primary, p1, op), DeliverAll(fs, e1));
    AgreeByOnly(t, Step(Primary, p, op), DeliverAll(fs, e), Step(Primary, p1, op), DeliverAll(fs, e1));
  }

  /** The transactions replication loses track of by serving m. */
  ghost function LostWith(lost: set<Tsn>, m: Msg, p: Node): set<Tsn> {
    if LosesMessage(m, p) then lost + {m.t} else lost
  }

  lemma InSyncButAgain(lost: set<Tsn>, p: Node, e: Node, p1: Node, e1: Node, t: Tsn)
    requires InSyncBut(lost, p, e) && UnchangedBut(p, p1, t) && UnchangedBut(e, e1, t)
    requires WellFormed(p1.log) && WellFormed(e1.log)
    requires t !in lost ==> AgreeOn(t, p1, e1)
    requires lost == {} ==> p1.files == e1.files
    ensures InSyncBut(lost, p1, e1)
  {
    forall t' | t' !in lost ensures AgreeOn(t', p1, e1) {
      if t' != t { assert AgreeOn(t', p, e); }
    }
  }

  lemma InSyncButMore(lost: set<Tsn>, more: set<Tsn>, p: Node, e: Node)
    requires InSyncBut(lost, p, e) && lost <= more && (more == {} ==> lost == {})
    ensures InSyncBut(more, p, e)
  {
  }

  /** Serving any request and delivering what it forwards keeps every transaction in step
    * that no lost message has named. */
  lemma ForwardingKeepsOthers(lost: set<Tsn>, m: Msg, p: Node, e: Node)
    requires InSyncBut(lost, p, e)
    ensures InSyncBut(LostWith(lost, m, p), Step(Primary, p, Op(m, true, true)), DeliverAll(Forwarded(m, p), e))
  {
    var lost' := LostWith(lost, m, p);
    if lost' == {} {
      InSyncButNothing(p, e);
      ForwardingKeepsSync(m, p, e);
      InSyncButNothing(Step(Primary, p, Op(m, true, true)), DeliverAll(Forwarded(m, p), e));
    } else {
      StepOwn(p, m);
      StepWellFormed(Primary, p, Op(m, true, true));
      ForwardedOwn(m, p);
      DeliverAllOwn(Forwarded(m, p), e, m.t);
      DeliverAllWellFormed(Forwarded(m, p), e);
      InSyncButMore(lost, lost', p, e);
      if m.t !in lost' { ForwardingAgrees(m, p, e); }
      InSyncButAgain(lost', p, e,
        Step(Primary, p, Op(m, true, true)), DeliverAll(Forwarded(m, p), e), m.t);
    }
  }

  /** What has been forwarded when m has been executed and, if it was accepted or completes
    * a commit, queued. */
  function Queued(m: Msg, out: Outcome): seq<Msg> {
    if out == Accepted || (out == Committing && m.Write?) then [m] else []
  }

  /** A transaction is created once. */
  ghost predicate CreatesOnce(m: Msg, p: Node) {
    m.Make? ==> m.t !in p.log
  }

  lemma QueuedIsForwarded(m: Msg, p: Node)
    requires WellFormed(p.log) && CreatesOnce(m, p)
    ensures var (p1, out) := Exec(Primary, true, p, m);
      && (out == Committing ==> m.t in p1.log)
      && Forwarded(m, p) == Queued(m, out) + (if out == Committing then [Commit(m.t, p1.log[m.t].num)] else [])
      && (LosesMessage(m, p) <==> Short(m) && Queued(m, out) != [])
  {
    if Exec(Primary, true, p, m).1 == Committing { CommittingIsFilled(Primary, true, p, m); }
  }

  lemma ExecInSync(m: Msg, p: Node, e: Node)
    requires InSync(p, e) && !LosesMessage(m, p) && CreatesOnce(m, p)
    ensures var (p1, out) := Exec(Primary, true, p, m);
      InSync(p1, DeliverAll(Queued(m, out), e))
  {
    var (p1, out) := Exec(Primary, true, p, m);
    QueuedIsForwarded(m, p);
    DeliverOneMore([], m, e);
    assert [] + [m] == [m];
    if !Short(m) {
      AcceptedInSync(m, p, e);
    } else {
      assert p1 == p;
    }
  }

  /** Executing a request and queuing it keeps the other transactions in step. */
  lemma ExecKeepsOthers(lost: set<Tsn>, m: Msg, p: Node, e: Node)
    requires InSyncBut(lost, p, e) && CreatesOnce(m, p)
    ensures var (p1, out) := Exec(Primary, true, p, m);
      InSyncBut(LostWith(lost, m, p), p1, DeliverAll(Queued(m, out), e))
  {
    var (p1, out) := Exec(Primary, true, p, m);
    var lost', ms := LostWith(lost, m, p), Queued(m, out);
    var e1 := DeliverAll(ms, e);
    if lost' == {} {
      InSyncButNothing(p, e);
      ExecInSync(m, p, e);
      InSyncButNothing(p1, e1);
    } else {
      ExecFrame(Primary, true, p, m);
      ExecWellFormed(Primary, true, p, m);
      DeliverAllOwn(ms, e, m.t);
      DeliverAllWellFormed(ms, e);
      InSyncButMore(lost, lost', p, e);
      if m.t !in lost' { ExecAgrees(m, p, e); }
      InSyncButAgain(lost', p, e, p1, e1, m.t);
    }
  }

  lemma ExecAgrees(m: Msg, p: Node, e: Node)
    requires WellFormed(p.log) && WellFormed(e.log) && AgreeOn(m.t, p, e)
    requires !LosesMessage(m, p) && CreatesOnce(m, p)
    ensures var (p1, out) := Exec(Primary, true, p, m);
      AgreeOn(m.t, p1, DeliverAll(Queued(m, out), e))
  {
    var t, p0, e0 := m.t, Only(p, m.t), Only(e, m.t);
    var (p1, out) := Exec(Primary, true, p, m);
    var ms := Queued(m, out);
    AgreeMeansInSync(t, p, e);
    ExecOwn(Primary, true, p, m);
    ForwardedOwn(m, p);
    DeliverAllOwn(ms, e, t);
    ExecInSync(m, p0, e0);
    var p2 := Exec(Primary, true, p0, m).0;
    InSyncAgrees(t, p2, DeliverAll(ms, e0));
    AgreeByOnly(t, p1, DeliverAll(ms, e), p2, DeliverAll(ms, e0));
  }

  lemma FinishAgrees(t: Tsn, p: Node, e: Node)
    requires WellFormed(p.log) && WellFormed(e.log) && AgreeOn(t, p, e)
    requires t in p.log && p.log[t].status == Writing
    ensures AgreeOn(t, FinishCommit(p, t), Deliver(Commit(t, p.log[t].num), e))
  {
    var c, p0, e0 := Commit(t, p.log[t].num), Only(p, t), Only(e, t);
    AgreeMeansInSync(t, p, e);
    FinishOwn(p, t);
    DeliverOwn(c, e);
    FinishInSync(p0, e0, t);
    InSyncAgrees(t, FinishCommit(p0, t), Deliver(c, e0));
    AgreeByOnly(t, FinishCommit(p, t), Deliver(c, e), FinishCommit(p0, t), Deliver(c, e0));
  }

  /** So do the backup's commit and then the primary's. */
  lemma FinishKeepsOthers(lost: set<Tsn>, t: Tsn, p: Node, e: Node)
    requires InSyncBut(lost, p, e) && t in p.log && p.log[t].status == Writing
    ensures InSyncBut(lost, FinishCommit(p, t), Deliver(Commit(t, p.log[t].num), e))
  {
    var c := Commit(t, p.log[t].num);
    if lost == {} {
      InSyncButNothing(p, e);
      FinishInSync(p, e, t);
      InSyncButNothing(FinishCommit(p, t), Deliver(c, e));
    } else {
      FinishOwn(p, t);
      DeliverOwn(c, e);
      DeliverWellFormed(c, e);
      FinishedWellFormed(p, t);
      if t !in lost {
        assert AgreeOn(t, p, e);
        FinishAgrees(t, p, e);
      }
      InSyncButAgain(lost, p, e, FinishCommit(p, t), Deliver(c, e), t);
    }
  }

  lemma FinishedWellFormed(p: Node, t: Tsn)
    requires WellFormed(p.log) && t in p.log && p.log[t].status == Writing
    ensures WellFormed(FinishCommit(p, t).log)
  {
    assert WellFormedTxn(p.log[t]);
  }

  /** An accepted abort removes the transaction from both servers. */
  lemma AbortReachesBackup(lost: set<Tsn>, p: Node, e: Node, t: Tsn)
    requires InSyncBut(lost, p, e) && t !in lost
    requires t in p.log && p.log[t].status !in {Committed, Expired}
    ensures var op := Op(Abort(t), true, true);
      t !in Step(Primary, p, op).log && t !in DeliverAll(Forwarded(Abort(t), p), e).log
  {
    assert AgreeOn(t, p, e);
    DeliverForwarded(Abort(t), p, e);
  }

  /** A new transaction is opened under the same name on both, if the name can arrive. */
  lemma MakeReachesBackup(lost: set<Tsn>, p: Node, e: Node, t: Tsn, name: string)
    requires InSyncBut(lost, p, e) && t !in lost && t !in p.log && |name| >= 2
    ensures var m := Make(t, name);
      var (p', e') := (Step(Primary, p, Op(m, true, true)), DeliverAll(Forwarded(m, p), e));
      && t in p'.log && p'.log[t] == Txn(Active, 0, Fresh, name, map[])
      && t in e'.log && e'.log[t] == Txn(Active, 0, Fresh, name, map[])
  {
    assert AgreeOn(t, p, e);
    DeliverForwarded(Make(t, name), p, e);
  }

  // ----- whole runs --------------------------------------------------------------------

  ghost function ServedAll(ms: seq<Msg>, p: Node): Node
    requires WellFormed(p.log)
    decreases |ms|
  {
    if ms == [] then p
    else
      StepWellFormed(Primary, p, Op(ms[0], true, true));
      ServedAll(ms[1..], Step(Primary, p, Op(ms[0], true, true)))
  }

  ghost function ForwardedAll(ms: seq<Msg>, p: Node): seq<Msg>
    requires WellFormed(p.log)
    decreases |ms|
  {
    if ms == [] then []
    else
      StepWellFormed(Primary, p, Op(ms[0], true, true));
      Forwarded(ms[0], p) + ForwardedAll(ms[1..], Step(Primary, p, Op(ms[0], true, true)))
  }

  /** The transactions that lost messages have named by the end of the run. */
  ghost function LostAll(lost: set<Tsn>, ms: seq<Msg>, p: Node): set<Tsn>
    requires WellFormed(p.log)
    decreases |ms|
  {
    if ms == [] then lost
    else
      StepWellFormed(Primary, p, Op(ms[0], true, true));
      LostAll(LostWith(lost, ms[0], p), ms[1..], Step(Primary, p, Op(ms[0], true, true)))
  }

  lemma {:induction false} ForwardingAllKeepsOthers(lost: set<Tsn>, ms: seq<Msg>, p: Node, e: Node)
    requires InSyncBut(lost, p, e)
    ensures InSyncBut(LostAll(lost, ms, p), ServedAll(ms, p), DeliverAll(ForwardedAll(ms, p), e))
    decreases |ms|
  {
    if ms != [] {
      ForwardingKeepsOthers(lost, ms[0], p, e);
      var p1 := Step(Primary, p, Op(ms[0], true, true));
      ForwardingAllKeepsOthers(LostWith(lost, ms[0], p), ms[1..], p1, DeliverAll(Forwarded(ms[0], p), e));
      DeliverConcat(Forwarded(ms[0], p), ForwardedAll(ms[1..], p1), e);
    }
  }

  /** Simulation with losses: the primary serves any requests, and what it forwards is queued
    * and drained at any times with any messages lost before or after processing. What is
    * then on the backup, followed by what is still queued, agrees with the primary on every
    * transaction but those named by messages too short to arrive; if there were none of
    * these, the servers are in step. */
  lemma SimulationWithLosses(ms: seq<Msg>, p: Node, b: Node, es: seq<LinkEvent>)
    requires InSync(p, b) && Enqueued(es) == ForwardedAll(ms, p)
    ensures var (queue, b') := LinkRun(es, [], b);
      && InSyncBut(LostAll({}, ms, p), ServedAll(ms, p), DeliverAll(queue, b'))
      && (LostAll({}, ms, p) == {} ==> InSync(ServedAll(ms, p), DeliverAll(queue, b')))
  {
    InSyncButNothing(p, b);
    ForwardingAllKeepsOthers({}, ms, p, b);
    ExactlyOnceEffect(es, [], b);
    assert [] + Enqueued(es) == Enqueued(es);
    var (queue, b') := LinkRun(es, [], b);
    InSyncButNothing(ServedAll(ms, p), DeliverAll(queue, b'));
  }
}
