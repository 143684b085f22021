/** What holds between any two handlers of a primary with a backup: which transactions are in
  * step once the queue is delivered, and that no commit of the primary is neither on the
  * backup nor on its way. */
module Lockstep {
  import opened TransactionLog
  import opened LogProperties
  import opened Delivery
  import opened CatchUp
  import opened Echoes
  import opened Simulation
  import opened Replication

  ghost predicate NoneWriting(p: Node) {
    forall t :: t in p.log ==> p.log[t].status != Writing
  }

  /** No message about a transaction whose commit is decided has been lost. */
  ghost predicate Intact(p: Node, lost: set<Tsn>) {
    forall t :: Decided(p, t) ==> t !in lost
  }

  /** Every commit on the primary is on the backup or its COMMIT is still queued. */
  ghost predicate BackupFirst(p: Node, q: seq<Msg>, b: Node) {
    forall t :: IsCommitted(p.log, t) ==> CommittedAt(b, t, p.log[t].num) || Commit(t, p.log[t].num) in q
  }

  /** What holds of primary p, queue q and backup b between any two handlers, when messages
    * about the transactions of `lost` were too short to arrive. */
  ghost predicate Running(p: Node, q: seq<Msg>, b: Node, lost: set<Tsn>) {
    && WellFormed(b.log) && NoneWriting(p)
    && InSyncBut(lost, p, DeliverAll(q, b))
    && BackupFirst(p, q, b)
    && (Intact(p, lost) ==> Steady(q, b))
  }

  /** A backup in step follows, and nothing it may be asked for can be stuck. */
  lemma SyncFollows(lost: set<Tsn>, p: Node, e: Node)
    requires InSyncBut(lost, p, e) && NoneWaiting(e) && Intact(p, lost)
    ensures Following(p, e) && Resendable(p, e)
    ensures forall t :: Decided(p, t) ==> Repairable(p, e, t)
  {
    forall t | Decided(p, t)
      ensures t in e.log && FollowingTxn(p.log[t], e.log[t])
      ensures Repairable(p, e, t)
    {
      assert AgreeOn(t, p, e);
      CanCommitIffNoHole(p.log[t].writes, p.log[t].num);
    }
  }

  lemma NoneRefused(lost: set<Tsn>, p: Node, e: Node)
    requires InSyncBut(lost, p, e) && Intact(p, lost)
    ensures !SomeRefused(p, e)
  {
    forall t | IsCommitted(p.log, t) ensures !RefusedAt(e, t, p.log[t].num) {
      assert Decided(p, t) && AgreeOn(t, p, e);
    }
  }

  lemma {:induction false} SteadyEndsQuiet(q: seq<Msg>, b: Node)
    requires Steady(q, b)
    ensures NoneWaiting(DeliverAll(q, b))
  {
    if q != [] {
      SteadyEndsQuiet(q[1..], Deliver(q[0], b));
    }
  }

  lemma SteadyBackupFirst(lost: set<Tsn>, p: Node, q: seq<Msg>, b: Node)
    requires WellFormed(b.log) && InSyncBut(lost, p, DeliverAll(q, b)) && Intact(p, lost) && Steady(q, b)
    ensures BackupFirst(p, q, b)
  {
    forall t | IsCommitted(p.log, t)
      ensures CommittedAt(b, t, p.log[t].num) || Commit(t, p.log[t].num) in q
    {
      assert Decided(p, t) && AgreeOn(t, p, DeliverAll(q, b));
      CommittedOrQueued(q, b, t, p.log[t].num);
    }
  }

  /** The converse: what the backup has committed the primary has, at the same number. So
    * the primary acknowledges every commit that its backup checks. */
  lemma NoCommitAhead(p: Node, q: seq<Msg>, b: Node, lost: set<Tsn>, t: Tsn)
    requires Running(p, q, b, lost) && t !in lost && IsCommitted(b.log, t)
    ensures CommittedAt(p, t, b.log[t].num)
    ensures Exec(Primary, true, p, Commit(t, b.log[t].num)) == (p, AlreadyCommitted)
  {
    DeliverAllKeepsCommits(q, b);
    assert AgreeOn(t, p, DeliverAll(q, b));
  }

  // ----- executing and queuing a request ------------------------------------------------

  lemma QueuedNeverWaits(m: Msg, e: Node)
    requires NoneWaiting(e) && !m.Commit?
    ensures NoneWaiting(Deliver(m, e))
  {
    ExecFrame(Backup, true, e, m);
  }

  /** The servers when m has been executed on the log and queued. */
  ghost predicate Executed(
    m: Msg, p: Node, q: seq<Msg>, b: Node, lost: set<Tsn>, out: Outcome, p1: Node, q1: seq<Msg>)
  {
    && (p1, out) == Exec(Primary, true, p, m)
    && q1 == q + Queued(m, out)
    && InSyncBut(LostWith(lost, m, p), p1, DeliverAll(q1, b))
    && (Steady(q, b) ==> Steady(q1, b))
  }

  lemma ExecutedOnBoth(m: Msg, p: Node, q: seq<Msg>, b: Node, lost: set<Tsn>)
    requires Running(p, q, b, lost) && CreatesOnce(m, p)
    ensures var (p1, out) := Exec(Primary, true, p, m);
      Executed(m, p, q, b, lost, out, p1, q + Queued(m, out))
  {
    var out := Exec(Primary, true, p, m).1;
    ExecKeepsOthers(lost, m, p, DeliverAll(q, b));
    DeliverConcat(q, Queued(m, out), b);
    if Steady(q, b) {
      if Queued(m, out) == [] {
        assert q + [] == q;
      } else {
        SteadyEndsQuiet(q, b);
        NoCommitAccepted(m, p);
        QueuedNeverWaits(m, DeliverAll(q, b));
        DeliverOneMore(q, m, b);
        SteadyPush(q, m, b);
      }
    }
  }

  lemma NoCommitAccepted(m: Msg, p: Node)
    requires Queued(m, Exec(Primary, true, p, m).1) != []
    ensures !m.Commit?
  {
  }

  lemma ExecOnPrimary(m: Msg, p: Node)
    requires WellFormed(p.log) && NoneWriting(p)
    ensures var (p1, out) := Exec(Primary, true, p, m);
      && WellFormed(p1.log)
      && (out != Committing ==> NoneWriting(p1))
      && (out == Committing ==> Decided(p1, m.t) && p1.log[m.t].status == Writing && OnlyPending(p1, m.t))
  {
    ExecWellFormed(Primary, true, p, m);
    ExecFrame(Primary, true, p, m);
    OwnExec(m, p);
  }

  lemma OwnExec(m: Msg, p: Node)
    requires WellFormed(p.log) && NoneWriting(p)
    ensures var (p1, out) := Exec(Primary, true, p, m);
      m.t in p1.log && p1.log[m.t].status == Writing <==> out == Committing
  {
  }

  ghost predicate CommitsIntact(lost: set<Tsn>, m: Msg, p: Node) {
    var (p1, out) := Exec(Primary, true, p, m);
    out == Committing ==> Intact(p1, LostWith(lost, m, p))
  }

  /** A server that is intact after a request was so before. */
  lemma IntactBefore(m: Msg, p: Node, lost: set<Tsn>)
    requires WellFormed(p.log) && NoneWriting(p)
    requires Intact(Exec(Primary, true, p, m).0, LostWith(lost, m, p))
    ensures Intact(p, lost)
  {
    forall t | Decided(p, t) ensures t !in lost {
      ExecFrozen(Primary, true, p, m, t);
    }
  }

  lemma NewCommitIsForwarded(m: Msg, p: Node)
    requires WellFormed(p.log) && NewlyCommitted(p, Step(Primary, p, Op(m, true, true)), m.t)
    ensures Commit(m.t, Step(Primary, p, Op(m, true, true)).log[m.t].num) in Forwarded(m, p)
  {
    ExecAppends(Primary, true, p, m);
    CommittingIsFilled(Primary, true, p, m);
  }

  /** Even when what is forwarded is lost, no commit is. */
  lemma BackupStillFirst(m: Msg, p: Node, q: seq<Msg>, b: Node)
    requires WellFormed(p.log) && BackupFirst(p, q, b)
    ensures BackupFirst(Step(Primary, p, Op(m, true, true)), q + Forwarded(m, p), b)
  {
    var e, fs := Op(m, true, true), Forwarded(m, p);
    var p' := Step(Primary, p, e);
    StepAppends(Primary, p, e);
    forall t | IsCommitted(p'.log, t)
      ensures CommittedAt(b, t, p'.log[t].num) || Commit(t, p'.log[t].num) in q + fs
    {
      if IsCommitted(p.log, t) {
        StepFrozen(Primary, p, e, t);
      } else {
        NewCommitIsForwarded(m, p);
      }
    }
  }

  // ----- serving a request -----------------------------------------------------------------

  /** What serving m makes of primary p, queue q and backup b. */
  ghost predicate Served(
    m: Msg, p: Node, q: seq<Msg>, b: Node, lost: set<Tsn>, reply: Reply, p': Node, q': seq<Msg>, b': Node)
    requires WellFormed(p.log)
  {
    && p' == Step(Primary, p, Op(m, true, true))
    && DeliverAll(q', b') == DeliverAll(Forwarded(m, p), DeliverAll(q, b))
    && reply == Answer(Exec(Primary, true, p, m).1)
    && Running(p', q', b', LostWith(lost, m, p))
  }

  /** Loss is all that takes servers out of step. */
  lemma LossIsNoticed(m: Msg, p: Node, q: seq<Msg>, b: Node, reply: Reply, p': Node, q': seq<Msg>, b': Node)
    requires Running(p, q, b, {}) && Served(m, p, q, b, {}, reply, p', q', b')
    ensures Running(p', q', b', {}) <==> !LosesMessage(m, p)
  {
    InSyncButNothing(p, DeliverAll(q, b));
    ForwardingKeepsSync(m, p, DeliverAll(q, b));
    InSyncButNothing(p', DeliverAll(q', b'));
  }

  lemma ServedByExecution(
    m: Msg, p: Node, q: seq<Msg>, b: Node, lost: set<Tsn>, out: Outcome, p1: Node, q1: seq<Msg>)
    requires Running(p, q, b, lost) && CreatesOnce(m, p)
    requires Executed(m, p, q, b, lost, out, p1, q1) && out != Committing
    ensures Served(m, p, q, b, lost, Answer(out), p1, q1, b)
  {
    ExecOnPrimary(m, p);
    QueuedIsForwarded(m, p);
    assert Queued(m, out) + [] == Queued(m, out);
    DeliverConcat(q, Queued(m, out), b);
    BackupStillFirst(m, p, q, b);
    if Intact(p1, LostWith(lost, m, p)) { IntactBefore(m, p, lost); }
  }

  /** Then the commit of m's transaction is the only one pending. */
  lemma CommitStarts(m: Msg, p: Node, q: seq<Msg>, b: Node, lost: set<Tsn>, p1: Node, q1: seq<Msg>)
    requires Running(p, q, b, lost) && Executed(m, p, q, b, lost, Committing, p1, q1)
    ensures m.t in p1.log && p1.log[m.t].status == Writing && OnlyPending(p1, m.t)
    ensures Intact(p1, LostWith(lost, m, p)) ==> Steady(q1, b)
    ensures |q1| == |q| + if m.Write? then 1 else 0
  {
    ExecOnPrimary(m, p);
    if Intact(p1, LostWith(lost, m, p)) { IntactBefore(m, p, lost); }
  }

  lemma StepOfCommit(m: Msg, p: Node)
    requires WellFormed(p.log) && Exec(Primary, true, p, m).1 == Committing
    ensures var p1 := Exec(Primary, true, p, m).0;
      && m.t in p1.log && Filled(p1.log[m.t].writes, p1.log[m.t].num)
      && Step(Primary, p, Op(m, true, true)) == FinishCommit(p1, m.t)
  {
    CommittingIsFilled(Primary, true, p, m);
  }

  /** The messages of a request whose commit goes ahead, one queued after the other. */
  lemma CommitForwarded(m: Msg, p: Node, q: seq<Msg>, b: Node, p1: Node, q1: seq<Msg>)
    requires WellFormed(p.log) && CreatesOnce(m, p) && Exec(Primary, true, p, m) == (p1, Committing)
    requires q1 == q + Queued(m, Committing)
    ensures m.t in p1.log && |Forwarded(m, p)| == 1 + |q1| - |q|
    ensures var c := Commit(m.t, p1.log[m.t].num);
      && q1 + [c] == q + Forwarded(m, p)
      && DeliverAll(Forwarded(m, p), DeliverAll(q, b)) == Deliver(c, DeliverAll(q1, b))
  {
    var queued, c := Queued(m, Committing), Commit(m.t, p1.log[m.t].num);
    QueuedIsForwarded(m, p);
    QueuedInTwo(q, queued, [c]);
    DeliverConcat(q, queued, b);
    DeliverOneMore(queued, c, DeliverAll(q, b));
  }

  lemma QueuedInTwo(a: seq<Msg>, b: seq<Msg>, c: seq<Msg>)
    ensures a + b + c == a + (b + c)
  {
  }

  /** What the pending commit of t makes of the servers. */
  ghost predicate CommitDone(
    t: Tsn, p1: Node, q1: seq<Msg>, b1: Node, lost: set<Tsn>, p': Node, q': seq<Msg>, b': Node)
    requires WellFormed(p1.log)
  {
    && t in p1.log && p1.log[t].status == Writing && p' == FinishCommit(p1, t)
    && WellFormed(b'.log) && NoneWriting(p')
    && DeliverAll(q', b') == Deliver(Commit(t, p1.log[t].num), DeliverAll(q1, b1))
    && InSyncBut(lost, p', DeliverAll(q', b'))
    && (if Intact(p1, lost) && Steady(q1, b1) then Steady(q', b')
        else q' == q1 + [Commit(t, p1.log[t].num)] && b' == b1)
  }

  lemma ServedByCommit(
    m: Msg, p: Node, q: seq<Msg>, b: Node, lost: set<Tsn>, p1: Node, q1: seq<Msg>, p': Node, q': seq<Msg>, b': Node)
    requires Running(p, q, b, lost) && CreatesOnce(m, p)
    requires Executed(m, p, q, b, lost, Committing, p1, q1)
    requires WellFormed(p1.log) && CommitDone(m.t, p1, q1, b, LostWith(lost, m, p), p', q', b')
    ensures Served(m, p, q, b, lost, Ack, p', q', b')
  {
    var lost' := LostWith(lost, m, p);
    StepOfCommit(m, p);
    CommitForwarded(m, p, q, b, p1, q1);
    SameDecided(p1, m.t);
    if Intact(p1, lost') { IntactBefore(m, p, lost); }
    if Intact(p1, lost') && Steady(q1, b) {
      SteadyBackupFirst(lost', p', q', b');
    } else {
      BackupStillFirst(m, p, q, b);
    }
  }

  lemma SameDecided(p1: Node, t: Tsn)
    requires WellFormed(p1.log) && Decided(p1, t)
    ensures forall t' :: Decided(FinishCommit(p1, t), t') <==> Decided(p1, t')
  {
  }

  /** What the replicated commit leaves on the way to the backup. */
  lemma CommitReplicated(p1: Node, t: Tsn, q1: seq<Msg>, b1: Node, sent: seq<Msg>, q2: seq<Msg>, b2: Node)
    requires Following(p1, DeliverAll(q1, b1)) && Steady(q1, b1)
    requires Decided(p1, t) && OnlyPending(p1, t)
    requires Progress(p1, q1, b1, sent, q2, b2) && Commit(t, p1.log[t].num) in sent
    ensures WellFormed(b2.log) && Steady(q2, b2)
    ensures DeliverAll(q2, b2) == Deliver(Commit(t, p1.log[t].num), DeliverAll(q1, b1))
  {
    EchoesAreOneCommit(p1, DeliverAll(q1, b1), t, sent);
  }

  lemma FinishedLog(p1: Node, t: Tsn)
    requires WellFormed(p1.log) && Decided(p1, t) && OnlyPending(p1, t)
    ensures NoneWriting(FinishCommit(p1, t))
  {
  }

  /** The replicated commit, then the local one. A commit that only queues its message needs
    * nothing of the backup; any other needs one that follows. */
  lemma CommitBoth(
    lost: set<Tsn>, p1: Node, t: Tsn, q1: seq<Msg>, b1: Node, sent: seq<Msg>, q2: seq<Msg>, b2: Node)
    requires InSyncBut(lost, p1, DeliverAll(q1, b1)) && WellFormed(b1.log)
    requires Decided(p1, t) && p1.log[t].status == Writing && OnlyPending(p1, t)
    requires if Intact(p1, lost) && Steady(q1, b1)
             then Progress(p1, q1, b1, sent, q2, b2) && Commit(t, p1.log[t].num) in sent
             else q2 == q1 + [Commit(t, p1.log[t].num)] && b2 == b1
    ensures CommitDone(t, p1, q1, b1, lost, FinishCommit(p1, t), q2, b2)
  {
    if Intact(p1, lost) && Steady(q1, b1) {
      SteadyEndsQuiet(q1, b1);
      SyncFollows(lost, p1, DeliverAll(q1, b1));
      CommitReplicated(p1, t, q1, b1, sent, q2, b2);
    } else {
      DeliverOneMore(q1, Commit(t, p1.log[t].num), b1);
    }
    FinishKeepsOthers(lost, t, p1, DeliverAll(q1, b1));
    FinishedLog(p1, t);
  }

  // ----- a commit whose message is lost -------------------------------------------------

  /** The message sent after k others arrives, and so do these and their answers. Its own
    * answer need not. */
  ghost predicate Arrives(fates: seq<Fate>, k: nat) {
    AllThrough(fates, k) && FateAt(fates, k) != LostBefore
  }

  lemma PendingCommits(x: Txn, t: Tsn, e: Node)
    requires WellFormedTxn(x) && x.status == Writing && t in e.log && SameTxn(x, e.log[t])
    ensures CommittedAt(Deliver(Commit(t, x.num), e), t, x.num)
  {
  }

  /** The primary goes ahead in any case. The backup, connected and in step on t, has committed
    * by then if and only if everything queued before the COMMIT and the COMMIT itself arrive. */
  lemma CommittedIffItArrives(
    p: Node, q: seq<Msg>, b: Node, t: Tsn, fates: seq<Fate>, q': seq<Msg>, b': Node, alive': bool)
    requires WellFormed(p.log) && WellFormed(b.log) && AgreeOn(t, p, DeliverAll(q, b))
    requires t in p.log && p.log[t].status == Writing
    requires RequestedAfter(Commit(t, p.log[t].num), fates, q, b, q', b', alive')
    ensures CommittedAt(b', t, p.log[t].num) <==> Arrives(fates, |q|)
  {
    var e := DeliverAll(q, b);
    var (q1, b1) := Drain(q, b, fates);
    DrainKeepsEffect(q, b, fates);
    DrainEmptiesIffAllThrough(q, b, fates);
    DeliverAllKeepsCommits(q1, b1);
    PendingCommits(p.log[t], t, e);
  }
}
