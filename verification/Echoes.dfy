/** Besides the operations it accepts, a primary only ever sends its backup echoes of
  * transactions it has itself committed or is committing. What those echoes keep. */
module Echoes {
  import opened TransactionLog
  import opened LogProperties
  import opened Delivery
  import opened CatchUp
  import Arrival

  ghost predicate Decided(p: Node, t: Tsn) {
    t in p.log && p.log[t].status in {Writing, Committed}
  }

  /** m repeats what the primary p holds of a transaction with a decided commit. */
  ghost predicate Echo(p: Node, m: Msg) {
    && Decided(p, m.t)
    && var x := p.log[m.t];
       match m
       case Make(_, name) => name == x.file
       case Write(_, k, data) => 1 <= k <= x.num && k in x.writes && data == x.writes[k]
       case Commit(_, n) => n == x.num
       case Abort(_) => false
  }

  ghost predicate AllEchoes(p: Node, ms: seq<Msg>) {
    forall m :: m in ms ==> Echo(p, m)
  }

  /** The backup e can be caught up on every commit that an integrity check asks it for,
    * or refuses it. */
  ghost predicate Resendable(p: Node, e: Node) {
    forall t :: t >= 0 && IsCommitted(p.log, t) ==> !Stuck(p.log[t], t, p.log[t].num, e)
  }

  /** Commits on the backup are never undone. */
  ghost predicate CommitsKept(b: Node, b': Node) {
    forall t :: IsCommitted(b.log, t) ==> t in b'.log && b'.log[t] == b.log[t]
  }

  lemma DeliverKeepsCommits(m: Msg, b: Node)
    requires WellFormed(b.log)
    ensures CommitsKept(b, Deliver(m, b))
  {
    forall t | IsCommitted(b.log, t) ensures t in Deliver(m, b).log && Deliver(m, b).log[t] == b.log[t] {
      ExecFrozen(Backup, true, b, m, t);
    }
  }

  lemma {:induction false} DeliverAllKeepsCommits(ms: seq<Msg>, b: Node)
    requires WellFormed(b.log)
    ensures CommitsKept(b, DeliverAll(ms, b))
  {
    if ms != [] {
      DeliverWellFormed(ms[0], b);
      DeliverKeepsCommits(ms[0], b);
      DeliverAllKeepsCommits(ms[1..], Deliver(ms[0], b));
    }
  }

  /** Sending one of the primary's writes fills that hole and leaves the others. */
  lemma FillKeepsFillable(x: Txn, w: map<int, string>, n: int, k: int)
    requires 1 <= k <= n && k in x.writes && |x.writes[k]| >= 2
    ensures Fillable(x, w[k := x.writes[k]], n) <==> Fillable(x, w, n)
  {
    var w' := w[k := x.writes[k]];
    assert forall i :: i in w' && i > n <==> i in w && i > n;
    forall j ensures Unfillable(x, w', n, j) <==> Unfillable(x, w, n, j) {
      assert j > n ==> (Hole(w', n, j) <==> Hole(w, n, j));
    }
  }

  /** An echo changes neither what the backup can be caught up on nor what it refuses. */
  lemma EchoKeepsVerdicts(p: Node, e: Node, m: Msg, t: Tsn)
    requires WellFormed(p.log) && WellFormed(e.log) && Echo(p, m) && Decided(p, t)
    ensures var (x, n) := (p.log[t], p.log[t].num);
      && (Stuck(x, t, n, Deliver(m, e)) <==> Stuck(x, t, n, e))
      && (RefusedAt(Deliver(m, e), t, n) <==> RefusedAt(e, t, n))
  {
    if t != m.t {
      ExecFrame(Backup, true, e, m);
    } else if m.Write? && t in e.log {
      WriteEcho(p, e, m);
    } else {
      OtherEcho(p, e, m);
    }
  }

  lemma WriteEcho(p: Node, e: Node, m: Msg)
    requires WellFormed(p.log) && WellFormed(e.log) && Echo(p, m) && m.Write? && m.t in e.log
    ensures var (e1, x, n) := (Deliver(m, e), p.log[m.t], p.log[m.t].num);
      && m.t in e1.log
      && (Refuses(e1.log[m.t], n) <==> Refuses(e.log[m.t], n))
      && (!Refuses(e.log[m.t], n) ==> (Fillable(x, e1.log[m.t].writes, n) <==> Fillable(x, e.log[m.t].writes, n)))
  {
    if !Short(m) { FillKeepsFillable(p.log[m.t], e.log[m.t].writes, p.log[m.t].num, m.k); }
  }

  lemma OtherEcho(p: Node, e: Node, m: Msg)
    requires WellFormed(p.log) && WellFormed(e.log) && Echo(p, m) && !(m.Write? && m.t in e.log)
    ensures var (e1, x, n) := (Deliver(m, e), p.log[m.t], p.log[m.t].num);
      && (Stuck(x, m.t, n, e1) <==> Stuck(x, m.t, n, e))
      && (RefusedAt(e1, m.t, n) <==> RefusedAt(e, m.t, n))
  {
  }

  lemma {:induction false} EchoesKeepVerdicts(p: Node, e: Node, ms: seq<Msg>, t: Tsn)
    requires WellFormed(p.log) && WellFormed(e.log) && AllEchoes(p, ms) && Decided(p, t)
    ensures var (x, n, e1) := (p.log[t], p.log[t].num, DeliverAll(ms, e));
      && (Stuck(x, t, n, e1) <==> Stuck(x, t, n, e))
      && (RefusedAt(e1, t, n) <==> RefusedAt(e, t, n))
    decreases |ms|
  {
    if ms != [] {
      assert ms[0] in ms;
      EchoKeepsVerdicts(p, e, ms[0], t);
      DeliverWellFormed(ms[0], e);
      EchoesKeepVerdicts(p, Deliver(ms[0], e), ms[1..], t);
    }
  }

  lemma EchoesKeepResendable(p: Node, e: Node, ms: seq<Msg>)
    requires WellFormed(p.log) && WellFormed(e.log) && AllEchoes(p, ms)
    ensures Resendable(p, DeliverAll(ms, e)) <==> Resendable(p, e)
  {
    forall t | IsCommitted(p.log, t)
      ensures Stuck(p.log[t], t, p.log[t].num, DeliverAll(ms, e)) <==> Stuck(p.log[t], t, p.log[t].num, e)
    {
      EchoesKeepVerdicts(p, e, ms, t);
    }
  }

  // ----- the same data ---------------------------------------------------------------

  /** Where the backup holds writes of a decided transaction, they are the primary's. */
  ghost predicate Agreeing(p: Node, e: Node) {
    forall t, k ::
      Decided(p, t) && t in e.log && 1 <= k <= p.log[t].num && k in e.log[t].writes && k in p.log[t].writes ==>
        e.log[t].writes[k] == p.log[t].writes[k]
  }

  lemma EchoKeepsAgreeing(p: Node, e: Node, m: Msg)
    requires Agreeing(p, e) && Echo(p, m)
    ensures Agreeing(p, Deliver(m, e))
  {
  }

  lemma {:induction false} EchoesKeepAgreeing(p: Node, e: Node, ms: seq<Msg>)
    requires Agreeing(p, e) && AllEchoes(p, ms)
    ensures Agreeing(p, DeliverAll(ms, e))
    decreases |ms|
  {
    if ms != [] {
      assert ms[0] in ms;
      EchoKeepsAgreeing(p, e, ms[0]);
      EchoesKeepAgreeing(p, Deliver(ms[0], e), ms[1..]);
    }
  }

  lemma SameBlock(p: Node, e: Node, t: Tsn)
    requires WellFormed(p.log) && WellFormed(e.log) && Agreeing(p, e) && Decided(p, t)
    requires IsCommitted(e.log, t) && e.log[t].num == p.log[t].num
    ensures Block(e.log[t].writes, p.log[t].num) == Block(p.log[t].writes, p.log[t].num)
  {
    Arrival.BlockDependsOnPrefix(e.log[t].writes, p.log[t].writes, p.log[t].num);
  }

  // ----- a backup that follows -------------------------------------------------------

  /** In step on every decided transaction, except that the backup may already have
    * committed what the primary is still committing; and nothing waits on the backup. */
  ghost predicate Following(p: Node, e: Node) {
    && WellFormed(p.log) && WellFormed(e.log) && NoneWaiting(e)
    && forall t :: Decided(p, t) ==> t in e.log && FollowingTxn(p.log[t], e.log[t])
  }

  ghost predicate FollowingTxn(x: Txn, y: Txn) {
    SameTxn(x, y) || (x.status == Writing && SameTxn(x.(status := Committed), y))
  }

  ghost predicate NoneWaiting(b: Node) {
    forall t :: t in b.log ==> b.log[t].status != Waiting
  }

  /** To a backup that follows, only the commit of a pending transaction is news. */
  lemma EchoToFollower(p: Node, e: Node, m: Msg)
    requires Following(p, e) && Echo(p, m)
    ensures Following(p, Deliver(m, e))
    ensures !(m.Commit? && p.log[m.t].status == Writing && e.log[m.t].status == Active) ==> Deliver(m, e) == e
  {
    assert FollowingTxn(p.log[m.t], e.log[m.t]);
    if m.Commit? && p.log[m.t].status == Writing && e.log[m.t].status == Active {
      var e1 := Deliver(m, e);
      DeliverWellFormed(m, e);
      ExecFrame(Backup, true, e, m);
      NewsEcho(p, e, m);
      forall t | Decided(p, t) ensures t in e1.log && FollowingTxn(p.log[t], e1.log[t]) {
        if t != m.t { assert FollowingTxn(p.log[t], e.log[t]); }
      }
    } else {
      OldEcho(p, e, m);
    }
  }

  lemma NewsEcho(p: Node, e: Node, m: Msg)
    requires Following(p, e) && Echo(p, m)
    requires m.Commit? && p.log[m.t].status == Writing && e.log[m.t].status == Active
    ensures m.t in Deliver(m, e).log && FollowingTxn(p.log[m.t], Deliver(m, e).log[m.t])
    ensures Deliver(m, e).log[m.t].status == Committed
  {
    assert FollowingTxn(p.log[m.t], e.log[m.t]);
  }

  lemma OldEcho(p: Node, e: Node, m: Msg)
    requires Following(p, e) && Echo(p, m)
    requires !(m.Commit? && p.log[m.t].status == Writing && e.log[m.t].status == Active)
    ensures Deliver(m, e) == e
  {
    assert FollowingTxn(p.log[m.t], e.log[m.t]);
  }

  /** A backup that follows acknowledges every commit it can be asked for. */
  lemma FollowerAcknowledges(p: Node, e: Node, t: Tsn)
    requires Following(p, e) && Decided(p, t)
    ensures ReplyTo(Commit(t, p.log[t].num), e) == Ack
  {
    assert FollowingTxn(p.log[t], e.log[t]);
  }

  lemma {:induction false} EchoesToFollower(p: Node, e: Node, ms: seq<Msg>)
    requires Following(p, e) && AllEchoes(p, ms)
    ensures Following(p, DeliverAll(ms, e))
    decreases |ms|
  {
    if ms != [] {
      assert ms[0] in ms;
      EchoToFollower(p, e, ms[0]);
      EchoesToFollower(p, Deliver(ms[0], e), ms[1..]);
    }
  }

  ghost predicate OnlyPending(p: Node, t: Tsn) {
    forall t' :: t' in p.log && p.log[t'].status == Writing ==> t' == t
  }

  /** With one commit pending, any list of echoes that contains it is worth that commit,
    * and one that does not is worth nothing. */
  lemma {:induction false} EchoesAreOneCommit(p: Node, e: Node, t: Tsn, ms: seq<Msg>)
    requires Following(p, e) && AllEchoes(p, ms) && OnlyPending(p, t) && Decided(p, t)
    ensures var c := Commit(t, p.log[t].num);
      DeliverAll(ms, e) == if c in ms then Deliver(c, e) else e
    decreases |ms|
  {
    if ms != [] {
      var c := Commit(t, p.log[t].num);
      assert ms[0] in ms;
      assert Echo(p, ms[0]);
      var e1 := Deliver(ms[0], e);
      EchoToFollower(p, e, ms[0]);
      EchoesAreOneCommit(p, e1, t, ms[1..]);
      DeliverIdempotent(c, e);
      assert ms == [ms[0]] + ms[1..];
      if ms[0] != c { assert e1 == e; }
    }
  }

  lemma {:induction false} EchoesOfQuietPrimary(p: Node, e: Node, ms: seq<Msg>)
    requires Following(p, e) && AllEchoes(p, ms)
    requires forall t :: t in p.log ==> p.log[t].status != Writing
    ensures DeliverAll(ms, e) == e
    decreases |ms|
  {
    if ms != [] {
      assert ms[0] in ms;
      EchoToFollower(p, e, ms[0]);
      EchoesOfQuietPrimary(p, e, ms[1..]);
    }
  }

  // ----- the backup on its way through the queue ---------------------------------------

  /** No transaction of the backup ever waits while the queue is worked off. */
  ghost predicate Steady(queue: seq<Msg>, b: Node) {
    NoneWaiting(b) && (queue != [] ==> Steady(queue[1..], Deliver(queue[0], b)))
  }

  lemma {:induction false} SteadyPush(queue: seq<Msg>, m: Msg, b: Node)
    requires Steady(queue, b) && NoneWaiting(DeliverAll(queue + [m], b))
    ensures Steady(queue + [m], b)
  {
    if queue == [] {
      assert queue + [m] == [m] && [m][1..] == [];
      assert DeliverAll([m], b) == DeliverAll([], Deliver(m, b));
      assert Steady([], Deliver(m, b));
    } else {
      assert (queue + [m])[1..] == queue[1..] + [m];
      SteadyPush(queue[1..], m, Deliver(queue[0], b));
    }
  }

  ghost predicate CommittedAt(b: Node, t: Tsn, n: int) {
    IsCommitted(b.log, t) && b.log[t].num == n
  }

  /** If working off the queue commits t at n, then the backup has done so already or
    * the COMMIT itself is still queued. */
  lemma {:induction false} CommittedOrQueued(queue: seq<Msg>, b: Node, t: Tsn, n: int)
    requires WellFormed(b.log) && Steady(queue, b) && CommittedAt(DeliverAll(queue, b), t, n)
    ensures CommittedAt(b, t, n) || Commit(t, n) in queue
  {
    if queue != [] {
      DeliverWellFormed(queue[0], b);
      CommittedOrQueued(queue[1..], Deliver(queue[0], b), t, n);
      if CommittedAt(Deliver(queue[0], b), t, n) && !CommittedAt(b, t, n) {
        assert queue[0] == Commit(t, n) by { OnlyCommitCommits(queue[0], b, t, n); }
      }
    }
  }

  lemma OnlyCommitCommits(m: Msg, b: Node, t: Tsn, n: int)
    requires WellFormed(b.log) && NoneWaiting(b)
    requires CommittedAt(Deliver(m, b), t, n) && !CommittedAt(b, t, n)
    ensures m == Commit(t, n)
  {
  }

  // ----- progress ------------------------------------------------------------------------

  /** From queue q and backup b, replication has reached q' and b': it delivered the
    * echoes `sent`, once each as far as the effect goes, undid no commit and kept a
    * following backup from ever waiting. */
  ghost predicate Progress(p: Node, q: seq<Msg>, b: Node, sent: seq<Msg>, q': seq<Msg>, b': Node) {
    && WellFormed(b.log) && WellFormed(b'.log)
    && AllEchoes(p, sent)
    && DeliverAll(q', b') == DeliverAll(sent, DeliverAll(q, b))
    && CommitsKept(b, b')
    && (Steady(q, b) && Following(p, DeliverAll(q, b)) ==> Steady(q', b') && Following(p, DeliverAll(q', b')))
  }

  lemma ProgressNone(p: Node, q: seq<Msg>, b: Node)
    requires WellFormed(b.log)
    ensures Progress(p, q, b, [], q, b)
  {
  }

  lemma ProgressThen(
    p: Node, q0: seq<Msg>, b0: Node, s1: seq<Msg>, q1: seq<Msg>, b1: Node, s2: seq<Msg>, q2: seq<Msg>, b2: Node)
    requires Progress(p, q0, b0, s1, q1, b1) && Progress(p, q1, b1, s2, q2, b2)
    ensures Progress(p, q0, b0, s1 + s2, q2, b2)
  {
    DeliverConcat(s1, s2, DeliverAll(q0, b0));
  }

  lemma ProgressPop(p: Node, q: seq<Msg>, b: Node)
    requires WellFormed(b.log) && q != []
    ensures Progress(p, q, b, [], q[1..], Deliver(q[0], b))
    ensures Progress(p, q, b, [], q, Deliver(q[0], b))
  {
    DeliverWellFormed(q[0], b);
    DeliverKeepsCommits(q[0], b);
    DeliverIdempotent(q[0], b);
  }

  lemma ProgressPush(p: Node, q: seq<Msg>, b: Node, m: Msg)
    requires WellFormed(b.log) && Echo(p, m)
    ensures Progress(p, q, b, [m], q + [m], b)
  {
    var e := DeliverAll(q, b);
    DeliverOneMore(q, m, b);
    DeliverOneMore([], m, e);
    assert [] + [m] == [m];
    if Steady(q, b) && Following(p, e) {
      EchoToFollower(p, e, m);
      SteadyPush(q, m, b);
    }
  }

  lemma {:induction false} ProgressPushAll(p: Node, q: seq<Msg>, b: Node, ms: seq<Msg>)
    requires WellFormed(b.log) && AllEchoes(p, ms)
    ensures Progress(p, q, b, ms, q + ms, b)
    decreases |ms|
  {
    if ms == [] {
      assert q + [] == q;
      ProgressNone(p, q, b);
    } else {
      assert ms[0] in ms;
      ProgressPush(p, q, b, ms[0]);
      ProgressPushAll(p, q + [ms[0]], b, ms[1..]);
      ProgressThen(p, q, b, [ms[0]], q + [ms[0]], b, ms[1..], q + [ms[0]] + ms[1..], b);
      assert [ms[0]] + ms[1..] == ms;
      assert q + [ms[0]] + ms[1..] == q + ms;
    }
  }

  /** A message sent directly while the queue is empty; the second case is the one where
    * its answer was lost and it is queued as well. */
  lemma ProgressDirect(p: Node, b: Node, m: Msg)
    requires WellFormed(b.log) && Echo(p, m)
    ensures Progress(p, [], b, [m], [], Deliver(m, b))
    ensures Progress(p, [], b, [m], [m], Deliver(m, b))
  {
    ProgressPush(p, [], b, m);
    assert [] + [m] == [m];
    ProgressPop(p, [m], b);
    assert [m][1..] == [];
    ProgressThen(p, [], b, [m], [m], b, [], [], Deliver(m, b));
    ProgressThen(p, [], b, [m], [m], b, [], [m], Deliver(m, b));
    assert [m] + [] == [m];
  }
}
