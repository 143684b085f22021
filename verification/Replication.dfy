/** The replication manager of a primary: a queue of operations, a connection that may
  * fail before or after the backup has processed a message, and the recursive commit. */
module Replication {
  import opened TransactionLog
  import opened LogProperties
  import opened Delivery
  import opened CatchUp
  import opened Echoes
  import opened Logs

  function Failures(fates: seq<Fate>): nat {
    if fates == [] then 0 else (if fates[0] == Through then 0 else 1) + Failures(fates[1..])
  }

  /** The log operation of one request: the calls of `executeCommand`, in either role. */
  method ExecuteOnLog(log: LogHandler, m: Msg) returns (out: Outcome)
    requires log.Valid()
    modifies log`log, log`saved, log`files
    ensures log.Valid()
    ensures (log.View(), out) == Exec(log.role, true, old(log.View()), m)
    ensures log.saved == if Saves(old(log.log), m, out) then log.log else old(log.saved)
  {
    match m
    case Abort(t) => out := log.Abort(t);
    case Commit(t, n) => out := log.Commit(t, n, true);
    case Write(t, k, data) => out := log.AddLogEntry(t, k, data, true);
    case Make(t, name) => var _ := log.MakeTxn(name, t); out := Accepted;
  }

  /** The connection to the backup. `fates` and `connects` are what will happen to the
    * next messages and connection attempts; when they run out everything succeeds. */
  class Link {
    const peer: LogHandler
    var fates: seq<Fate>
    var connects: seq<bool>

    constructor (peer: LogHandler)
      ensures this.peer == peer && fates == [] && connects == []
    {
      this.peer, fates, connects := peer, [], [];
    }

    /** Send a message and wait for the answer; None is the exception of a lost connection. */
    method SendReceive(m: Msg) returns (answer: Option<Reply>)
      requires peer.Valid() && peer.role == Backup
      modifies this`fates, peer`log, peer`saved, peer`files
      ensures peer.Valid() && fates == Rest(old(fates))
      ensures peer.View() == if FateOf(old(fates)) == LostBefore then old(peer.View()) else Deliver(m, old(peer.View()))
      ensures answer == if FateOf(old(fates)) == Through then Some(ReplyTo(m, old(peer.View()))) else None
    {
      var fate := FateOf(fates);
      fates := Rest(fates);
      if fate == LostBefore {
        return None;
      }
      var reply := Error(204);
      if !Short(m) {
        var out := ExecuteOnLog(peer, m);
        reply := Answer(out);
      }
      return if fate == Through then Some(reply) else None;
    }

    method ConnectSocket() returns (ok: bool)
      modifies this`connects
      ensures ok <==> old(connects) == [] || old(connects)[0]
    {
      ok := connects == [] || connects[0];
      connects := if connects == [] then [] else connects[1..];
    }
  }

  /** What one request c on a live connection leaves of the backup, queue and connection. */
  ghost predicate Requested(c: Msg, fate: Fate, b: Node, q': seq<Msg>, b': Node, alive': bool) {
    && b' == (if fate == LostBefore then b else Deliver(c, b))
    && q' == (if fate == Through then [] else [c])
    && (alive' <==> fate == Through)
  }

  /** The same of a queue that is drained first: c is sent only if all of it gets through. */
  ghost predicate RequestedAfter(
    c: Msg, fates: seq<Fate>, q: seq<Msg>, b: Node, q': seq<Msg>, b': Node, alive': bool)
  {
    var (q1, b1) := Drain(q, b, fates);
    if q1 != [] then q' == q1 + [c] && b' == b1 && !alive'
    else Requested(c, FateAt(fates, |q|), b1, q', b', alive')
  }

  lemma RestHasFewerFailures(fates: seq<Fate>)
    ensures Failures(Rest(fates)) + (if FateOf(fates) == Through then 0 else 1) == Failures(fates)
  {
  }

  /** How far the backup e is from being able to commit t at n. */
  ghost function Lag(e: Node, t: Tsn, n: int): nat {
    if t !in e.log then 2 else if CanCommit(e.log[t].writes, n) then 0 else 1
  }

  /** The commit of t is pending or made at p, and the backup e can be caught up on it
    * or refuses it. */
  ghost predicate Repairable(p: Node, e: Node, t: Tsn) {
    Decided(p, t) && !Stuck(p.log[t], t, p.log[t].num, e)
  }

  /** Progress leaves the verdicts on t as they were. */
  lemma ProgressKeepsVerdicts(p: Node, q0: seq<Msg>, b0: Node, sent: seq<Msg>, q1: seq<Msg>, b1: Node, t: Tsn)
    requires WellFormed(p.log) && Decided(p, t) && Progress(p, q0, b0, sent, q1, b1)
    ensures RefusedAt(DeliverAll(q1, b1), t, p.log[t].num) <==> RefusedAt(DeliverAll(q0, b0), t, p.log[t].num)
    ensures Repairable(p, DeliverAll(q1, b1), t) <==> Repairable(p, DeliverAll(q0, b0), t)
  {
    DeliverAllWellFormed(q0, b0);
    EchoesKeepVerdicts(p, DeliverAll(q0, b0), sent, t);
  }

  /** How a commit of t ends that began with queue q0 and backup b0. It fails exactly if
    * the backup is connected and refuses t at the primary's number. Otherwise the COMMIT
    * is queued, or the connected backup has committed t at that number with nothing left
    * to deliver, and on the primary's data if it agreed with the primary before. */
  ghost predicate Settled(
    p: Node, q0: seq<Msg>, b0: Node, t: Tsn, ok: bool, alive: bool, sent: seq<Msg>, q: seq<Msg>, b: Node)
    requires WellFormed(p.log) && Decided(p, t)
  {
    var n, e := p.log[t].num, DeliverAll(q0, b0);
    && Progress(p, q0, b0, sent, q, b)
    && (ok <==> !(alive && RefusedAt(e, t, n)))
    && (ok ==> Commit(t, n) in sent)
    && (ok && !alive ==> Commit(t, n) in q)
    && (ok && alive ==>
          && q == [] && CommittedAt(b, t, n)
          && (Agreeing(p, e) ==> Block(b.log[t].writes, n) == Block(p.log[t].writes, n)))
  }

  /** A commit that follows earlier progress settles what was asked before it. */
  lemma SettledAfter(
    p: Node, q0: seq<Msg>, b0: Node, before: seq<Msg>, q1: seq<Msg>, b1: Node,
    t: Tsn, ok: bool, alive: bool, sent: seq<Msg>, q: seq<Msg>, b: Node)
    requires WellFormed(p.log) && Decided(p, t)
    requires Progress(p, q0, b0, before, q1, b1) && Settled(p, q1, b1, t, ok, alive, sent, q, b)
    ensures Settled(p, q0, b0, t, ok, alive, before + sent, q, b)
  {
    var e := DeliverAll(q0, b0);
    ProgressThen(p, q0, b0, before, q1, b1, sent, q, b);
    ProgressKeepsVerdicts(p, q0, b0, before, q1, b1, t);
    if Agreeing(p, e) { EchoesKeepAgreeing(p, e, before); }
  }

  /** Without a connection the COMMIT is queued. */
  lemma SettledByQueuing(p: Node, q: seq<Msg>, b: Node, t: Tsn)
    requires WellFormed(p.log) && WellFormed(b.log) && Decided(p, t)
    ensures var c := Commit(t, p.log[t].num);
      Settled(p, q, b, t, true, false, [c], q + [c], b)
  {
    ProgressPush(p, q, b, Commit(t, p.log[t].num));
  }

  /** The same if the connection breaks under the request. */
  lemma SettledByLoss(p: Node, b: Node, t: Tsn)
    requires WellFormed(p.log) && WellFormed(b.log) && Decided(p, t)
    ensures var c := Commit(t, p.log[t].num);
      && Settled(p, [], b, t, true, false, [c], [c], b)
      && Settled(p, [], b, t, true, false, [c], [c], Deliver(c, b))
  {
    var c := Commit(t, p.log[t].num);
    SettledByQueuing(p, [], b, t);
    assert [] + [c] == [c];
    assert Echo(p, c);
    ProgressDirect(p, b, c);
  }

  /** A backup that acknowledges a commit has made it, and one that refuses says so. */
  lemma CommitReply(p: Node, b: Node, t: Tsn)
    requires WellFormed(p.log) && WellFormed(b.log) && Decided(p, t)
    ensures var (n, r) := (p.log[t].num, ReplyTo(Commit(t, p.log[t].num), b));
      && Echo(p, Commit(t, n))
      && (r == Ack ==> CommittedAt(Deliver(Commit(t, n), b), t, n))
      && (RefusedAt(b, t, n) <==> r.Error? && r.code != 201)
  {
  }

  /** With an answer that is not about a lag the commit is settled. */
  lemma SettledByAnswer(p: Node, b: Node, t: Tsn)
    requires WellFormed(p.log) && WellFormed(b.log) && Decided(p, t)
    ensures var (c, n) := (Commit(t, p.log[t].num), p.log[t].num);
      && (ReplyTo(c, b) == Ack ==> Settled(p, [], b, t, true, true, [c], [], Deliver(c, b)))
      && (ReplyTo(c, b).Error? && ReplyTo(c, b).code != 201 ==>
            Settled(p, [], b, t, false, true, [c], [], Deliver(c, b)))
  {
    var c, n := Commit(t, p.log[t].num), p.log[t].num;
    var b2 := Deliver(c, b);
    CommitReply(p, b, t);
    ProgressDirect(p, b, c);
    assert DeliverAll([], b) == b;
    if CommittedAt(b2, t, n) && Agreeing(p, b) {
      EchoKeepsAgreeing(p, b, c);
      SameBlock(p, b2, t);
    }
  }

  /** What the manager queues when the backup has not committed. */
  ghost function Remedy(p: Node, b: Node, t: Tsn): seq<Msg>
    requires WellFormed(p.log) && Decided(p, t)
  {
    if t in b.log then Resend(p.log[t], t, p.log[t].num) else [Make(t, p.log[t].file)]
  }

  lemma {:induction false} ResendIsEcho(p: Node, t: Tsn, j: int)
    requires WellFormed(p.log) && Decided(p, t) && j <= p.log[t].num
    ensures AllEchoes(p, Resend(p.log[t], t, j))
    decreases if j < 0 then 0 else j
  {
    if j > 0 {
      ResendIsEcho(p, t, j - 1);
    }
  }

  lemma RemedyIsEcho(p: Node, b: Node, t: Tsn)
    requires WellFormed(p.log) && WellFormed(b.log) && Decided(p, t)
    ensures var (ms, c) := (Remedy(p, b, t), Commit(t, p.log[t].num));
      && AllEchoes(p, [c] + ms)
      && Progress(p, [], b, [c] + ms, ms, Deliver(c, b))
  {
    var c, ms := Commit(t, p.log[t].num), Remedy(p, b, t);
    var b2 := Deliver(c, b);
    DeliverWellFormed(c, b);
    assert Echo(p, c);
    if t in b.log {
      ResendIsEcho(p, t, p.log[t].num);
    } else {
      assert Echo(p, Make(t, p.log[t].file));
    }
    ProgressDirect(p, b, c);
    ProgressPushAll(p, [], b2, ms);
    assert [] + ms == ms;
    ProgressThen(p, [], b, [c], [], b2, ms, ms, b2);
  }

  lemma RemedyLessensLag(p: Node, b: Node, t: Tsn)
    requires WellFormed(p.log) && WellFormed(b.log) && Repairable(p, b, t)
    requires Lagging(ReplyTo(Commit(t, p.log[t].num), b))
    ensures var (n, c) := (p.log[t].num, Commit(t, p.log[t].num));
      Lag(DeliverAll(Remedy(p, b, t), Deliver(c, b)), t, n) < Lag(b, t, n)
  {
    var x, n, c := p.log[t], p.log[t].num, Commit(t, p.log[t].num);
    var b2 := Deliver(c, b);
    if t in b.log {
      IncompleteRound(x, t, n, b);
      assert Remedy(p, b, t) == Resend(x, t, n);
      assert DeliverAll(Resend(x, t, n), b2) == Round(x, t, n, b).0;
    } else {
      DeliverOneMore([], Make(t, x.file), b2);
      assert [] + [Make(t, x.file)] == [Make(t, x.file)];
    }
  }

  /** Asked for the commit of t, the backup went from b to b2 and lags; delivering ms
    * brings it strictly closer to the commit. */
  ghost predicate Helps(p: Node, b: Node, t: Tsn, ms: seq<Msg>, b2: Node)
    requires Decided(p, t)
  {
    var n := p.log[t].num;
    && Progress(p, [], b, [Commit(t, n)] + ms, ms, b2)
    && Repairable(p, DeliverAll(ms, b2), t)
    && Lag(DeliverAll(ms, b2), t, n) < Lag(b, t, n)
  }

  lemma RemedyHelps(p: Node, b: Node, t: Tsn)
    requires WellFormed(p.log) && WellFormed(b.log) && Repairable(p, b, t)
    requires Lagging(ReplyTo(Commit(t, p.log[t].num), b))
    ensures Helps(p, b, t, Remedy(p, b, t), Deliver(Commit(t, p.log[t].num), b))
  {
    var c, ms := Commit(t, p.log[t].num), Remedy(p, b, t);
    RemedyIsEcho(p, b, t);
    RemedyLessensLag(p, b, t);
    EchoesKeepVerdicts(p, b, [c] + ms, t);
    assert DeliverAll([], b) == b;
  }

  /** What the answer r to a request for the commit of t tells of a backup that went from
    * b to b2: the commit is settled, or it lags and what the manager queues helps. */
  ghost predicate Tells(p: Node, b: Node, t: Tsn, r: Reply, b2: Node)
    requires WellFormed(p.log) && Decided(p, t)
  {
    var (x, n) := (p.log[t], p.log[t].num);
    match r
    case Ack => Settled(p, [], b, t, true, true, [Commit(t, n)], [], b2)
    case AckResend => Helps(p, b, t, Resend(x, t, n), b2)
    case Error(code) =>
      if code == 201 then Helps(p, b, t, [Make(t, x.file)], b2)
      else Settled(p, [], b, t, false, true, [Commit(t, n)], [], b2)
  }

  predicate Lagging(r: Reply) {
    r in {AckResend, Error(201)}
  }

  lemma AnswerTells(p: Node, b: Node, t: Tsn)
    requires WellFormed(p.log) && WellFormed(b.log) && Repairable(p, b, t)
    ensures var c := Commit(t, p.log[t].num);
      Tells(p, b, t, ReplyTo(c, b), Deliver(c, b))
  {
    SettledByAnswer(p, b, t);
    var r := ReplyTo(Commit(t, p.log[t].num), b);
    if Lagging(r) { RemedyHelps(p, b, t); }
    assert r == AckResend ==> t in b.log;
    assert r == Error(201) ==> t !in b.log;
  }

  /** all lists the commits of p that an integrity check asks for. */
  ghost predicate Listed(p: Node, all: seq<Msg>) {
    forall m :: m in all <==> m.Commit? && m.t >= 0 && IsCommitted(p.log, m.t) && m.n == p.log[m.t].num
  }

  /** What has been taken from the back of the list is committed on the backup. */
  ghost predicate CheckedDownTo(all: seq<Msg>, holder: seq<Msg>, b: Node) {
    && holder <= all
    && forall i :: |holder| <= i < |all| && all[i].Commit? ==> CommittedAt(b, all[i].t, all[i].n)
  }

  lemma CheckedOneMore(all: seq<Msg>, holder: seq<Msg>, b: Node, b': Node)
    requires CheckedDownTo(all, holder, b) && CommitsKept(b, b')
    requires holder != [] && var m := holder[|holder| - 1]; m.Commit? && CommittedAt(b', m.t, m.n)
    ensures CheckedDownTo(all, holder[..|holder| - 1], b')
  {
    assert all[|holder| - 1] == holder[|holder| - 1];
  }

  lemma AllChecked(p: Node, all: seq<Msg>, b: Node)
    requires Listed(p, all) && CheckedDownTo(all, [], b)
    ensures Checked(p, b)
  {
    forall t | t >= 0 && IsCommitted(p.log, t) ensures CommittedAt(b, t, p.log[t].num) {
      assert Commit(t, p.log[t].num) in all;
    }
  }

  /** The backup has every commit of p at the same number. */
  ghost predicate Checked(p: Node, b: Node) {
    forall t :: t >= 0 && IsCommitted(p.log, t) ==> CommittedAt(b, t, p.log[t].num)
  }

  ghost predicate SomeRefused(p: Node, e: Node) {
    exists t :: t >= 0 && IsCommitted(p.log, t) && RefusedAt(e, t, p.log[t].num)
  }

  class ReplicationManager {
    const log: LogHandler
    const link: Link
    var alive: bool
    var syncQueue: seq<Msg>

    ghost predicate Valid()
      reads this, log, link, link.peer
    {
      && log != link.peer
      && log.Valid() && link.peer.Valid()
      && log.role == Primary && link.peer.role == Backup
    }

    /** What the backup will be when everything queued has been delivered. */
    ghost function Effective(): Node
      reads this, link, link.peer
    {
      DeliverAll(syncQueue, link.peer.View())
    }

    constructor (log: LogHandler, link: Link)
      requires log != link.peer && log.Valid() && link.peer.Valid()
      requires log.role == Primary && link.peer.role == Backup
      ensures Valid() && this.log == log && this.link == link && !alive && syncQueue == []
    {
      this.log, this.link := log, link;
      alive, syncQueue := false, [];
    }

    method Enqueue(m: Msg)
      modifies this`syncQueue
      ensures syncQueue == if log.role == Primary then old(syncQueue) + [m] else old(syncQueue)
    {
      if log.role == Primary {
        syncQueue := syncQueue + [m];
      }
    }

    /** Push the queue to the backup; each message leaves it only once it is answered. */
    method DrainQueue()
      requires Valid()
      modifies this`alive, this`syncQueue, link, link.peer
      requires alive
      ensures Valid()
      ensures (syncQueue, link.peer.View()) == Drain(old(syncQueue), old(link.peer.View()), old(link.fates))
      ensures Progress(log.View(), old(syncQueue), old(link.peer.View()), [], syncQueue, link.peer.View())
      ensures if alive then syncQueue == [] && Failures(link.fates) <= Failures(old(link.fates))
              else syncQueue != [] && Failures(link.fates) < Failures(old(link.fates))
      ensures alive ==> link.fates == FatesAfter(old(link.fates), |old(syncQueue)|)
    {
      ghost var p := log.View();
      ProgressNone(p, syncQueue, link.peer.View());
      while syncQueue != []
        invariant Valid() && alive && log.View() == p
        invariant Drain(syncQueue, link.peer.View(), link.fates)
          == Drain(old(syncQueue), old(link.peer.View()), old(link.fates))
        invariant Progress(p, old(syncQueue), old(link.peer.View()), [], syncQueue, link.peer.View())
        invariant Failures(link.fates) <= Failures(old(link.fates))
        invariant FatesAfter(link.fates, |syncQueue|) == FatesAfter(old(link.fates), |old(syncQueue)|)
        decreases |syncQueue|
      {
        ghost var q, b := syncQueue, link.peer.View();
        FateOfNext(link.fates, |q| - 1);
        ProgressPop(p, q, b);
        ProgressNone(p, q, b);
        RestHasFewerFailures(link.fates);
        var answer := link.SendReceive(syncQueue[0]);
        if answer == None {
          alive := false;
        } else {
          syncQueue := syncQueue[1..];
        }
        ProgressThen(p, old(syncQueue), old(link.peer.View()), [], q, b, [], syncQueue, link.peer.View());
        if !alive {
          return;
        }
      }
    }

    /** Work off the queue, or try to connect to a backup that has announced itself. */
    method PrimaryOps() returns (ghost sent: seq<Msg>)
      requires Valid()
      requires !alive && log.registered ==> Resendable(log.View(), Effective())
      modifies this, link, link.peer, log`registered
      ensures Valid() && (log.registered ==> old(log.registered))
      ensures Progress(log.View(), old(syncQueue), old(link.peer.View()), sent, syncQueue, link.peer.View())
      ensures Failures(link.fates) <= Failures(old(link.fates))
      ensures old(alive) ==>
        && sent == []
        && (syncQueue, link.peer.View()) == Drain(old(syncQueue), old(link.peer.View()), old(link.fates))
        && (alive <==> syncQueue == [])
        && if alive then link.fates == FatesAfter(old(link.fates), |old(syncQueue)|)
           else Failures(link.fates) < Failures(old(link.fates))
      ensures old(alive) ==> log.registered == old(log.registered)
      ensures !old(alive) && !old(log.registered) ==>
        && !alive && sent == []
        && syncQueue == old(syncQueue) && link.peer.View() == old(link.peer.View())
      ensures !old(alive) && old(link.connects) != [] && !old(link.connects)[0] ==>
        && !alive && !log.registered && sent == []
        && syncQueue == old(syncQueue) && link.peer.View() == old(link.peer.View())
      ensures (old(alive) || old(log.registered)) && old(link.connects) == [] && Failures(old(link.fates)) == 0 ==>
        alive
      ensures !old(alive) && alive && Failures(link.fates) == Failures(old(link.fates)) ==>
        Checked(log.View(), link.peer.View()) || SomeRefused(log.View(), old(Effective()))
      decreases Failures(link.fates), if alive then 0 else 1, 0, 0
    {
      sent := [];
      ProgressNone(log.View(), syncQueue, link.peer.View());
      if alive && syncQueue != [] {
        DrainQueue();
      } else if !alive && log.registered {
        alive := link.ConnectSocket();
        if !alive {
          log.registered := false;
        } else {
          var _, more := IntegrityCheck();
          sent := more;
        }
      }
    }

    /** Have the backup commit t at n, bringing it up to date if it lags. Without a
      * connection the COMMIT is queued and the primary may go ahead. */
    method Commit(t: Tsn, n: int) returns (ok: bool, ghost sent: seq<Msg>)
      requires Valid() && Decided(log.View(), t) && log.log[t].num == n
      requires alive || log.registered ==> Repairable(log.View(), Effective(), t)
      requires !alive && log.registered ==> Resendable(log.View(), Effective())
      modifies this, link, link.peer, log`registered
      ensures Valid() && (log.registered ==> old(log.registered))
      ensures Settled(
        log.View(), old(syncQueue), old(link.peer.View()), t, ok, alive, sent, syncQueue, link.peer.View())
      ensures Failures(link.fates) <= Failures(old(link.fates))
      ensures old(alive) && !alive ==> Failures(link.fates) < Failures(old(link.fates))
      ensures !old(alive) && !old(log.registered) ==>
        && !alive && sent == [Msg.Commit(t, n)]
        && syncQueue == old(syncQueue) + sent && link.peer.View() == old(link.peer.View())
      ensures old(alive) && ReplyTo(Msg.Commit(t, n), old(Effective())) == Ack ==>
        RequestedAfter(Msg.Commit(t, n), old(link.fates), old(syncQueue), old(link.peer.View()),
          syncQueue, link.peer.View(), alive)
      decreases Failures(link.fates), if alive then 0 else 1, 1 + Lag(Effective(), t, n), 1
    {
      ghost var p, q0, b0 := log.View(), syncQueue, link.peer.View();
      DrainKeepsEffect(q0, b0, link.fates);
      FateOfNext(link.fates, |q0|);
      sent := PrimaryOps();
      ghost var q1, b1, more := syncQueue, link.peer.View(), [Msg.Commit(t, n)];
      ProgressKeepsVerdicts(p, q0, b0, sent, q1, b1, t);
      if alive && syncQueue == [] {
        ok, more := CommitOnline(t, n);
      } else if alive && syncQueue != [] {
        ok, more := Commit(t, n);
      } else {
        SettledByQueuing(p, q1, b1, t);
        Enqueue(Msg.Commit(t, n));
        ok := true;
      }
      SettledAfter(p, q0, b0, sent, q1, b1, t, ok, alive, more, syncQueue, link.peer.View());
      sent := sent + more;
    }

    /** Ask the connected backup to commit, with nothing left to deliver before. */
    method CommitOnline(t: Tsn, n: int) returns (ok: bool, ghost sent: seq<Msg>)
      requires Valid() && Decided(log.View(), t) && log.log[t].num == n
      requires alive && syncQueue == [] && Repairable(log.View(), link.peer.View(), t)
      modifies this, link, link.peer, log`registered
      ensures Valid() && (log.registered ==> old(log.registered))
      ensures Settled(log.View(), [], old(link.peer.View()), t, ok, alive, sent, syncQueue, link.peer.View())
      ensures Failures(link.fates) <= Failures(old(link.fates))
      ensures !alive ==> Failures(link.fates) < Failures(old(link.fates))
      ensures ReplyTo(Msg.Commit(t, n), old(link.peer.View())) == Ack ==>
        Requested(Msg.Commit(t, n), FateOf(old(link.fates)), old(link.peer.View()), syncQueue, link.peer.View(), alive)
      decreases Failures(link.fates), 0, 1 + Lag(link.peer.View(), t, n), 0
    {
      ghost var p, b1, c := log.View(), link.peer.View(), Msg.Commit(t, n);
      sent := [c];
      var answer := AskToCommit(t, n);
      if answer == None {
        return true, sent;
      }
      if !Lagging(answer.value) {
        return answer.value == Ack, sent;
      }
      EnqueueRemedy(t, answer.value, b1);
      // The transaction or its writes are queued now: commit again.
      ghost var ms, b2, more := syncQueue, link.peer.View(), [];
      ok, more := Commit(t, n);
      SettledAfter(p, [], b1, [c] + ms, ms, b2, t, ok, alive, more, syncQueue, link.peer.View());
      sent := [c] + ms + more;
    }

    /** Send the COMMIT; if the connection is lost it is queued instead. */
    method AskToCommit(t: Tsn, n: int) returns (answer: Option<Reply>)
      requires Valid() && Decided(log.View(), t) && log.log[t].num == n
      requires alive && syncQueue == [] && Repairable(log.View(), link.peer.View(), t)
      modifies this, link, link.peer
      ensures Valid() && (alive <==> answer != None)
      ensures Failures(link.fates) + (if alive then 0 else 1) == Failures(old(link.fates))
      ensures alive ==>
        syncQueue == [] && Tells(log.View(), old(link.peer.View()), t, answer.value, link.peer.View())
      ensures !alive ==> Settled(log.View(), [], old(link.peer.View()), t,
        true, false, [Msg.Commit(t, n)], syncQueue, link.peer.View())
      ensures alive ==> answer.value == ReplyTo(Msg.Commit(t, n), old(link.peer.View()))
      ensures Requested(Msg.Commit(t, n), FateOf(old(link.fates)), old(link.peer.View()),
        syncQueue, link.peer.View(), alive)
    {
      var c := Msg.Commit(t, n);
      AnswerTells(log.View(), link.peer.View(), t);
      SettledByLoss(log.View(), link.peer.View(), t);
      RestHasFewerFailures(link.fates);
      answer := link.SendReceive(c);
      if answer == None {
        Enqueue(c);
        alive := false;
        assert syncQueue == [c];
      }
    }

    /** Queue what a lagging backup asks for: the writes, or the transaction itself. */
    method EnqueueRemedy(t: Tsn, r: Reply, ghost b: Node)
      requires Valid() && Decided(log.View(), t) && syncQueue == []
      requires Lagging(r) && Tells(log.View(), b, t, r, link.peer.View())
      modifies this`syncQueue
      ensures Helps(log.View(), b, t, syncQueue, link.peer.View())
    {
      if r == AckResend {
        EnqueueWrites(t);
        assert syncQueue == Resend(log.log[t], t, log.log[t].num);
      } else {
        Enqueue(Make(t, log.log[t].file));
        assert syncQueue == [Make(t, log.log[t].file)];
      }
    }

    /** A commit that follows earlier progress from queue q0 and backup b0. */
    method CommitAfter(t: Tsn, n: int, ghost q0: seq<Msg>, ghost b0: Node, ghost before: seq<Msg>)
      returns (ok: bool, ghost sent: seq<Msg>)
      requires Valid() && Resendable(log.View(), Effective())
      requires t >= 0 && IsCommitted(log.log, t) && log.log[t].num == n
      requires Progress(log.View(), q0, b0, before, syncQueue, link.peer.View())
      modifies this, link, link.peer, log`registered
      ensures Valid() && Resendable(log.View(), Effective()) && (log.registered ==> old(log.registered))
      ensures Settled(log.View(), q0, b0, t, ok, alive, sent, syncQueue, link.peer.View())
      ensures CommitsKept(old(link.peer.View()), link.peer.View())
      ensures Failures(link.fates) <= Failures(old(link.fates))
      ensures old(alive) && !alive ==> Failures(link.fates) < Failures(old(link.fates))
      decreases Failures(link.fates), if alive then 0 else 1, 1 + Lag(Effective(), t, n), 2
    {
      ghost var p, q1, b1, more := log.View(), syncQueue, link.peer.View(), [];
      ok, more := Commit(t, n);
      SettledAfter(p, q0, b0, before, q1, b1, t, ok, alive, more, syncQueue, link.peer.View());
      DeliverAllWellFormed(q1, b1);
      EchoesKeepResendable(p, DeliverAll(q1, b1), more);
      sent := before + more;
    }

    /** Queue the writes 1..n of a transaction again. */
    method EnqueueWrites(t: Tsn)
      requires log.Valid() && log.role == Primary && Decided(log.View(), t)
      modifies this`syncQueue
      ensures syncQueue == old(syncQueue) + Resend(log.log[t], t, log.log[t].num)
    {
      var x := log.log[t];
      var number := 1;
      assert old(syncQueue) + [] == old(syncQueue);
      while number != x.num + 1
        invariant 1 <= number <= x.num + 1
        invariant syncQueue == old(syncQueue) + Resend(x, t, number - 1)
        decreases x.num + 1 - number
      {
        Enqueue(Write(t, number, x.writes[number]));
        number := number + 1;
      }
    }

    /** Have the backup commit everything the primary has committed. If the connection
      * stays up throughout, success means that it has; failure always means that the
      * backup is connected and refuses one of these commits. */
    method IntegrityCheck() returns (ok: bool, ghost sent: seq<Msg>)
      requires Valid() && Resendable(log.View(), Effective()) && alive
      modifies this, link, link.peer, log`registered
      ensures Valid() && (log.registered ==> old(log.registered))
      ensures Progress(log.View(), old(syncQueue), old(link.peer.View()), sent, syncQueue, link.peer.View())
      ensures Failures(link.fates) <= Failures(old(link.fates))
      ensures !alive ==> Failures(link.fates) < Failures(old(link.fates))
      ensures ok && Failures(link.fates) == Failures(old(link.fates)) ==> Checked(log.View(), link.peer.View())
      ensures !ok ==> alive && SomeRefused(log.View(), old(Effective()))
      decreases Failures(link.fates), if alive then 0 else 1, 10, 0
    {
      ghost var p, q0, b0, f0 := log.View(), syncQueue, link.peer.View(), Failures(link.fates);
      sent := [];
      ProgressNone(p, q0, b0);
      var holder := log.GetCommits();
      ghost var all := holder;
      assert Listed(p, all);
      while holder != []
        invariant Valid() && log.View() == p && Resendable(p, Effective())
        invariant log.registered ==> old(log.registered)
        invariant holder <= all && (Failures(link.fates) == f0 ==> CheckedDownTo(all, holder, link.peer.View()))
        invariant Progress(p, q0, b0, sent, syncQueue, link.peer.View())
        invariant Failures(link.fates) <= f0 && (!alive ==> Failures(link.fates) < f0)
        decreases |holder|
      {
        ghost var b1 := link.peer.View();
        var m := holder[|holder| - 1];
        assert m in all;
        var done;
        done, sent := CommitAfter(m.t, m.n, q0, b0, sent);
        if !done {
          return false, sent;
        }
        if Failures(link.fates) == f0 {
          CheckedOneMore(all, holder, b1, link.peer.View());
        }
        holder := holder[..|holder| - 1];
      }
      if Failures(link.fates) == f0 {
        AllChecked(p, all, link.peer.View());
      }
      return true, sent;
    }
  }
}
