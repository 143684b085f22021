/** The request handlers of a primary, and whole runs of primary and backup. */
module Sessions {
  import opened TransactionLog
  import opened LogProperties
  import opened Delivery
  import opened Echoes
  import opened Simulation
  import opened Logs
  import opened Replication
  import opened Lockstep

  /** A client's request. A new transaction carries the verdict of the file-name check
    * and the numbers the generator draws. */
  datatype Request = New(name: string, valid: bool, draws: seq<Tsn>) | Ask(m: Msg)

  /** The message a request amounts to on the log p; None if it is turned away. */
  ghost function Meant(req: Request, p: Node): Option<Msg> {
    match req
    case Ask(m) => Some(m)
    case New(name, valid, draws) =>
      if valid && HasFreeDraw(draws, p.log) then Some(Make(Picked(draws, p.log), name)) else None
  }

  /** MAKE_TXN is not a client's request. */
  predicate FromClient(req: Request) {
    req.Ask? ==> !req.m.Make?
  }

  ghost function Serve(req: Request, p: Node): Node
    requires WellFormed(p.log)
  {
    var m := Meant(req, p);
    if m == None then p else Step(Primary, p, Op(m.value, true, true))
  }

  /** The transactions replication has lost track of once the request is served. */
  ghost function LostBy(lost: set<Tsn>, req: Request, p: Node): set<Tsn> {
    var m := Meant(req, p);
    if m == None then lost else LostWith(lost, m.value, p)
  }

  /** Whether a request makes a commit go ahead. */
  ghost predicate Commits(req: Request, p: Node) {
    req.Ask? && Exec(Primary, true, p, req.m).1 == Committing
  }

  /** A request makes no commit go ahead, or no message of what is then decided was lost. */
  ghost predicate StaysIntact(lost: set<Tsn>, req: Request, p: Node) {
    req.Ask? ==> CommitsIntact(lost, req.m, p)
  }

  /** What an acknowledged request to open or abort a transaction leaves on both servers,
    * unless messages about that transaction are lost. */
  ghost predicate OnBoth(req: Request, p: Node, p': Node, e': Node, reply: Reply, lost: set<Tsn>) {
    var m := Meant(req, p);
    reply == Ack && m != None && m.value.t !in LostBy(lost, req, p) ==>
      var t := m.value.t;
      match req
      case New(name, _, _) =>
        && t in p'.log && p'.log[t] == Txn(Active, 0, Fresh, name, map[])
        && t in e'.log && e'.log[t] == p'.log[t]
      case Ask(Abort(_)) => t !in p'.log && t !in e'.log
      case _ => true
  }

  lemma ReachesBoth(req: Request, p: Node, e: Node, lost: set<Tsn>)
    requires InSyncBut(lost, p, e)
    ensures var m := Meant(req, p);
      m != None ==> OnBoth(req, p, Serve(req, p), DeliverAll(Forwarded(m.value, p), e),
        Answer(Exec(Primary, true, p, m.value).1), lost)
  {
    var m := Meant(req, p);
    if m != None && m.value.t !in LostBy(lost, req, p) {
      match req
      case New(name, _, _) =>
        QueuedIsForwarded(m.value, p);
        if |name| >= 2 { MakeReachesBackup(lost, p, e, m.value.t, name); }
      case Ask(Abort(t)) =>
        if Exec(Primary, true, p, Abort(t)).1 == Accepted { AbortReachesBackup(lost, p, e, t); }
      case _ =>
    }
  }

  class Session {
    const log: LogHandler
    const rep: ReplicationManager

    ghost predicate Valid()
      reads this, rep, log, rep.log, rep.link, rep.link.peer
    {
      rep.Valid() && rep.log == log
    }

    ghost predicate InStep(lost: set<Tsn>)
      reads this, rep, log, rep.log, rep.link, rep.link.peer
    {
      Valid() && Running(log.View(), rep.syncQueue, rep.link.peer.View(), lost)
    }

    /** No backup is connected or has announced itself. */
    ghost predicate Offline()
      reads this, rep, log
    {
      !rep.alive && !log.registered
    }

    constructor (log: LogHandler, rep: ReplicationManager)
      requires rep.Valid() && rep.log == log
      ensures Valid() && this.log == log && this.rep == rep
    {
      this.log, this.rep := log, rep;
    }

    /** Ask the client for the writes that are missing, the highest first. */
    method ResendRequests(t: Tsn) returns (asked: seq<int>)
      requires log.Valid() && t in log.log
      ensures forall k :: k in asked <==> Hole(log.log[t].writes, log.log[t].num, k)
      ensures forall i, j :: 0 <= i < j < |asked| ==> asked[i] > asked[j]
    {
      var _, stack := log.CanCommit(t, log.log[t].num);
      ghost var all := stack;
      asked := [];
      while stack != []
        invariant |stack| <= |all| && stack == all[..|stack|]
        invariant forall k :: k in asked <==> k in all[|stack|..]
        invariant forall i :: 0 <= i < |asked| ==> asked[i] in all[|stack|..]
        invariant forall i, j :: 0 <= i < j < |asked| ==> asked[i] > asked[j]
        decreases |stack|
      {
        var top := stack[|stack| - 1];
        assert all[|stack| - 1..] == [top] + all[|stack|..];
        asked := asked + [top];
        stack := stack[..|stack| - 1];
      }
      assert all[0..] == all;
    }

    /** The backup commits first; then the primary appends the block, marks the
      * transaction committed and saves. A refused commit leaves it WRITING. */
    method DoCommit(t: Tsn) returns (reply: Reply, ghost sent: seq<Msg>)
      requires Valid() && t in log.log && log.log[t].status == Writing
      requires rep.alive || log.registered ==> Repairable(log.View(), rep.Effective(), t)
      requires !rep.alive && log.registered ==> Resendable(log.View(), rep.Effective())
      modifies rep, rep.link, rep.link.peer, log
      ensures Valid() && (old(Offline()) ==> Offline())
      ensures Settled(old(log.View()), old(rep.syncQueue), old(rep.link.peer.View()), t,
        reply == Ack, rep.alive, sent, rep.syncQueue, rep.link.peer.View())
      ensures reply == Ack || reply == Error(205)
      ensures reply == Ack ==> log.View() == FinishCommit(old(log.View()), t) && log.saved == log.log
      ensures reply != Ack ==> log.View() == old(log.View()) && log.saved == old(log.saved)
      ensures !old(rep.alive) && !old(log.registered) ==>
        && reply == Ack && sent == [Commit(t, old(log.log[t].num))]
        && rep.syncQueue == old(rep.syncQueue) + sent && rep.link.peer.View() == old(rep.link.peer.View())
      ensures old(rep.alive) && ReplyTo(Commit(t, old(log.log[t].num)), old(rep.Effective())) == Ack ==>
        RequestedAfter(Commit(t, old(log.log[t].num)), old(rep.link.fates), old(rep.syncQueue),
          old(rep.link.peer.View()), rep.syncQueue, rep.link.peer.View(), rep.alive)
    {
      var n := log.log[t].num;
      var ok;
      ok, sent := rep.Commit(t, n);
      if ok {
        Finish(t);
        return Ack, sent;
      }
      return Error(205), sent;
    }

    /** The local part of a commit: append the block, mark the transaction and save. */
    method Finish(t: Tsn)
      requires log.Valid() && t in log.log && log.log[t].status == Writing
      modifies log`files, log`log, log`saved
      ensures log.View() == FinishCommit(old(log.View()), t) && log.saved == log.log
      ensures log.Valid()
    {
      var _ := log.WriteFile(t, true);
      log.ChangeStatus(t, Committed);
      log.Save();
    }

    /** Execute a request on the log and queue it for the backup if it was accepted,
      * or if it is the write that completes a commit. */
    method ExecuteCommand(m: Msg, ghost lost: set<Tsn>) returns (out: Outcome)
      requires InStep(lost) && !m.Make?
      modifies rep`syncQueue, log`log, log`saved, log`files
      ensures Valid()
      ensures Executed(
        m, old(log.View()), old(rep.syncQueue), rep.link.peer.View(), lost, out, log.View(), rep.syncQueue)
    {
      ghost var p, q, b := log.View(), rep.syncQueue, rep.link.peer.View();
      ExecutedOnBoth(m, p, q, b, lost);
      out := ExecuteOnLog(log, m);
      if out == Accepted || (out == Committing && m.Write?) {
        rep.Enqueue(m);
      } else {
        assert q + [] == q;
      }
    }

    /** Serve one request. The answer is that of the local log; the primary's state and
      * the effective backup both take exactly the step the request means. What was in step
      * stays so, but for the transaction of a request that replication loses. */
    method Handle(req: Request, ghost lost: set<Tsn>) returns (reply: Reply, told: int)
      requires InStep(lost) && FromClient(req) && (Offline() || StaysIntact(lost, req, log.View()))
      requires req.New? ==> HasFreeDraw(req.draws, log.log)
      modifies rep, rep.link, rep.link.peer, log
      ensures InStep(LostBy(lost, req, old(log.View()))) && (old(Offline()) ==> Offline())
      ensures lost == {} ==> (InStep({}) <==> LostBy({}, req, old(log.View())) == {})
      ensures log.View() == Serve(req, old(log.View()))
      ensures var m := Meant(req, old(log.View()));
        if m == None then reply == Error(205) && rep.Effective() == old(rep.Effective())
        else
          && rep.Effective() == DeliverAll(Forwarded(m.value, old(log.View())), old(rep.Effective()))
          && reply == Answer(Exec(Primary, true, old(log.View()), m.value).1)
      ensures Commits(req, old(log.View())) && old(rep.alive) ==>
        BackupCommitsIff(req.m.t, Arrives(old(rep.link.fates), PlaceOfCommit(req.m, old(rep.syncQueue))))
      ensures OnBoth(req, old(log.View()), log.View(), rep.Effective(), reply, lost)
      ensures told == if req.New? && req.valid then Picked(req.draws, old(log.log)) else 0
    {
      ghost var p, e := log.View(), rep.Effective();
      ReachesBoth(req, p, e, lost);
      match req {
        case New(name, valid, draws) =>
          reply, told := HandleNew(name, valid, draws, lost);
        case Ask(m) =>
          told := 0;
          reply := HandleAsk(m, lost);
      }
    }

    /** The COMMIT of m's transaction is sent after so many other messages. */
    static ghost function PlaceOfCommit(m: Msg, q: seq<Msg>): nat {
      |q| + if m.Write? then 1 else 0
    }

    /** The primary has committed t; whether the backup has is what `arrives` says. */
    ghost predicate BackupCommitsIff(t: Tsn, arrives: bool)
      reads this, rep, log, rep.log, rep.link, rep.link.peer
    {
      IsCommitted(log.log, t) && (CommittedAt(rep.link.peer.View(), t, log.log[t].num) <==> arrives)
    }

    /** Open a transaction and tell the client its number. */
    method HandleNew(name: string, valid: bool, draws: seq<Tsn>, ghost lost: set<Tsn>)
      returns (reply: Reply, told: int)
      requires InStep(lost) && HasFreeDraw(draws, log.log)
      modifies rep`syncQueue, log`log, log`saved
      ensures InStep(LostBy(lost, New(name, valid, draws), old(log.View())))
      ensures lost == {} ==> (InStep({}) <==> LostBy({}, New(name, valid, draws), old(log.View())) == {})
      ensures told == if valid then Picked(draws, old(log.log)) else 0
      ensures !valid ==> reply == Error(205) && log.View() == old(log.View()) && rep.Effective() == old(rep.Effective())
      ensures valid ==> var m := Make(Picked(draws, old(log.log)), name);
        && reply == Ack
        && log.View() == Step(Primary, old(log.View()), Op(m, true, true))
        && rep.Effective() == DeliverAll(Forwarded(m, old(log.View())), old(rep.Effective()))
    {
      ghost var p, q, b := log.View(), rep.syncQueue, rep.link.peer.View();
      var t := log.NewTxn(name, valid, draws);
      if t == 0 {
        return Error(205), 0;
      }
      ghost var m := Make(t, name);
      ExecutedOnBoth(m, p, q, b, lost);
      rep.Enqueue(Make(t, name));
      reply, told := Ack, t;
      ServedByExecution(m, p, q, b, lost, Accepted, log.View(), rep.syncQueue);
      if lost == {} { LossIsNoticed(m, p, q, b, reply, log.View(), rep.syncQueue, b); }
    }

    method HandleAsk(m: Msg, ghost lost: set<Tsn>) returns (reply: Reply)
      requires InStep(lost) && !m.Make? && (Offline() || CommitsIntact(lost, m, log.View()))
      modifies rep, rep.link, rep.link.peer, log
      ensures InStep(LostWith(lost, m, old(log.View()))) && (old(Offline()) ==> Offline())
      ensures lost == {} ==> (InStep({}) <==> !LosesMessage(m, old(log.View())))
      ensures log.View() == Step(Primary, old(log.View()), Op(m, true, true))
      ensures rep.Effective() == DeliverAll(Forwarded(m, old(log.View())), old(rep.Effective()))
      ensures reply == Answer(Exec(Primary, true, old(log.View()), m).1)
      ensures Commits(Ask(m), old(log.View())) && old(rep.alive) ==>
        BackupCommitsIff(m.t, Arrives(old(rep.link.fates), PlaceOfCommit(m, old(rep.syncQueue))))
    {
      ghost var p, q, b := log.View(), rep.syncQueue, rep.link.peer.View();
      ghost var out;
      reply, out := Perform(m, lost);
      if lost == {} { LossIsNoticed(m, p, q, b, reply, log.View(), rep.syncQueue, rep.link.peer.View()); }
    }

    /** Execute the request, and replicate and finish the commit if it starts one. */
    method Perform(m: Msg, ghost lost: set<Tsn>) returns (reply: Reply, ghost out: Outcome)
      requires InStep(lost) && !m.Make? && (Offline() || CommitsIntact(lost, m, log.View()))
      modifies rep, rep.link, rep.link.peer, log
      ensures Valid() && (old(Offline()) ==> Offline())
      ensures Served(m, old(log.View()), old(rep.syncQueue), old(rep.link.peer.View()), lost,
        reply, log.View(), rep.syncQueue, rep.link.peer.View())
      ensures out == Exec(Primary, true, old(log.View()), m).1
      ensures out == Committing && old(rep.alive) ==>
        BackupCommitsIff(m.t, Arrives(old(rep.link.fates), PlaceOfCommit(m, old(rep.syncQueue))))
    {
      ghost var p, q, b := log.View(), rep.syncQueue, rep.link.peer.View();
      var result := ExecuteCommand(m, lost);
      ghost var p1, q1 := log.View(), rep.syncQueue;
      reply, out := Answer(result), result;
      if result == Committing {
        reply := CompleteCommit(m, lost, p, q);
      } else {
        ServedByExecution(m, p, q, b, lost, out, p1, q1);
      }
    }

    /** A request executed at p with queue q has started a commit: replicate and finish it. */
    method CompleteCommit(m: Msg, ghost lost: set<Tsn>, ghost p: Node, ghost q: seq<Msg>) returns (reply: Reply)
      requires Valid() && !m.Make? && Running(p, q, rep.link.peer.View(), lost)
      requires Executed(m, p, q, rep.link.peer.View(), lost, Committing, log.View(), rep.syncQueue)
      requires Offline() || Intact(log.View(), LostWith(lost, m, p))
      modifies rep, rep.link, rep.link.peer, log
      ensures Valid() && reply == Ack && (old(Offline()) ==> Offline())
      ensures Served(
        m, p, q, old(rep.link.peer.View()), lost, Ack, log.View(), rep.syncQueue, rep.link.peer.View())
      ensures old(rep.alive) ==> BackupCommitsIff(m.t, Arrives(old(rep.link.fates), PlaceOfCommit(m, q)))
    {
      ghost var b, p1, q1 := rep.link.peer.View(), log.View(), rep.syncQueue;
      CommitStarts(m, p, q, b, lost, p1, q1);
      reply := CommitPending(m.t, LostWith(lost, m, p));
      ServedByCommit(m, p, q, b, lost, p1, q1, log.View(), rep.syncQueue, rep.link.peer.View());
    }

    /** The commit of the one transaction that a request has just moved to WRITING. With a
      * connected backup it depends on the fates of the messages whether it has committed by
      * the time the primary has. */
    method CommitPending(t: Tsn, ghost lost: set<Tsn>) returns (reply: Reply)
      requires Valid() && t in log.log && log.log[t].status == Writing && OnlyPending(log.View(), t)
      requires InSyncBut(lost, log.View(), rep.Effective())
      requires Offline() || (Intact(log.View(), lost) && Steady(rep.syncQueue, rep.link.peer.View()))
      modifies rep, rep.link, rep.link.peer, log
      ensures Valid() && reply == Ack && (old(Offline()) ==> Offline())
      ensures CommitDone(t, old(log.View()), old(rep.syncQueue), old(rep.link.peer.View()), lost,
        log.View(), rep.syncQueue, rep.link.peer.View())
      ensures old(rep.alive) ==> BackupCommitsIff(t, Arrives(old(rep.link.fates), |old(rep.syncQueue)|))
    {
      ghost var p1, q1, b1, sent := log.View(), rep.syncQueue, rep.link.peer.View(), [];
      ghost var fates, online := rep.link.fates, rep.alive;
      ghost var follows := Intact(p1, lost) && Steady(q1, b1);
      if follows {
        SteadyEndsQuiet(q1, b1);
        SyncFollows(lost, p1, DeliverAll(q1, b1));
        FollowerAcknowledges(p1, DeliverAll(q1, b1), t);
      }
      reply, sent := DoCommit(t);
      CommitBoth(lost, p1, t, q1, b1, sent, rep.syncQueue, rep.link.peer.View());
      if online { CommittedIffItArrives(p1, q1, b1, t, fates, rep.syncQueue, rep.link.peer.View(), rep.alive); }
    }

    /** The periodic check between requests: drain the queue or reconnect. */
    method Check(ghost lost: set<Tsn>)
      requires InStep(lost) && (Offline() || Intact(log.View(), lost))
      modifies rep, rep.link, rep.link.peer, log`registered
      ensures InStep(lost) && rep.Effective() == old(rep.Effective()) && log.View() == old(log.View())
      ensures old(Offline()) ==> Offline()
      ensures !old(Offline()) && old(rep.link.connects) == [] && Failures(old(rep.link.fates)) == 0 ==> rep.alive
      ensures old(rep.alive) && rep.alive ==> rep.syncQueue == []
      ensures !old(rep.alive) && rep.alive && Failures(rep.link.fates) == Failures(old(rep.link.fates)) ==>
        Checked(log.View(), rep.link.peer.View())
    {
      ghost var p, q, b := log.View(), rep.syncQueue, rep.link.peer.View();
      if Intact(p, lost) {
        SteadyEndsQuiet(q, b);
        SyncFollows(lost, p, DeliverAll(q, b));
      }
      ghost var sent := rep.PrimaryOps();
      if Intact(p, lost) {
        NoneRefused(lost, p, DeliverAll(q, b));
        EchoesOfQuietPrimary(p, DeliverAll(q, b), sent);
        SteadyBackupFirst(lost, p, rep.syncQueue, rep.link.peer.View());
      }
    }
  }

  // ----- whole runs --------------------------------------------------------------------

  /** Something that happens to the pair of servers. Each handler comes with what will
    * become of the messages and connection attempts it makes. */
  datatype Moment =
    | Client(req: Request, fates: seq<Fate>, connects: seq<bool>)
    | Timer(fates: seq<Fate>, connects: seq<bool>)
    | BackupAnnounces

  /** The primary's log and files after one moment, had there never been a backup, and the
    * transactions of which replication has lost a message by then. */
  ghost function AfterOne(p: Node, lost: set<Tsn>, moment: Moment): (r: (Node, set<Tsn>))
    requires WellFormed(p.log)
    ensures WellFormed(r.0.log)
  {
    if moment.Client? then
      ServeWellFormed(moment.req, p);
      (Serve(moment.req, p), LostBy(lost, moment.req, p))
    else (p, lost)
  }

  /** The same of a whole run. */
  ghost function Alone(p: Node, lost: set<Tsn>, moments: seq<Moment>): (Node, set<Tsn>)
    requires WellFormed(p.log)
    decreases |moments|
  {
    if moments == [] then (p, lost)
    else
      var (p1, lost1) := AfterOne(p, lost, moments[0]);
      Alone(p1, lost1, moments[1..])
  }

  /** No connected or announced backup is asked for the commit of a transaction of which a
    * message has been lost. `online` says that there may be such a backup. */
  ghost predicate AnswerableOne(p: Node, lost: set<Tsn>, online: bool, moment: Moment) {
    online ==>
      match moment
      case Client(req, _, _) => StaysIntact(lost, req, p)
      case Timer(_, _) => Intact(p, lost)
      case BackupAnnounces => true
  }

  ghost predicate Answerable(p: Node, lost: set<Tsn>, online: bool, moments: seq<Moment>)
    requires WellFormed(p.log)
    decreases |moments|
  {
    moments == [] ||
      var (p1, lost1) := AfterOne(p, lost, moments[0]);
      && AnswerableOne(p, lost, online, moments[0])
      && Answerable(p1, lost1, online || moments[0].BackupAnnounces?, moments[1..])
  }

  lemma ServeWellFormed(req: Request, p: Node)
    requires WellFormed(p.log)
    ensures WellFormed(Serve(req, p).log)
  {
    var m := Meant(req, p);
    if m != None { StepWellFormed(Primary, p, Op(m.value, true, true)); }
  }

  method Live(s: Session, moment: Moment, ghost lost: set<Tsn>, ghost online: bool)
    requires s.InStep(lost) && (s.Offline() || online) && AnswerableOne(s.log.View(), lost, online, moment)
    requires moment.Client? ==> FromClient(moment.req)
    modifies s.rep, s.rep.link, s.rep.link.peer, s.log
    ensures var (p1, lost1) := AfterOne(old(s.log.View()), lost, moment);
      s.log.View() == p1 && s.InStep(lost1)
    ensures s.Offline() || online || moment.BackupAnnounces?
  {
    match moment {
      case Client(req, fates, connects) =>
        s.rep.link.fates, s.rep.link.connects := fates, connects;
        if req.Ask? || exists k :: 0 <= k < |req.draws| && req.draws[k] !in s.log.log {
          var _, _ := s.Handle(req, lost);
        }
      case Timer(fates, connects) =>
        s.rep.link.fates, s.rep.link.connects := fates, connects;
        s.Check(lost);
      case BackupAnnounces =>
        s.log.registered := true;
    }
  }

  /** Simulation over whole runs. From two servers in step, whatever is asked and whichever
    * messages and connections are lost: once the queue is delivered, the servers agree on
    * every transaction of which no message was too short to arrive, and are in step if there
    * was no such message; every commit of the primary is on the backup or queued. The
    * failures leave no trace in the primary's own state. */
  method RunBoth(s: Session, moments: seq<Moment>, ghost lost: set<Tsn>)
    requires s.InStep(lost) && Answerable(s.log.View(), lost, !s.Offline(), moments)
    requires forall m :: m in moments && m.Client? ==> FromClient(m.req)
    modifies s.rep, s.rep.link, s.rep.link.peer, s.log
    ensures var (p', lost') := Alone(old(s.log.View()), lost, moments);
      && s.log.View() == p' && s.InStep(lost')
      && InSyncBut(lost', p', s.rep.Effective())
      && (lost' == {} ==> InSync(p', s.rep.Effective()))
      && BackupFirst(p', s.rep.syncQueue, s.rep.link.peer.View())
  {
    ghost var online, now := !s.Offline(), lost;
    for i := 0 to |moments|
      invariant s.InStep(now) && (s.Offline() || online)
      invariant Answerable(s.log.View(), now, online, moments[i..])
      invariant Alone(s.log.View(), now, moments[i..]) == Alone(old(s.log.View()), lost, moments)
    {
      assert moments[i..][0] == moments[i] && moments[i..][1..] == moments[i + 1..];
      assert moments[i] in moments;
      ghost var p := s.log.View();
      Live(s, moments[i], now, online);
      now, online := AfterOne(p, now, moments[i]).1, online || moments[i].BackupAnnounces?;
    }
    InSyncButNothing(s.log.View(), s.rep.Effective());
  }

  /** Two servers started empty on the same files are in step. */
  method StartBoth(files: map<string, string>) returns (s: Session)
    ensures fresh(s) && fresh(s.rep) && fresh(s.rep.link) && fresh(s.rep.link.peer) && fresh(s.log)
    ensures s.InStep({}) && s.Offline() && s.log.View() == Node(map[], files)
  {
    var log := new LogHandler(Primary, NoFile, files);
    var peer := new LogHandler(Backup, NoFile, files);
    var link := new Link(peer);
    var rep := new ReplicationManager(log, link);
    s := new Session(log, rep);
  }

  // ----- a primary ahead of its backup -------------------------------------------------

  function WithOneWrite(files: map<string, string>): Node {
    Node(map[1 := NewTxn("ab").(writes := map[1 := "xx"])], files)
  }

  lemma OneTxnMade(files: map<string, string>)
    ensures var (p, one) := (Node(map[], files), Node(map[1 := NewTxn("ab")], files));
      && Meant(New("ab", true, [1]), p) == Some(Make(1, "ab"))
      && Step(Primary, p, Op(Make(1, "ab"), true, true)) == one
      && WellFormed(one.log)
      && Exec(Primary, true, one, Write(1, 1, "xx")) == (WithOneWrite(files), Accepted)
  {
    var draws: seq<Tsn>, log: map<Tsn, Txn> := [1], map[];
    assert draws[0] !in log;
    assert HasFreeDraw(draws, log);
    var x := NewTxn("ab").(writes := map[1 := "xx"]);
    assert map[][1 := "xx"] == map[1 := "xx"];
    assert map[1 := NewTxn("ab")][1 := x] == map[1 := x];
  }

  lemma OneWriteCommits(files: map<string, string>)
    ensures var (p, c) := (WithOneWrite(files), Commit(1, 1));
      && WellFormed(p.log) && Commits(Ask(c), p)
      && var p' := Step(Primary, p, Op(c, true, true));
      1 in p'.log && p'.log[1].num == 1
  {
  }

  /** A client opens a transaction and writes to it once. */
  method WriteOnce(files: map<string, string>) returns (s: Session)
    ensures fresh(s) && fresh(s.rep) && fresh(s.rep.link) && fresh(s.rep.link.peer) && fresh(s.log)
    ensures s.InStep({}) && s.log.View() == WithOneWrite(files)
  {
    s := StartBoth(files);
    OneTxnMade(files);
    var draws: seq<Tsn> := [1];
    assert draws[0] !in s.log.log;
    var _, _ := s.Handle(New("ab", true, draws), {});
    var _, _ := s.Handle(Ask(Write(1, 1, "xx")), {});
  }

  /** The backup announces itself, and all that is queued reaches it. */
  method Connect(s: Session)
    requires s.InStep({})
    modifies s.rep, s.rep.link, s.rep.link.peer, s.log
    ensures s.InStep({}) && s.log.View() == old(s.log.View())
    ensures s.rep.alive && s.rep.syncQueue == []
  {
    s.log.registered := true;
    s.rep.link.fates, s.rep.link.connects := [], [];
    s.Check({});
    s.rep.link.fates, s.rep.link.connects := [], [];
    s.Check({});
  }

  /** The backup is connected and has received everything, but the COMMIT is lost on its way.
    * The primary has then committed and the backup has not. */
  method OneLostCommit(files: map<string, string>) returns (s: Session)
    ensures s.InStep({})
    ensures CommittedAt(s.log.View(), 1, 1) && !CommittedAt(s.rep.link.peer.View(), 1, 1)
  {
    s := WriteOnce(files);
    Connect(s);
    LoseCommit(s, files);
  }

  method LoseCommit(s: Session, files: map<string, string>)
    requires s.InStep({}) && s.log.View() == WithOneWrite(files) && s.rep.alive && s.rep.syncQueue == []
    modifies s.rep, s.rep.link, s.rep.link.peer, s.log
    ensures s.InStep({})
    ensures CommittedAt(s.log.View(), 1, 1) && !CommittedAt(s.rep.link.peer.View(), 1, 1)
  {
    s.rep.link.fates := [LostBefore];
    OneWriteCommits(files);
    var _, _ := s.Handle(Ask(Commit(1, 1)), {});
  }
}
