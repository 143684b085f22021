/** What the primary's messages do to its backup: delivery through `genEcho`,
  * redelivery after lost connections, and the relation that replication keeps. */
module Delivery {
  import opened TransactionLog

  /** The first words of an answer that the replication manager looks at. The backup
    * answers an incomplete commit once per hole; those answers are one `AckResend`. */
  datatype Reply = Ack | AckResend | Error(code: int)

  /** `genEcho` sends payloads shorter than two characters as no payload at all, and
    * the receiver then rejects the message (204). */
  predicate Short(m: Msg) {
    (m.Write? && |m.data| < 2) || (m.Make? && |m.name| < 2)
  }

  ghost function Deliver(m: Msg, nd: Node): Node {
    if Short(m) then nd else Exec(Backup, true, nd, m).0
  }

  function Answer(out: Outcome): Reply {
    match out
    case Accepted => Ack
    case Committing => Ack
    case AlreadyCommitted => Ack
    case Incomplete => AckResend
    case Refused(code) => Error(code)
  }

  ghost function ReplyTo(m: Msg, nd: Node): Reply {
    if Short(m) then Error(204) else Answer(Exec(Backup, true, nd, m).1)
  }

  ghost function DeliverAll(ms: seq<Msg>, nd: Node): Node {
    if ms == [] then nd else DeliverAll(ms[1..], Deliver(ms[0], nd))
  }

  lemma DeliverWellFormed(m: Msg, nd: Node)
    requires WellFormed(nd.log)
    ensures WellFormed(Deliver(m, nd).log)
  {
    ExecWellFormed(Backup, true, nd, m);
  }

  lemma {:induction false} DeliverAllWellFormed(ms: seq<Msg>, nd: Node)
    requires WellFormed(nd.log)
    ensures WellFormed(DeliverAll(ms, nd).log)
  {
    if ms != [] {
      DeliverWellFormed(ms[0], nd);
      DeliverAllWellFormed(ms[1..], Deliver(ms[0], nd));
    }
  }

  lemma {:induction false} DeliverConcat(a: seq<Msg>, b: seq<Msg>, nd: Node)
    ensures DeliverAll(a + b, nd) == DeliverAll(b, DeliverAll(a, nd))
  {
    if a == [] {
      assert a + b == b;
    } else {
      assert (a + b)[1..] == a[1..] + b;
      DeliverConcat(a[1..], b, Deliver(a[0], nd));
    }
  }

  lemma DeliverOneMore(ms: seq<Msg>, m: Msg, nd: Node)
    ensures DeliverAll(ms + [m], nd) == Deliver(m, DeliverAll(ms, nd))
  {
    DeliverConcat(ms, [m], nd);
    assert [m][1..] == [];
    assert DeliverAll([m], DeliverAll(ms, nd)) == DeliverAll([], Deliver(m, DeliverAll(ms, nd)));
  }

  // ----- redelivery -------------------------------------------------------------

  /** Every message, refused or not, has the same effect twice as once. */
  lemma DeliverIdempotent(m: Msg, nd: Node)
    requires WellFormed(nd.log)
    ensures Deliver(m, Deliver(m, nd)) == Deliver(m, nd)
  {
  }

  /** What becomes of one message on the wire. */
  datatype Fate = Through | LostBefore | LostAfter

  function FateOf(fates: seq<Fate>): Fate {
    if fates == [] then Through else fates[0]
  }

  function Rest(fates: seq<Fate>): seq<Fate> {
    if fates == [] then [] else fates[1..]
  }

  /** The drain loop: a message leaves the queue only after its answer arrives. */
  ghost function Drain(queue: seq<Msg>, nd: Node, fates: seq<Fate>): (seq<Msg>, Node) {
    if queue == [] || FateOf(fates) == LostBefore then (queue, nd)
    else if FateOf(fates) == LostAfter then (queue, Deliver(queue[0], nd))
    else Drain(queue[1..], Deliver(queue[0], nd), Rest(fates))
  }

  /** The fate of the message sent after k others. */
  function FateAt(fates: seq<Fate>, k: nat): Fate {
    if k < |fates| then fates[k] else Through
  }

  /** The fates of the messages sent after k others. */
  function FatesAfter(fates: seq<Fate>, k: nat): seq<Fate> {
    if k <= |fates| then fates[k..] else []
  }

  ghost predicate AllThrough(fates: seq<Fate>, k: nat) {
    forall i :: 0 <= i < k ==> FateAt(fates, i) == Through
  }

  lemma FateOfNext(fates: seq<Fate>, k: nat)
    ensures FateOf(fates) == FateAt(fates, 0) && FateOf(FatesAfter(fates, k)) == FateAt(fates, k)
    ensures FateAt(Rest(fates), k) == FateAt(fates, k + 1)
    ensures FatesAfter(Rest(fates), k) == FatesAfter(fates, k + 1)
  {
  }

  /** A drain empties the queue exactly if every message it sends gets through. */
  lemma {:induction false} DrainEmptiesIffAllThrough(queue: seq<Msg>, nd: Node, fates: seq<Fate>)
    ensures Drain(queue, nd, fates).0 == [] <==> AllThrough(fates, |queue|)
  {
    if queue != [] {
      FateOfNext(fates, 0);
      if FateOf(fates) == Through {
        DrainEmptiesIffAllThrough(queue[1..], Deliver(queue[0], nd), Rest(fates));
        forall i: nat ensures FateAt(Rest(fates), i) == FateAt(fates, i + 1) { FateOfNext(fates, i); }
        assert AllThrough(fates, |queue|) ==> AllThrough(Rest(fates), |queue| - 1);
        if AllThrough(Rest(fates), |queue| - 1) {
          forall i | 0 <= i < |queue| ensures FateAt(fates, i) == Through {
            if i > 0 { assert FateAt(Rest(fates), i - 1) == FateAt(fates, i); }
          }
        }
      }
    }
  }

  datatype LinkEvent = Enqueue(m: Msg) | DrainWith(fates: seq<Fate>)

  ghost function LinkRun(es: seq<LinkEvent>, queue: seq<Msg>, nd: Node): (seq<Msg>, Node)
    decreases |es|
  {
    if es == [] then (queue, nd)
    else match es[0]
      case Enqueue(m) => LinkRun(es[1..], queue + [m], nd)
      case DrainWith(fates) =>
        var (queue1, nd1) := Drain(queue, nd, fates);
        LinkRun(es[1..], queue1, nd1)
  }

  function Enqueued(es: seq<LinkEvent>): seq<Msg> {
    if es == [] then []
    else (if es[0].Enqueue? then [es[0].m] else []) + Enqueued(es[1..])
  }

  lemma {:induction false} DrainKeepsEffect(queue: seq<Msg>, nd: Node, fates: seq<Fate>)
    requires WellFormed(nd.log)
    ensures WellFormed(Drain(queue, nd, fates).1.log)
    ensures DeliverAll(Drain(queue, nd, fates).0, Drain(queue, nd, fates).1) == DeliverAll(queue, nd)
    ensures (forall i :: 0 <= i < |fates| ==> fates[i] == Through) ==> Drain(queue, nd, fates).0 == []
  {
    if queue != [] {
      DeliverWellFormed(queue[0], nd);
      if FateOf(fates) == LostAfter {
        DeliverIdempotent(queue[0], nd);
      } else if FateOf(fates) == Through {
        DrainKeepsEffect(queue[1..], Deliver(queue[0], nd), Rest(fates));
      }
    }
  }

  /** At-least-once delivery, exactly-once effect: however messages are queued and
    * drained and whichever transmissions are lost before or after processing, the
    * backup followed by what is still queued equals each message delivered once, in order. */
  lemma {:induction false} ExactlyOnceEffect(es: seq<LinkEvent>, queue: seq<Msg>, nd: Node)
    requires WellFormed(nd.log)
    ensures var (queue', nd') := LinkRun(es, queue, nd);
      && DeliverAll(queue', nd') == DeliverAll(queue + Enqueued(es), nd)
      && (queue' == [] ==> nd' == DeliverAll(queue + Enqueued(es), nd))
    decreases |es|
  {
    if es == [] {
      assert queue + [] == queue;
    } else {
      match es[0]
      case Enqueue(m) =>
        ExactlyOnceEffect(es[1..], queue + [m], nd);
        assert queue + [m] + Enqueued(es[1..]) == queue + Enqueued(es);
      case DrainWith(fates) =>
        var (queue1, nd1) := Drain(queue, nd, fates);
        DrainKeepsEffect(queue, nd, fates);
        ExactlyOnceEffect(es[1..], queue1, nd1);
        assert Enqueued(es) == [] + Enqueued(es[1..]) == Enqueued(es[1..]);
        DeliverConcat(queue1, Enqueued(es[1..]), nd1);
        DeliverConcat(queue, Enqueued(es[1..]), nd);
    }
  }

  // ----- primary and backup in step -----------------------------------------------

  ghost predicate SameTxn(x: Txn, y: Txn) {
    && x.status != Flag && x.status != Expired
    && y.file == x.file && y.writes == x.writes
    && (if x.status == Committed then y.status == Committed && y.num == x.num else y.status == Active)
  }

  /** Same transactions, entries and files, and committed at the same numbers. Only the
    * primary knows of pending commits, so it alone may be WAITING or WRITING. */
  ghost predicate InSync(p: Node, e: Node) {
    && WellFormed(p.log) && WellFormed(e.log)
    && p.log.Keys == e.log.Keys
    && p.files == e.files
    && forall t :: t in p.log ==> SameTxn(p.log[t], e.log[t])
  }

  /** What the primary's handler sends on for a request it serves at p: accepted
    * operations as they are, and a COMMIT once the transaction is complete. */
  ghost function Forwarded(m: Msg, p: Node): seq<Msg> {
    var (p1, out) := Exec(Primary, true, p, m);
    if m.Make? && m.t in p.log then []
    else if out == Accepted then [m]
    else if out == Committing && m.t in p1.log then (if m.Write? then [m] else []) + [Commit(m.t, p1.log[m.t].num)]
    else []
  }

  ghost predicate UnchangedBut(nd: Node, nd': Node, t: Tsn) {
    forall t' :: t' != t ==> (t' in nd'.log <==> t' in nd.log) && (t' in nd.log ==> nd'.log[t'] == nd.log[t'])
  }

  /** Servers in step stay in step when both change only t, and agree on it. */
  lemma InSyncAgain(p: Node, e: Node, p1: Node, e1: Node, t: Tsn)
    requires InSync(p, e) && UnchangedBut(p, p1, t) && UnchangedBut(e, e1, t)
    requires WellFormed(p1.log) && WellFormed(e1.log) && p1.files == e1.files
    requires t in p1.log <==> t in e1.log
    requires t in p1.log ==> SameTxn(p1.log[t], e1.log[t])
    ensures InSync(p1, e1)
  {
    assert forall t' :: t' in p1.log <==> t' in e1.log;
    forall t' | t' in p1.log ensures SameTxn(p1.log[t'], e1.log[t']) {
      if t' != t { assert SameTxn(p.log[t'], e.log[t']); }
    }
  }

  lemma AcceptedWriteInSync(t: Tsn, k: int, data: string, p: Node, e: Node)
    requires InSync(p, e) && |data| >= 2
    ensures var (p1, out) := AddEntry(Primary, true, p, t, k, data);
      if out == Accepted || out == Committing then InSync(p1, Deliver(Write(t, k, data), e)) else p1 == p
  {
    var m := Write(t, k, data);
    var (p1, out) := AddEntry(Primary, true, p, t, k, data);
    if out == Accepted || out == Committing {
      ExecWellFormed(Primary, true, p, m);
      DeliverWellFormed(m, e);
      ExecFrame(Primary, true, p, m);
      ExecFrame(Backup, true, e, m);
      WriteToBoth(t, k, data, p, e);
      InSyncAgain(p, e, p1, Deliver(m, e), t);
    }
  }

  lemma WriteToBoth(t: Tsn, k: int, data: string, p: Node, e: Node)
    requires InSync(p, e) && |data| >= 2
    requires AddEntry(Primary, true, p, t, k, data).1 in {Accepted, Committing}
    ensures var (p1, e1) := (AddEntry(Primary, true, p, t, k, data).0, Deliver(Write(t, k, data), e));
      && p1.files == e1.files && t in p1.log && t in e1.log
      && SameTxn(p1.log[t], e1.log[t])
  {
  }

  /** The start of a commit on the primary leaves it in step once the write that
    * triggered it, if any, is delivered. */
  lemma AcceptedInSync(m: Msg, p: Node, e: Node)
    requires InSync(p, e) && !Short(m)
    ensures var (p1, out) := Exec(Primary, true, p, m);
      if out == Accepted || (out == Committing && m.Write?) then InSync(p1, Deliver(m, e)) else InSync(p1, e)
  {
    match m
    case Write(t, k, data) => AcceptedWriteInSync(t, k, data, p, e);
    case Commit(t, n) => StartInSync(t, n, p, e);
    case Make(t, name) =>
    case Abort(t) =>
  }

  lemma StartInSync(t: Tsn, n: int, p: Node, e: Node)
    requires InSync(p, e)
    ensures InSync(CommitTxn(Primary, true, p, t, n).0, e)
    ensures CommitTxn(Primary, true, p, t, n).1 != Accepted
  {
    var p1 := CommitTxn(Primary, true, p, t, n).0;
    ExecWellFormed(Primary, true, p, Commit(t, n));
    ExecFrame(Primary, true, p, Commit(t, n));
    if t in p.log { assert SameTxn(p.log[t], e.log[t]); }
    InSyncAgain(p, e, p1, e, t);
  }

  lemma FinishInSync(p: Node, e: Node, t: Tsn)
    requires InSync(p, e) && t in p.log && p.log[t].status == Writing
    ensures Deliver(Commit(t, p.log[t].num), e)
      == FinishCommit(e.(log := e.log[t := e.log[t].(num := p.log[t].num)]), t)
    ensures InSync(FinishCommit(p, t), Deliver(Commit(t, p.log[t].num), e))
  {
    var n := p.log[t].num;
    DeliverWellFormed(Commit(t, n), e);
    var e1 := Deliver(Commit(t, n), e);
    var y := e.log[t];
    assert e.log[t := y.(status := Writing, num := n)][t := y.(status := Committed, num := n)]
      == e.log[t := y.(status := Committed, num := n)];
    assert e.log[t := y.(num := n)][t := y.(status := Committed, num := n)]
      == e.log[t := y.(status := Committed, num := n)];
  }

  /** The simulation step. Serving any request on the primary and delivering what it
    * forwards keeps the two servers in step, if and only if no payload is too short
    * to be forwarded. */
  lemma ForwardingKeepsSync(m: Msg, p: Node, e: Node)
    requires InSync(p, e)
    ensures InSync(Step(Primary, p, Op(m, true, true)), DeliverAll(Forwarded(m, p), e))
      <==> !Short(m) || Forwarded(m, p) == []
  {
    if Forwarded(m, p) == [] {
      NothingForwarded(m, p, e);
    } else if Short(m) {
      ShortIsLost(m, p, e);
    } else if Exec(Primary, true, p, m).1 == Committing {
      CommitForwardedInSync(m, p, e);
    } else {
      DeliverForwarded(m, p, e);
      AcceptedInSync(m, p, e);
    }
  }

  lemma CommitForwardedInSync(m: Msg, p: Node, e: Node)
    requires InSync(p, e) && !Short(m) && !m.Make? && Exec(Primary, true, p, m).1 == Committing
    ensures InSync(Step(Primary, p, Op(m, true, true)), DeliverAll(Forwarded(m, p), e))
  {
    var p1 := Exec(Primary, true, p, m).0;
    var e1 := if m.Write? then Deliver(m, e) else e;
    AcceptedInSync(m, p, e);
    CommittingIsFilled(Primary, true, p, m);
    FinishInSync(p1, e1, m.t);
    DeliverForwarded(m, p, e);
  }

  lemma NothingForwarded(m: Msg, p: Node, e: Node)
    requires InSync(p, e) && Forwarded(m, p) == []
    ensures InSync(Step(Primary, p, Op(m, true, true)), e)
  {
    var (p1, out) := Exec(Primary, true, p, m);
    if out == Committing { CommittingIsFilled(Primary, true, p, m); }
    if m.Commit? {
      StartInSync(m.t, m.n, p, e);
    } else {
      assert p1 == p;
    }
  }

  lemma DeliverForwarded(m: Msg, p: Node, e: Node)
    requires WellFormed(p.log) && !(m.Make? && m.t in p.log)
    ensures var (p1, out) := Exec(Primary, true, p, m);
      DeliverAll(Forwarded(m, p), e) ==
        if out == Accepted then Deliver(m, e)
        else if out == Committing then Deliver(Commit(m.t, p1.log[m.t].num), if m.Write? then Deliver(m, e) else e)
        else e
  {
    var (p1, out) := Exec(Primary, true, p, m);
    DeliverOneMore([], m, e);
    assert [] + [m] == [m];
    if out == Committing {
      CommittingIsFilled(Primary, true, p, m);
      var c := Commit(m.t, p1.log[m.t].num);
      DeliverOneMore([], c, e);
      assert [] + [c] == [c];
      DeliverOneMore([m], c, e);
    }
  }

  lemma ShortIsLost(m: Msg, p: Node, e: Node)
    requires InSync(p, e) && Short(m) && Forwarded(m, p) != []
    ensures !InSync(Step(Primary, p, Op(m, true, true)), DeliverAll(Forwarded(m, p), e))
  {
    DeliverForwarded(m, p, e);
    var p2, e2 := Step(Primary, p, Op(m, true, true)), DeliverAll(Forwarded(m, p), e);
    match m
    case Make(t, _) =>
      assert t in p2.log && t !in e2.log;
    case Write(t, k, _) =>
      ShortWriteIsLost(m, p, e);
      forall n ensures t in Deliver(Commit(t, n), e).log && Deliver(Commit(t, n), e).log[t].writes == e.log[t].writes {
        CommitKeepsWrites(t, n, e);
      }
      assert k in p2.log[t].writes && k !in e2.log[t].writes;
  }

  lemma CommitKeepsWrites(t: Tsn, n: int, e: Node)
    requires t in e.log
    ensures t in Deliver(Commit(t, n), e).log && Deliver(Commit(t, n), e).log[t].writes == e.log[t].writes
  {
  }

  lemma ShortWriteIsLost(m: Msg, p: Node, e: Node)
    requires InSync(p, e) && m.Write? && Exec(Primary, true, p, m).1 in {Accepted, Committing}
    ensures m.t in p.log && m.k !in e.log[m.t].writes
    ensures m.t in Step(Primary, p, Op(m, true, true)).log
    ensures m.k in Step(Primary, p, Op(m, true, true)).log[m.t].writes
  {
    assert SameTxn(p.log[m.t], e.log[m.t]);
    if Exec(Primary, true, p, m).1 == Committing { CommittingIsFilled(Primary, true, p, m); }
  }
}
