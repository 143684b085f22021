/** Which answer is read for which message. A backup answers an incomplete commit once for
  * every hole, and the manager reads one answer for each message it sends, so answers can
  * be read late. */
module Turns {
  import opened TransactionLog
  import opened LogProperties
  import opened Delivery
  import opened CatchUp
  import opened Echoes

  /** A message, the numbers the backup asks for if it is an incomplete commit, and how many
    * further answers arrive in the same piece as the one that is read; these are dropped. */
  datatype Exchange = Exchange(m: Msg, asked: seq<int>, dropped: nat)

  /** All answers to m: one for each number asked for, or just one. */
  ghost function Answers(e: Exchange, b: Node): seq<Reply> {
    if ReplyTo(e.m, b) == AckResend then seq(|e.asked|, _ => AckResend) else [ReplyTo(e.m, b)]
  }

  /** An incomplete commit asks for something. */
  ghost predicate Asking(es: seq<Exchange>, b: Node) {
    es == [] || (Answers(es[0], b) != [] && Asking(es[1..], Deliver(es[0].m, b)))
  }

  /** What is left to read after e when `unread` was left before. */
  ghost function LeftOver(e: Exchange, b: Node, unread: seq<Reply>): seq<Reply> {
    var all := unread + Answers(e, b);
    if 1 + e.dropped < |all| then all[1 + e.dropped..] else []
  }

  /** The answers as the manager reads them, and those left to read at the end. */
  ghost function Talk(es: seq<Exchange>, b: Node, unread: seq<Reply>): (seq<Reply>, seq<Reply>)
    requires Asking(es, b)
  {
    if es == [] then ([], unread)
    else
      var (read, left) := Talk(es[1..], Deliver(es[0].m, b), LeftOver(es[0], b, unread));
      ([(unread + Answers(es[0], b))[0]] + read, left)
  }

  // ----- answers read in turn --------------------------------------------------------------

  /** The answer that belongs to each message. */
  ghost function OwnReplies(es: seq<Exchange>, b: Node): seq<Reply> {
    if es == [] then [] else [ReplyTo(es[0].m, b)] + OwnReplies(es[1..], Deliver(es[0].m, b))
  }

  /** No answer is left to read whenever a message is sent. */
  ghost predicate InTurn(es: seq<Exchange>, b: Node, unread: seq<Reply>) {
    es == [] || (unread == [] && InTurn(es[1..], Deliver(es[0].m, b), LeftOver(es[0], b, unread)))
  }

  /** All answers to a message arrive in one piece. */
  ghost predicate InOnePiece(es: seq<Exchange>, b: Node) {
    es == [] || (|Answers(es[0], b)| <= 1 + es[0].dropped && InOnePiece(es[1..], Deliver(es[0].m, b)))
  }

  /** Every message reads the answer that belongs to it, with nothing left over from an
    * earlier one, if and only if each earlier message got all its answers in one piece: it
    * was not an incomplete commit with several holes, or they were dropped together. */
  lemma {:induction false} InTurnIffInOnePiece(es: seq<Exchange>, last: Exchange, b: Node)
    requires Asking(es + [last], b)
    ensures InTurn(es + [last], b, []) <==> InOnePiece(es, b)
    ensures InOnePiece(es, b) ==> Talk(es + [last], b, []).0 == OwnReplies(es + [last], b)
    decreases |es|
  {
    var all := es + [last];
    if es == [] {
      assert all == [last] && all[1..] == [];
    } else {
      assert all[0] == es[0] && all[1..] == es[1..] + [last];
      assert [] + Answers(es[0], b) == Answers(es[0], b);
      var b1 := Deliver(es[0].m, b);
      if |Answers(es[0], b)| <= 1 + es[0].dropped {
        InTurnIffInOnePiece(es[1..], last, b1);
      }
    }
  }

  // ----- servers in step ------------------------------------------------------------------

  function Single(m: Msg): Exchange {
    Exchange(m, [], 0)
  }

  function SingleAll(ms: seq<Msg>): seq<Exchange> {
    if ms == [] then [] else [Single(ms[0])] + SingleAll(ms[1..])
  }

  /** Each message gets one answer, and reads it. */
  ghost predicate OneEach(es: seq<Exchange>, b: Node) {
    && Asking(es, b) && InOnePiece(es, b)
    && Talk(es, b, []) == (OwnReplies(es, b), [])
  }

  lemma OneEachFirst(e: Exchange, es: seq<Exchange>, b: Node)
    requires ReplyTo(e.m, b) != AckResend && OneEach(es, Deliver(e.m, b))
    ensures OneEach([e] + es, b)
  {
    var all := [e] + es;
    assert all[0] == e && all[1..] == es;
    assert [] + Answers(e, b) == [ReplyTo(e.m, b)];
  }

  lemma SteadyAnswersOnce(q: seq<Msg>, b: Node)
    requires Steady(q, b) && q != []
    ensures ReplyTo(q[0], b) != AckResend
  {
    if ReplyTo(q[0], b) == AckResend {
      assert Steady(q[1..], Deliver(q[0], b));
      IncompleteWaits(q[0], b);
    }
  }

  lemma IncompleteWaits(m: Msg, b: Node)
    requires ReplyTo(m, b) == AckResend
    ensures !NoneWaiting(Deliver(m, b))
  {
    assert m.t in Deliver(m, b).log && Deliver(m, b).log[m.t].status == Waiting;
  }

  lemma {:induction false} EchoesOneEach(p: Node, e: Node, ms: seq<Msg>)
    requires Following(p, e) && AllEchoes(p, ms)
    ensures OneEach(SingleAll(ms), e)
    decreases |ms|
  {
    if ms != [] {
      assert ms[0] in ms;
      EchoToFollower(p, e, ms[0]);
      EchoesOneEach(p, Deliver(ms[0], e), ms[1..]);
      if ReplyTo(ms[0], e) == AckResend { IncompleteWaits(ms[0], e); }
      OneEachFirst(Single(ms[0]), SingleAll(ms[1..]), e);
    }
  }

  /** Servers in step never get more than one answer to a message: not to what is queued, and
    * not to the commits and repetitions a primary sends after that. So each message reads
    * its own answer, with nothing left over. */
  lemma {:induction false} InStepOneEach(p: Node, q: seq<Msg>, b: Node, ms: seq<Msg>)
    requires Steady(q, b) && Following(p, DeliverAll(q, b)) && AllEchoes(p, ms)
    ensures OneEach(SingleAll(q + ms), b)
    decreases |q|
  {
    if q == [] {
      assert q + ms == ms;
      EchoesOneEach(p, b, ms);
    } else {
      SteadyAnswersOnce(q, b);
      InStepOneEach(p, q[1..], Deliver(q[0], b), ms);
      assert (q + ms)[1..] == q[1..] + ms;
      OneEachFirst(Single(q[0]), SingleAll(q[1..] + ms), b);
    }
  }

  // ----- every answer in a piece of its own ---------------------------------------------------

  ghost predicate NoneDropped(es: seq<Exchange>) {
    forall e :: e in es ==> e.dropped == 0
  }

  /** Everything the backup answers. */
  ghost function AllAnswers(es: seq<Exchange>, b: Node): seq<Reply> {
    if es == [] then [] else Answers(es[0], b) + AllAnswers(es[1..], Deliver(es[0].m, b))
  }

  function Messages(es: seq<Exchange>): seq<Msg> {
    if es == [] then [] else [es[0].m] + Messages(es[1..])
  }

  /** Then one answer is read for each message, from the front of what has been answered. */
  lemma {:induction false} TalkReadsAll(es: seq<Exchange>, b: Node, unread: seq<Reply>)
    requires Asking(es, b) && NoneDropped(es)
    ensures var all := unread + AllAnswers(es, b);
      |es| <= |all| && Talk(es, b, unread) == (all[..|es|], all[|es|..])
    decreases |es|
  {
    if es == [] {
      assert unread + [] == unread;
    } else {
      var b1, kept := Deliver(es[0].m, b), LeftOver(es[0], b, unread);
      assert es[0] in es;
      TalkReadsAll(es[1..], b1, kept);
      var a, rest := Answers(es[0], b), AllAnswers(es[1..], b1);
      assert kept == (unread + a)[1..];
      FirstApart(unread, a, rest, |es[1..]|);
      assert AllAnswers(es, b) == a + rest;
    }
  }

  lemma FirstApart(unread: seq<Reply>, answers: seq<Reply>, rest: seq<Reply>, k: nat)
    requires answers != [] && k < |unread + answers + rest|
    ensures var (all, now) := (unread + (answers + rest), unread + answers);
      && |all| == |now + rest|
      && all[..k + 1] == [now[0]] + (now[1..] + rest)[..k]
      && all[k + 1..] == (now[1..] + rest)[k..]
  {
  }

  lemma {:induction false} AllAnswersConcat(a: seq<Exchange>, c: seq<Exchange>, b: Node)
    ensures AllAnswers(a + c, b) == AllAnswers(a, b) + AllAnswers(c, DeliverAll(Messages(a), b))
    ensures Asking(a + c, b) <==> Asking(a, b) && Asking(c, DeliverAll(Messages(a), b))
    decreases |a|
  {
    if a == [] {
      assert a + c == c;
    } else {
      assert (a + c)[1..] == a[1..] + c;
      assert Messages(a)[1..] == Messages(a[1..]);
      AllAnswersConcat(a[1..], c, Deliver(a[0].m, b));
    }
  }

  /** The primary's writes 1..j sent one by one. */
  ghost function Writes(x: Txn, t: Tsn, j: int): seq<Exchange>
    requires Filled(x.writes, j)
    decreases if j < 0 then 0 else j
  {
    if j <= 0 then [] else Writes(x, t, j - 1) + [Single(Write(t, j, x.writes[j]))]
  }

  lemma {:induction false} MessagesConcat(a: seq<Exchange>, c: seq<Exchange>)
    ensures Messages(a + c) == Messages(a) + Messages(c)
  {
    if a == [] {
      assert a + c == c;
    } else {
      assert (a + c)[1..] == a[1..] + c;
      MessagesConcat(a[1..], c);
    }
  }

  lemma {:induction false} WritesAreResent(x: Txn, t: Tsn, j: int)
    requires Filled(x.writes, j)
    ensures Messages(Writes(x, t, j)) == Resend(x, t, j) && NoneDropped(Writes(x, t, j))
    ensures |Writes(x, t, j)| == if j < 0 then 0 else j
    decreases if j < 0 then 0 else j
  {
    if j > 0 {
      var w := Single(Write(t, j, x.writes[j]));
      WritesAreResent(x, t, j - 1);
      MessagesConcat(Writes(x, t, j - 1), [w]);
      assert Messages([w]) == [w.m] + Messages([w][1..]);
    }
  }

  // ----- the catch-up with several holes -----------------------------------------------------

  /** The backup e has t waiting at n, not yet complete, and can be caught up by the writes of x. */
  ghost predicate Lacks(x: Txn, t: Tsn, n: int, e: Node) {
    && n >= 1 && Filled(x.writes, n) && WaitingAt(e.log, t, n)
    && !CanCommit(e.log[t].writes, n) && Fillable(x, e.log[t].writes, n)
  }

  /** A resent write is acknowledged exactly if the backup lacked it. */
  lemma ResentReply(x: Txn, t: Tsn, n: int, j: int, e: Node)
    requires Lacks(x, t, n, e) && 1 <= j <= n
    ensures var r := ReplyTo(Write(t, j, x.writes[j]), DeliverAll(Resend(x, t, j - 1), e));
      ReportsWrite(r, e.log[t].writes, j)
  {
    var e1 := WritesBefore(x, t, n, j, e);
    WriteReported(e1, t, n, e.log[t].writes, j, x.writes[j]);
  }

  /** Before write j is resent the backup waits for it, or has had it all along. */
  lemma WritesBefore(x: Txn, t: Tsn, n: int, j: int, e: Node) returns (e1: Node)
    requires Lacks(x, t, n, e) && 1 <= j <= n
    ensures e1 == DeliverAll(Resend(x, t, j - 1), e) && t in e1.log
    ensures if j in e.log[t].writes then j in e1.log[t].writes
            else WaitingAt(e1.log, t, n) && j !in e1.log[t].writes && |x.writes[j]| >= 2
  {
    e1 := CompletedHolds(e, t, n, x.writes, j);
    if j !in e.log[t].writes { MissingIsLong(x, e.log[t].writes, n, j); }
    ResendEffect(x, t, n, j - 1, e);
  }

  lemma MissingIsLong(x: Txn, w: map<int, string>, n: int, j: int)
    requires Fillable(x, w, n) && 1 <= j <= n && j in x.writes && j !in w
    ensures |x.writes[j]| >= 2
  {
    assert Hole(w, n, j) && !Unfillable(x, w, n, j);
  }

  lemma CompletedHolds(e: Node, t: Tsn, n: int, d: map<int, string>, j: int) returns (e1: Node)
    requires WaitingAt(e.log, t, n) && 1 <= j <= n && j in d
    ensures e1 == Completed(e, t, n, Merged(e.log[t].writes, d, j - 1)) && t in e1.log
    ensures if j in e.log[t].writes then j in e1.log[t].writes
            else WaitingAt(e1.log, t, n) && j !in e1.log[t].writes
  {
    e1 := Completed(e, t, n, Merged(e.log[t].writes, d, j - 1));
    MergeOne(e.log[t].writes, d, j);
  }

  lemma WriteReported(b: Node, t: Tsn, n: int, w: map<int, string>, j: int, data: string)
    requires t in b.log && 1 <= j <= n
    requires if j in w then j in b.log[t].writes
             else WaitingAt(b.log, t, n) && j !in b.log[t].writes && |data| >= 2
    ensures ReportsWrite(ReplyTo(Write(t, j, data), b), w, j)
  {
    if j in w { PresentRefused(b, t, j, data); } else { MissingAccepted(b, t, n, j, data); }
  }

  /** The answer to write j tells whether the backup lacked it. */
  ghost predicate ReportsWrite(r: Reply, w: map<int, string>, j: int) {
    if j in w then r.Error? && r.code != 201 else r == Ack
  }

  /** From position `from` on, s answers the writes 1..j. */
  ghost predicate ReportsWrites(s: seq<Reply>, from: nat, w: map<int, string>, j: int) {
    from + j <= |s| && forall i :: from <= i < from + j ==> ReportsWrite(s[i], w, i - from + 1)
  }

  lemma PresentRefused(b: Node, t: Tsn, k: int, data: string)
    requires t in b.log && k in b.log[t].writes
    ensures var r := ReplyTo(Write(t, k, data), b);
      r.Error? && r.code != 201
  {
  }

  lemma MissingAccepted(b: Node, t: Tsn, n: int, k: int, data: string)
    requires WaitingAt(b.log, t, n) && 1 <= k <= n && k !in b.log[t].writes && |data| >= 2
    ensures ReplyTo(Write(t, k, data), b) == Ack
  {
  }

  lemma {:induction false} ResentReplies(x: Txn, t: Tsn, n: int, j: int, e: Node)
    requires Lacks(x, t, n, e) && 0 <= j <= n
    ensures var s := AllAnswers(Writes(x, t, j), e);
      && Asking(Writes(x, t, j), e) && |s| == j
      && ReportsWrites(s, 0, e.log[t].writes, j)
    decreases j
  {
    if j > 0 {
      ResentReplies(x, t, n, j - 1, e);
      WritesAreResent(x, t, j - 1);
      ResentOneMore(x, t, n, j, e, Writes(x, t, j - 1));
    }
  }

  lemma ResentOneMore(x: Txn, t: Tsn, n: int, j: nat, e: Node, before: seq<Exchange>)
    requires Lacks(x, t, n, e) && 1 <= j <= n && Messages(before) == Resend(x, t, j - 1)
    requires Asking(before, e) && |AllAnswers(before, e)| == j - 1
    requires ReportsWrites(AllAnswers(before, e), 0, e.log[t].writes, j - 1)
    ensures var after := before + [Single(Write(t, j, x.writes[j]))];
      && Asking(after, e) && |AllAnswers(after, e)| == j
      && ReportsWrites(AllAnswers(after, e), 0, e.log[t].writes, j)
  {
    var w, e1 := Single(Write(t, j, x.writes[j])), DeliverAll(Resend(x, t, j - 1), e);
    var r := ReplyTo(w.m, e1);
    ResentReply(x, t, n, j, e);
    AllAnswersConcat(before, [w], e);
    OneExchange(w, e1);
    OneMoreReport(AllAnswers(before, e), r, e.log[t].writes, j);
  }

  lemma OneMoreReport(s: seq<Reply>, r: Reply, w: map<int, string>, j: nat)
    requires j >= 1 && |s| == j - 1 && ReportsWrites(s, 0, w, j - 1) && ReportsWrite(r, w, j)
    ensures ReportsWrites(s + [r], 0, w, j)
  {
  }

  lemma OneExchange(e: Exchange, b: Node)
    requires ReplyTo(e.m, b) != AckResend
    ensures AllAnswers([e], b) == [ReplyTo(e.m, b)] && Asking([e], b)
  {
    assert [e][1..] == [];
    assert AllAnswers([e][1..], Deliver(e.m, b)) == [];
  }

  /** The numbers a backup asks for, as it sends them: every hole once, the highest first. */
  ghost predicate Lists(asked: seq<int>, w: map<int, string>, n: int) {
    && (forall k :: k in asked <==> Hole(w, n, k))
    && (forall i, j :: 0 <= i < j < |asked| ==> asked[i] > asked[j])
  }

  lemma {:induction false} DescendingIsShort(asked: seq<int>, n: int)
    requires n >= 0 && forall i, j :: 0 <= i < j < |asked| ==> asked[i] > asked[j]
    requires forall i :: 0 <= i < |asked| ==> 1 <= asked[i] <= n
    ensures |asked| <= n
    decreases |asked|
  {
    if asked != [] {
      forall i | 0 <= i < |asked[1..]| ensures 1 <= asked[1..][i] <= n - 1 {
        assert asked[1..][i] == asked[i + 1] && asked[0] > asked[i + 1];
      }
      assert 1 <= asked[0] <= n;
      DescendingIsShort(asked[1..], n - 1);
    }
  }

  /** What the manager sends to catch up a backup that knows t: the COMMIT, the writes 1..n,
    * and the COMMIT again. */
  ghost function CatchUpTalk(x: Txn, t: Tsn, n: int, asked: seq<int>): seq<Exchange>
    requires Filled(x.writes, n)
  {
    [Exchange(Commit(t, n), asked, 0)] + (Writes(x, t, n) + [Single(Commit(t, n))])
  }

  /** A backup that can be caught up and has h holes. */
  ghost predicate Catchable(x: Txn, t: Tsn, n: int, b: Node, asked: seq<int>) {
    && n >= 1 && Filled(x.writes, n) && WellFormed(b.log)
    && t in b.log && !Refuses(b.log[t], n) && !Stuck(x, t, n, b)
    && !CanCommit(b.log[t].writes, n) && Lists(asked, b.log[t].writes, n)
  }

  lemma HolesAsked(x: Txn, t: Tsn, n: int, b: Node, asked: seq<int>)
    requires Catchable(x, t, n, b, asked)
    ensures 1 <= |asked| <= n
  {
    var w := b.log[t].writes;
    CanCommitIffNoHole(w, n);
    assert forall k :: Hole(w, n, k) ==> !Unfillable(x, w, n, k);
    forall i | 0 <= i < |asked| ensures 1 <= asked[i] <= n {
      assert asked[i] in asked;
    }
    DescendingIsShort(asked, n);
    var k :| Hole(w, n, k);
    assert k in asked;
  }

  lemma FirstCommit(x: Txn, t: Tsn, n: int, b: Node, asked: seq<int>)
    requires Catchable(x, t, n, b, asked)
    ensures ReplyTo(Commit(t, n), b) == AckResend
    ensures Lacks(x, t, n, Deliver(Commit(t, n), b))
    ensures Deliver(Commit(t, n), b).log[t].writes == b.log[t].writes
  {
  }

  lemma SecondCommit(x: Txn, t: Tsn, n: int, b: Node, asked: seq<int>)
    requires Catchable(x, t, n, b, asked)
    ensures var e := DeliverAll(Resend(x, t, n), Deliver(Commit(t, n), b));
      CommittedAt(e, t, n) && ReplyTo(Commit(t, n), e) == Ack
  {
    IncompleteRound(x, t, n, b);
    FirstCommit(x, t, n, b, asked);
  }

  /** All that the backup answers in a catch-up. */
  lemma CatchUpAnswers(x: Txn, t: Tsn, n: int, b: Node, asked: seq<int>)
    requires Catchable(x, t, n, b, asked)
    ensures var es := CatchUpTalk(x, t, n, asked);
      var s := AllAnswers(es, b);
      && Asking(es, b) && NoneDropped(es) && |es| == n + 2 && |s| == |asked| + n + 1
      && ReportsWrites(s, |asked|, b.log[t].writes, n)
      && s[|asked| + n] == Ack
  {
    var first, ws, last := Exchange(Commit(t, n), asked, 0), Writes(x, t, n), Single(Commit(t, n));
    var b1 := Deliver(Commit(t, n), b);
    HolesAsked(x, t, n, b, asked);
    FirstCommit(x, t, n, b, asked);
    SecondCommit(x, t, n, b, asked);
    WritesAreResent(x, t, n);
    ResentReplies(x, t, n, n, b1);
    AllAnswersConcat(ws, [last], b1);
    OneExchange(last, DeliverAll(Resend(x, t, n), b1));
    var es := CatchUpTalk(x, t, n, asked);
    assert es[0] == first && es[1..] == ws + [last];
    LaterReports(Answers(first, b), AllAnswers(ws, b1), [Ack], b.log[t].writes, n);
  }

  lemma LaterReports(a: seq<Reply>, s: seq<Reply>, c: seq<Reply>, w: map<int, string>, j: nat)
    requires ReportsWrites(s, 0, w, j)
    ensures ReportsWrites(a + (s + c), |a|, w, j)
  {
    forall i | |a| <= i < |a| + j ensures ReportsWrite((a + (s + c))[i], w, i - |a| + 1) {
      assert (a + (s + c))[i] == s[i - |a|];
    }
  }

  // ----- any number of answers in a piece ------------------------------------------------

  /** The same messages, with other numbers of answers dropped. */
  function WithDrops(es: seq<Exchange>, drops: seq<nat>): (r: seq<Exchange>)
    requires |drops| == |es|
    ensures |r| == |es|
  {
    if es == [] then [] else [es[0].(dropped := drops[0])] + WithDrops(es[1..], drops[1..])
  }

  lemma {:induction false} DropsChangeNoAnswer(es: seq<Exchange>, drops: seq<nat>, b: Node)
    requires |drops| == |es|
    ensures Asking(WithDrops(es, drops), b) <==> Asking(es, b)
    ensures AllAnswers(WithDrops(es, drops), b) == AllAnswers(es, b)
    ensures Messages(WithDrops(es, drops)) == Messages(es)
    decreases |es|
  {
    if es != [] {
      assert WithDrops(es, drops)[1..] == WithDrops(es[1..], drops[1..]);
      DropsChangeNoAnswer(es[1..], drops[1..], Deliver(es[0].m, b));
    }
  }

  lemma {:induction false} DropsInTwo(a: seq<Exchange>, c: seq<Exchange>, drops: seq<nat>)
    requires |drops| == |a| + |c|
    ensures WithDrops(a + c, drops) == WithDrops(a, drops[..|a|]) + WithDrops(c, drops[|a|..])
    decreases |a|
  {
    if a == [] {
      assert a + c == c && drops[0..] == drops;
    } else {
      assert (a + c)[1..] == a[1..] + c;
      assert drops[1..][..|a| - 1] == drops[..|a|][1..] && drops[1..][|a| - 1..] == drops[|a|..];
      DropsInTwo(a[1..], c, drops[1..]);
    }
  }

  ghost predicate IsTail(left: seq<Reply>, all: seq<Reply>) {
    |left| <= |all| && left == all[|all| - |left|..]
  }

  lemma TailOfTail(left: seq<Reply>, kept: seq<Reply>, unread: seq<Reply>, a: seq<Reply>, rest: seq<Reply>, k: nat)
    requires IsTail(kept, unread + a) && |kept| < |unread + a|
    requires IsTail(left, kept + rest) && |left| + k <= |kept + rest|
    ensures IsTail(left, unread + (a + rest)) && |left| + k + 1 <= |unread + (a + rest)|
  {
    var now := unread + a;
    assert unread + (a + rest) == now[..|now| - |kept|] + (kept + rest);
  }

  lemma LeftOverIsTail(e: Exchange, b: Node, unread: seq<Reply>)
    requires Answers(e, b) != []
    ensures var now := unread + Answers(e, b);
      IsTail(LeftOver(e, b, unread), now) && |LeftOver(e, b, unread)| < |now|
  {
  }

  /** What is left to read is always the end of what has been answered, at least one answer
    * shorter for each message. */
  lemma {:induction false} LeftIsTail(es: seq<Exchange>, b: Node, unread: seq<Reply>)
    requires Asking(es, b)
    ensures |Talk(es, b, unread).0| == |es|
    ensures var (left, all) := (Talk(es, b, unread).1, unread + AllAnswers(es, b));
      IsTail(left, all) && |left| + |es| <= |all|
    decreases |es|
  {
    if es == [] {
      assert unread + [] == unread;
    } else {
      var b1, kept := Deliver(es[0].m, b), LeftOver(es[0], b, unread);
      LeftOverIsTail(es[0], b, unread);
      LeftIsTail(es[1..], b1, kept);
      TailOfTail(Talk(es[1..], b1, kept).1, kept, unread, Answers(es[0], b), AllAnswers(es[1..], b1), |es[1..]|);
    }
  }

  lemma {:induction false} TalkOneMore(es: seq<Exchange>, last: Exchange, b: Node, unread: seq<Reply>)
    requires Asking(es + [last], b)
    ensures Asking(es, b) && Answers(last, DeliverAll(Messages(es), b)) != []
    ensures var ((read, left), e) := (Talk(es, b, unread), DeliverAll(Messages(es), b));
      Talk(es + [last], b, unread).0 == read + [(left + Answers(last, e))[0]]
    decreases |es|
  {
    if es == [] {
      assert es + [last] == [last] && [last][1..] == [];
    } else {
      var b1 := Deliver(es[0].m, b);
      assert (es + [last])[1..] == es[1..] + [last];
      assert Messages(es)[1..] == Messages(es[1..]);
      TalkOneMore(es[1..], last, b1, LeftOver(es[0], b, unread));
    }
  }

  /** The answer r read to the second COMMIT when u answers were left to read before it. */
  ghost predicate JudgedBy(r: Reply, u: nat, w: map<int, string>, n: int) {
    && (r == Ack <==> u == 0 || n + 1 - u !in w)
    && (r != Ack ==> r.Error? && r.code != 201)
  }

  /** The verdict of a catch-up, however many answers arrive together. The backup always ends
    * committed at n. But if u answers are left to read when the COMMIT is sent again, the
    * answer read to it is that to write n + 1 - u: the manager takes the catch-up for done if
    * and only if there are none or the backup lacked that write, and otherwise for refused.
    * With h holes there are at most h - 1 of them. */
  lemma CatchUpVerdict(x: Txn, t: Tsn, n: int, b: Node, asked: seq<int>, drops: seq<nat>)
    requires Catchable(x, t, n, b, asked) && |drops| == n + 2
    ensures |CatchUpTalk(x, t, n, asked)| == n + 2
    ensures var es := WithDrops(CatchUpTalk(x, t, n, asked), drops);
      && Asking(es, b) && Asking(es[..n + 1], b)
      && CommittedAt(DeliverAll(Messages(es), b), t, n)
      && var (read, u) := (Talk(es, b, []).0, |Talk(es[..n + 1], b, []).1|);
      |read| == n + 2 && u < |asked| && JudgedBy(read[n + 1], u, b.log[t].writes, n)
  {
    var plain, c := CatchUpTalk(x, t, n, asked), Commit(t, n);
    var ws := Writes(x, t, n);
    var front := [Exchange(c, asked, 0)] + ws;
    CatchUpEndsCommitted(x, t, n, b, asked);
    HolesAsked(x, t, n, b, asked);
    CatchUpAnswers(x, t, n, b, asked);
    WritesAreResent(x, t, n);
    assert plain == front + [Single(c)];
    var es := WithDrops(plain, drops);
    DropsChangeNoAnswer(plain, drops, b);
    DropsInTwo(front, [Single(c)], drops);
    var f := WithDrops(front, drops[..n + 1]);
    DropsChangeNoAnswer(front, drops[..n + 1], b);
    var last := Single(c).(dropped := drops[n + 1]);
    var end := drops[n + 1..];
    assert WithDrops([Single(c)], end) == [last] + WithDrops([Single(c)][1..], end[1..]) == [last];
    assert es[..n + 1] == f && es == f + [last];
    FrontOfCatchUp(x, t, n, b, asked);
    TalkOneMore(f, last, b, []);
    LeftIsTail(f, b, []);
    VerdictFromTail(Talk(f, b, []).1, AllAnswers(front, b), b.log[t].writes, n, |asked|);
  }

  /** Of the answers to a catch-up with h holes, the one read to the second COMMIT and the
    * ones left unread. */
  ghost predicate OffByHoles(read: seq<Reply>, left: seq<Reply>, w: map<int, string>, n: int, h: nat) {
    && 1 <= h <= n && |read| == n + 2 && |left| == h - 1
    && (read[n + 1] == Ack <==> h == 1 || n + 2 - h !in w)
    && (read[n + 1] != Ack ==> read[n + 1].Error? && read[n + 1].code != 201)
    && (h > 1 ==> left[h - 2] == Ack)
  }

  /** The answers before the second COMMIT, and that to it. */
  lemma FrontOfCatchUp(x: Txn, t: Tsn, n: int, b: Node, asked: seq<int>)
    requires Catchable(x, t, n, b, asked)
    ensures var front := [Exchange(Commit(t, n), asked, 0)] + Writes(x, t, n);
      && Asking(front, b) && |AllAnswers(front, b)| == |asked| + n
      && ReportsWrites(AllAnswers(front, b), |asked|, b.log[t].writes, n)
      && ReplyTo(Commit(t, n), DeliverAll(Messages(front), b)) == Ack
  {
    var first, ws, b1 := Exchange(Commit(t, n), asked, 0), Writes(x, t, n), Deliver(Commit(t, n), b);
    var front := [first] + ws;
    HolesAsked(x, t, n, b, asked);
    FirstCommit(x, t, n, b, asked);
    SecondCommit(x, t, n, b, asked);
    WritesAreResent(x, t, n);
    ResentReplies(x, t, n, n, b1);
    assert front[0] == first && front[1..] == ws;
    LaterReports(Answers(first, b), AllAnswers(ws, b1), [], b.log[t].writes, n);
    assert AllAnswers(ws, b1) + [] == AllAnswers(ws, b1);
  }

  lemma VerdictFromTail(left: seq<Reply>, all: seq<Reply>, w: map<int, string>, n: nat, h: nat)
    requires 1 <= h <= n && |all| == h + n && ReportsWrites(all, h, w, n)
    requires IsTail(left, [] + all) && |left| + n + 1 <= |all|
    ensures |left| < h && JudgedBy((left + [Ack])[0], |left|, w, n)
  {
    assert [] + all == all;
    if left != [] {
      assert left[0] == all[h + n - |left|];
      assert ReportsWrite(left[0], w, n + 1 - |left|);
    }
  }

  /** When each answer arrives in a piece of its own, a catch-up over h holes leaves h - 1
    * answers to be read, the last of them an acknowledgement, and is judged by the answer to
    * write n + 2 - h. */
  lemma CatchUpPieceByPiece(x: Txn, t: Tsn, n: int, b: Node, asked: seq<int>)
    requires Catchable(x, t, n, b, asked)
    ensures var (es, h) := (CatchUpTalk(x, t, n, asked), |asked|);
      && Asking(es, b)
      && CommittedAt(DeliverAll(Messages(es), b), t, n)
      && OffByHoles(Talk(es, b, []).0, Talk(es, b, []).1, b.log[t].writes, n, h)
  {
    CatchUpEndsCommitted(x, t, n, b, asked);
    HolesAsked(x, t, n, b, asked);
    var s := CatchUpRead(x, t, n, b, asked);
    var read, left := s[..n + 2], s[n + 2..];
    VerdictInStream(s, b.log[t].writes, n, |asked|);
    assert Talk(CatchUpTalk(x, t, n, asked), b, []) == (read, left);
  }

  lemma CatchUpRead(x: Txn, t: Tsn, n: int, b: Node, asked: seq<int>) returns (s: seq<Reply>)
    requires Catchable(x, t, n, b, asked)
    ensures var es := CatchUpTalk(x, t, n, asked);
      && Asking(es, b) && |s| == |asked| + n + 1
      && Talk(es, b, []) == (s[..n + 2], s[n + 2..])
      && ReportsWrites(s, |asked|, b.log[t].writes, n) && s[|asked| + n] == Ack
  {
    var es := CatchUpTalk(x, t, n, asked);
    HolesAsked(x, t, n, b, asked);
    CatchUpAnswers(x, t, n, b, asked);
    TalkReadsAll(es, b, []);
    s := AllAnswers(es, b);
    assert [] + s == s;
  }

  lemma VerdictInStream(s: seq<Reply>, w: map<int, string>, n: nat, h: nat)
    requires 1 <= h <= n && |s| == h + n + 1 && ReportsWrites(s, h, w, n) && s[h + n] == Ack
    ensures OffByHoles(s[..n + 2], s[n + 2..], w, n, h)
  {
    if h > 1 {
      assert ReportsWrite(s[n + 1], w, n + 2 - h);
    }
  }

  lemma CatchUpEndsCommitted(x: Txn, t: Tsn, n: int, b: Node, asked: seq<int>)
    requires Catchable(x, t, n, b, asked)
    ensures CommittedAt(DeliverAll(Messages(CatchUpTalk(x, t, n, asked)), b), t, n)
  {
    var c, ws := Commit(t, n), Writes(x, t, n);
    var es := CatchUpTalk(x, t, n, asked);
    SecondCommit(x, t, n, b, asked);
    WritesAreResent(x, t, n);
    MessagesConcat(ws, [Single(c)]);
    assert Messages([Single(c)]) == [c] + Messages([Single(c)][1..]) == [c];
    assert es[0].m == c && es[1..] == ws + [Single(c)];
    DeliverOneMore(Resend(x, t, n), c, Deliver(c, b));
  }

  /** After a catch-up with two holes whatever is sent next is read as acknowledged, also a
    * commit that the backup refuses. */
  lemma NextIsReadAsAcknowledged(x: Txn, t: Tsn, n: int, b: Node, asked: seq<int>, next: Exchange)
    requires Catchable(x, t, n, b, asked) && |asked| == 2
    requires next.dropped == 0 && Answers(next, DeliverAll(Messages(CatchUpTalk(x, t, n, asked)), b)) != []
    ensures Asking(CatchUpTalk(x, t, n, asked) + [next], b)
    ensures var read := Talk(CatchUpTalk(x, t, n, asked) + [next], b, []).0;
      |read| == n + 3 && read[n + 2] == Ack
  {
    var es := CatchUpTalk(x, t, n, asked);
    CatchUpAnswers(x, t, n, b, asked);
    AllAnswersConcat(es, [next], b);
    var e := DeliverAll(Messages(es), b);
    assert [next][1..] == [] && Asking([next][1..], Deliver(next.m, e));
    TalkReadsAll(es + [next], b, []);
    assert [] + AllAnswers(es + [next], b) == AllAnswers(es, b) + AllAnswers([next], e);
  }
}
