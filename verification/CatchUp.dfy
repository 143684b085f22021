/** The catch-up of a lagging backup: ask it to commit; if it does not know the
  * transaction create it, if it misses writes send them all, and ask again. */
module CatchUp {
  import opened TransactionLog
  import opened LogProperties
  import opened Delivery
  import Arrival

  /** The backup will not commit t at n: expired, or pending or committed elsewhere. */
  ghost predicate Refuses(y: Txn, n: int) {
    y.status == Expired || ((y.status == Waiting || y.status == Committed) && y.num != n)
  }

  /** The primary's writes 1..n, in order. */
  ghost function Resend(x: Txn, t: Tsn, n: int): seq<Msg>
    requires Filled(x.writes, n)
    decreases if n < 0 then 0 else n
  {
    if n <= 0 then [] else Resend(x, t, n - 1) + [Write(t, n, x.writes[n])]
  }

  datatype Verdict = Acked | Rejected | Retry

  /** One request for a commit and the reaction to its answer. */
  ghost function Round(x: Txn, t: Tsn, n: int, b: Node): (Node, Verdict)
    requires Filled(x.writes, n)
  {
    var b1 := Deliver(Commit(t, n), b);
    match ReplyTo(Commit(t, n), b)
    case Ack => (b1, Acked)
    case AckResend => (DeliverAll(Resend(x, t, n), b1), Retry)
    case Error(code) => if code == 201 then (Deliver(Make(t, x.file), b1), Retry) else (b1, Rejected)
  }

  ghost function Rounds(x: Txn, t: Tsn, n: int, b: Node, limit: nat): (Node, Verdict)
    requires Filled(x.writes, n)
    decreases limit
  {
    if limit == 0 then (b, Retry)
    else
      var (b1, v) := Round(x, t, n, b);
      if v == Retry then Rounds(x, t, n, b1, limit - 1) else (b1, v)
  }

  // ----- what resending does ------------------------------------------------------

  /** The backup's writes completed with those of the primary's 1..j that can be sent. */
  ghost function Merged(w: map<int, string>, d: map<int, string>, j: int): map<int, string> {
    map k | k in w.Keys + d.Keys && (k in w || (1 <= k <= j && |d[k]| >= 2)) :: if k in w then w[k] else d[k]
  }

  /** A missing number that resending 1..n does not supply. */
  ghost predicate Unfillable(x: Txn, w: map<int, string>, n: int, k: int) {
    Hole(w, n, k) && (k > n || k !in x.writes || |x.writes[k]| < 2)
  }

  ghost predicate Fillable(x: Txn, w: map<int, string>, n: int) {
    forall k :: !Unfillable(x, w, n, k)
  }

  lemma MergedCompleteIffFillable(x: Txn, w: map<int, string>, n: int)
    requires n >= 1 && forall k :: k in w ==> k >= 1
    ensures CanCommit(Merged(w, x.writes, n), n) <==> Fillable(x, w, n)
  {
    var m := Merged(w, x.writes, n);
    if Fillable(x, w, n) {
      assert forall j :: j in m && j > n ==> j in w;
      forall k ensures !Hole(m, n, k) {
        assert !Unfillable(x, w, n, k);
      }
      CanCommitIffNoHole(m, n);
    } else {
      var k :| Unfillable(x, w, n, k);
      if k > n { var j :| j in w && k < j; assert j in m; }
      assert Hole(m, n, k);
      CanCommitIffNoHole(m, n);
    }
  }

  /** t, waiting at n, given the writes w: committed if they complete it. */
  ghost function Completed(b: Node, t: Tsn, n: int, w: map<int, string>): Node
    requires t in b.log
  {
    var y := b.log[t].(writes := w);
    if CanCommit(w, n) then Node(b.log[t := y.(status := Committed)], Append(b.files, y.file, Block(w, n)))
    else b.(log := b.log[t := y])
  }

  lemma MergeOne(w: map<int, string>, d: map<int, string>, j: int)
    requires j >= 1 && j in d
    ensures Merged(w, d, j) ==
      if j in w || |d[j]| < 2 then Merged(w, d, j - 1) else Merged(w, d, j - 1)[j := d[j]]
    ensures j in Merged(w, d, j - 1) <==> j in w
  {
  }

  lemma CompleteAlready(b: Node, t: Tsn, n: int, w: map<int, string>, k: int, data: string)
    requires t in b.log && n >= 1 && CanCommit(w, n) && 1 <= k <= n
    ensures Deliver(Write(t, k, data), Completed(b, t, n, w)) == Completed(b, t, n, w)
  {
  }

  lemma FillOne(b: Node, t: Tsn, n: int, w: map<int, string>, k: int, data: string)
    requires WaitingAt(b.log, t, n) && n >= 1 && !CanCommit(w, n) && 1 <= k <= n && k !in w && |data| >= 2
    ensures Deliver(Write(t, k, data), Completed(b, t, n, w)) == Completed(b, t, n, w[k := data])
  {
  }

  /** Resending 1..j to a transaction that waits at n merges exactly the sendable writes,
    * and commits it at the write that completes it. */
  lemma {:induction false} ResendEffect(x: Txn, t: Tsn, n: int, j: nat, b: Node)
    requires Filled(x.writes, n) && j <= n && n >= 1
    requires WaitingAt(b.log, t, n) && !CanCommit(b.log[t].writes, n)
    ensures DeliverAll(Resend(x, t, j), b) == Completed(b, t, n, Merged(b.log[t].writes, x.writes, j))
  {
    var w := b.log[t].writes;
    if j == 0 {
      assert Merged(w, x.writes, 0) == w;
      assert b.log[t := b.log[t].(writes := w)] == b.log;
    } else {
      ResendEffect(x, t, n, j - 1, b);
      DeliverOneMore(Resend(x, t, j - 1), Write(t, j, x.writes[j]), b);
      ResendNext(x, t, n, j, b, w);
    }
  }

  lemma ResendNext(x: Txn, t: Tsn, n: int, j: nat, b: Node, w: map<int, string>)
    requires WaitingAt(b.log, t, n) && 1 <= j <= n && j in x.writes
    ensures Deliver(Write(t, j, x.writes[j]), Completed(b, t, n, Merged(w, x.writes, j - 1)))
      == Completed(b, t, n, Merged(w, x.writes, j))
  {
    MergeOne(w, x.writes, j);
    var w1 := Merged(w, x.writes, j - 1);
    if CanCommit(w1, n) {
      CompleteAlready(b, t, n, w1, j, x.writes[j]);
      assert j in w1;
    } else if j !in w && |x.writes[j]| >= 2 {
      FillOne(b, t, n, w1, j, x.writes[j]);
    } else {
      AlreadyThere(b, t, n, w1, j, x.writes[j]);
    }
  }

  lemma AlreadyThere(b: Node, t: Tsn, n: int, w: map<int, string>, k: int, data: string)
    requires t in b.log && !CanCommit(w, n) && (k in w || |data| < 2)
    ensures Deliver(Write(t, k, data), Completed(b, t, n, w)) == Completed(b, t, n, w)
  {
  }

  // ----- the outcome ---------------------------------------------------------------

  ghost predicate RefusedAt(b: Node, t: Tsn, n: int) {
    t in b.log && Refuses(b.log[t], n)
  }

  /** Something the backup lacks can never be sent to it. */
  ghost predicate Stuck(x: Txn, t: Tsn, n: int, b: Node) {
    if t !in b.log then |x.file| < 2 || !Fillable(x, map[], n)
    else !Refuses(b.log[t], n) && !Fillable(x, b.log[t].writes, n)
  }

  /** The backup with t committed at n on its own writes completed by the primary's. */
  ghost function CaughtUp(x: Txn, t: Tsn, n: int, b: Node): Node
    requires n >= 1 && WellFormed(b.log) && !Stuck(x, t, n, b) && !RefusedAt(b, t, n)
  {
    var y := if t in b.log then b.log[t] else NewTxn(x.file);
    if y.status == Committed then b
    else
      MergedCompleteIffFillable(x, y.writes, n);
      var w := Merged(y.writes, x.writes, n);
      Node(b.log[t := y.(status := Committed, num := n, writes := w)], Append(b.files, y.file, Block(w, n)))
  }

  /** A complete transaction commits at the first request. */
  lemma CompleteRound(x: Txn, t: Tsn, n: int, b: Node)
    requires n >= 1 && Filled(x.writes, n) && WellFormed(b.log)
    requires t in b.log && !Refuses(b.log[t], n) && CanCommit(b.log[t].writes, n)
    ensures !Stuck(x, t, n, b)
    ensures Round(x, t, n, b) == (CaughtUp(x, t, n, b), Acked)
  {
    var y := b.log[t];
    CanCommitIffNoHole(y.writes, n);
    assert Merged(y.writes, x.writes, n) == y.writes;
    assert b.log[t := y.(status := Writing, num := n)][t := y.(status := Committed, num := n)]
      == b.log[t := y.(status := Committed, num := n)];
  }

  /** An incomplete one is committed by the resent writes, unless one cannot be sent. */
  lemma IncompleteRound(x: Txn, t: Tsn, n: int, b: Node)
    requires n >= 1 && Filled(x.writes, n) && WellFormed(b.log)
    requires t in b.log && !Refuses(b.log[t], n) && !CanCommit(b.log[t].writes, n)
    ensures Round(x, t, n, b).1 == Retry
    ensures var b1 := Round(x, t, n, b).0;
      && WellFormed(b1.log) && t in b1.log && !Refuses(b1.log[t], n)
      && if Stuck(x, t, n, b) then Stuck(x, t, n, b1)
         else b1 == CaughtUp(x, t, n, b) && b1.log[t].status == Committed
  {
    var y := b.log[t];
    var b0 := Deliver(Commit(t, n), b);
    assert b0 == b.(log := b.log[t := y.(status := Waiting, num := n)]);
    ResendEffect(x, t, n, n, b0);
    DeliverWellFormed(Commit(t, n), b);
    DeliverAllWellFormed(Resend(x, t, n), b0);
    MergedCompleteIffFillable(x, y.writes, n);
    var w := Merged(y.writes, x.writes, n);
    var b1 := Round(x, t, n, b).0;
    assert b1 == Completed(b0, t, n, w);
    if !Fillable(x, y.writes, n) {
      var k :| Unfillable(x, y.writes, n, k);
      if k > n { var j :| j in y.writes && k < j; assert j in w; }
      assert Unfillable(x, w, n, k);
    }
  }

  /** From an unknown transaction the first round creates it, if its name can be sent. */
  lemma UnknownRound(x: Txn, t: Tsn, n: int, b: Node)
    requires n >= 1 && Filled(x.writes, n) && WellFormed(b.log) && t !in b.log
    ensures Round(x, t, n, b) ==
      (if |x.file| < 2 then b else b.(log := b.log[t := NewTxn(x.file)]), Retry)
  {
  }

  /** A stuck catch-up asks for ever. */
  lemma {:induction false} StuckNeverEnds(x: Txn, t: Tsn, n: int, b: Node, limit: nat)
    requires n >= 1 && Filled(x.writes, n) && WellFormed(b.log) && Stuck(x, t, n, b)
    ensures Rounds(x, t, n, b, limit).1 == Retry
    decreases limit
  {
    if limit > 0 {
      var b1 := Round(x, t, n, b).0;
      if t !in b.log {
        UnknownRound(x, t, n, b);
      } else {
        var k :| Unfillable(x, b.log[t].writes, n, k);
        CanCommitIffNoHole(b.log[t].writes, n);
        IncompleteRound(x, t, n, b);
      }
      StuckNeverEnds(x, t, n, b1, limit - 1);
    }
  }

  lemma KnownEnds(x: Txn, t: Tsn, n: int, b: Node, limit: nat)
    requires n >= 1 && Filled(x.writes, n) && WellFormed(b.log) && limit >= 2
    requires t in b.log && !Refuses(b.log[t], n) && !Stuck(x, t, n, b)
    ensures Rounds(x, t, n, b, limit) == (CaughtUp(x, t, n, b), Acked)
  {
    if CanCommit(b.log[t].writes, n) {
      CompleteRound(x, t, n, b);
    } else {
      IncompleteRound(x, t, n, b);
      var b1 := Round(x, t, n, b).0;
      CanCommitIffNoHole(b1.log[t].writes, n);
      CompleteRound(x, t, n, b1);
      assert Rounds(x, t, n, b, limit) == Rounds(x, t, n, b1, limit - 1);
    }
  }

  /** The catch-up ends, after at most three requests, if and only if the backup lacks
    * nothing that cannot be sent: no hole above n, no file name or write of fewer than
    * two characters. It then ends acknowledged, with t committed at n on the merged
    * writes and one block appended, unless the backup refuses, which changes nothing. */
  lemma CatchUpEndsIffNotStuck(x: Txn, t: Tsn, n: int, b: Node)
    requires n >= 1 && Filled(x.writes, n) && WellFormed(b.log)
    ensures (exists limit: nat :: Rounds(x, t, n, b, limit).1 != Retry) <==> !Stuck(x, t, n, b)
    ensures !Stuck(x, t, n, b) ==> forall limit: nat :: limit >= 3 ==>
      Rounds(x, t, n, b, limit) ==
        if RefusedAt(b, t, n) then (b, Rejected) else (CaughtUp(x, t, n, b), Acked)
  {
    if Stuck(x, t, n, b) {
      forall limit: nat ensures Rounds(x, t, n, b, limit).1 == Retry { StuckNeverEnds(x, t, n, b, limit); }
    } else {
      forall limit: nat | limit >= 3
        ensures Rounds(x, t, n, b, limit) ==
          if RefusedAt(b, t, n) then (b, Rejected) else (CaughtUp(x, t, n, b), Acked)
      {
        CatchUpWithin(x, t, n, b, limit);
      }
      var three: nat := 3;
      CatchUpWithin(x, t, n, b, three);
      assert Rounds(x, t, n, b, three).1 != Retry;
    }
  }

  lemma UnknownEnds(x: Txn, t: Tsn, n: int, b: Node, limit: nat)
    requires n >= 1 && Filled(x.writes, n) && WellFormed(b.log) && limit >= 3 && !Stuck(x, t, n, b)
    requires t !in b.log
    ensures Rounds(x, t, n, b, limit) == (CaughtUp(x, t, n, b), Acked)
  {
    UnknownRound(x, t, n, b);
    var y := NewTxn(x.file);
    var b1 := b.(log := b.log[t := y]);
    KnownEnds(x, t, n, b1, limit - 1);
    MergedCompleteIffFillable(x, map[], n);
    var y1 := y.(status := Committed, num := n, writes := Merged(map[], x.writes, n));
    assert b.log[t := y][t := y1] == b.log[t := y1];
  }

  lemma RefusedEnds(x: Txn, t: Tsn, n: int, b: Node, limit: nat)
    requires n >= 1 && Filled(x.writes, n) && WellFormed(b.log) && limit >= 1 && RefusedAt(b, t, n)
    ensures Rounds(x, t, n, b, limit) == (b, Rejected)
  {
  }

  lemma CatchUpWithin(x: Txn, t: Tsn, n: int, b: Node, limit: nat)
    requires n >= 1 && Filled(x.writes, n) && WellFormed(b.log) && limit >= 3 && !Stuck(x, t, n, b)
    ensures Rounds(x, t, n, b, limit) ==
      if RefusedAt(b, t, n) then (b, Rejected) else (CaughtUp(x, t, n, b), Acked)
  {
    if t !in b.log {
      UnknownEnds(x, t, n, b, limit);
    } else if !Refuses(b.log[t], n) {
      KnownEnds(x, t, n, b, limit);
    } else {
      RefusedEnds(x, t, n, b, limit);
    }
  }

  lemma NewTxnOnBoth(files: map<string, string>)
    ensures var (nd, m, one) := (Node(map[], files), Make(1, "ab"), Node(map[1 := NewTxn("ab")], files));
      && WellFormed(nd.log) && InSync(nd, nd)
      && Step(Primary, nd, Op(m, true, true)) == one
      && DeliverAll(Forwarded(m, nd), nd) == one
      && InSync(one, one)
  {
    var nd, m := Node(map[], files), Make(1, "ab");
    ForwardingKeepsSync(m, nd, nd);
    DeliverForwarded(m, nd, nd);
  }

  lemma ShortWriteOnOne(files: map<string, string>)
    ensures var (one, m) := (Node(map[1 := NewTxn("ab")], files), Write(1, 1, "x"));
      && WellFormed(one.log)
      && Step(Primary, one, Op(m, true, true)) == Node(map[1 := NewTxn("ab").(writes := map[1 := "x"])], files)
      && DeliverAll(Forwarded(m, one), one) == one
      && Forwarded(m, one) != []
  {
    DeliverForwarded(Write(1, 1, "x"), Node(map[1 := NewTxn("ab")], files), Node(map[1 := NewTxn("ab")], files));
  }

  lemma ShortCommitIsStuck(files: map<string, string>, p: Node, e: Node, limit: nat)
    requires p == Node(map[1 := NewTxn("ab").(writes := map[1 := "x"])], files)
    requires e == Node(map[1 := NewTxn("ab")], files)
    ensures var (p', out) := Exec(Primary, true, p, Commit(1, 1));
      && out == Committing && 1 in p'.log && Filled(p'.log[1].writes, 1)
      && Stuck(p'.log[1], 1, 1, e) && Rounds(p'.log[1], 1, 1, e, limit).1 == Retry
  {
    var x := Exec(Primary, true, p, Commit(1, 1)).0.log[1];
    assert x.writes == map[1 := "x"];
    assert Unfillable(x, e.log[1].writes, 1, 1);
    StuckNeverEnds(x, 1, 1, e, limit);
  }

  /** A client can bring this about: from two empty servers, one write of one character
    * takes them out of step and its commit starts a catch-up that never ends. */
  lemma OneShortWriteIsEnough(files: map<string, string>, limit: nat)
    ensures var (make, write) := (Make(1, "ab"), Write(1, 1, "x"));
      var p1 := Step(Primary, Node(map[], files), Op(make, true, true));
      var e1 := DeliverAll(Forwarded(make, Node(map[], files)), Node(map[], files));
      InSync(p1, e1) && var p2 := Step(Primary, p1, Op(write, true, true));
      var e2 := DeliverAll(Forwarded(write, p1), e1);
      !InSync(p2, e2) && var (p3, out) := Exec(Primary, true, p2, Commit(1, 1));
      && out == Committing && 1 in p3.log && Filled(p3.log[1].writes, 1)
      && Stuck(p3.log[1], 1, 1, e2) && Rounds(p3.log[1], 1, 1, e2, limit).1 == Retry
  {
    NewTxnOnBoth(files);
    ShortWriteOnOne(files);
    var one := Node(map[1 := NewTxn("ab")], files);
    var p2 := Node(map[1 := NewTxn("ab").(writes := map[1 := "x"])], files);
    ForwardingKeepsSync(Write(1, 1, "x"), one, one);
    ShortCommitIsStuck(files, p2, one, limit);
  }

  /** If the backup's own writes agree with the primary's, what it commits is the
    * primary's data. */
  lemma CaughtUpOnPrimaryData(x: Txn, t: Tsn, n: int, b: Node)
    requires n >= 1 && Filled(x.writes, n) && WellFormed(b.log)
    requires !Stuck(x, t, n, b) && !RefusedAt(b, t, n)
    requires t in b.log ==> forall k :: 1 <= k <= n && k in b.log[t].writes ==> b.log[t].writes[k] == x.writes[k]
    ensures var b' := CaughtUp(x, t, n, b);
      && t in b'.log && b'.log[t].status == Committed && b'.log[t].num == n
      && Filled(b'.log[t].writes, n)
      && (forall k :: 1 <= k <= n ==> b'.log[t].writes[k] == x.writes[k])
      && Block(b'.log[t].writes, n) == Block(x.writes, n)
      && (forall t' :: t' != t ==> (t' in b'.log <==> t' in b.log) && (t' in b.log ==> b'.log[t'] == b.log[t']))
  {
    var y := if t in b.log then b.log[t] else NewTxn(x.file);
    MergedCompleteIffFillable(x, y.writes, n);
    var b' := CaughtUp(x, t, n, b);
    Arrival.BlockDependsOnPrefix(b'.log[t].writes, x.writes, n);
  }
}
