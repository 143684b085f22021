/** What each operation of the log promises: when it is refused and with which code, what it
  * changes, and what that means for later requests. */
module Operations {
  import opened TransactionLog
  import opened LogProperties
  import Wire
  import Blocks
  import Expiry
  import opened Delivery

  /** Nothing up to n, or below a number that was received, is missing. */
  ghost predicate Complete(w: map<int, string>, n: int) {
    n >= 1 && forall k :: !Hole(w, n, k)
  }

  // ----- commits ---------------------------------------------------------------------------

  /** A commit of x at n that is not refused for what x has come to before. */
  ghost predicate Open(x: Txn, n: int) {
    x.status in {Active, Flag, Writing} || (x.status == Waiting && x.num == n)
  }

  lemma CommitCodes(role: Role, disk: bool, nd: Node, t: Tsn, n: int)
    requires WellFormed(nd.log)
    ensures var out := CommitTxn(role, disk, nd, t, n).1;
      && (out == Refused(201) <==> t !in nd.log)
      && (t in nd.log ==>
            var x := nd.log[t];
            && (out == AlreadyCommitted <==> x.status == Committed && x.num == n)
            && (out == Refused(202) <==> x.status in {Waiting, Committed} && x.num != n)
            && (out == Refused(220) <==> x.status == Expired)
            && (out == Refused(404) <==> x.status in {Active, Flag, Writing} && n < 1)
            && (out == Incomplete <==> Open(x, n) && n >= 1 && !Complete(x.writes, n))
            && (out == Refused(205) <==> Open(x, n) && Complete(x.writes, n) && role == Backup && !disk)
            && (out == Committing <==> Open(x, n) && Complete(x.writes, n) && (role == Primary || disk)))
  {
    if t in nd.log {
      CanCommitIffNoHole(nd.log[t].writes, n);
      assert WellFormedTxn(nd.log[t]);
    }
  }

  /** A refused commit changes nothing, but a failed append leaves the transaction WAITING at
    * n, as does a commit with holes. A complete one is WRITING on a primary; on a backup it is
    * COMMITTED and its file has grown by the writes 1..n. */
  lemma CommitEffects(role: Role, disk: bool, nd: Node, t: Tsn, n: int)
    requires WellFormed(nd.log)
    ensures var (nd', out) := CommitTxn(role, disk, nd, t, n);
      match out
      case Accepted => false
      case AlreadyCommitted => nd' == nd
      case Incomplete => t in nd.log && nd' == nd.(log := nd.log[t := nd.log[t].(status := Waiting, num := n)])
      case Refused(code) =>
        nd' == if code == 205 then nd.(log := nd.log[t := nd.log[t].(status := Waiting, num := n)]) else nd
      case Committing =>
        && t in nd.log && Filled(nd.log[t].writes, n)
        && var x := nd.log[t];
        if role == Primary then nd' == nd.(log := nd.log[t := x.(status := Writing, num := n)])
        else
          && nd'.log == nd.log[t := x.(status := Committed, num := n)]
          && Blocks.Grown(nd.files, nd'.files, x.file, Wire.Joined(Blocks.Lines(x.writes, n)))
  {
    var (nd', out) := CommitTxn(role, disk, nd, t, n);
    if out == Committing && role == Backup {
      var x := nd.log[t];
      Blocks.AppendGrows(nd.files, x.file, x.writes, n);
      Overwritten(nd.log, t, x.(status := Writing, num := n), x.(status := Committed, num := n));
    } else if out == Refused(205) {
      var x := nd.log[t];
      Overwritten(nd.log, t, x.(status := Writing, num := n), x.(status := Waiting, num := n));
    }
  }

  lemma Overwritten(log: map<Tsn, Txn>, t: Tsn, x: Txn, y: Txn)
    ensures log[t := x][t := y] == log[t := y]
  {
  }

  // ----- writes ------------------------------------------------------------------------------

  /** x has room for a write k. */
  ghost predicate Takes(x: Txn, k: int) {
    x.status in {Active, Flag, Writing} || (x.status == Waiting && k <= x.num)
  }

  /** With the writes w, the commit that x waits for can be made. */
  ghost predicate Fires(x: Txn, w: map<int, string>) {
    x.status == Waiting && Complete(w, x.num)
  }

  lemma WriteCodes(role: Role, disk: bool, nd: Node, t: Tsn, k: int, data: string)
    requires WellFormed(nd.log)
    ensures var out := AddEntry(role, disk, nd, t, k, data).1;
      && (out == Refused(204) <==> k < 1)
      && (out == Refused(201) <==> k >= 1 && t !in nd.log)
      && (k >= 1 && t in nd.log ==>
            var (x, w) := (nd.log[t], nd.log[t].writes[k := data]);
            && (out == Refused(202) <==>
                  x.status == Committed || (x.status == Waiting && k !in x.writes && k > x.num))
            && (out == Refused(220) <==> x.status == Expired)
            && (out == Refused(301) <==> x.status !in {Committed, Expired} && k in x.writes)
            && (out == Accepted <==> k !in x.writes && Takes(x, k) && !Fires(x, w))
            && (out in {Committing, Refused(205)} <==> k !in x.writes && Takes(x, k) && Fires(x, w))
            && (out == Refused(205) ==> role == Backup && !disk))
  {
    if k >= 1 && t in nd.log {
      CanCommitIffNoHole(nd.log[t].writes[k := data], nd.log[t].num);
      assert WellFormedTxn(nd.log[t]);
    }
  }

  /** A refused write changes nothing. An accepted one is stored and, unless it is awaited,
    * makes the transaction ACTIVE; the last one that is awaited commits it at the number it
    * waits for. */
  lemma WriteEffects(role: Role, disk: bool, nd: Node, t: Tsn, k: int, data: string)
    ensures var (nd', out) := AddEntry(role, disk, nd, t, k, data);
      && (out.Refused? && out.code != 205 ==> nd' == nd)
      && (out == Accepted ==>
            && t in nd.log
            && var x := nd.log[t];
            nd' == nd.(log := nd.log[t := x.(writes := x.writes[k := data],
              status := if x.status == Waiting then Waiting else Active)]))
      && (out in {Committing, Refused(205)} ==>
            && t in nd.log
            && var x := nd.log[t].(writes := nd.log[t].writes[k := data]);
            (nd', out) == CommitTxn(role, disk, nd.(log := nd.log[t := x]), t, x.num))
  {
  }

  // ----- opening and aborting ------------------------------------------------------------------

  /** An unknown transaction is opened under the name given, ACTIVE and empty. */
  lemma MakeEffects(nd: Node, t: Tsn, name: string)
    ensures MakeTxn(nd, t, name) ==
      if t in nd.log then nd else nd.(log := nd.log[t := Txn(Active, 0, Fresh, name, map[])])
  {
  }

  lemma AbortCodes(nd: Node, t: Tsn)
    ensures var (nd', out) := AbortTxn(nd, t);
      && (out == Refused(201) <==> t !in nd.log)
      && (out == Refused(202) <==> t in nd.log && nd.log[t].status == Committed)
      && (out == Refused(220) <==> t in nd.log && nd.log[t].status == Expired)
      && (out == Accepted <==> t in nd.log && nd.log[t].status !in {Committed, Expired})
      && (out != Accepted ==> nd' == nd)
      && (out == Accepted ==> nd' == nd.(log := nd.log - {t}))
  {
  }

  // ----- expiry ------------------------------------------------------------------------------

  /** What one pass makes of x; None if it removes it. */
  function AfterPass(x: Txn): Option<Txn> {
    match (x.status, x.z)
    case (Active, _) => Some(x.(status := Flag))
    case (Flag, _) => Some(x.(status := Expired))
    case (Expired, _) => None
    case (Waiting, Fresh) => Some(x.(z := ZFlag))
    case (Waiting, ZFlag) => Some(x.(z := ZExpired))
    case (Waiting, ZExpired) => None
    case (Writing, _) => Some(x)
    case (Committed, _) => Some(x)
  }

  /** One pass: each transaction by its own stage, WRITING and COMMITTED ones left alone, and
    * so are all with a negative number. */
  lemma PassEffects(log: map<Tsn, Txn>, t: Tsn)
    ensures var after := if t !in log then None else if t < 0 then Some(log[t]) else AfterPass(log[t]);
      && (t in Timeouts(log) <==> after != None)
      && (t in Timeouts(log) ==> Timeouts(log)[t] == after.value)
  {
  }

  /** A transaction whose commit has started, or is done, is untouched by any run without a
    * request for it, however many passes it has. */
  lemma {:induction false} DecidedIsLeftAlone(role: Role, nd: Node, es: seq<Event>, t: Tsn)
    requires WellFormed(nd.log) && Expiry.NoRequestFor(es, t)
    requires t in nd.log && nd.log[t].status in {Writing, Committed}
    ensures t in Run(role, nd, es).log && Run(role, nd, es).log[t] == nd.log[t]
    decreases |es|
  {
    if es != [] {
      assert es[0] in es;
      StepWellFormed(role, nd, es[0]);
      if es[0].Op? {
        Expiry.StepElsewhere(role, nd, es[0], t);
      } else {
        PassEffects(nd.log, t);
      }
      DecidedIsLeftAlone(role, Step(role, nd, es[0]), es[1..], t);
    }
  }

  // ----- whole handlers ---------------------------------------------------------------------------

  /** A commit happens exactly when a request brings its own transaction to it, the append
    * succeeds and, on a primary, the backup agrees. */
  lemma WhenCommitted(role: Role, nd: Node, e: Event, t: Tsn)
    requires WellFormed(nd.log)
    ensures NewlyCommitted(nd, Step(role, nd, e), t) <==>
      e.Op? && e.m.t == t && Exec(role, e.disk, nd, e.m).1 == Committing && e.disk && (role == Primary ==> e.agree)
  {
    match e
    case Tick => PassEffects(nd.log, t);
    case Op(m, agree, disk) =>
      StepAppends(role, nd, e);
      ExecAppends(role, disk, nd, m);
      if Exec(role, disk, nd, m).1 == Committing {
        CommittingIsFilled(role, disk, nd, m);
        if IsCommitted(nd.log, m.t) { ExecFrozen(role, disk, nd, m, m.t); }
        CommittingNeedsDisk(role, disk, nd, m);
      } else {
        OnlyCommittingCommits(role, disk, nd, m);
      }
  }

  lemma CommittingNeedsDisk(role: Role, disk: bool, nd: Node, m: Msg)
    requires Exec(role, disk, nd, m).1 == Committing
    ensures role == Backup ==> disk
  {
  }

  lemma OnlyCommittingCommits(role: Role, disk: bool, nd: Node, m: Msg)
    requires WellFormed(nd.log) && Exec(role, disk, nd, m).1 != Committing
    ensures !NewlyCommitted(nd, Exec(role, disk, nd, m).0, m.t)
  {
  }

  // ----- the file a client names ----------------------------------------------------------------

  /** t is in the log all along. */
  ghost predicate StaysIn(role: Role, nd: Node, es: seq<Event>, t: Tsn)
    requires WellFormed(nd.log)
    decreases |es|
  {
    && t in nd.log
    && if es == [] then true
       else
         StepWellFormed(role, nd, es[0]);
         StaysIn(role, Step(role, nd, es[0]), es[1..], t)
  }

  lemma StepKeepsName(role: Role, nd: Node, e: Event, t: Tsn)
    requires WellFormed(nd.log) && t in nd.log && t in Step(role, nd, e).log
    ensures Step(role, nd, e).log[t].file == nd.log[t].file
  {
    match e
    case Tick => PassEffects(nd.log, t);
    case Op(m, agree, disk) =>
      ExecKeepsName(role, disk, nd, m, t);
      if Exec(role, disk, nd, m).1 == Committing { CommittingIsFilled(role, disk, nd, m); }
  }

  lemma ExecKeepsName(role: Role, disk: bool, nd: Node, m: Msg, t: Tsn)
    requires t in nd.log && t in Exec(role, disk, nd, m).0.log
    ensures Exec(role, disk, nd, m).0.log[t].file == nd.log[t].file
  {
    ExecFrame(role, disk, nd, m);
  }

  lemma {:induction false} NameIsKept(role: Role, nd: Node, es: seq<Event>, t: Tsn)
    requires WellFormed(nd.log) && StaysIn(role, nd, es, t)
    ensures WellFormed(Run(role, nd, es).log) && t in Run(role, nd, es).log
    ensures Run(role, nd, es).log[t].file == nd.log[t].file
    decreases |es|
  {
    if es != [] {
      StepWellFormed(role, nd, es[0]);
      assert t in Step(role, nd, es[0]).log;
      StepKeepsName(role, nd, es[0], t);
      NameIsKept(role, Step(role, nd, es[0]), es[1..], t);
    }
  }

  /** The commit of t at e, if it is one: the file of that name, and no other, grows by the
    * writes 1..n. */
  lemma CommitGrowsFile(role: Role, nd: Node, e: Event, t: Tsn)
    requires WellFormed(nd.log) && e.Op? && NewlyCommitted(nd, Step(role, nd, e), t)
    ensures t in nd.log && WellFormed(Step(role, nd, e).log)
    ensures var nd' := Step(role, nd, e);
      var x := nd'.log[t];
      && Filled(x.writes, x.num) && x.num >= 1
      && Blocks.Grown(nd.files, nd'.files, nd.log[t].file, Wire.Joined(Blocks.Lines(x.writes, x.num)))
  {
    StepAppends(role, nd, e);
    var x := Step(role, nd, e).log[t];
    assert e.m.t == t;
    OnlyKnownCommit(role, nd, e);
    StepKeepsName(role, nd, e, t);
    Blocks.AppendGrows(nd.files, x.file, x.writes, x.num);
  }

  lemma OnlyKnownCommit(role: Role, nd: Node, e: Event)
    requires WellFormed(nd.log) && e.Op? && IsCommitted(Step(role, nd, e).log, e.m.t)
    ensures e.m.t in nd.log
  {
  }

  /** From the request that opens a transaction to its commit: what was written goes to the
    * file that the client has named. */
  lemma NamedFileGetsTheWrites(role: Role, nd: Node, t: Tsn, name: string, agree: bool, es: seq<Event>, e: Event)
    requires WellFormed(nd.log) && t !in nd.log
    ensures WellFormed(Step(role, nd, Op(Make(t, name), agree, true)).log)
    ensures var nd1 := Step(role, nd, Op(Make(t, name), agree, true));
      StaysIn(role, nd1, es, t) ==>
        && WellFormed(Run(role, nd1, es).log)
        && (e.Op? && NewlyCommitted(Run(role, nd1, es), Step(role, Run(role, nd1, es), e), t) ==>
              var (r, r') := (Run(role, nd1, es), Step(role, Run(role, nd1, es), e));
              && Filled(r'.log[t].writes, r'.log[t].num)
              && Blocks.Grown(r.files, r'.files, name, Wire.Joined(Blocks.Lines(r'.log[t].writes, r'.log[t].num))))
  {
    var nd1 := Step(role, nd, Op(Make(t, name), agree, true));
    StepWellFormed(role, nd, Op(Make(t, name), agree, true));
    assert nd1.log[t].file == name;
    if StaysIn(role, nd1, es, t) {
      NameIsKept(role, nd1, es, t);
      var r := Run(role, nd1, es);
      if e.Op? && NewlyCommitted(r, Step(role, r, e), t) { CommitGrowsFile(role, r, e, t); }
    }
  }

  // ----- aborted for good ------------------------------------------------------------------------

  /** The events of a run but for the requests for t. */
  ghost function WithoutRequestsFor(es: seq<Event>, t: Tsn): seq<Event> {
    if es == [] then []
    else (if es[0].Op? && es[0].m.t == t then [] else [es[0]]) + WithoutRequestsFor(es[1..], t)
  }

  ghost predicate NotMade(es: seq<Event>, t: Tsn) {
    forall e :: e in es && e.Op? && e.m.Make? ==> e.m.t != t
  }

  lemma UnknownStep(role: Role, nd: Node, e: Event, t: Tsn)
    requires WellFormed(nd.log) && t !in nd.log && NotMade([e], t)
    ensures t !in Step(role, nd, e).log
    ensures e.Op? && e.m.t == t ==> Step(role, nd, e) == nd
  {
    match e
    case Tick => PassEffects(nd.log, t);
    case Op(m, agree, disk) =>
      assert e in [e];
      if m.t != t { Expiry.StepElsewhere(role, nd, e, t); }
  }

  /** Requests for a transaction that is not there leave no trace, unless it is opened. */
  lemma {:induction false} UnknownLeavesNoTrace(role: Role, nd: Node, es: seq<Event>, t: Tsn)
    requires WellFormed(nd.log) && t !in nd.log && NotMade(es, t)
    ensures t !in Run(role, nd, es).log
    ensures Run(role, nd, es) == Run(role, nd, WithoutRequestsFor(es, t))
    decreases |es|
  {
    if es != [] {
      var e, rest := es[0], WithoutRequestsFor(es[1..], t);
      assert e in es;
      var nd' := Step(role, nd, e);
      StepWellFormed(role, nd, e);
      UnknownStep(role, nd, e, t);
      UnknownLeavesNoTrace(role, nd', es[1..], t);
      if e.Op? && e.m.t == t {
        assert [] + rest == rest;
      } else {
        assert ([e] + rest)[1..] == rest;
      }
    }
  }

  /** An accepted abort removes the transaction for good: until it is opened again, no run
    * contains it or appends anything for it; it goes as if it were never asked for. */
  lemma AbortedForGood(role: Role, nd: Node, t: Tsn, agree: bool, disk: bool, es: seq<Event>)
    requires WellFormed(nd.log) && t in nd.log && nd.log[t].status !in {Committed, Expired} && NotMade(es, t)
    ensures var nd1 := Step(role, nd, Op(Abort(t), agree, disk));
      && nd1 == nd.(log := nd.log - {t})
      && t !in Run(role, nd1, es).log
      && Run(role, nd1, es) == Run(role, nd1, WithoutRequestsFor(es, t))
  {
    var nd1 := Step(role, nd, Op(Abort(t), agree, disk));
    UnknownLeavesNoTrace(role, nd1, es, t);
  }

  // ----- what the client is told -----------------------------------------------------------------

  /** The codes of refusal, each with all its causes. */
  lemma ReplyCodes(m: Msg, p: Node)
    requires WellFormed(p.log)
    ensures var r := Answer(Exec(Primary, true, p, m).1);
      && (r == Error(204) <==> m.Write? && m.k < 1)
      && (r == Error(201) <==> m.t !in p.log && (m.Commit? || m.Abort? || (m.Write? && m.k >= 1)))
      && (m.t !in p.log && m.Make? ==> r == Ack)
      && (m.t in p.log && !m.Make? && !(m.Write? && m.k < 1) ==>
            var x := p.log[m.t];
            && (r == Error(220) <==> x.status == Expired)
            && (r == Error(202) <==> TooLate(x, m))
            && (r == Error(301) <==> m.Write? && x.status !in {Committed, Expired} && m.k in x.writes)
            && (r == Error(404) <==> m.Commit? && x.status in {Active, Flag, Writing} && m.n < 1)
            && (r == AckResend <==> m.Commit? && Open(x, m.n) && m.n >= 1 && !Complete(x.writes, m.n))
            && (r.Error? ==> r.code in {201, 202, 204, 220, 301, 404}))
  {
    match m
    case Make(_, _) =>
    case Write(t, k, data) => WriteCodes(Primary, true, p, t, k, data);
    case Commit(t, n) => CommitCodes(Primary, true, p, t, n);
    case Abort(t) => AbortCodes(p, t);
  }

  /** The transaction is committed, or waits to be committed without this. */
  ghost predicate TooLate(x: Txn, m: Msg) {
    match m
    case Make(_, _) => false
    case Abort(_) => x.status == Committed
    case Commit(_, n) => x.status in {Waiting, Committed} && x.num != n
    case Write(_, k, _) => x.status == Committed || (x.status == Waiting && k !in x.writes && k > x.num)
  }
}
