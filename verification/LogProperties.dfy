/** What holds in every run of one server, in either role and with any disk or
  * peer behaviour: well-formedness, committed transactions never change, the
  * files are exactly the history of commits, and which holes can still be filled. */
module LogProperties {
  import opened TransactionLog

  lemma {:induction false} RunWellFormed(role: Role, nd: Node, es: seq<Event>)
    requires WellFormed(nd.log)
    ensures WellFormed(Run(role, nd, es).log)
    decreases |es|
  {
    if es != [] {
      StepWellFormed(role, nd, es[0]);
      RunWellFormed(role, Step(role, nd, es[0]), es[1..]);
    }
  }

  lemma {:induction false} RunSplit(role: Role, nd: Node, es: seq<Event>, e: Event)
    requires WellFormed(nd.log)
    ensures WellFormed(Run(role, nd, es).log)
    ensures Run(role, nd, es + [e]) == Step(role, Run(role, nd, es), e)
    decreases |es|
  {
    RunWellFormed(role, nd, es);
    if es == [] {
      assert (es + [e])[1..] == [];
      StepWellFormed(role, nd, e);
    } else {
      StepWellFormed(role, nd, es[0]);
      assert (es + [e])[1..] == es[1..] + [e];
      RunSplit(role, Step(role, nd, es[0]), es[1..], e);
    }
  }

  // ----- committed is final -------------------------------------------------

  ghost predicate IsCommitted(log: map<Tsn, Txn>, t: Tsn) {
    t in log && log[t].status == Committed
  }

  lemma StepFrozen(role: Role, nd: Node, e: Event, t: Tsn)
    requires WellFormed(nd.log) && IsCommitted(nd.log, t)
    ensures t in Step(role, nd, e).log && Step(role, nd, e).log[t] == nd.log[t]
  {
    match e
    case Tick =>
    case Op(m, agree, disk) => ExecFrozen(role, disk, nd, m, t);
  }

  lemma ExecFrozen(role: Role, disk: bool, nd: Node, m: Msg, t: Tsn)
    requires WellFormed(nd.log) && IsCommitted(nd.log, t)
    ensures t in Exec(role, disk, nd, m).0.log && Exec(role, disk, nd, m).0.log[t] == nd.log[t]
    ensures Exec(role, disk, nd, m).1 == Committing ==> m.t != t
  {
    ExecFrame(role, disk, nd, m);
  }

  /** Once committed, a transaction keeps its entries, status and number for ever. */
  lemma {:induction false} CommittedIsFrozen(role: Role, nd: Node, es: seq<Event>, t: Tsn)
    requires WellFormed(nd.log) && IsCommitted(nd.log, t)
    ensures t in Run(role, nd, es).log && Run(role, nd, es).log[t] == nd.log[t]
    decreases |es|
  {
    if es != [] {
      StepWellFormed(role, nd, es[0]);
      StepFrozen(role, nd, es[0], t);
      CommittedIsFrozen(role, Step(role, nd, es[0]), es[1..], t);
    }
  }

  // ----- the files are the history of commits ---------------------------------

  /** One server's commits in the order they happened. */
  ghost function HistoryStep(role: Role, nd: Node, hist: seq<Tsn>, e: Event): seq<Tsn>
    requires WellFormed(nd.log)
  {
    if e.Op? && IsCommitted(Step(role, nd, e).log, e.m.t) && !IsCommitted(nd.log, e.m.t)
    then hist + [e.m.t] else hist
  }

  ghost function History(role: Role, nd: Node, hist: seq<Tsn>, es: seq<Event>): seq<Tsn>
    requires WellFormed(nd.log)
    decreases |es|
  {
    if es == [] then hist
    else
      StepWellFormed(role, nd, es[0]);
      History(role, Step(role, nd, es[0]), HistoryStep(role, nd, hist, es[0]), es[1..])
  }

  /** The blocks of the transactions of `hist` that name file `f`, in order. */
  ghost function Rendered(hist: seq<Tsn>, log: map<Tsn, Txn>, f: string): string
    requires WellFormed(log) && forall t :: t in hist ==> IsCommitted(log, t)
  {
    if hist == [] then ""
    else
      var last := |hist| - 1;
      assert hist[last] in hist && IsCommitted(log, hist[last]);
      var x := log[hist[last]];
      Rendered(hist[..last], log, f) + (if x.file == f then Block(x.writes, x.num) else "")
  }

  ghost predicate FilesAreHistory(nd: Node, hist: seq<Tsn>, initial: map<string, string>) {
    && WellFormed(nd.log)
    && (forall t :: t in hist <==> IsCommitted(nd.log, t))
    && (forall i, j :: 0 <= i < j < |hist| ==> hist[i] != hist[j])
    && (forall f :: Content(nd.files, f) == Content(initial, f) + Rendered(hist, nd.log, f))
  }

  lemma {:induction false} RenderedUnchanged(hist: seq<Tsn>, log: map<Tsn, Txn>, log': map<Tsn, Txn>, f: string)
    requires WellFormed(log) && WellFormed(log')
    requires forall t :: t in hist ==> IsCommitted(log, t) && t in log' && log'[t] == log[t]
    ensures Rendered(hist, log, f) == Rendered(hist, log', f)
  {
    if hist != [] {
      assert hist[|hist| - 1] in hist;
      RenderedUnchanged(hist[..|hist| - 1], log, log', f);
    }
  }

  ghost predicate NewlyCommitted(nd: Node, nd': Node, t: Tsn) {
    IsCommitted(nd'.log, t) && !IsCommitted(nd.log, t)
  }

  /** The old files, with the block of t appended if t has just been committed. */
  ghost function FilesWith(nd: Node, nd': Node, t: Tsn): map<string, string>
    requires WellFormed(nd'.log)
  {
    if NewlyCommitted(nd, nd', t) then
      var x := nd'.log[t];
      Append(nd.files, x.file, Block(x.writes, x.num))
    else nd.files
  }

  /** The files change exactly when the request commits its transaction, and then by
    * the block of that transaction. */
  lemma ExecAppends(role: Role, disk: bool, nd: Node, m: Msg)
    requires WellFormed(nd.log)
    ensures var nd' := Exec(role, disk, nd, m).0;
      && WellFormed(nd'.log)
      && nd'.files == FilesWith(nd, nd', m.t)
      && (NewlyCommitted(nd, nd', m.t) ==> role == Backup)
  {
    ExecWellFormed(role, disk, nd, m);
    if m.Write? && m.t in nd.log {
      assert WellFormedTxn(nd.log[m.t]);
    }
  }

  lemma StepAppends(role: Role, nd: Node, e: Event)
    requires WellFormed(nd.log) && e.Op?
    ensures WellFormed(Step(role, nd, e).log)
    ensures var nd' := Step(role, nd, e);
      && nd'.files == FilesWith(nd, nd', e.m.t)
      && forall t :: t != e.m.t ==> (IsCommitted(nd'.log, t) <==> IsCommitted(nd.log, t))
  {
    StepWellFormed(role, nd, e);
    ExecAppends(role, e.disk, nd, e.m);
    ExecFrame(role, e.disk, nd, e.m);
    if Exec(role, e.disk, nd, e.m).1 == Committing {
      CommittingIsFilled(role, e.disk, nd, e.m);
      if IsCommitted(nd.log, e.m.t) { ExecFrozen(role, e.disk, nd, e.m, e.m.t); }
    }
  }

  /** The expiry pass commits nothing and leaves what is committed. */
  lemma TickKeepsCommits(nd: Node)
    requires WellFormed(nd.log)
    ensures forall t :: IsCommitted(Timeouts(nd.log), t) <==> IsCommitted(nd.log, t)
  {
  }

  lemma HistoryStepKeeps(role: Role, nd: Node, hist: seq<Tsn>, initial: map<string, string>, e: Event)
    requires FilesAreHistory(nd, hist, initial)
    ensures FilesAreHistory(Step(role, nd, e), HistoryStep(role, nd, hist, e), initial)
  {
    var nd', hist' := Step(role, nd, e), HistoryStep(role, nd, hist, e);
    StepWellFormed(role, nd, e);
    CommitsRecorded(role, nd, hist, e);
    forall t | IsCommitted(nd.log, t)
      ensures t in nd'.log && nd'.log[t] == nd.log[t]
    {
      StepFrozen(role, nd, e, t);
    }
    match e
    case Tick =>
      forall f ensures Content(nd'.files, f) == Content(initial, f) + Rendered(hist', nd'.log, f) {
        RenderedUnchanged(hist, nd.log, nd'.log, f);
      }
    case Op(m, _, _) =>
      StepAppends(role, nd, e);
      forall f ensures Content(nd'.files, f) == Content(initial, f) + Rendered(hist', nd'.log, f) {
        ContentFollows(nd, nd', hist, hist', initial, m.t, f);
      }
  }

  lemma ContentFollows(
    nd: Node, nd': Node, hist: seq<Tsn>, hist': seq<Tsn>, initial: map<string, string>, t: Tsn, f: string)
    requires FilesAreHistory(nd, hist, initial) && WellFormed(nd'.log)
    requires forall t' :: IsCommitted(nd.log, t') ==> t' in nd'.log && nd'.log[t'] == nd.log[t']
    requires nd'.files == FilesWith(nd, nd', t)
    requires hist' == if NewlyCommitted(nd, nd', t) then hist + [t] else hist
    ensures forall t' :: t' in hist' ==> IsCommitted(nd'.log, t')
    ensures Content(nd'.files, f) == Content(initial, f) + Rendered(hist', nd'.log, f)
  {
    RenderedUnchanged(hist, nd.log, nd'.log, f);
    if NewlyCommitted(nd, nd', t) {
      RenderedGrows(hist, nd'.log, t, f);
      var x := nd'.log[t];
      AppendContent(nd.files, x.file, Block(x.writes, x.num), f);
      GrowBoth(Content(nd.files, f), Content(initial, f), Rendered(hist, nd.log, f),
        if x.file == f then Block(x.writes, x.num) else "");
    }
  }

  /** The history lists the committed transactions, each once. */
  lemma CommitsRecorded(role: Role, nd: Node, hist: seq<Tsn>, e: Event)
    requires WellFormed(nd.log) && forall t :: t in hist <==> IsCommitted(nd.log, t)
    requires forall i, j :: 0 <= i < j < |hist| ==> hist[i] != hist[j]
    ensures var nd', hist' := Step(role, nd, e), HistoryStep(role, nd, hist, e);
      && (forall t :: t in hist' <==> IsCommitted(nd'.log, t))
      && (forall i, j :: 0 <= i < j < |hist'| ==> hist'[i] != hist'[j])
  {
    var nd', hist' := Step(role, nd, e), HistoryStep(role, nd, hist, e);
    match e
    case Tick => TickKeepsCommits(nd);
    case Op(m, _, _) =>
      StepAppends(role, nd, e);
      if IsCommitted(nd.log, m.t) { StepFrozen(role, nd, e, m.t); }
      assert forall t :: t in hist + [m.t] <==> t in hist || t == m.t;
      assert hist' == if NewlyCommitted(nd, nd', m.t) then hist + [m.t] else hist;
      assert m.t in hist <==> IsCommitted(nd.log, m.t);
      assert forall i :: 0 <= i < |hist| ==> hist[i] in hist;
  }

  lemma RenderedGrows(hist: seq<Tsn>, log: map<Tsn, Txn>, t: Tsn, f: string)
    requires WellFormed(log) && IsCommitted(log, t)
    requires forall t' :: t' in hist ==> IsCommitted(log, t')
    ensures forall t' :: t' in hist + [t] ==> IsCommitted(log, t')
    ensures Rendered(hist + [t], log, f)
      == Rendered(hist, log, f) + (if log[t].file == f then Block(log[t].writes, log[t].num) else "")
  {
  }

  lemma GrowBoth(whole: string, a: string, b: string, z: string)
    requires whole == a + b
    ensures whole + z == a + (b + z)
    ensures z == "" ==> whole == a + (b + z)
  {
  }

  /** In every crash-free run from an empty log, each file is its initial content
    * followed by one block per committed transaction that names it, in commit order. */
  lemma FilesAreCommitHistory(role: Role, initial: map<string, string>, es: seq<Event>)
    ensures FilesAreHistory(Run(role, Node(map[], initial), es), History(role, Node(map[], initial), [], es), initial)
  {
    HistoryKept(role, Node(map[], initial), [], initial, es);
  }

  lemma {:induction false} HistoryKept(
    role: Role, nd: Node, hist: seq<Tsn>, initial: map<string, string>, es: seq<Event>)
    requires FilesAreHistory(nd, hist, initial)
    ensures FilesAreHistory(Run(role, nd, es), History(role, nd, hist, es), initial)
    decreases |es|
  {
    if es != [] {
      HistoryStepKeeps(role, nd, hist, initial, es[0]);
      HistoryKept(role, Step(role, nd, es[0]), HistoryStep(role, nd, hist, es[0]), initial, es[1..]);
    }
  }

  // ----- holes ---------------------------------------------------------------

  /** `canCommit` accepts exactly when nothing is missing. */
  lemma CanCommitIffNoHole(w: map<int, string>, n: int)
    ensures CanCommit(w, n) <==> n != 0 && forall k :: !Hole(w, n, k)
  {
    if n != 0 && forall k :: !Hole(w, n, k) {
      forall k | 1 <= k <= n ensures k in w { assert !Hole(w, n, k); }
      forall j, k | j in w && 1 <= k < j ensures k in w { assert !Hole(w, n, k); }
    }
  }

  /** A write to a transaction waiting at n is taken exactly when it is a missing
    * number up to n. It then removes that one hole, and the parked commit fires
    * exactly when no hole is left. */
  lemma WaitingWrite(role: Role, disk: bool, nd: Node, t: Tsn, k: int, data: string)
    requires WellFormed(nd.log) && t in nd.log && nd.log[t].status == Waiting
    ensures var x, (nd', out) := nd.log[t], AddEntry(role, disk, nd, t, k, data);
      && t in nd'.log
      && (if 1 <= k <= x.num && k !in x.writes then
            && nd'.log[t].writes == x.writes[k := data]
            && nd'.log[t].num == x.num
            && (forall j :: Hole(nd'.log[t].writes, x.num, j) <==> Hole(x.writes, x.num, j) && j != k)
            && (out == Accepted || out == Committing || out == Refused(205))
            && (out != Accepted <==> forall j :: !Hole(nd'.log[t].writes, x.num, j))
            && (out == Committing ==> nd'.log[t].status == if role == Primary then Writing else Committed)
            && (out != Committing ==> nd'.log[t].status == Waiting)
          else nd' == nd)
  {
    var x := nd.log[t];
    if 1 <= k <= x.num && k !in x.writes {
      var w := x.writes[k := data];
      CanCommitIffNoHole(w, x.num);
      forall j ensures Hole(w, x.num, j) <==> Hole(x.writes, x.num, j) && j != k {
        if Hole(x.writes, x.num, j) && j != k && j > x.num {
          var i :| i in x.writes && j < i;
          assert i in w;
        }
      }
    }
  }

  ghost predicate WritesAndCommits(es: seq<Event>) {
    forall e :: e in es ==> e.Op? && (e.m.Write? || e.m.Commit?)
  }

  ghost predicate WaitingAt(log: map<Tsn, Txn>, t: Tsn, n: int) {
    t in log && log[t].status == Waiting && log[t].num == n
  }

  lemma HoleAboveStays(role: Role, nd: Node, e: Event, t: Tsn, n: int, k: int)
    requires WellFormed(nd.log) && e.Op? && (e.m.Write? || e.m.Commit?)
    requires WaitingAt(nd.log, t, n) && n < k && Hole(nd.log[t].writes, n, k)
    ensures WaitingAt(Step(role, nd, e).log, t, n) && Hole(Step(role, nd, e).log[t].writes, n, k)
  {
    CanCommitIffNoHole(nd.log[t].writes, n);
    ExecFrame(role, e.disk, nd, e.m);
    if e.m.t == t && e.m.Write? {
      WaitingWrite(role, e.disk, nd, t, e.m.k, e.m.data);
    } else if e.m.t != t && Exec(role, e.disk, nd, e.m).1 == Committing {
      CommittingIsFilled(role, e.disk, nd, e.m);
    }
  }

  /** A hole above the pending commit number survives every write and commit. */
  lemma {:induction false} HoleAboveIsForEver(role: Role, nd: Node, es: seq<Event>, t: Tsn, n: int, k: int)
    requires WellFormed(nd.log) && WritesAndCommits(es)
    requires WaitingAt(nd.log, t, n) && n < k && Hole(nd.log[t].writes, n, k)
    ensures WaitingAt(Run(role, nd, es).log, t, n) && Hole(Run(role, nd, es).log[t].writes, n, k)
    decreases |es|
  {
    if es != [] {
      assert es[0] in es;
      StepWellFormed(role, nd, es[0]);
      HoleAboveStays(role, nd, es[0], t, n, k);
      HoleAboveIsForEver(role, Step(role, nd, es[0]), es[1..], t, n, k);
    }
  }

  /** Writes 1..j of t, all succeeding. */
  function FillWrites(t: Tsn, j: nat): seq<Event> {
    if j == 0 then [] else FillWrites(t, j - 1) + [Op(Write(t, j, ""), true, true)]
  }

  ghost predicate OnTheWay(log: map<Tsn, Txn>, t: Tsn, n: int, j: int) {
    && t in log && log[t].num == n
    && (log[t].status == Committed
        || (log[t].status == Waiting && Filled(log[t].writes, j)
            && forall k :: Hole(log[t].writes, n, k) ==> k <= n))
  }

  lemma FillOneMore(role: Role, nd: Node, t: Tsn, n: int, j: nat)
    requires WellFormed(nd.log) && 1 <= j <= n && OnTheWay(nd.log, t, n, j - 1)
    ensures var nd' := Step(role, nd, Op(Write(t, j, ""), true, true));
      WellFormed(nd'.log) && OnTheWay(nd'.log, t, n, j)
  {
    StepWellFormed(role, nd, Op(Write(t, j, ""), true, true));
    if nd.log[t].status == Waiting {
      WaitingWrite(role, true, nd, t, j, "");
    }
  }

  lemma FillNext(role: Role, nd: Node, es: seq<Event>, t: Tsn, n: int, j: nat)
    requires WellFormed(nd.log) && WellFormed(Run(role, nd, es).log)
    requires 1 <= j <= n && OnTheWay(Run(role, nd, es).log, t, n, j - 1)
    ensures var r := Run(role, nd, es + [Op(Write(t, j, ""), true, true)]);
      WellFormed(r.log) && OnTheWay(r.log, t, n, j)
  {
    RunSplit(role, nd, es, Op(Write(t, j, ""), true, true));
    FillOneMore(role, Run(role, nd, es), t, n, j);
  }

  lemma {:induction false} FillingIsWrites(t: Tsn, j: nat)
    ensures WritesAndCommits(FillWrites(t, j))
  {
    if j > 0 {
      FillingIsWrites(t, j - 1);
    }
  }

  lemma {:induction false} FillingGetsThere(role: Role, nd: Node, t: Tsn, n: int, j: nat)
    requires WellFormed(nd.log) && WaitingAt(nd.log, t, n) && j <= n
    requires forall k :: Hole(nd.log[t].writes, n, k) ==> k <= n
    ensures WellFormed(Run(role, nd, FillWrites(t, j)).log)
    ensures OnTheWay(Run(role, nd, FillWrites(t, j)).log, t, n, j)
  {
    if j > 0 {
      FillingGetsThere(role, nd, t, n, j - 1);
      FillNext(role, nd, FillWrites(t, j - 1), t, n, j);
    }
  }

  /** A waiting transaction can still be committed by writes and commits if and
    * only if it has no hole above its pending commit number. */
  lemma CommittableIffNoHoleAbove(role: Role, nd: Node, t: Tsn, n: int)
    requires WellFormed(nd.log) && WaitingAt(nd.log, t, n)
    ensures (exists es :: WritesAndCommits(es) && IsCommitted(Run(role, nd, es).log, t))
      <==> !(exists k :: n < k && Hole(nd.log[t].writes, n, k))
  {
    if k :| n < k && Hole(nd.log[t].writes, n, k) {
      forall es | WritesAndCommits(es) ensures !IsCommitted(Run(role, nd, es).log, t) {
        HoleAboveIsForEver(role, nd, es, t, n, k);
      }
    } else {
      var es, e := FillWrites(t, n), Op(Commit(t, n), true, true);
      FillingIsWrites(t, n);
      FillingGetsThere(role, nd, t, n, n);
      RunSplit(role, nd, es, e);
      var nd1 := Run(role, nd, es);
      if nd1.log[t].status == Waiting { CanCommitIffNoHole(nd1.log[t].writes, n); }
      assert WritesAndCommits(es + [e]) && IsCommitted(Run(role, nd, es + [e]).log, t);
    }
  }

  lemma RunOfThree(role: Role, nd: Node, a: Event, b: Event, c: Event)
    requires WellFormed(nd.log)
    ensures WellFormed(Step(role, nd, a).log) && WellFormed(Step(role, Step(role, nd, a), b).log)
    ensures Run(role, nd, [a, b, c]) == Step(role, Step(role, Step(role, nd, a), b), c)
  {
    StepWellFormed(role, nd, a);
    StepWellFormed(role, Step(role, nd, a), b);
    RunSplit(role, nd, [a, b], c);
    RunSplit(role, nd, [a], b);
    RunSplit(role, nd, [], a);
    assert [] + [a] == [a] && [a] + [b] == [a, b] && [a, b] + [c] == [a, b, c];
  }

  lemma CommitBelowAWrite(role: Role, nd: Node, x: Txn)
    requires WellFormed(nd.log) && 1 in nd.log && nd.log[1] == x && x.status == Active
    requires 1 !in x.writes && 2 !in x.writes && 3 in x.writes
    ensures var r := Step(role, nd, Op(Commit(1, 1), true, true));
      WaitingAt(r.log, 1, 1) && Hole(r.log[1].writes, 1, 2)
  {
    assert !Filled(x.writes, 1);
  }

  /** Such a hole can be reached: write 3 arrives, then a commit at 1, and 2 is refused
    * from then on. */
  lemma HoleAboveIsReachable(role: Role, files: map<string, string>)
    ensures var r := Run(role, Node(map[], files), [
        Op(Make(1, "ab"), true, true), Op(Write(1, 3, "cc"), true, true), Op(Commit(1, 1), true, true)]);
      && WellFormed(r.log) && WaitingAt(r.log, 1, 1) && Hole(r.log[1].writes, 1, 2)
      && forall es :: WritesAndCommits(es) ==> !IsCommitted(Run(role, r, es).log, 1)
  {
    var nd := Node(map[], files);
    var a, b, c := Op(Make(1, "ab"), true, true), Op(Write(1, 3, "cc"), true, true), Op(Commit(1, 1), true, true);
    RunOfThree(role, nd, a, b, c);
    var x := NewTxn("ab").(writes := map[3 := "cc"]);
    var n2 := Step(role, Step(role, nd, a), b);
    assert 1 in n2.log && n2.log[1] == x;
    CommitBelowAWrite(role, n2, x);
    var r := Run(role, nd, [a, b, c]);
    RunWellFormed(role, nd, [a, b, c]);
    CommittableIffNoHoleAbove(role, r, 1, 1);
  }
}
