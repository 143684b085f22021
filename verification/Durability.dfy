/** One server that may crash between any two of its writes to disk. Saving the log
  * is atomic and an append is all or nothing; a crash loses what was not saved. */
module Durability {
  import opened TransactionLog
  import opened LogProperties

  /** Where the handler of a commit stands: the log says WRITING and is saved, then
    * the block is in the file, then the log says COMMITTED and is saved. */
  datatype Phase = Idle | Pending(t: Tsn) | Appended(t: Tsn) | Marked(t: Tsn)

  /** A block that reached a file. */
  datatype Entry = Entry(t: Tsn, file: string, text: string)

  datatype Server = Server(
    log: map<Tsn, Txn>,
    saved: map<Tsn, Txn>,
    files: map<string, string>,
    phase: Phase,
    acked: set<(Tsn, int)>,
    appended: seq<Entry>,
    crashes: nat)

  datatype Action =
    | Serve(m: Msg)
    | Sweep          // the expiry pass
    | Flush          // the periodic save
    | CommitFails    // the backup refuses, or on a backup the append fails
    | DoAppend
    | DoMark
    | DoAcknowledge
    | Crash

  ghost predicate Consistent(s: Server) {
    && WellFormed(s.log) && WellFormed(s.saved)
    && (s.phase.Pending? || s.phase.Appended? ==> s.phase.t in s.log && s.log[s.phase.t].status == Writing)
    && (s.phase.Marked? ==> IsCommitted(s.log, s.phase.t))
  }

  /** One action; those that do not apply in the current phase change nothing. */
  ghost function Next(role: Role, s: Server, a: Action): Server
    requires Consistent(s)
  {
    match a
    case Serve(m) =>
      if s.phase != Idle then s
      else
        var (nd, out) := Exec(Primary, true, Node(s.log, s.files), m);
        s.(log := nd.log,
           saved := if Saves(s.log, m, out) then nd.log else s.saved,
           phase := if out == Committing then Pending(m.t) else Idle,
           acked := if out == AlreadyCommitted then s.acked + {(m.t, m.n)} else s.acked)
    case Sweep => if s.phase != Idle then s else s.(log := Timeouts(s.log), saved := Timeouts(s.log))
    case Flush => if s.phase != Idle then s else s.(saved := s.log)
    case CommitFails =>
      if !s.phase.Pending? then s
      else if role == Primary then s.(phase := Idle)
      else
        var log1 := s.log[s.phase.t := s.log[s.phase.t].(status := Waiting)];
        s.(log := log1, saved := log1, phase := Idle)
    case DoAppend =>
      if !s.phase.Pending? then s
      else
        var x := s.log[s.phase.t];
        s.(files := Append(s.files, x.file, Block(x.writes, x.num)),
           appended := s.appended + [Entry(s.phase.t, x.file, Block(x.writes, x.num))],
           phase := Appended(s.phase.t))
    case DoMark =>
      if !s.phase.Appended? then s
      else
        var log1 := s.log[s.phase.t := s.log[s.phase.t].(status := Committed)];
        s.(log := log1, saved := log1, phase := Marked(s.phase.t))
    case DoAcknowledge =>
      if !s.phase.Marked? then s
      else s.(phase := Idle, acked := s.acked + {(s.phase.t, s.log[s.phase.t].num)})
    case Crash => s.(log := s.saved, phase := Idle, crashes := s.crashes + 1)
  }

  /** Without a crash the small steps compose to the whole handler of TransactionLog. */
  lemma SmallStepsAreTheHandler(role: Role, s: Server, m: Msg)
    requires Consistent(s) && s.phase == Idle
    requires Exec(Primary, true, Node(s.log, s.files), m).1 == Committing
    ensures var s1 := Next(role, s, Serve(m));
      && Consistent(s1) && Consistent(Next(role, s1, DoAppend))
      && Consistent(Next(role, Next(role, s1, DoAppend), DoMark))
      && var s3 := Next(role, Next(role, s1, DoAppend), DoMark);
      Node(s3.log, s3.files) == Step(role, Node(s.log, s.files), Op(m, true, true))
  {
    CommittingIsFilled(Primary, true, Node(s.log, s.files), m);
    ExecWellFormed(Primary, true, Node(s.log, s.files), m);
  }

  /** A commit that fails leaves what the handler leaves: on a primary, whose backup refuses,
    * the transaction WRITING; on a backup, whose append fails, the transaction WAITING. */
  lemma FailuresAreTheHandler(role: Role, s: Server, m: Msg)
    requires Consistent(s) && s.phase == Idle
    requires Exec(Primary, true, Node(s.log, s.files), m).1 == Committing
    ensures var s1 := Next(role, s, Serve(m));
      Consistent(s1) && var s2 := Next(role, s1, CommitFails);
      && Node(s2.log, s2.files) == Step(role, Node(s.log, s.files), Op(m, false, false))
      && s2.saved == s2.log
  {
    CommittingIsFilled(Primary, true, Node(s.log, s.files), m);
    ExecWellFormed(Primary, true, Node(s.log, s.files), m);
  }

  /** A crash right after a pass, a flush or the mark of a commit undoes nothing. */
  lemma CrashAfterSave(role: Role, s: Server, a: Action)
    requires Consistent(s) && Consistent(Next(role, s, a))
    requires (s.phase == Idle && (a == Sweep || a == Flush)) || (s.phase.Appended? && a == DoMark)
    ensures var s1 := Next(role, s, a);
      var r := Next(role, s1, Crash);
      r.log == s1.log && r.files == s1.files && r.phase == Idle
  {
  }

  /** A request survives a crash right after it if it opens a transaction or asks for a commit
    * that starts or has holes, or if it is the write that starts one. An accepted write or
    * abort is undone, along with all else since the last save. */
  lemma CrashAfterRequest(role: Role, s: Server, m: Msg)
    requires Consistent(s) && s.phase == Idle && Consistent(Next(role, s, Serve(m)))
    ensures var s1 := Next(role, s, Serve(m));
      var (r, out) := (Next(role, s1, Crash), Exec(Primary, true, Node(s.log, s.files), m).1);
      && (out in {Committing, Incomplete} || (m.Make? && m.t !in s.log) ==> r.log == s1.log)
      && (out == Accepted && !m.Make? ==> r.log == s.saved)
      && (out.Refused? || out == AlreadyCommitted ==> r.log == s.saved)
  {
  }

  ghost function Copies(appended: seq<Entry>, t: Tsn): nat {
    if appended == [] then 0
    else Copies(appended[..|appended| - 1], t) + (if appended[|appended| - 1].t == t then 1 else 0)
  }

  /** The text of the blocks that went to file f. */
  ghost function TextOf(appended: seq<Entry>, f: string): string {
    if appended == [] then ""
    else
      var last := appended[|appended| - 1];
      TextOf(appended[..|appended| - 1], f) + (if last.file == f then last.text else "")
  }

  ghost predicate BlockWritten(s: Server, t: Tsn)
    requires t in s.log && Filled(s.log[t].writes, s.log[t].num)
  {
    Entry(t, s.log[t].file, Block(s.log[t].writes, s.log[t].num)) in s.appended
  }

  /** What is committed is committed in the saved log too, and its block is written. */
  ghost predicate CommitsDurable(s: Server)
    requires Consistent(s)
  {
    && (forall t :: IsCommitted(s.log, t) <==> IsCommitted(s.saved, t))
    && (forall t :: IsCommitted(s.log, t) ==> s.saved[t] == s.log[t] && BlockWritten(s, t))
    && (s.phase.Appended? ==> BlockWritten(s, s.phase.t))
    && (forall a :: a in s.acked ==> IsCommitted(s.log, a.0) && s.log[a.0].num == a.1)
  }

  ghost predicate FilesWritten(s: Server, initial: map<string, string>) {
    forall f :: Content(s.files, f) == Content(initial, f) + TextOf(s.appended, f)
  }

  ghost predicate Safe(s: Server, initial: map<string, string>) {
    Consistent(s) && CommitsDurable(s) && FilesWritten(s, initial)
  }

  ghost predicate Kept(s: Server, s': Server) {
    && (forall t :: IsCommitted(s.log, t) ==> t in s'.log && s'.log[t] == s.log[t])
    && s.acked <= s'.acked
  }

  lemma AppendedContent(files: map<string, string>, initial: map<string, string>, appended: seq<Entry>, e: Entry)
    requires forall f :: Content(files, f) == Content(initial, f) + TextOf(appended, f)
    ensures forall f :: Content(Append(files, e.file, e.text), f) == Content(initial, f) + TextOf(appended + [e], f)
  {
    assert (appended + [e])[..|appended|] == appended;
    forall f ensures Content(Append(files, e.file, e.text), f) == Content(initial, f) + TextOf(appended + [e], f) {
      AppendContent(files, e.file, e.text, f);
      GrowBoth(Content(files, f), Content(initial, f), TextOf(appended, f), if e.file == f then e.text else "");
    }
  }

  lemma AppendKeepsDurable(role: Role, s: Server)
    requires Consistent(s) && CommitsDurable(s) && s.phase.Pending?
    ensures Consistent(Next(role, s, DoAppend)) && CommitsDurable(Next(role, s, DoAppend))
  {
  }

  lemma AppendKeepsFiles(role: Role, s: Server, initial: map<string, string>)
    requires Consistent(s) && FilesWritten(s, initial) && s.phase.Pending?
    ensures FilesWritten(Next(role, s, DoAppend), initial)
  {
    var x := s.log[s.phase.t];
    AppendedContent(s.files, initial, s.appended, Entry(s.phase.t, x.file, Block(x.writes, x.num)));
  }

  lemma AppendKeepsSafe(role: Role, s: Server, initial: map<string, string>)
    requires Safe(s, initial)
    ensures Safe(Next(role, s, DoAppend), initial)
    ensures Kept(s, Next(role, s, DoAppend))
  {
    if s.phase.Pending? {
      AppendKeepsDurable(role, s);
      AppendKeepsFiles(role, s, initial);
    }
  }

  lemma ServeKeepsSafe(role: Role, s: Server, m: Msg, initial: map<string, string>)
    requires Safe(s, initial)
    ensures Safe(Next(role, s, Serve(m)), initial)
    ensures Kept(s, Next(role, s, Serve(m)))
  {
    var s' := Next(role, s, Serve(m));
    if s.phase == Idle {
      var nd := Node(s.log, s.files);
      ExecWellFormed(Primary, true, nd, m);
      ServeCommitsNothing(nd, m);
      forall t | IsCommitted(s.log, t) ensures BlockWritten(s', t) {
        assert BlockWritten(s, t);
      }
    }
  }

  /** Serving a request never by itself marks or unmarks a commit. */
  lemma ServeCommitsNothing(nd: Node, m: Msg)
    requires WellFormed(nd.log)
    ensures var (nd', out) := Exec(Primary, true, nd, m);
      && (forall t :: IsCommitted(nd'.log, t) <==> IsCommitted(nd.log, t))
      && (forall t :: IsCommitted(nd.log, t) ==> nd'.log[t] == nd.log[t])
      && (out == Committing ==> m.t in nd'.log && nd'.log[m.t].status == Writing)
      && (out == AlreadyCommitted ==> m.Commit? && IsCommitted(nd.log, m.t) && nd.log[m.t].num == m.n)
      && nd'.files == nd.files
  {
  }

  /** Actions that append nothing keep every block that is already written. */
  lemma BlocksStay(s: Server, s': Server, t: Tsn)
    requires Consistent(s) && IsCommitted(s.log, t) && BlockWritten(s, t)
    requires t in s'.log && s'.log[t] == s.log[t] && s'.appended == s.appended
    ensures BlockWritten(s', t)
  {
  }

  lemma SweepKeepsSafe(role: Role, s: Server, initial: map<string, string>)
    requires Safe(s, initial)
    ensures Safe(Next(role, s, Sweep), initial)
    ensures Kept(s, Next(role, s, Sweep))
  {
    var s' := Next(role, s, Sweep);
    if s.phase == Idle {
      AgedWellFormed(s.log);
      TickKeepsCommits(Node(s.log, s.files));
      forall t | IsCommitted(s.log, t) ensures t in s'.log && s'.log[t] == s.log[t] && BlockWritten(s', t) {
        BlocksStay(s, s', t);
      }
    }
  }

  lemma SavesKeepSafe(role: Role, s: Server, a: Action, initial: map<string, string>)
    requires Safe(s, initial) && (a == Flush || a == CommitFails)
    ensures Safe(Next(role, s, a), initial)
    ensures Kept(s, Next(role, s, a))
  {
    var s' := Next(role, s, a);
    if s' != s {
      assert forall t :: IsCommitted(s'.log, t) <==> IsCommitted(s.log, t);
      forall t | IsCommitted(s.log, t) ensures t in s'.log && s'.log[t] == s.log[t] && BlockWritten(s', t) {
        BlocksStay(s, s', t);
      }
    }
  }

  lemma MarkKeepsSafe(role: Role, s: Server, a: Action, initial: map<string, string>)
    requires Safe(s, initial) && (a == DoMark || a == DoAcknowledge)
    ensures Safe(Next(role, s, a), initial)
    ensures Kept(s, Next(role, s, a))
  {
    var s' := Next(role, s, a);
    if s' != s {
      forall t | IsCommitted(s.log, t) ensures t in s'.log && s'.log[t] == s.log[t] && BlockWritten(s', t) {
        BlocksStay(s, s', t);
      }
    }
  }

  lemma CrashKeepsSafe(role: Role, s: Server, initial: map<string, string>)
    requires Safe(s, initial)
    ensures Safe(Next(role, s, Crash), initial)
    ensures Kept(s, Next(role, s, Crash))
  {
  }

  lemma NextKeepsSafe(role: Role, s: Server, a: Action, initial: map<string, string>)
    requires Safe(s, initial)
    ensures Safe(Next(role, s, a), initial)
    ensures Kept(s, Next(role, s, a))
  {
    match a
    case Serve(m) => ServeKeepsSafe(role, s, m, initial);
    case DoAppend => AppendKeepsSafe(role, s, initial);
    case Sweep => SweepKeepsSafe(role, s, initial);
    case Crash => CrashKeepsSafe(role, s, initial);
    case DoMark => MarkKeepsSafe(role, s, a, initial);
    case DoAcknowledge => MarkKeepsSafe(role, s, a, initial);
    case _ => SavesKeepSafe(role, s, a, initial);
  }

  ghost function Trace(role: Role, s: Server, acts: seq<Action>, initial: map<string, string>): Server
    requires Safe(s, initial)
    decreases |acts|
  {
    if acts == [] then s
    else
      NextKeepsSafe(role, s, acts[0], initial);
      Trace(role, Next(role, s, acts[0]), acts[1..], initial)
  }

  lemma {:induction false} TraceKeepsSafe(role: Role, s: Server, acts: seq<Action>, initial: map<string, string>)
    requires Safe(s, initial)
    ensures Safe(Trace(role, s, acts, initial), initial)
    ensures Kept(s, Trace(role, s, acts, initial))
    decreases |acts|
  {
    if acts != [] {
      NextKeepsSafe(role, s, acts[0], initial);
      TraceKeepsSafe(role, Next(role, s, acts[0]), acts[1..], initial);
    }
  }

  /** A server that starts with an empty log on these files. */
  ghost function Started(initial: map<string, string>): (s: Server)
    ensures Safe(s, initial)
  {
    Server(map[], map[], initial, Idle, {}, [], 0)
  }

  ghost predicate Holds(text: string, part: string) {
    exists before, after :: text == before + part + after
  }

  lemma {:induction false} EntryIsInText(appended: seq<Entry>, e: Entry)
    requires e in appended
    ensures Holds(TextOf(appended, e.file), e.text)
  {
    var last := |appended| - 1;
    var front := TextOf(appended[..last], e.file);
    if appended[last] == e {
      assert TextOf(appended, e.file) == front + e.text + "";
    } else {
      assert e in appended[..last];
      EntryIsInText(appended[..last], e);
      var before, after :| front == before + e.text + after;
      var tail := if appended[last].file == e.file then appended[last].text else "";
      assert TextOf(appended, e.file) == before + e.text + (after + tail);
    }
  }

  lemma HoldsAfter(prefix: string, text: string, part: string)
    requires Holds(text, part)
    ensures Holds(prefix + text, part)
  {
    var before, after :| text == before + part + after;
    assert prefix + text == (prefix + before) + part + after;
  }

  /** A commit acknowledged to a client stays committed at its number, in memory and
    * in the saved log, with its block in the file, through any later requests,
    * sweeps, failures and crashes. */
  lemma AcknowledgedCommitsSurvive(
    role: Role, initial: map<string, string>, earlier: seq<Action>, later: seq<Action>, t: Tsn, n: int)
    requires (t, n) in Trace(role, Started(initial), earlier, initial).acked
    ensures Safe(Trace(role, Started(initial), earlier, initial), initial)
    ensures var s := Trace(role, Started(initial), earlier, initial);
      var r := Trace(role, s, later, initial);
      && IsCommitted(s.log, t) && s.log[t].num == n
      && t in r.log && r.log[t] == s.log[t]
      && t in r.saved && r.saved[t] == s.log[t]
      && Holds(Content(r.files, s.log[t].file), Block(s.log[t].writes, n))
  {
    TraceKeepsSafe(role, Started(initial), earlier, initial);
    var s := Trace(role, Started(initial), earlier, initial);
    TraceKeepsSafe(role, s, later, initial);
    var r := Trace(role, s, later, initial);
    assert IsCommitted(r.log, t) && BlockWritten(r, t);
    var file := r.log[t].file;
    EntryIsInText(r.appended, Entry(t, file, Block(r.log[t].writes, r.log[t].num)));
    HoldsAfter(Content(initial, file), TextOf(r.appended, file), Block(r.log[t].writes, n));
  }

  // ----- how often a block is written ----------------------------------------------

  /** The crashes that fall between the append of t's block and the save of COMMITTED. */
  ghost function LostMarks(role: Role, s: Server, acts: seq<Action>, initial: map<string, string>, t: Tsn): nat
    requires Safe(s, initial)
    decreases |acts|
  {
    if acts == [] then 0
    else
      NextKeepsSafe(role, s, acts[0], initial);
      LostMark(s, acts[0], t) + LostMarks(role, Next(role, s, acts[0]), acts[1..], initial, t)
  }

  ghost function LostMark(s: Server, a: Action, t: Tsn): nat {
    if a == Crash && s.phase == Appended(t) then 1 else 0
  }

  /** Whether t's latest block stands for a commit, made or about to be marked. */
  ghost function Standing(s: Server, t: Tsn): nat {
    if IsCommitted(s.log, t) || s.phase == Appended(t) then 1 else 0
  }

  lemma CopiesOneMore(appended: seq<Entry>, e: Entry, t: Tsn)
    ensures Copies(appended + [e], t) == Copies(appended, t) + if e.t == t then 1 else 0
  {
    assert (appended + [e])[..|appended|] == appended;
  }

  lemma AppendCounts(role: Role, s: Server, t: Tsn)
    requires Consistent(s) && s.phase.Pending?
    ensures var s' := Next(role, s, DoAppend);
      Copies(s'.appended, t) + Standing(s, t) == Copies(s.appended, t) + Standing(s', t)
  {
    var x := s.log[s.phase.t];
    CopiesOneMore(s.appended, Entry(s.phase.t, x.file, Block(x.writes, x.num)), t);
  }

  /** Apart from an append, only a lost mark lets go of a block that stood. */
  lemma OthersCount(role: Role, s: Server, a: Action, initial: map<string, string>, t: Tsn)
    requires Safe(s, initial) && a != DoAppend
    ensures Next(role, s, a).appended == s.appended
    ensures Standing(s, t) == Standing(Next(role, s, a), t) + LostMark(s, a, t)
  {
    match a
    case Serve(m) => if s.phase == Idle { ServeCommitsNothing(Node(s.log, s.files), m); }
    case Sweep => TickKeepsCommits(Node(s.log, s.files));
    case Crash => assert IsCommitted(s.log, t) <==> IsCommitted(s.saved, t);
    case _ =>
  }

  lemma OneStepCopies(role: Role, s: Server, a: Action, initial: map<string, string>, t: Tsn)
    requires Safe(s, initial)
    ensures var s' := Next(role, s, a);
      Copies(s'.appended, t) + Standing(s, t) == Copies(s.appended, t) + Standing(s', t) + LostMark(s, a, t)
  {
    if a == DoAppend {
      if s.phase.Pending? { AppendCounts(role, s, t); }
    } else {
      OthersCount(role, s, a, initial, t);
    }
  }

  lemma {:induction false} CopiesCounted(role: Role, s: Server, acts: seq<Action>, initial: map<string, string>, t: Tsn)
    requires Safe(s, initial)
    ensures var r := Trace(role, s, acts, initial);
      && Copies(r.appended, t) + Standing(s, t)
          == Copies(s.appended, t) + LostMarks(role, s, acts, initial, t) + Standing(r, t)
      && s.crashes + LostMarks(role, s, acts, initial, t) <= r.crashes
    decreases |acts|
  {
    if acts != [] {
      NextKeepsSafe(role, s, acts[0], initial);
      OneStepCopies(role, s, acts[0], initial, t);
      var s' := Next(role, s, acts[0]);
      assert s.crashes + LostMark(s, acts[0], t) <= s'.crashes;
      CopiesCounted(role, s', acts[1..], initial, t);
      assert Trace(role, s, acts, initial) == Trace(role, s', acts[1..], initial);
    }
  }

  /** A block is in the file once for each crash that fell between its append and the save
    * of COMMITTED, and once more for the commit itself. So a committed transaction is
    * written exactly once if and only if no crash fell there. */
  lemma CopiesAreLostMarksAndTheCommit(role: Role, initial: map<string, string>, acts: seq<Action>, t: Tsn)
    ensures var (s, r) := (Started(initial), Trace(role, Started(initial), acts, initial));
      && Copies(r.appended, t) == LostMarks(role, s, acts, initial, t) + Standing(r, t)
      && (IsCommitted(r.log, t) ==> (Copies(r.appended, t) == 1 <==> LostMarks(role, s, acts, initial, t) == 0))
      && Copies(r.appended, t) <= 1 + r.crashes
  {
    CopiesCounted(role, Started(initial), acts, initial, t);
  }

  // ----- the bound is reached --------------------------------------------------

  ghost predicate Reaches(role: Role, s: Server, r: Server) {
    Safe(s, map[]) && exists acts :: r == Trace(role, s, acts, map[])
  }

  lemma {:induction false} TraceJoins(
    role: Role, s: Server, a: seq<Action>, b: seq<Action>, initial: map<string, string>)
    requires Safe(s, initial)
    ensures Safe(Trace(role, s, a, initial), initial)
    ensures Trace(role, s, a + b, initial) == Trace(role, Trace(role, s, a, initial), b, initial)
    decreases |a|
  {
    if a == [] {
      assert a + b == b;
    } else {
      NextKeepsSafe(role, s, a[0], initial);
      assert (a + b)[1..] == a[1..] + b;
      TraceJoins(role, Next(role, s, a[0]), a[1..], b, initial);
    }
  }

  lemma ReachesOneMore(role: Role, s: Server, r: Server, a: Action)
    requires Reaches(role, s, r)
    ensures Safe(r, map[])
    ensures Reaches(role, s, Next(role, r, a))
  {
    var acts :| r == Trace(role, s, acts, map[]);
    TraceJoins(role, s, acts, [a], map[]);
    NextKeepsSafe(role, r, a, map[]);
    var r' := Next(role, r, a);
    assert Trace(role, r, [a], map[]) == r' by {
      assert [a][0] == a && [a][1..] == [];
      assert Trace(role, r', [], map[]) == r';
    }
    assert r' == Trace(role, s, acts + [a], map[]);
  }

  /** Transaction 1 holds just write 1 and can start its commit, also after a crash. */
  ghost predicate Retriable(log: map<Tsn, Txn>) {
    1 in log && log[1].status in {Active, Writing} && log[1].writes == map[1 := "x"]
  }

  /** The client's commit gets as far as the saved WRITING status. */
  lemma AttemptStarts(role: Role, s: Server)
    requires Consistent(s) && s.phase == Idle && Retriable(s.log)
    ensures var s1 := Next(role, s, Serve(Commit(1, 1)));
      s1.phase == Pending(1) && Retriable(s1.saved) && s1.crashes == s.crashes && s1.appended == s.appended
  {
  }

  lemma AttemptAppends(role: Role, s: Server)
    requires Consistent(s) && s.phase == Pending(1)
    ensures var s1 := Next(role, s, DoAppend);
      && s1.crashes == s.crashes && s1.saved == s.saved
      && Copies(s1.appended, 1) == Copies(s.appended, 1) + 1
  {
  }

  /** The client's commit gets as far as the append. */
  lemma Attempt(role: Role, s: Server, r: Server) returns (r': Server)
    requires Reaches(role, s, r) && r.phase == Idle && Retriable(r.log)
    ensures Reaches(role, s, r') && r'.crashes == r.crashes && Retriable(r'.saved)
    ensures Copies(r'.appended, 1) == Copies(r.appended, 1) + 1
  {
    ReachesOneMore(role, s, r, Serve(Commit(1, 1)));
    AttemptStarts(role, r);
    var r1 := Next(role, r, Serve(Commit(1, 1)));
    ReachesOneMore(role, s, r1, DoAppend);
    AttemptAppends(role, r1);
    r' := Next(role, r1, DoAppend);
  }

  lemma Opened(role: Role, s: Server)
    requires s == Started(map[])
    ensures var s2 := Next(role, Next(role, s, Serve(Make(1, "f"))), Serve(Write(1, 1, "x")));
      s2.phase == Idle && Retriable(s2.log) && s2.crashes == 0 && s2.appended == []
  {
  }

  lemma Prepare(role: Role) returns (r: Server)
    ensures Reaches(role, Started(map[]), r) && r.phase == Idle && Retriable(r.log)
    ensures r.crashes == 0 && r.appended == []
  {
    var s := Started(map[]);
    assert s == Trace(role, s, [], map[]);
    ReachesOneMore(role, s, s, Serve(Make(1, "f")));
    ReachesOneMore(role, s, Next(role, s, Serve(Make(1, "f"))), Serve(Write(1, 1, "x")));
    r := Next(role, Next(role, s, Serve(Make(1, "f"))), Serve(Write(1, 1, "x")));
    Opened(role, s);
  }

  /** A crash right after the append forgets that it happened. */
  lemma Forget(role: Role, s: Server, r: Server) returns (r': Server)
    requires Reaches(role, s, r) && Retriable(r.saved)
    ensures Reaches(role, s, r') && r'.phase == Idle && Retriable(r'.log)
    ensures r'.crashes == r.crashes + 1 && r'.appended == r.appended
  {
    ReachesOneMore(role, s, r, Crash);
    r' := Next(role, r, Crash);
  }

  lemma NoCopies(t: Tsn)
    ensures Copies([], t) == 0
  {
  }

  /** The bound is reached: a crash between the append and the save of COMMITTED,
    * followed by the client's retry, writes the block twice. */
  lemma OneCrashCanDuplicateABlock(role: Role)
    ensures exists r :: Reaches(role, Started(map[]), r) && r.crashes == 1 && Copies(r.appended, 1) == 2
  {
    var s := Started(map[]);
    var r := Prepare(role);
    NoCopies(1);
    r := Attempt(role, s, r);
    r := Forget(role, s, r);
    r := Attempt(role, s, r);
  }
}
