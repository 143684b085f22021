/** Runs in which the manager reads answers late: the requests that lead there, and what it
  * then concludes of commits that its backup has made or refuses. */
module LateAnswers {
  import opened TransactionLog
  import opened LogProperties
  import opened Delivery
  import opened CatchUp
  import opened Echoes
  import opened Turns
  import Simulation
  import Durability

  /** Serving es takes the server to r. */
  ghost predicate LeadsTo(role: Role, nd: Node, es: seq<Event>, r: Node) {
    WellFormed(nd.log) && WellFormed(r.log) && Run(role, nd, es) == r
  }

  lemma LeadsNowhere(role: Role, nd: Node)
    requires WellFormed(nd.log)
    ensures LeadsTo(role, nd, [], nd)
  {
  }

  lemma LeadsFurther(role: Role, nd: Node, es: seq<Event>, r: Node, e: Event, r': Node)
    requires LeadsTo(role, nd, es, r) && r' == Step(role, r, e)
    ensures LeadsTo(role, nd, es + [e], r')
  {
    RunSplit(role, nd, es, e);
    StepWellFormed(role, r, e);
  }

  function Ask(m: Msg): Event {
    Op(m, true, true)
  }

  // ----- a backup that has lost one transaction and holds another EXPIRED -----------------

  lemma FreshMade(role: Role, log: map<Tsn, Txn>, files: map<string, string>, t: Tsn, name: string)
    requires WellFormed(log) && t !in log
    ensures Step(role, Node(log, files), Ask(Make(t, name))) == Node(log[t := NewTxn(name)], files)
  {
  }

  lemma BackupPasses(ab: Txn, cd: Txn)
    requires ab == NewTxn("ab") && cd == NewTxn("cd")
    ensures Timeouts(map[1 := ab]) == map[1 := ab.(status := Flag)]
    ensures Timeouts(map[1 := ab.(status := Flag), 2 := cd])
      == map[1 := ab.(status := Expired), 2 := cd.(status := Flag)]
    ensures Timeouts(map[1 := ab.(status := Expired), 2 := cd.(status := Flag)])
      == map[2 := cd.(status := Expired)]
  {
  }

  const AB: Txn := NewTxn("ab")
  const CD: Txn := NewTxn("cd")

  function Older(): seq<Event> {
    [Ask(Make(1, "ab")), Tick, Ask(Make(2, "cd"))]
  }

  function Written(): seq<Event> {
    [Ask(Write(1, 1, "aa")), Ask(Write(1, 2, "bb")), Ask(Write(2, 1, "cc"))]
  }

  lemma LeadsToThen(role: Role, nd: Node, a: seq<Event>, r: Node, c: seq<Event>, r': Node)
    requires LeadsTo(role, nd, a, r) && LeadsTo(role, r, c, r')
    ensures LeadsTo(role, nd, a + c, r')
    decreases |c|
  {
    if c == [] {
      assert a + c == a;
    } else {
      var e, r1 := c[0], Step(role, r, c[0]);
      LeadsFurther(role, nd, a, r, e, r1);
      assert a + [e] + c[1..] == a + c;
      LeadsToThen(role, nd, a + [e], r1, c[1..], r');
    }
  }

  lemma LeadsByThree(role: Role, nd: Node, a: Event, b: Event, c: Event, n1: Node, n2: Node, n3: Node)
    requires WellFormed(nd.log) && n1 == Step(role, nd, a)
    requires WellFormed(n1.log) && n2 == Step(role, n1, b)
    requires WellFormed(n2.log) && n3 == Step(role, n2, c)
    ensures LeadsTo(role, nd, [a, b, c], n3)
  {
    RunOfThree(role, nd, a, b, c);
    StepWellFormed(role, n2, c);
  }

  /** Two transactions are opened, with an expiry pass in between. */
  lemma OlderLeads(role: Role, files: map<string, string>)
    ensures LeadsTo(role, Node(map[], files), Older(), Node(map[1 := AB.(status := Flag), 2 := CD], files))
  {
    var log1: map<Tsn, Txn>, log2: map<Tsn, Txn> := map[1 := AB], map[1 := AB.(status := Flag)];
    FreshMade(role, map[], files, 1, "ab");
    BackupPasses(AB, CD);
    FreshMade(role, log2, files, 2, "cd");
    assert map[][1 := AB] == log1 && log2[2 := CD] == map[1 := AB.(status := Flag), 2 := CD];
    LeadsByThree(role, Node(map[], files), Ask(Make(1, "ab")), Tick, Ask(Make(2, "cd")),
      Node(log1, files), Node(log2, files), Node(log2[2 := CD], files));
  }

  /** Two more passes on the backup, and the writes come too late. */
  lemma LateWritesLead(files: map<string, string>)
    ensures LeadsTo(Backup, Node(map[1 := AB.(status := Flag), 2 := CD], files), [Tick, Tick] + Written(),
      Node(map[2 := CD.(status := Expired)], files))
  {
    var n0 := Node(map[1 := AB.(status := Flag), 2 := CD], files);
    var n1 := Node(map[1 := AB.(status := Expired), 2 := CD.(status := Flag)], files);
    var n2 := Node(map[2 := CD.(status := Expired)], files);
    BackupPasses(AB, CD);
    LeadsNowhere(Backup, n0);
    LeadsFurther(Backup, n0, [], n0, Tick, n1);
    LeadsFurther(Backup, n0, [] + [Tick], n1, Tick, n2);
    assert [] + [Tick] + [Tick] == [Tick, Tick];
    LeadsByThree(Backup, n2, Ask(Write(1, 1, "aa")), Ask(Write(1, 2, "bb")), Ask(Write(2, 1, "cc")), n2, n2, n2);
    LeadsToThen(Backup, n0, [Tick, Tick], n2, Written(), n2);
  }

  /** The primary has made one pass less, and takes the writes. */
  lemma TimelyWritesLead(files: map<string, string>)
    ensures LeadsTo(Primary, Node(map[1 := AB.(status := Flag), 2 := CD], files), Written(),
      Node(map[1 := AB.(writes := map[1 := "aa", 2 := "bb"]), 2 := CD.(writes := map[1 := "cc"])], files))
  {
    var n0 := Node(map[1 := AB.(status := Flag), 2 := CD], files);
    var n1 := Node(map[1 := AB.(writes := map[1 := "aa"]), 2 := CD], files);
    var n2 := Node(map[1 := AB.(writes := map[1 := "aa", 2 := "bb"]), 2 := CD], files);
    var n3 := Node(n2.log[2 := CD.(writes := map[1 := "cc"])], files);
    WrittenMaps();
    Overwrite(AB.(status := Flag), AB.(writes := map[1 := "aa"]), CD);
    Overwrite(AB.(writes := map[1 := "aa"]), AB.(writes := map[1 := "aa", 2 := "bb"]), CD);
    WriteTaken(n0, 1, 1, "aa", n1);
    WriteTaken(n1, 1, 2, "bb", n2);
    WriteTaken(n2, 2, 1, "cc", n3);
    LeadsByThree(Primary, n0, Ask(Write(1, 1, "aa")), Ask(Write(1, 2, "bb")), Ask(Write(2, 1, "cc")), n1, n2, n3);
  }

  lemma WrittenMaps()
    ensures map[][1 := "aa"] == map[1 := "aa"] && map[1 := "aa"][2 := "bb"] == map[1 := "aa", 2 := "bb"]
    ensures map[][1 := "cc"] == map[1 := "cc"]
  {
  }

  lemma Overwrite(x: Txn, y: Txn, other: Txn)
    ensures map[1 := x, 2 := other][1 := y] == map[1 := y, 2 := other]
  {
  }

  lemma WriteTaken(nd: Node, t: Tsn, k: int, data: string, nd': Node)
    requires WellFormed(nd.log) && t in nd.log && nd.log[t].status in {Active, Flag}
    requires k >= 1 && k !in nd.log[t].writes
    requires nd' == nd.(log := nd.log[t := nd.log[t].(status := Active, writes := nd.log[t].writes[k := data])])
    ensures Step(Primary, nd, Ask(Write(t, k, data))) == nd' && WellFormed(nd'.log)
  {
    StepWellFormed(Primary, nd, Ask(Write(t, k, data)));
  }

  /** The primary's transaction 1 as its commit starts. */
  function Pending(): Txn {
    AB.(status := Writing, num := 2, writes := map[1 := "aa", 2 := "bb"])
  }

  /** The backup, and the same when transaction 1 has been created again. */
  function Forgetful(files: map<string, string>): Node {
    Node(map[2 := CD.(status := Expired)], files)
  }

  function Reminded(files: map<string, string>): Node {
    Node(map[1 := AB, 2 := CD.(status := Expired)], files)
  }

  lemma CommitStartsAtTwo(p: Node)
    requires WellFormed(p.log) && 1 in p.log && p.log[1] == AB.(writes := map[1 := "aa", 2 := "bb"])
    ensures var r := Step(Primary, p, Op(Commit(1, 2), false, true));
      r == p.(log := p.log[1 := Pending()])
  {
    var w: map<int, string> := map[1 := "aa", 2 := "bb"];
    assert CanCommit(w, 2);
  }

  lemma Forgotten(files: map<string, string>)
    ensures ReplyTo(Commit(1, 2), Forgetful(files)) == Error(201)
    ensures Deliver(Make(1, "ab"), Deliver(Commit(1, 2), Forgetful(files))) == Reminded(files)
  {
    assert Forgetful(files).log[1 := AB] == Reminded(files).log;
  }

  lemma RemindedIsCatchable(files: map<string, string>)
    ensures Catchable(Pending(), 1, 2, Reminded(files), [2, 1])
  {
    var w: map<int, string> := map[];
    assert forall k :: Hole(w, 2, k) <==> k == 1 || k == 2;
    assert forall k :: k in [2, 1] <==> k == 1 || k == 2;
    assert !CanCommit(w, 2) by { assert 1 !in w; }
    assert Fillable(Pending(), w, 2);
  }

  lemma {:induction false} ResendIsOwn(x: Txn, t: Tsn, j: int)
    requires Filled(x.writes, j)
    ensures Simulation.AllOf(Resend(x, t, j), t)
    decreases if j < 0 then 0 else j
  {
    if j > 0 {
      ResendIsOwn(x, t, j - 1);
    }
  }

  /** A catch-up touches no other transaction. */
  lemma CatchUpIsOwn(x: Txn, t: Tsn, n: int, asked: seq<int>, b: Node)
    requires Filled(x.writes, n)
    ensures UnchangedBut(b, DeliverAll(Messages(CatchUpTalk(x, t, n, asked)), b), t)
  {
    var c, ws := Commit(t, n), Writes(x, t, n);
    WritesAreResent(x, t, n);
    ResendIsOwn(x, t, n);
    MessagesConcat(ws, [Single(c)]);
    assert Messages([Single(c)]) == [c] + Messages([Single(c)][1..]) == [c];
    var es := CatchUpTalk(x, t, n, asked);
    assert es[0].m == c && es[1..] == ws + [Single(c)];
    assert Messages(es) == [c] + (Resend(x, t, n) + [c]);
    Simulation.DeliverAllOwn(Messages(es), b, t);
  }

  lemma ExpiredRefuses(b: Node, t: Tsn, n: int)
    requires t in b.log && b.log[t].status == Expired
    ensures ReplyTo(Commit(t, n), b) == Error(220)
  {
  }

  /** A commit that the backup refuses, read as acknowledged. Both servers serve the same
    * requests, but the writes reach the backup two passes late: it has lost transaction 1 and
    * holds 2 EXPIRED. The primary catches it up on transaction 1, with every answer in a piece
    * of its own; then it sends the commit of 2, and reads an acknowledgement. */
  lemma RefusedCommitReadAsAcknowledged(files: map<string, string>)
    ensures WellFormed(Node(map[], files).log)
    ensures var p := Run(Primary, Node(map[], files), Older() + Written() + [Op(Commit(1, 2), false, true)]);
      var b := Run(Backup, Node(map[], files), Older() + ([Tick, Tick] + Written()));
      && 1 in p.log && p.log[1] == Pending() && Exec(Primary, true, p, Commit(2, 1)).1 == Committing
      && ReplyTo(Commit(1, 2), b) == Error(201)
      && var b1 := Deliver(Make(1, "ab"), Deliver(Commit(1, 2), b));
      && Catchable(p.log[1], 1, 2, b1, [2, 1])
      && var es := CatchUpTalk(p.log[1], 1, 2, [2, 1]);
      && ReplyTo(Commit(2, 1), DeliverAll(Messages(es), b1)) == Error(220)
      && Asking(es + [Single(Commit(2, 1))], b1)
      && var read := Talk(es + [Single(Commit(2, 1))], b1, []).0;
      |read| == 5 && read[4] == Ack
  {
    var b1, next := Reminded(files), Single(Commit(2, 1));
    BothRuns(files);
    Forgotten(files);
    RemindedIsCatchable(files);
    CatchUpIsOwn(Pending(), 1, 2, [2, 1], b1);
    ExpiredRefuses(DeliverAll(Messages(CatchUpTalk(Pending(), 1, 2, [2, 1])), b1), 2, 1);
    NextIsReadAsAcknowledged(Pending(), 1, 2, b1, [2, 1], next);
  }

  lemma BothRuns(files: map<string, string>)
    ensures var p := Run(Primary, Node(map[], files), Older() + Written() + [Op(Commit(1, 2), false, true)]);
      1 in p.log && p.log[1] == Pending() && Exec(Primary, true, p, Commit(2, 1)).1 == Committing
    ensures Run(Backup, Node(map[], files), Older() + ([Tick, Tick] + Written())) == Forgetful(files)
  {
    var n0, n1 := Node(map[], files), Node(map[1 := AB.(status := Flag), 2 := CD], files);
    OlderLeads(Primary, files);
    OlderLeads(Backup, files);
    LateWritesLead(files);
    LeadsToThen(Backup, n0, Older(), n1, [Tick, Tick] + Written(), Forgetful(files));
    var n2 := Node(map[1 := AB.(writes := map[1 := "aa", 2 := "bb"]), 2 := CD.(writes := map[1 := "cc"])], files);
    TimelyWritesLead(files);
    LeadsToThen(Primary, n0, Older(), n1, Written(), n2);
    CommitStartsAtTwo(n2);
    LeadsFurther(Primary, n0, Older() + Written(), n2, Op(Commit(1, 2), false, true),
      n2.(log := n2.log[1 := Pending()]));
    OneWriteCompletes(n2.(log := n2.log[1 := Pending()]), 2);
  }

  lemma OneWriteCompletes(p: Node, t: Tsn)
    requires t in p.log && p.log[t] == CD.(writes := map[1 := "cc"])
    ensures Exec(Primary, true, p, Commit(t, 1)).1 == Committing
  {
    var w: map<int, string> := map[1 := "cc"];
    assert CanCommit(w, 1);
  }

  // ----- a backup that a crash has made forget two writes -----------------------------------

  /** Transaction 1 has been opened, which saves the log, and s.log holds writes since. */
  ghost predicate OpenedAndSaved(s: Durability.Server, w: map<int, string>) {
    && s.phase == Durability.Idle
    && s.log == map[1 := AB.(writes := w)] && s.saved == map[1 := AB]
  }

  lemma FirstOpened(s: Durability.Server)
    requires s == Durability.Started(map[])
    ensures OpenedAndSaved(Durability.Next(Backup, s, Durability.Serve(Make(1, "ab"))), map[])
  {
    assert map[][1 := AB] == map[1 := AB];
  }

  lemma WriteUnsaved(s: Durability.Server, w: map<int, string>, k: int, data: string)
    requires Durability.Consistent(s) && OpenedAndSaved(s, w) && k >= 1 && k !in w
    ensures OpenedAndSaved(Durability.Next(Backup, s, Durability.Serve(Write(1, k, data))), w[k := data])
  {
    assert s.log[1 := AB.(writes := w[k := data])] == map[1 := AB.(writes := w[k := data])];
  }

  lemma CrashForgets(s: Durability.Server, w: map<int, string>)
    requires Durability.Consistent(s) && OpenedAndSaved(s, w)
    ensures OpenedAndSaved(Durability.Next(Backup, s, Durability.Crash), map[])
  {
  }

  ghost predicate Reached(r: Durability.Server) {
    Durability.Reaches(Backup, Durability.Started(map[]), r)
  }

  lemma ReachedByOpening() returns (r: Durability.Server)
    ensures Reached(r) && OpenedAndSaved(r, map[]) && r.crashes == 0
  {
    var s, a := Durability.Started(map[]), Durability.Serve(Make(1, "ab"));
    assert s == Durability.Trace(Backup, s, [], map[]);
    Durability.ReachesOneMore(Backup, s, s, a);
    FirstOpened(s);
    r := Durability.Next(Backup, s, a);
  }

  lemma ReachedByWrite(r: Durability.Server, w: map<int, string>, k: int, data: string) returns (r': Durability.Server)
    requires Reached(r) && OpenedAndSaved(r, w) && k >= 1 && k !in w
    ensures Reached(r') && OpenedAndSaved(r', w[k := data]) && r'.crashes == r.crashes
  {
    var a := Durability.Serve(Write(1, k, data));
    Durability.ReachesOneMore(Backup, Durability.Started(map[]), r, a);
    WriteUnsaved(r, w, k, data);
    r' := Durability.Next(Backup, r, a);
  }

  lemma ReachedByCrash(r: Durability.Server, w: map<int, string>) returns (r': Durability.Server)
    requires Reached(r) && OpenedAndSaved(r, w)
    ensures Reached(r') && OpenedAndSaved(r', map[]) && r'.crashes == r.crashes + 1
  {
    Durability.ReachesOneMore(Backup, Durability.Started(map[]), r, Durability.Crash);
    CrashForgets(r, w);
    r' := Durability.Next(Backup, r, Durability.Crash);
  }

  /** Accepted writes are not saved at once: a crash loses writes 1 and 2, and then 3 arrives. */
  lemma CrashedBackup() returns (r: Durability.Server)
    ensures Reached(r) && OpenedAndSaved(r, map[3 := "cc"]) && r.crashes == 1
  {
    r := ReachedByOpening();
    r := ReachedByWrite(r, map[], 1, "aa");
    r := ReachedByWrite(r, map[][1 := "aa"], 2, "bb");
    r := ReachedByCrash(r, map[][1 := "aa"][2 := "bb"]);
    r := ReachedByWrite(r, map[], 3, "cc");
    assert map[][3 := "cc"] == map[3 := "cc"];
  }

  /** What the primary holds as it starts the commit of all three. */
  function AllThree(): Txn {
    AB.(status := Writing, num := 3, writes := map[1 := "aa", 2 := "bb", 3 := "cc"])
  }

  function ThreeInOrder(): seq<Event> {
    [Ask(Write(1, 1, "aa")), Ask(Write(1, 2, "bb")), Ask(Write(1, 3, "cc"))]
  }

  /** The primary as a commit at 3 starts. */
  ghost function PrimaryAtThree(files: map<string, string>): Node {
    Run(Primary, Node(map[], files), [Ask(Make(1, "ab"))] + ThreeInOrder() + [Op(Commit(1, 3), false, true)])
  }

  lemma PrimaryHoldsAllThree(files: map<string, string>)
    ensures 1 in PrimaryAtThree(files).log && PrimaryAtThree(files).log[1] == AllThree()
  {
    var n0, n1 := Node(map[], files), Node(map[1 := AB], files);
    var w3: map<int, string> := map[1 := "aa", 2 := "bb", 3 := "cc"];
    LeadsNowhere(Primary, n0);
    FreshMade(Primary, map[], files, 1, "ab");
    assert map[][1 := AB] == map[1 := AB];
    LeadsFurther(Primary, n0, [], n0, Ask(Make(1, "ab")), n1);
    assert [] + [Ask(Make(1, "ab"))] == [Ask(Make(1, "ab"))];
    ThreeWrites(files);
    var n4 := Node(map[1 := AB.(writes := w3)], files);
    LeadsToThen(Primary, n0, [Ask(Make(1, "ab"))], n1, ThreeInOrder(), n4);
    CommitStartsAtThree(n4);
    LeadsFurther(Primary, n0, [Ask(Make(1, "ab"))] + ThreeInOrder(), n4, Op(Commit(1, 3), false, true),
      Node(map[1 := AllThree()], files));
  }

  lemma ThreeWrites(files: map<string, string>)
    ensures LeadsTo(Primary, Node(map[1 := AB], files), ThreeInOrder(),
      Node(map[1 := AB.(writes := map[1 := "aa", 2 := "bb", 3 := "cc"])], files))
  {
    var n1 := OneWritten(files, map[], 1, "aa");
    var n2 := OneWritten(files, map[][1 := "aa"], 2, "bb");
    var n3 := OneWritten(files, map[][1 := "aa"][2 := "bb"], 3, "cc");
    var n0 := Node(map[1 := AB], files);
    LeadsByThree(Primary, n0, Ask(Write(1, 1, "aa")), Ask(Write(1, 2, "bb")), Ask(Write(1, 3, "cc")), n1, n2, n3);
    assert map[][1 := "aa"][2 := "bb"][3 := "cc"] == map[1 := "aa", 2 := "bb", 3 := "cc"];
  }

  lemma OneWritten(files: map<string, string>, w: map<int, string>, k: int, data: string) returns (r: Node)
    requires k >= 1 && k !in w && forall j :: j in w ==> j >= 1
    ensures WellFormed(Node(map[1 := AB.(writes := w)], files).log) && WellFormed(r.log)
    ensures r == Node(map[1 := AB.(writes := w[k := data])], files)
    ensures r == Step(Primary, Node(map[1 := AB.(writes := w)], files), Ask(Write(1, k, data)))
  {
    var nd := Node(map[1 := AB.(writes := w)], files);
    r := Node(map[1 := AB.(writes := w[k := data])], files);
    assert nd.log[1 := AB.(writes := w[k := data])] == r.log;
    WriteTaken(nd, 1, k, data, r);
  }

  lemma CommitStartsAtThree(p: Node)
    requires WellFormed(p.log) && p.log == map[1 := AB.(writes := map[1 := "aa", 2 := "bb", 3 := "cc"])]
    ensures Step(Primary, p, Op(Commit(1, 3), false, true)) == Node(map[1 := AllThree()], p.files)
  {
    var w: map<int, string> := map[1 := "aa", 2 := "bb", 3 := "cc"];
    assert CanCommit(w, 3);
    assert p.log[1 := AllThree()] == map[1 := AllThree()];
  }

  lemma OnlyThreeIsCatchable(b: Node)
    requires WellFormed(b.log) && 1 in b.log && b.log[1] == AB.(writes := map[3 := "cc"])
    ensures Catchable(AllThree(), 1, 3, b, [2, 1])
  {
    var w: map<int, string> := map[3 := "cc"];
    assert 3 in w;
    assert forall k :: Hole(w, 3, k) <==> k == 1 || k == 2;
    assert forall k :: k in [2, 1] <==> k == 1 || k == 2;
    assert !CanCommit(w, 3) by { assert 1 !in w; }
    assert Fillable(AllThree(), w, 3);
  }

  /** A commit that the backup makes, read as refused. The catch-up of a backup that a crash
    * has made forget the writes 1 and 2, with every answer in a piece of its own, is judged by
    * the answer to write 3, which the backup has had already. */
  lemma MadeCommitReadAsRefused(files: map<string, string>)
    ensures 1 in PrimaryAtThree(files).log && PrimaryAtThree(files).log[1] == AllThree()
    ensures exists r :: Reached(r) && r.crashes == 1 && JudgedRefused(Node(r.log, r.files))
  {
    PrimaryHoldsAllThree(files);
    var r := CrashedBackup();
    var b := Node(r.log, r.files);
    assert Durability.Safe(r, map[]) by {
      Durability.ReachesOneMore(Backup, Durability.Started(map[]), r, Durability.Flush);
    }
    OnlyThreeIsJudgedRefused(b);
  }

  lemma OnlyThreeIsJudgedRefused(b: Node)
    requires WellFormed(b.log) && 1 in b.log && b.log[1] == AB.(writes := map[3 := "cc"])
    ensures JudgedRefused(b)
  {
    OnlyThreeIsCatchable(b);
    CatchUpPieceByPiece(AllThree(), 1, 3, b, [2, 1]);
  }

  /** b ends with transaction 1 committed at 3, but the answer read to the last COMMIT is a
    * refusal. */
  ghost predicate JudgedRefused(b: Node) {
    var es := CatchUpTalk(AllThree(), 1, 3, [2, 1]);
    && Asking(es, b) && CommittedAt(DeliverAll(Messages(es), b), 1, 3)
    && var read := Talk(es, b, []).0;
    |read| == 5 && read[4].Error? && read[4].code != 201
  }
}
