/** The transaction log of one server as a value, and the effect of every
  * operation on it. The class LogHandler is proved against these functions.
  *
  * The source keeps one `map tsn -> (seq -> (string, string))`. Keys -1 and 0 of
  * a transaction hold its status, commit number, "Z" status and file name; they
  * are the record fields here. Keys 1 and up hold the writes.
  */
module TransactionLog {

  /** Records 0 and -1 of the source's map belong to the server itself. */
  type Tsn = t: int | t != 0 && t != -1 witness 1

  datatype Option<+T> = None | Some(value: T)

  datatype Role = Primary | Backup

  datatype Status = Active | Flag | Expired | Waiting | Writing | Committed

  /** The text under key 0: "NEW_TXN" until a waiting transaction ages. */
  datatype ZStatus = Fresh | ZFlag | ZExpired

  datatype Txn = Txn(status: Status, num: int, z: ZStatus, file: string, writes: map<int, string>)

  /** A server: its log and the files of its working directory. */
  datatype Node = Node(log: map<Tsn, Txn>, files: map<string, string>)

  datatype Msg =
    | Make(t: Tsn, name: string)
    | Write(t: Tsn, k: int, data: string)
    | Commit(t: Tsn, n: int)
    | Abort(t: Tsn)

  /** What a log operation reports: `Committing` is the code "committed",
    * `Refused` carries the number of an ERROR or WARNING answer. */
  datatype Outcome = Accepted | Committing | AlreadyCommitted | Incomplete | Refused(code: int)

  // ----- sequence numbers ------------------------------------------------

  ghost predicate Filled(w: map<int, string>, n: int) {
    forall k :: 1 <= k <= n ==> k in w
  }

  ghost predicate Contiguous(w: map<int, string>) {
    forall j, k :: j in w && 1 <= k < j ==> k in w
  }

  ghost predicate CanCommit(w: map<int, string>, n: int) {
    n != 0 && Filled(w, n) && Contiguous(w)
  }

  /** k is absent although some received number, or the commit number, is at or above it. */
  ghost predicate Hole(w: map<int, string>, n: int, k: int) {
    1 <= k && k !in w && (k <= n || exists j :: j in w && k < j)
  }

  /** The text one commit appends: data(1) .. data(n), each on its own line. */
  ghost function Block(w: map<int, string>, n: int): string
    requires Filled(w, n)
    decreases if n < 0 then 0 else n
  {
    if n <= 0 then "" else Block(w, n - 1) + w[n] + "\n"
  }

  function Content(files: map<string, string>, f: string): string {
    if f in files then files[f] else ""
  }

  function Append(files: map<string, string>, f: string, s: string): map<string, string> {
    files[f := Content(files, f) + s]
  }

  lemma AppendContent(files: map<string, string>, g: string, s: string, f: string)
    ensures Content(Append(files, g, s), f) == if f == g then Content(files, f) + s else Content(files, f)
  {
  }

  // ----- well-formed logs --------------------------------------------------

  ghost predicate WellFormedTxn(x: Txn) {
    && (forall k :: k in x.writes ==> k >= 1)
    && (x.status in {Waiting, Writing, Committed} ==> x.num >= 1)
    && (x.status in {Writing, Committed} ==> CanCommit(x.writes, x.num))
  }

  ghost predicate WellFormed(log: map<Tsn, Txn>) {
    forall t :: t in log ==> WellFormedTxn(log[t])
  }

  // ----- operations --------------------------------------------------------

  function NewTxn(name: string): Txn {
    Txn(Active, 0, Fresh, name, map[])
  }

  ghost function MakeTxn(nd: Node, t: Tsn, name: string): Node {
    if t in nd.log then nd else nd.(log := nd.log[t := NewTxn(name)])
  }

  /** The part of a commit before any file is touched. */
  ghost function StartCommit(log: map<Tsn, Txn>, t: Tsn, n: int): (map<Tsn, Txn>, Outcome) {
    if t !in log then (log, Refused(201))
    else
      var x := log[t];
      if x.status == Committed && x.num == n then (log, AlreadyCommitted)
      else if x.status == Expired then (log, Refused(220))
      else if (x.status == Waiting || x.status == Committed) && x.num != n then (log, Refused(202))
      else if n < 1 then (log, Refused(404))
      else if CanCommit(x.writes, n) then (log[t := x.(status := Writing, num := n)], Committing)
      else (log[t := x.(status := Waiting, num := n)], Incomplete)
  }

  /** Append the transaction's block to its file and mark it committed. */
  ghost function FinishCommit(nd: Node, t: Tsn): Node
    requires t in nd.log && Filled(nd.log[t].writes, nd.log[t].num)
  {
    var x := nd.log[t];
    Node(nd.log[t := x.(status := Committed)], Append(nd.files, x.file, Block(x.writes, x.num)))
  }

  /** A primary stops at WRITING and waits for its backup; a backup goes on to the file. */
  ghost function CommitTxn(role: Role, disk: bool, nd: Node, t: Tsn, n: int): (Node, Outcome) {
    var (log1, out) := StartCommit(nd.log, t, n);
    var nd1 := nd.(log := log1);
    if out != Committing || role == Primary then (nd1, out)
    else if disk then (FinishCommit(nd1, t), Committing)
    else (nd1.(log := log1[t := log1[t].(status := Waiting)]), Refused(205))
  }

  ghost function AddEntry(role: Role, disk: bool, nd: Node, t: Tsn, k: int, data: string): (Node, Outcome) {
    if k < 1 then (nd, Refused(204))
    else if t !in nd.log then (nd, Refused(201))
    else
      var x := nd.log[t];
      if x.status == Committed then (nd, Refused(202))
      else if x.status == Expired then (nd, Refused(220))
      else if k in x.writes then (nd, Refused(301))
      else if x.status == Waiting && x.num < k then (nd, Refused(202))
      else
        var y := x.(writes := x.writes[k := data]);
        if x.status != Waiting then (nd.(log := nd.log[t := y.(status := Active)]), Accepted)
        else if CanCommit(y.writes, x.num) then CommitTxn(role, disk, nd.(log := nd.log[t := y]), t, x.num)
        else (nd.(log := nd.log[t := y]), Accepted)
  }

  ghost function AbortTxn(nd: Node, t: Tsn): (Node, Outcome) {
    if t !in nd.log then (nd, Refused(201))
    else if nd.log[t].status == Committed then (nd, Refused(202))
    else if nd.log[t].status == Expired then (nd, Refused(220))
    else (nd.(log := nd.log - {t}), Accepted)
  }

  /** One request against one log, up to the code that `executeCommand` sees. */
  ghost function Exec(role: Role, disk: bool, nd: Node, m: Msg): (Node, Outcome) {
    match m
    case Make(t, name) => (MakeTxn(nd, t, name), Accepted)
    case Write(t, k, data) => AddEntry(role, disk, nd, t, k, data)
    case Commit(t, n) => CommitTxn(role, disk, nd, t, n)
    case Abort(t) => AbortTxn(nd, t)
  }

  /** Which requests on this log end with a save of it. Accepted writes and aborts do not. */
  ghost predicate Saves(log: map<Tsn, Txn>, m: Msg, out: Outcome) {
    match m
    case Make(t, _) => t !in log
    case Write(_, _, _) => out in {Committing, Refused(205)}
    case Commit(_, _) => out in {Committing, Incomplete, Refused(205)}
    case Abort(_) => false
  }

  // ----- expiry -----------------------------------------------------------

  /** Server records and transactions below 0 are skipped by the sweep. */
  predicate Removed(t: Tsn, x: Txn) {
    t >= 0 && (x.status == Expired || (x.status == Waiting && x.z == ZExpired))
  }

  function Aged(t: Tsn, x: Txn): Txn {
    if t < 0 then x
    else match x.status
      case Active => x.(status := Flag)
      case Flag => x.(status := Expired)
      case Waiting => x.(z := if x.z == ZFlag then ZExpired else ZFlag)
      case _ => x
  }

  ghost function Timeouts(log: map<Tsn, Txn>): map<Tsn, Txn> {
    map t | t in log && !Removed(t, log[t]) :: Aged(t, log[t])
  }

  // ----- whole handlers on one server --------------------------------------

  /** A request together with what the environment answers while it is served:
    * whether the peer agreed to a commit, and whether the append succeeds. */
  datatype Event = Tick | Op(m: Msg, agree: bool, disk: bool)

  ghost function Step(role: Role, nd: Node, e: Event): Node
    requires WellFormed(nd.log)
  {
    match e
    case Tick => nd.(log := Timeouts(nd.log))
    case Op(m, agree, disk) =>
      var (nd1, out) := Exec(role, disk, nd, m);
      if role == Primary && out == Committing && agree && disk then
        CommittingIsFilled(role, disk, nd, m);
        FinishCommit(nd1, m.t)
      else nd1
  }

  lemma CommittingIsFilled(role: Role, disk: bool, nd: Node, m: Msg)
    requires WellFormed(nd.log)
    requires Exec(role, disk, nd, m).1 == Committing
    ensures m.t in Exec(role, disk, nd, m).0.log
    ensures var x := Exec(role, disk, nd, m).0.log[m.t];
      x.num >= 1 && CanCommit(x.writes, x.num) && x.status == (if role == Primary then Writing else Committed)
  {
  }

  /** A request touches no transaction but its own. */
  lemma ExecFrame(role: Role, disk: bool, nd: Node, m: Msg)
    ensures var nd' := Exec(role, disk, nd, m).0;
      forall t :: t != m.t ==> (t in nd'.log <==> t in nd.log) && (t in nd.log ==> nd'.log[t] == nd.log[t])
  {
  }

  lemma CommitWellFormed(role: Role, disk: bool, nd: Node, t: Tsn, n: int)
    requires WellFormed(nd.log)
    ensures t in nd.log ==>
      t in CommitTxn(role, disk, nd, t, n).0.log && WellFormedTxn(CommitTxn(role, disk, nd, t, n).0.log[t])
    ensures t !in nd.log ==> CommitTxn(role, disk, nd, t, n).0 == nd
  {
  }

  lemma WriteWellFormed(role: Role, disk: bool, nd: Node, t: Tsn, k: int, data: string)
    requires WellFormed(nd.log)
    ensures t in nd.log ==>
      t in AddEntry(role, disk, nd, t, k, data).0.log && WellFormedTxn(AddEntry(role, disk, nd, t, k, data).0.log[t])
    ensures t !in nd.log ==> AddEntry(role, disk, nd, t, k, data).0 == nd
  {
  }

  lemma ExecWellFormed(role: Role, disk: bool, nd: Node, m: Msg)
    requires WellFormed(nd.log)
    ensures WellFormed(Exec(role, disk, nd, m).0.log)
  {
    ExecFrame(role, disk, nd, m);
    var nd' := Exec(role, disk, nd, m).0;
    match m
    case Make(t, name) =>
    case Write(t, k, data) => WriteWellFormed(role, disk, nd, t, k, data);
    case Commit(t, n) => CommitWellFormed(role, disk, nd, t, n);
    case Abort(t) =>
    forall t | t in nd'.log ensures WellFormedTxn(nd'.log[t]) {
      if t != m.t { assert WellFormedTxn(nd.log[t]); }
    }
  }

  /** Every operation, with any disk or peer behaviour, keeps logs well formed. */
  lemma StepWellFormed(role: Role, nd: Node, e: Event)
    requires WellFormed(nd.log)
    ensures WellFormed(Step(role, nd, e).log)
  {
    match e
    case Tick => AgedWellFormed(nd.log);
    case Op(m, agree, disk) =>
      ExecWellFormed(role, disk, nd, m);
      if Exec(role, disk, nd, m).1 == Committing {
        CommittingIsFilled(role, disk, nd, m);
        var nd1 := Exec(role, disk, nd, m).0;
        assert WellFormedTxn(nd1.log[m.t].(status := Committed));
      }
  }

  lemma AgedWellFormed(log: map<Tsn, Txn>)
    requires WellFormed(log)
    ensures WellFormed(Timeouts(log))
  {
  }

  ghost function Run(role: Role, nd: Node, es: seq<Event>): Node
    requires WellFormed(nd.log)
    decreases |es|
  {
    if es == [] then nd
    else
      StepWellFormed(role, nd, es[0]);
      Run(role, Step(role, nd, es[0]), es[1..])
  }
}
