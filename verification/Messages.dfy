/** The packets of replication: how the primary spells its messages and what the backup
  * understands when they arrive. */
module Messages {
  import opened TransactionLog
  import opened Text
  import opened Wire
  import opened Framing
  import Delivery

  function Line(verb: string, tsn: string, number: string, rest: string): string {
    verb + " " + (tsn + " " + (number + " " + rest))
  }

  /** The header and data that the primary queues for a message. */
  function Spelled(m: Msg): Outgoing {
    match m
    case Make(t, name) => Outgoing(Line("MAKE_TXN", IntToString(t), "0", "0 0"), name)
    case Write(t, k, data) => Outgoing(Line("WRITE", IntToString(t), IntToString(k), IntToString(|data| + 1)), data)
    case Commit(t, n) => Outgoing(Line("COMMIT", IntToString(t), IntToString(n), "0"), " ")
    case Abort(t) => Outgoing(Line("ABORT", IntToString(t), "0", "0"), " ")
  }

  /** The log operation that `executeCommand` performs for a packet, if any. */
  function Understood(r: Result): Option<Msg> {
    if !r.Packet? then None
    else
      var t, k := GetTsn(r.header), GetSeq(r.header);
      if t == 0 || t == -1 then None   // records of the server itself
      else match Method(r.header)
        case 1 => Some(Abort(t))
        case 3 => Some(Commit(t, k))
        case 5 => Some(Write(t, k, r.data))
        case 6 => Some(Make(t, r.data))
        case _ => None
  }

  ghost predicate FitsOneLine(m: Msg) {
    OneLine(Spelled(m).data)
  }

  lemma FirstWords(a: string, b: string, c: string, rest: string)
    requires NoBlanks(a) && NoBlanks(b) && NoBlanks(c)
    ensures var words := Split(Line(a, b, c, rest));
      |words| >= 3 && words[0] == a && words[1] == b && words[2] == c
  {
    SplitWord(c, rest);
    SplitWord(b, c + " " + rest);
    SplitWord(a, b + " " + (c + " " + rest));
  }

  function Code(m: Msg): nat {
    match m
    case Abort(_) => 1
    case Commit(_, _) => 3
    case Write(_, _, _) => 5
    case Make(_, _) => 6
  }

  function Name(m: Msg): string {
    match m
    case Abort(_) => "ABORT"
    case Commit(_, _) => "COMMIT"
    case Write(_, _, _) => "WRITE"
    case Make(_, _) => "MAKE_TXN"
  }

  function Number(m: Msg): string {
    match m
    case Abort(_) => "0"
    case Make(_, _) => "0"
    case Commit(_, n) => IntToString(n)
    case Write(_, k, _) => IntToString(k)
  }

  function LastWord(m: Msg): string {
    match m
    case Make(_, _) => "0 0"
    case Write(_, _, data) => IntToString(|data| + 1)
    case _ => "0"
  }

  lemma SpelledLine(m: Msg)
    ensures Spelled(m).header == Line(Name(m), IntToString(m.t), Number(m), LastWord(m))
  {
  }

  lemma PartsAreWords(m: Msg)
    ensures IsWord(Name(m)) && IsWord(Number(m)) && IsWord(IntToString(m.t)) && Number(m) != ""
    ensures NoBlanks(Name(m)) && NoBlanks(Number(m)) && NoBlanks(IntToString(m.t))
  {
  }

  lemma SpelledWords(m: Msg)
    ensures var words := Split(Spelled(m).header);
      |words| >= 3 && words[0] == Name(m) && words[1] == IntToString(m.t) && words[2] == Number(m)
  {
    PartsAreWords(m);
    SpelledLine(m);
    FirstWords(Name(m), IntToString(m.t), Number(m), LastWord(m));
  }

  lemma SpelledIsPrintable(m: Msg)
    requires FitsOneLine(m)
    ensures Printable(Spelled(m))
    ensures Method(Spelled(m).header) == Code(m) && GetTsn(Spelled(m).header) == m.t
    ensures m.Commit? || m.Write? ==> GetSeq(Spelled(m).header) == if m.Commit? then m.n else m.k
  {
    SpelledWords(m);
    PartsAreWords(m);
    NumbersReadBack(m.t);
    if m.Commit? { NumbersReadBack(m.n); }
    if m.Write? { NumbersReadBack(m.k); }
    assert |Spelled(m).data| >= 2 ==> m.Make? || m.Write?;
  }

  /** One message: understood exactly, unless its payload is too short to be sent. */
  lemma OneMessage(m: Msg)
    requires FitsOneLine(m)
    ensures Printable(Spelled(m))
    ensures Understood(Expected(Spelled(m))) == if Delivery.Short(m) then None else Some(m)
  {
    SpelledIsPrintable(m);
    EchoHeaderSaysTheSame(Spelled(m));
  }

  /** What the backup answers to what it reads. */
  ghost function Reaction(r: Result, nd: Node): Delivery.Reply {
    var m := Understood(r);
    if m == None then Delivery.Error(204) else Delivery.Answer(Exec(Backup, true, nd, m.value).1)
  }

  /** The answer to a message, as replication takes it. */
  lemma MessageAnswered(m: Msg, nd: Node)
    requires FitsOneLine(m)
    ensures Printable(Spelled(m)) && Reaction(Expected(Spelled(m)), nd) == Delivery.ReplyTo(m, nd)
  {
    OneMessage(m);
  }

  ghost function SpelledAll(ms: seq<Msg>): (os: seq<Outgoing>)
    requires forall m :: m in ms ==> FitsOneLine(m)
    ensures AllPrintable(os)
  {
    if ms == [] then []
    else
      assert ms[0] in ms && forall m :: m in ms[1..] ==> m in ms;
      SpelledIsPrintable(ms[0]);
      [Spelled(ms[0])] + SpelledAll(ms[1..])
  }

  lemma {:induction false} AllMessages(ms: seq<Msg>)
    requires forall m :: m in ms ==> FitsOneLine(m)
    ensures |ExpectedAll(SpelledAll(ms))| == |ms|
    ensures forall i :: 0 <= i < |ms| ==>
      Understood(ExpectedAll(SpelledAll(ms))[i]) == if Delivery.Short(ms[i]) then None else Some(ms[i])
  {
    if ms != [] {
      assert ms[0] in ms && forall m :: m in ms[1..] ==> m in ms;
      OneMessage(ms[0]);
      AllMessages(ms[1..]);
      assert SpelledAll(ms)[1..] == SpelledAll(ms[1..]);
      var rest := ExpectedAll(SpelledAll(ms[1..]));
      assert ExpectedAll(SpelledAll(ms)) == [Expected(Spelled(ms[0]))] + rest;
      forall i | 0 <= i < |ms|
        ensures Understood(ExpectedAll(SpelledAll(ms))[i]) == if Delivery.Short(ms[i]) then None else Some(ms[i])
      {
        if i > 0 { assert ms[1..][i - 1] == ms[i]; }
      }
    }
  }

  /** The backup executes what it understands of the packets it reads. */
  ghost function ExecuteAll(results: seq<Result>, nd: Node): Node {
    if results == [] then nd
    else
      var m := Understood(results[0]);
      ExecuteAll(results[1..], if m == None then nd else Exec(Backup, true, nd, m.value).0)
  }

  lemma {:induction false} UnderstoodIsDelivered(ms: seq<Msg>, results: seq<Result>, nd: Node)
    requires |results| == |ms|
    requires forall i :: 0 <= i < |ms| ==> Understood(results[i]) == if Delivery.Short(ms[i]) then None else Some(ms[i])
    ensures ExecuteAll(results, nd) == Delivery.DeliverAll(ms, nd)
  {
    if ms != [] {
      assert Understood(results[0]) == if Delivery.Short(ms[0]) then None else Some(ms[0]);
      UnderstoodIsDelivered(ms[1..], results[1..], Delivery.Deliver(ms[0], nd));
    }
  }

  /** The messages of replication cross the wire: printed one after the other and cut
    * into any pieces, each is understood as itself, in order, except those whose payload
    * is shorter than two characters; these are lost. So a backup that executes what it
    * reads has taken exactly the steps of `Delivery.DeliverAll`. */
  lemma MessagesCrossTheWire(ms: seq<Msg>, pieces: seq<string>, nd: Node)
    requires forall m :: m in ms ==> FitsOneLine(m)
    requires Joined(pieces) == Printed(SpelledAll(ms))
    ensures var results := ReadAll(Reader("", "", pieces));
      && |results| == |ms|
      && (forall i :: 0 <= i < |ms| ==>
            Understood(results[i]) == if Delivery.Short(ms[i]) then None else Some(ms[i]))
      && ExecuteAll(results, nd) == Delivery.DeliverAll(ms, nd)
  {
    AllMessages(ms);
    FramingRoundTrip(SpelledAll(ms), pieces);
    UnderstoodIsDelivered(ms, ReadAll(Reader("", "", pieces)), nd);
  }
}
