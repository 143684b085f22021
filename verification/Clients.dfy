/** The requests of a client on the wire: how they are spelled and what the primary's session
  * takes them for. */
module Clients {
  import opened TransactionLog
  import opened Text
  import opened Wire
  import opened Framing
  import opened Messages
  import opened Sessions

  /** `genRequest`: a single blank stands for no data. */
  function GenRequest(name: string, tsn: string, number: string, data: string): string {
    RequestHeader(name, tsn, number, data) + DELIMITER + if data == " " then "\r\n" else data + "\n"
  }

  function RequestHeader(name: string, tsn: string, number: string, data: string): string {
    name + " " + (tsn + " " + (number + " " + if data == " " then "0" else IntToString(|data| + 1)))
  }

  /** What a client sends. */
  datatype Sent = Sent(name: string, tsn: string, number: string, data: string)

  /** Data of one line for the methods that carry some, and none for the others. */
  ghost predicate Spellable(s: Sent) {
    && IsWord(s.tsn) && IsWord(s.number) && s.tsn != "" && s.number != ""
    && OneLine(s.data)
    && (CarriesData(s.name) || (CarriesNone(s.name) && s.data == " "))
  }

  function SentText(s: Sent): string {
    GenRequest(s.name, s.tsn, s.number, s.data)
  }

  /** What it is to be taken for. */
  function SentRead(s: Sent): Result {
    var h := RequestHeader(s.name, s.tsn, s.number, s.data);
    if CarriesData(s.name) && s.data == " " then MissingData else Packet(h, s.data)
  }

  function AllSent(ss: seq<Sent>): string {
    if ss == [] then "" else SentText(ss[0]) + AllSent(ss[1..])
  }

  lemma NamesAreWords(name: string)
    requires CarriesData(name) || CarriesNone(name)
    ensures IsWord(name) && NoBlanks(name) && |name| >= 4
  {
  }

  lemma RequestWords(s: Sent)
    requires Spellable(s)
    ensures var (h, len) := (RequestHeader(s.name, s.tsn, s.number, s.data),
        if s.data == " " then "0" else IntToString(|s.data| + 1));
      && Split(h) == [s.name] + ([s.tsn] + ([s.number] + [len])) && Plain(h)
      && Atoi(len) == if s.data == " " then 0 else |s.data| + 1
  {
    var len := if s.data == " " then "0" else IntToString(|s.data| + 1);
    NamesAreWords(s.name);
    IntIsWord(|s.data| + 1);
    SplitFour(s.name, s.tsn, s.number, len);
    NumbersReadBack(|s.data| + 1);
    assert Atoi("0") == 0;
  }

  function SentFrame(s: Sent): Frame {
    var h := RequestHeader(s.name, s.tsn, s.number, s.data);
    if s.data == " " then Bare(h) else WithData(h, s.data)
  }

  lemma SentIsFrame(s: Sent)
    requires Spellable(s)
    ensures ProperFrame(SentFrame(s))
    ensures FrameText(SentFrame(s)) == SentText(s) && FrameRead(SentFrame(s)) == SentRead(s)
  {
    RequestWords(s);
    var h := RequestHeader(s.name, s.tsn, s.number, s.data);
    assert Split(h)[0] == s.name && |Split(h)| == 4;
  }

  lemma {:induction false} AllSentAreFrames(ss: seq<Sent>) returns (fs: seq<Frame>)
    requires forall s :: s in ss ==> Spellable(s)
    ensures AllProper(fs) && AllText(fs) == AllSent(ss)
    ensures |AllRead(fs)| == |ss| && forall i :: 0 <= i < |ss| ==> AllRead(fs)[i] == SentRead(ss[i])
    decreases |ss|
  {
    if ss == [] {
      fs := [];
    } else {
      assert ss[0] in ss && forall s :: s in ss[1..] ==> s in ss;
      SentIsFrame(ss[0]);
      var rest := AllSentAreFrames(ss[1..]);
      fs := [SentFrame(ss[0])] + rest;
      assert fs[0] == SentFrame(ss[0]) && fs[1..] == rest;
    }
  }

  /** Requests are read back for every cut of their bytes: each that carries data with all of
    * it, down to a single character and to none, and each that carries none without. */
  lemma RequestsReadBack(ss: seq<Sent>, pieces: seq<string>)
    requires (forall s :: s in ss ==> Spellable(s)) && Joined(pieces) == AllSent(ss)
    ensures var results := ReadAll(Reader("", "", pieces));
      |results| == |ss| && forall i :: 0 <= i < |ss| ==> results[i] == SentRead(ss[i])
  {
    var fs := AllSentAreFrames(ss);
    ReadsAllFrames(Reader("", "", pieces), fs, "");
  }

  // ----- what the session does with them -------------------------------------------------

  /** How a client spells a request. */
  function SentFor(req: Request): Sent {
    match req
    case New(name, _, _) => Sent("NEW_TXN", "-1", "0", name)
    case Ask(Write(t, k, data)) => Sent("WRITE", IntToString(t), IntToString(k), data)
    case Ask(Commit(t, n)) => Sent("COMMIT", IntToString(t), IntToString(n), " ")
    case Ask(Abort(t)) => Sent("ABORT", IntToString(t), "0", " ")
    case Ask(Make(t, name)) => Sent("MAKE_TXN", IntToString(t), "0", name)
  }

  /** The request that `executeCommand` performs for a packet. What the generator draws and
    * whether a name is valid are not in the packet. */
  function RequestFor(r: Result, valid: bool, draws: seq<Tsn>): Option<Request> {
    if r.Packet? && Method(r.header) == 2 then Some(New(r.data, valid, draws))
    else
      match Understood(r)
      case None => None
      case Some(m) => Some(Ask(m))
  }

  function DataOf(req: Request): string {
    SentFor(req).data
  }

  ghost predicate TakenFor(r: Result, req: Request) {
    match req
    case New(_, valid, draws) => RequestFor(r, valid, draws) == Some(req)
    case Ask(_) => forall valid, draws :: RequestFor(r, valid, draws) == Some(req)
  }

  /** One request: taken for itself, unless it should carry data and carries a single blank. */
  lemma RequestTaken(req: Request)
    requires FromClient(req) && OneLine(DataOf(req))
    ensures Spellable(SentFor(req))
    ensures if (req.New? || req.m.Write?) && DataOf(req) == " " then SentRead(SentFor(req)) == MissingData
      else TakenFor(SentRead(SentFor(req)), req)
  {
    var s := SentFor(req);
    WordsOfRequest(req);
    RequestWords(s);
    var h := RequestHeader(s.name, s.tsn, s.number, s.data);
    assert Split(h)[0] == s.name && Split(h)[1] == s.tsn && Split(h)[2] == s.number;
    if req.Ask? {
      NumbersReadBack(req.m.t);
      if req.m.Commit? { NumbersReadBack(req.m.n); }
      if req.m.Write? { NumbersReadBack(req.m.k); }
    }
  }

  lemma WordsOfRequest(req: Request)
    requires FromClient(req) && OneLine(DataOf(req))
    ensures Spellable(SentFor(req))
  {
  }

  function AllSentFor(reqs: seq<Request>): seq<Sent> {
    seq(|reqs|, i requires 0 <= i < |reqs| => SentFor(reqs[i]))
  }

  /** The requests of clients cross the wire: sent one after the other and cut into any
    * pieces, each is taken for itself, in order, with its transaction, number and data,
    * except that a single blank is no data. */
  lemma RequestsCrossTheWire(reqs: seq<Request>, pieces: seq<string>)
    requires forall req :: req in reqs ==> FromClient(req) && OneLine(DataOf(req))
    requires Joined(pieces) == AllSent(AllSentFor(reqs))
    ensures var results := ReadAll(Reader("", "", pieces));
      && |results| == |reqs|
      && forall i :: 0 <= i < |reqs| ==>
           if (reqs[i].New? || reqs[i].m.Write?) && DataOf(reqs[i]) == " " then results[i] == MissingData
           else TakenFor(results[i], reqs[i])
  {
    forall s | s in AllSentFor(reqs) ensures Spellable(s) {
      var i :| 0 <= i < |reqs| && s == SentFor(reqs[i]);
      RequestTaken(reqs[i]);
    }
    RequestsReadBack(AllSentFor(reqs), pieces);
    forall i | 0 <= i < |reqs|
      ensures FromClient(reqs[i]) && OneLine(DataOf(reqs[i])) && AllSentFor(reqs)[i] == SentFor(reqs[i])
    {
      assert reqs[i] in reqs;
    }
    forall i | 0 <= i < |reqs|
      ensures if (reqs[i].New? || reqs[i].m.Write?) && DataOf(reqs[i]) == " "
        then SentRead(SentFor(reqs[i])) == MissingData else TakenFor(SentRead(SentFor(reqs[i])), reqs[i])
    {
      RequestTaken(reqs[i]);
    }
  }
}
