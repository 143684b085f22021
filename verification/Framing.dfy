/** Whatever `genEcho` prints, a session reads back: every packet, in order, for every
  * way the bytes are cut into pieces. */
module Framing {
  import opened Text
  import opened Wire

  datatype Outgoing = Outgoing(header: string, data: string)

  ghost predicate OneLine(s: string) {
    forall i :: 0 <= i < |s| ==> s[i] != '\n'
  }

  /** The methods that come with data, and those that come without. */
  predicate CarriesData(name: string) {
    name == "NEW_TXN" || name == "READ" || name == "WRITE" || name == "MAKE_TXN" || name == "PING"
  }

  predicate CarriesNone(name: string) {
    name == "ABORT" || name == "COMMIT" || name == "AUTH" || name == "KILL"
  }

  /** A header of a known method with a transaction and a sequence word, data without a
    * line end, and no data for the methods that carry none. */
  ghost predicate Printable(o: Outgoing) {
    var words := Split(o.header);
    && |words| >= 3
    && IsWord(words[0]) && IsWord(words[1]) && IsWord(words[2])
    && words[1] != "" && words[2] != ""
    && (CarriesData(words[0]) || CarriesNone(words[0]))
    && OneLine(o.data)
    && (CarriesNone(words[0]) ==> |o.data| < 2)
  }

  ghost predicate AllPrintable(os: seq<Outgoing>) {
    forall o :: o in os ==> Printable(o)
  }

  ghost function Printed(os: seq<Outgoing>): string
    requires AllPrintable(os)
  {
    if os == [] then ""
    else
      assert os[0] in os && forall o :: o in os[1..] ==> o in os;
      GenEcho(os[0].header, os[0].data) + Printed(os[1..])
  }

  /** What the receiver makes of one packet: data too short to be sent is missed. */
  ghost function Expected(o: Outgoing): Result
    requires Printable(o)
  {
    if |o.data| >= 2 then Packet(EchoHeader(o.header, o.data), o.data)
    else if CarriesData(Split(o.header)[0]) then MissingData
    else Packet(EchoHeader(o.header, o.data), " ")
  }

  ghost function ExpectedAll(os: seq<Outgoing>): seq<Result>
    requires AllPrintable(os)
  {
    if os == [] then []
    else
      assert os[0] in os && forall o :: o in os[1..] ==> o in os;
      [Expected(os[0])] + ExpectedAll(os[1..])
  }

  // ----- headers --------------------------------------------------------------------

  ghost predicate Plain(h: string) {
    |h| >= 8 && forall i :: 0 <= i < |h| ==> h[i] != '\r' && h[i] != '\n'
  }

  /** The reader's test for methods with data is by these names. */
  lemma NeedsDataByName(h: string)
    ensures CarriesData(Split(h)[0]) ==> NeedsData(h) && Method(h) != 0
    ensures CarriesNone(Split(h)[0]) ==> !NeedsData(h) && Method(h) != 0
  {
  }

  lemma IntIsWord(n: int)
    ensures IsWord(IntToString(n)) && NoBlanks(IntToString(n))
  {
  }

  /** The echoed header still says the same: method, transaction, sequence number; and
    * its last word is the number of bytes that follow. */
  lemma EchoHeaderSaysTheSame(o: Outgoing)
    requires Printable(o)
    ensures var h := EchoHeader(o.header, o.data);
      && Plain(h) && |Split(h)| == 4 && Split(h)[0] == Split(o.header)[0]
      && Method(h) == Method(o.header) && GetTsn(h) == GetTsn(o.header) && GetSeq(h) == GetSeq(o.header)
      && GetBytes(h) == (if |o.data| < 2 then 0 else |o.data| + 1)
  {
    var words := Split(o.header);
    var len := if |o.data| < 2 then "0" else IntToString(|o.data| + 1);
    assert |words[0]| >= 4;
    IntIsWord(|o.data| + 1);
    SplitFour(words[0], words[1], words[2], len);
    NumbersReadBack(|o.data| + 1);
    assert Atoi("0") == 0;
  }

  // ----- lines ------------------------------------------------------------------------

  lemma GetLineAt(x: string, y: string, previous: string)
    requires OneLine(x)
    ensures GetLine(Stream(x + "\n" + y, false), previous) == (x, true, Stream(y, false))
  {
    var s := x + "\n" + y;
    assert s[|x|] == '\n';
    var i := IndexOf(s, '\n');
    assert i == |x|;
    assert s[..i] == x && s[i + 1..] == y;
  }

  lemma GetLineToEnd(x: string, previous: string)
    requires OneLine(x)
    ensures GetLine(Stream(x, false), previous) == (x, x != "", Stream("", true))
  {
  }

  lemma {:induction false} ReturnStripped(h: string)
    requires forall i :: 0 <= i < |h| ==> h[i] != '\r'
    ensures NoReturns(h + "\r") == h
  {
    if h == "" {
      assert (h + "\r")[1..] == "";
    } else {
      assert (h + "\r")[1..] == h[1..] + "\r";
      ReturnStripped(h[1..]);
      assert [h[0]] + h[1..] == h;
    }
  }

  /** What the previous packet may have left in front of a header. */
  ghost predicate Lead(lead: string) {
    lead == "" || lead == "\n" || lead == "\r\n"
  }

  lemma SkipShortLine(line: string, h: string, rest: string)
    requires (line == "" || line == "\r") && Plain(h)
    ensures ReadHeader(line + "\n" + ((h + "\r") + "\n" + rest)) == (h, true, Stream(rest, false))
  {
    var next := (h + "\r") + "\n" + rest;
    GetLineAt(line, next, "");
    ReturnStripped(h);
    ReturnStripped("");
    assert "" + "\r" == "\r";
    GetLineAt(h + "\r", rest, "");
    assert SkipToHeader("", Stream(next, false)) == SkipToHeader(h, Stream(rest, false));
  }

  /** The first line that is long enough is the header; the delimiter's second line end
    * is still there. */
  lemma HeaderFound(lead: string, h: string, u: string)
    requires Lead(lead) && Plain(h)
    ensures ReadHeader(lead + h + DELIMITER + u) == (h, true, Stream("\r\n" + u, false))
  {
    var b := lead + h + DELIMITER + u;
    var rest := "\r\n" + u;
    assert h + DELIMITER + u == (h + "\r") + "\n" + rest;
    ReturnStripped(h);
    if lead == "" {
      assert b == (h + "\r") + "\n" + rest;
      GetLineAt(h + "\r", rest, "");
    } else {
      var line := if lead == "\n" then "" else "\r";
      assert b == line + "\n" + ((h + "\r") + "\n" + rest);
      SkipShortLine(line, h, rest);
    }
  }

  lemma NoEarlierDelimiter(lead: string, h: string, tail: string, i: int)
    requires Lead(lead) && Plain(h) && DelimiterAt(lead + h + DELIMITER + tail, i)
    ensures i >= |lead| + |h|
  {
  }

  lemma HeaderThenDelimiter(lead: string, h: string, tail: string)
    ensures DelimiterAt(lead + h + DELIMITER + tail, |lead| + |h|)
  {
  }

  /** A buffer with the delimiter in it reaches at least to the end of the header. */
  lemma LongEnough(b: string, n: string, lead: string, h: string, tail: string)
    requires Lead(lead) && Plain(h) && b + n == lead + h + DELIMITER + tail && HasDelimiter(b)
    ensures |b| >= |lead| + |h| + 4
  {
    var i :| 0 <= i <= |b| - 4 && DelimiterAt(b, i);
    assert DelimiterAt(b + n, i);
    NoEarlierDelimiter(lead, h, tail, i);
  }

  lemma CutBehind(b: string, n: string, x: string, tail: string)
    requires b + n == x + tail && |b| >= |x|
    ensures b == x + b[|x|..] && b[|x|..] + n == tail
  {
    assert b[..|x|] == (b + n)[..|x|] == x;
    assert b[|x|..] + n == (b + n)[|x|..] == tail;
  }

  /** The buffer holds the header and the delimiter, plus some of what follows. */
  lemma Buffered(r: Reader, lead: string, h: string, tail: string) returns (u: string)
    requires Lead(lead) && Plain(h) && r.b + Joined(r.net) == lead + h + DELIMITER + tail
    ensures ReadUntil(r).1
    ensures ReadUntil(r).0.b == lead + h + DELIMITER + u
    ensures u + Joined(ReadUntil(r).0.net) == tail
    ensures ReadUntil(r).0.c == r.c
  {
    var (r1, found) := ReadUntil(r);
    HeaderThenDelimiter(lead, h, tail);
    assert HasDelimiter(lead + h + DELIMITER + tail);
    assert r1.net == [] ==> r1.b == lead + h + DELIMITER + tail;
    LongEnough(r1.b, Joined(r1.net), lead, h, tail);
    CutBehind(r1.b, Joined(r1.net), lead + h + DELIMITER, tail);
    u := r1.b[|lead + h + DELIMITER|..];
  }

  lemma FragmentOf(u: string)
    ensures ReadFragment(Stream("\r\n" + u, false))
      == (GetLine(Stream(u, false), "\r").0, GetLine(Stream(u, false), "\r").2)
  {
    assert "\r\n" + u == "\r" + "\n" + u;
    GetLineAt("\r", u, "");
  }

  /** Reading the header leaves the buffered part of what follows the delimiter. */
  lemma AfterHeader(r: Reader, h: string, lead: string, u: string)
    requires Lead(lead) && Plain(h) && ValidHeader(h) && r.b == lead + h + DELIMITER + u
    ensures var (fragment, _, s) := GetLine(Stream(u, false), "\r");
      var r1 := r.(b := s.buf);
      HandleRead(r) ==
        if DataAttached(h) then ReadPayload(h, fragment, r1)
        else if NeedsData(h) then (MissingData, r1)
        else (Packet(h, " "), r1)
  {
    HeaderFound(lead, h, u);
    FragmentOf(u);
  }

  /** The last line end of a packet without payload is taken wholly, in part or not at all. */
  lemma LastLineEnd(u: string, n: string, rest: string) returns (lead': string)
    requires u + n == "\r\n" + rest
    ensures Lead(lead') && GetLine(Stream(u, false), "\r").2.buf + n == lead' + rest
  {
    var all := "\r\n" + rest;
    assert u == all[..|u|] && n == all[|u|..];
    if |u| <= 1 {
      GetLineToEnd(u, "\r");
      lead' := if u == "" then "\r\n" else "\n";
    } else {
      var v := u[2..];
      assert u == "\r" + "\n" + v;
      GetLineAt("\r", v, "\r");
      lead' := "";
      assert v + n == (u + n)[2..] == rest;
    }
  }

  /** The whole payload is buffered. */
  lemma PayloadBuffered(u: string, n: string, data: string, rest: string)
    requires OneLine(data) && u + n == data + "\n" + rest && |u| > |data|
    ensures var (fragment, _, s) := GetLine(Stream(u, false), "\r");
      fragment == data && s.buf + n == rest
  {
    var all, v := data + "\n" + rest, u[|data| + 1..];
    assert u == all[..|u|];
    assert u == data + "\n" + v;
    GetLineAt(data, v, "\r");
    assert v + n == (u + n)[|data| + 1..] == rest;
  }

  /** Only a part of the payload, or all of it but its line end, is buffered. */
  lemma PayloadPartial(u: string, n: string, data: string, rest: string)
    requires OneLine(data) && u + n == data + "\n" + rest && |u| <= |data|
    ensures var (fragment, _, s) := GetLine(Stream(u, false), "\r");
      fragment == u == data[..|u|] && s.buf == ""
    ensures n == data[|u|..] + "\n" + rest
  {
    var all := data + "\n" + rest;
    assert u == all[..|u|] && n == all[|u|..];
    assert OneLine(u) by { assert u == data[..|u|]; }
    GetLineToEnd(u, "\r");
  }

  lemma PayloadRead(h: string, fragment: string, tail: string, r: Reader, rest: string)
    requires OneLine(tail) && tail != "" && GetBytes(h) == |fragment| + |tail| + 1 && r.c == ""
    requires Joined(r.net) == tail + "\n" + rest
    ensures var (result, r') := ReadPayload(h, fragment, r);
      result == Packet(h, fragment + tail) && r'.c == "" && r'.b == r.b && Joined(r'.net) == rest
  {
    LineCut(Joined(r.net), tail, rest);
    assert r.c + Joined(r.net)[..|tail| + 1] == tail + "\n" + "";
    GetLineAt(tail, "", "");
  }

  /** The rest of a payload is read from the connection, to the byte. */
  lemma RestOfPayload(h: string, data: string, k: nat, r: Reader, rest: string)
    requires OneLine(data) && k < |data| && GetBytes(h) == |data| + 1 && r.c == ""
    requires Joined(r.net) == data[k..] + "\n" + rest
    ensures var (result, r') := ReadPayload(h, data[..k], r);
      result == Packet(h, data) && r'.c == "" && r'.b == r.b && Joined(r'.net) == rest
  {
    PayloadRead(h, data[..k], data[k..], r, rest);
    assert data[..k] + data[k..] == data;
  }

  lemma LineCut(n: string, line: string, rest: string)
    requires n == line + "\n" + rest
    ensures n[..|line| + 1] == line + "\n" + "" && n[|line| + 1..] == rest
  {
  }

  /** A packet with payload: buffered wholly, in part, or up to its final line end. */
  lemma ReadsFullPacket(r: Reader, h: string, data: string, u: string, rest: string) returns (lead': string)
    requires GetBytes(h) == |data| + 1 && OneLine(data)
    requires r.c == "" && u + Joined(r.net) == data + "\n" + rest
    ensures var (fragment, _, s) := GetLine(Stream(u, false), "\r");
      var (result, r') := ReadPayload(h, fragment, r.(b := s.buf));
      && result == Packet(h, data)
      && Lead(lead') && r'.c == "" && r'.b + Joined(r'.net) == lead' + rest
  {
    if |u| > |data| {
      PayloadBuffered(u, Joined(r.net), data, rest);
      lead' := "";
    } else {
      PayloadPartial(u, Joined(r.net), data, rest);
      if |u| == |data| {
        lead' := "\n";
      } else {
        RestOfPayload(h, data, |u|, r.(b := ""), rest);
        lead' := "";
      }
    }
  }

  // ----- packets of any printer ----------------------------------------------------------

  /** A packet as it is on the wire. */
  datatype Frame = WithData(header: string, data: string) | Bare(header: string)

  /** Four words, a method by name, and the number of bytes that follow. */
  ghost predicate ProperFrame(f: Frame) {
    var words := Split(f.header);
    && Plain(f.header) && |words| == 4
    && match f
       case WithData(h, data) => CarriesData(words[0]) && OneLine(data) && GetBytes(h) == |data| + 1
       case Bare(h) => (CarriesData(words[0]) || CarriesNone(words[0])) && GetBytes(h) == 0
  }

  function FrameText(f: Frame): string {
    match f
    case WithData(h, data) => h + DELIMITER + data + "\n"
    case Bare(h) => h + DELIMITER + "\r\n"
  }

  /** What the receiver makes of it. */
  function FrameRead(f: Frame): Result {
    match f
    case WithData(h, data) => Packet(h, data)
    case Bare(h) => if CarriesData(Split(h)[0]) then MissingData else Packet(h, " ")
  }

  /** Reading one packet off the stream yields what is expected and leaves the stream
    * at the next packet, up to a line end in front of it. */
  lemma ReadsOneFrame(r: Reader, f: Frame, lead: string, rest: string) returns (lead': string)
    requires Lead(lead) && ProperFrame(f) && r.c == ""
    requires r.b + Joined(r.net) == lead + FrameText(f) + rest
    ensures ReadUntil(r).1
    ensures var (result, r') := HandleRead(ReadUntil(r).0);
      && result == FrameRead(f)
      && Lead(lead') && r'.c == "" && r'.b + Joined(r'.net) == lead' + rest
  {
    var h := f.header;
    NeedsDataByName(h);
    var tail := (match f case WithData(_, data) => data + "\n" case Bare(_) => "\r\n") + rest;
    FrameShape(f, lead, rest, tail);
    var u := Buffered(r, lead, h, tail);
    var r1 := ReadUntil(r).0;
    AfterHeader(r1, h, lead, u);
    match f
    case WithData(_, data) => lead' := ReadsFullPacket(r1, h, data, u, rest);
    case Bare(_) => lead' := LastLineEnd(u, Joined(r1.net), rest);
  }

  lemma FrameShape(f: Frame, lead: string, rest: string, tail: string)
    requires tail == (match f case WithData(_, data) => data + "\n" case Bare(_) => "\r\n") + rest
    ensures lead + FrameText(f) + rest == lead + f.header + DELIMITER + tail
  {
  }

  /** A header with other than four words is refused, and no other, however it arrives. */
  lemma OnlyFourWordsPass(h: string, tail: string, pieces: seq<string>)
    requires Plain(h) && Joined(pieces) == h + DELIMITER + tail
    ensures var results := ReadAll(Reader("", "", pieces));
      results != [] && (results[0] == BadHeader <==> |Split(h)| != 4)
  {
    var r := Reader("", "", pieces);
    assert "" + h + DELIMITER + tail == h + DELIMITER + tail == r.b + Joined(r.net);
    var u := Buffered(r, "", h, tail);
    HeaderFound("", h, u);
    if |Split(h)| == 4 { AfterHeader(ReadUntil(r).0, h, "", u); }
  }

  lemma TwoLinesApart(line: string, u: string)
    ensures line + DELIMITER + u == (line + "\r") + "\n" + ("\r" + "\n" + u)
  {
  }

  lemma ShortHeaderSkipped(line: string, next: string, rest: string, u: string)
    requires |line| < 8 && OneLine(next) && NoReturns(next) == "" && rest == next + "\n" + u
    ensures SkipToHeader(line, Stream(rest, false)) == SkipToHeader("", Stream(u, false))
  {
    GetLineAt(next, u, line);
  }

  lemma FirstHeaderLine(u: string)
    ensures ReadHeader(u) == SkipToHeader("", Stream(u, false))
  {
    if u == "" {
      assert GetLine(Stream(u, false), "") == ("", false, Stream("", true));
    }
  }

  /** A line of fewer than eight characters is no header: it is skipped, and if nothing else is
    * buffered the stream is at its end. */
  lemma ShortLineIsSkipped(line: string, u: string)
    requires |line| < 8 && forall i :: 0 <= i < |line| ==> line[i] != '\r' && line[i] != '\n'
    ensures ReadHeader(line + DELIMITER + u) == ReadHeader(u)
    ensures forall c, net :: u == "" ==> HandleRead(Reader(line + DELIMITER + u, c, net)).0 == EndOfStream
  {
    TwoLinesApart(line, u);
    FirstLineRead(line, "\r" + "\n" + u);
    ReturnStripped("");
    assert "" + "\r" == "\r";
    ShortHeaderSkipped(line, "\r", "\r" + "\n" + u, u);
    FirstHeaderLine(u);
    FirstHeaderLine("");
  }

  lemma FirstLineRead(line: string, rest: string)
    requires forall i :: 0 <= i < |line| ==> line[i] != '\r' && line[i] != '\n'
    ensures ReadHeader((line + "\r") + "\n" + rest) == SkipToHeader(line, Stream(rest, false))
  {
    GetLineAt(line + "\r", rest, "");
    ReturnStripped(line);
  }

  lemma TooFewLeft(h: string, fragment: string, r: Reader)
    requires GetBytes(h) - |fragment| > |Joined(r.net)| && GetBytes(h) - |fragment| != 1
    ensures ReadPayload(h, fragment, r).0 == Dead
  {
  }

  /** When more data is announced than arrives, the session reads no more. */
  lemma TooFewBytes(h: string, data: string, pieces: seq<string>)
    requires Plain(h) && |Split(h)| == 4 && CarriesData(Split(h)[0])
    requires OneLine(data) && GetBytes(h) > |data| + 1 && Joined(pieces) == h + DELIMITER + data
    ensures ReadAll(Reader("", "", pieces)) == [Dead]
  {
    var r := Reader("", "", pieces);
    EmptyLead(h, data);
    NeedsDataByName(h);
    var u := Buffered(r, "", h, data);
    var r1 := ReadUntil(r).0;
    AfterHeader(r1, h, "", u);
    StartOfLine(u, Joined(r1.net), data);
    GetLineToEnd(u, "\r");
    TooFewLeft(h, u, r1.(b := ""));
  }

  lemma EmptyLead(h: string, data: string)
    ensures "" + h + DELIMITER + data == h + DELIMITER + data
  {
  }

  lemma StartOfLine(u: string, n: string, data: string)
    requires u + n == data && OneLine(data)
    ensures OneLine(u) && |u| + |n| == |data|
  {
    assert forall i :: 0 <= i < |u| ==> u[i] == data[i];
  }

  // ----- the whole stream ----------------------------------------------------------------

  ghost predicate AllProper(fs: seq<Frame>) {
    forall f :: f in fs ==> ProperFrame(f)
  }

  function AllText(fs: seq<Frame>): string {
    if fs == [] then "" else FrameText(fs[0]) + AllText(fs[1..])
  }

  function AllRead(fs: seq<Frame>): seq<Result> {
    if fs == [] then [] else [FrameRead(fs[0])] + AllRead(fs[1..])
  }

  lemma LeadHasNoDelimiter(r: Reader, lead: string)
    requires Lead(lead) && r.b + Joined(r.net) == lead
    ensures !ReadUntil(r).1
  {
  }

  lemma ReadAllStep(r: Reader)
    requires ReadUntil(r).1 && HandleRead(ReadUntil(r).0).0 != Dead
    ensures ReadAll(r) == [HandleRead(ReadUntil(r).0).0] + ReadAll(HandleRead(ReadUntil(r).0).1)
  {
  }

  /** The first packet, and the stream after it. */
  lemma ReadsFirstFrame(r: Reader, fs: seq<Frame>, lead: string) returns (lead': string, r': Reader)
    requires fs != [] && AllProper(fs) && Lead(lead) && r.c == ""
    requires r.b + Joined(r.net) == lead + AllText(fs)
    ensures Lead(lead') && r'.c == "" && r'.b + Joined(r'.net) == lead' + AllText(fs[1..])
    ensures ReadAll(r) == [FrameRead(fs[0])] + ReadAll(r')
  {
    assert fs[0] in fs;
    var rest, first := AllText(fs[1..]), FrameText(fs[0]);
    Regrouped(lead, first, rest);
    lead' := ReadsOneFrame(r, fs[0], lead, rest);
    r' := HandleRead(ReadUntil(r).0).1;
    ReadAllStep(r);
  }

  lemma Regrouped(a: string, b: string, c: string)
    ensures a + (b + c) == a + b + c
  {
  }

  lemma {:induction false} ReadsAllFrames(r: Reader, fs: seq<Frame>, lead: string)
    requires AllProper(fs) && Lead(lead) && r.c == ""
    requires r.b + Joined(r.net) == lead + AllText(fs)
    ensures ReadAll(r) == AllRead(fs)
    decreases |fs|
  {
    if fs == [] {
      LeadHasNoDelimiter(r, lead);
    } else {
      var lead', r' := ReadsFirstFrame(r, fs, lead);
      ReadsAllFrames(r', fs[1..], lead');
    }
  }

  // ----- what genEcho prints ---------------------------------------------------------------

  function EchoFrame(o: Outgoing): Frame
    requires |Split(o.header)| >= 3
  {
    var h := EchoHeader(o.header, o.data);
    if |o.data| < 2 then Bare(h) else WithData(h, o.data)
  }

  lemma EchoIsFrame(o: Outgoing)
    requires Printable(o)
    ensures ProperFrame(EchoFrame(o))
    ensures FrameText(EchoFrame(o)) == GenEcho(o.header, o.data) && FrameRead(EchoFrame(o)) == Expected(o)
  {
    EchoHeaderSaysTheSame(o);
  }

  lemma {:induction false} EchoesAreFrames(os: seq<Outgoing>) returns (fs: seq<Frame>)
    requires AllPrintable(os)
    ensures AllProper(fs) && AllText(fs) == Printed(os) && AllRead(fs) == ExpectedAll(os)
    decreases |os|
  {
    if os == [] {
      fs := [];
    } else {
      assert os[0] in os && forall o :: o in os[1..] ==> o in os;
      EchoIsFrame(os[0]);
      var rest := EchoesAreFrames(os[1..]);
      fs := [EchoFrame(os[0])] + rest;
      assert fs[0] == EchoFrame(os[0]) && fs[1..] == rest;
    }
  }

  /** Framing round trip: for every list of packets and every way to cut their
    * concatenation into pieces, the session reads exactly these packets, in order. */
  lemma FramingRoundTrip(os: seq<Outgoing>, pieces: seq<string>)
    requires AllPrintable(os) && Joined(pieces) == Printed(os)
    ensures ReadAll(Reader("", "", pieces)) == ExpectedAll(os)
  {
    var fs := EchoesAreFrames(os);
    ReadsAllFrames(Reader("", "", pieces), fs, "");
  }
}
