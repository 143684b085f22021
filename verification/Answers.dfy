/** Answers on the wire: how a backup's verdict is printed and what the primary's client
  * makes of the bytes it reads. */
module Answers {
  import opened Text
  import opened Wire
  import opened Framing
  import opened Delivery

  /** `genAnswerStr`, with the second and third word of the header it answers. */
  function AnswerLine(verb: string, tsn: string, number: string, code: string, text: string): string {
    verb + " " + (tsn + " " + (number + " " + (code + " " + (if text == " " then "0" else IntToString(|text|)))))
  }

  function GenAnswer(verb: string, tsn: string, number: string, code: string, text: string): string {
    AnswerLine(verb, tsn, number, code, text) + DELIMITER + (if text == " " then "" else text) + "\r\n"
  }

  function GetBytesResponse(header: string): int {
    var words := Split(header);
    if |words| < 5 then -100 else Atoi(words[4])
  }

  predicate LineEndAt(s: string, i: int) {
    0 <= i <= |s| - 2 && s[i] == '\r' && s[i + 1] == '\n'
  }

  predicate HasLineEnd(s: string) {
    exists i :: 0 <= i <= |s| - 2 && LineEndAt(s, i)
  }

  /** `read_until` for a line end. */
  function ReadUntilLine(b: string, net: seq<string>): (string, seq<string>, bool)
    decreases |net|
  {
    if HasLineEnd(b) then (b, net, true)
    else if net == [] then (b, net, false)
    else ReadUntilLine(b + net[0], net[1..])
  }

  datatype Received = Lost | Received(text: string, net: seq<string>)

  /** The header, the blank line, and the line after it, for which more is read if the
    * header announces text. */
  function AnswerIn(b: string, net: seq<string>): Received {
    var (header, _, s1) := GetLine(Stream(b, false), "");
    var (blank, _, s2) := GetLine(s1, "");
    var (b2, net2, ok) := if GetBytesResponse(header) > 0 then ReadUntilLine(s2.buf, net) else (s2.buf, net, true);
    if !ok then Lost else Received(header + "\t\t\t" + GetLine(Stream(b2, s2.eof), blank).0, net2)
  }

  /** The reading half of `sendReceive`. It starts with an empty buffer every time, and
    * what it has read beyond the answer is dropped with the buffer. */
  function ReadAnswer(net: seq<string>): Received {
    var (r, found) := ReadUntil(Reader("", "", net));
    if !found then Lost else AnswerIn(r.b, r.net)
  }

  /** The words of an answer are separated by spaces alone here. */
  function SpaceSplit(s: string): (words: seq<string>)
    ensures |words| >= 1
  {
    if s == "" then [""]
    else if s[0] == ' ' then [""] + SpaceSplit(s[1..])
    else
      var rest := SpaceSplit(s[1..]);
      [[s[0]] + rest[0]] + rest[1..]
  }

  /** What the replication manager concludes from an answer; `Other` is any other refusal. */
  datatype Conclusion = Committed | Incomplete | Unknown | Other

  function Judge(text: string): Conclusion {
    var words := SpaceSplit(text);
    if words[0] == "ACK" then Committed
    else if words[0] == "ACK_RESEND" then Incomplete
    else if words[0] == "ERROR" && |words| > 3 && words[3] == "201" then Unknown
    else Other
  }

  function Verb(r: Reply): string {
    match r
    case Ack => "ACK"
    case AckResend => "ACK_RESEND"
    case Error(code) => if code == 301 || code == 404 then "WARNING" else "ERROR"
  }

  function CodeOf(r: Reply): string {
    if r.Error? then IntToString(r.code) else "0"
  }

  function Meaning(r: Reply): Conclusion {
    match r
    case Ack => Committed
    case AckResend => Incomplete
    case Error(code) => if code == 201 then Unknown else Other
  }

  // ----- words -----------------------------------------------------------------------

  lemma {:induction false} SpaceSplitWord(a: string, rest: string)
    requires NoBlanks(a)
    ensures SpaceSplit(a + " " + rest) == [a] + SpaceSplit(rest)
  {
    var s := a + " " + rest;
    if a == "" {
      assert s[1..] == rest;
    } else {
      assert s[1..] == a[1..] + " " + rest;
      SpaceSplitWord(a[1..], rest);
      assert SpaceSplit(s[1..]) == [a[1..]] + SpaceSplit(rest);
      assert [a[0]] + a[1..] == a;
    }
  }

  lemma FourWords(a: string, b: string, c: string, d: string, rest: string)
    requires NoBlanks(a) && NoBlanks(b) && NoBlanks(c) && NoBlanks(d)
    ensures var words := SpaceSplit(a + " " + (b + " " + (c + " " + (d + " " + rest))));
      |words| > 3 && words[0] == a && words[3] == d
  {
    SpaceSplitWord(d, rest);
    SpaceSplitWord(c, d + " " + rest);
    SpaceSplitWord(b, c + " " + (d + " " + rest));
    SpaceSplitWord(a, b + " " + (c + " " + (d + " " + rest)));
  }

  lemma {:induction false} FirstSpaceWord(s: string)
    ensures s != "" && s[0] != ' ' ==> SpaceSplit(s)[0] != "" && SpaceSplit(s)[0][0] == s[0]
  {
  }

  /** Numbers are printed injectively, so only the code 201 reads as "201". */
  lemma CodeRead(code: int)
    ensures IntToString(code) == IntToString(201) <==> code == 201
  {
    NumbersReadBack(code);
    NumbersReadBack(201);
  }

  lemma Spelled201()
    ensures IntToString(201) == "201"
  {
  }

  /** The answer is judged by its verb and its code alone. */
  lemma JudgedRight(r: Reply, tsn: string, number: string, rest: string)
    requires NoBlanks(tsn) && NoBlanks(number)
    ensures Judge(Verb(r) + " " + (tsn + " " + (number + " " + (CodeOf(r) + " " + rest)))) == Meaning(r)
  {
    var code := if r.Error? then r.code else 0;
    IntIsWord(code);
    assert NoBlanks(Verb(r)) && NoBlanks(CodeOf(r));
    FourWords(Verb(r), tsn, number, CodeOf(r), rest);
    CodeRead(code);
    Spelled201();
  }

  // ----- how far a read goes -------------------------------------------------------------

  /** The pieces left once at least n bytes have been taken, piece by piece. */
  function After(net: seq<string>, n: int): seq<string>
    requires n <= |Joined(net)|
    decreases |net|
  {
    if n <= 0 then net else After(net[1..], n - |net[0]|)
  }

  /** The end of the first piece that reaches byte n. */
  function PieceEnd(net: seq<string>, n: int): (k: nat)
    requires n <= |Joined(net)|
    ensures k >= n && k <= |Joined(net)|
    ensures Joined(After(net, n)) == Joined(net)[k..]
    decreases |net|
  {
    if n <= 0 then 0
    else |net[0]| + PieceEnd(net[1..], n - |net[0]|)
  }

  lemma {:induction false} AfterAfter(net: seq<string>, n: int, m: int)
    requires n <= m <= |Joined(net)|
    ensures m - PieceEnd(net, n) <= |Joined(After(net, n))|
    ensures After(After(net, n), m - PieceEnd(net, n)) == After(net, m)
    decreases |net|
  {
    if n > 0 {
      AfterAfter(net[1..], n - |net[0]|, m - |net[0]|);
    }
  }

  function Prefix(s: string, k: nat): string
    requires k <= |s|
  {
    s[..k]
  }

  /** Where a text first shows the delimiter: prefixes show it from length d on. */
  ghost predicate DelimiterEndsAt(all: string, d: nat) {
    d <= |all| && forall k: nat :: k <= |all| ==> (HasDelimiter(Prefix(all, k)) <==> k >= d)
  }

  ghost predicate LineEndsAt(all: string, d: nat) {
    d <= |all| && forall k: nat :: k <= |all| ==> (HasLineEnd(Prefix(all, k)) <==> k >= d)
  }

  lemma {:induction false} ReadUntilTakes(b: string, net: seq<string>, d: nat)
    requires DelimiterEndsAt(b + Joined(net), d)
    ensures d - |b| <= |Joined(net)|
    ensures var net' := After(net, d - |b|);
      && ReadUntil(Reader(b, "", net)).1
      && ReadUntil(Reader(b, "", net)).0.net == net'
    decreases |net|
  {
    var all := b + Joined(net);
    assert Prefix(all, |b|) == b;
    if |b| < d {
      assert net == [] ==> all == b;
      assert b + net[0] + Joined(net[1..]) == all;
      ReadUntilTakes(b + net[0], net[1..], d);
    }
  }

  lemma {:induction false} ReadUntilLineTakes(b: string, net: seq<string>, d: nat)
    requires LineEndsAt(b + Joined(net), d)
    ensures d - |b| <= |Joined(net)|
    ensures var (b', net', ok) := ReadUntilLine(b, net);
      && ok && net' == After(net, d - |b|)
      && |b'| >= d && b' + Joined(net') == b + Joined(net)
    decreases |net|
  {
    var all := b + Joined(net);
    assert Prefix(all, |b|) == b;
    if |b| < d {
      assert net == [] ==> all == b;
      assert b + net[0] + Joined(net[1..]) == all;
      ReadUntilLineTakes(b + net[0], net[1..], d);
    }
  }
  // ----- words of an answer ----------------------------------------------------------------

  ghost predicate Clean(s: string) {
    forall i :: 0 <= i < |s| ==> s[i] != '\r' && s[i] != '\n'
  }

  lemma JoinedClean(a: string, b: string)
    requires Clean(a) && Clean(b)
    ensures Clean(a + " " + b)
  {
  }

  function LengthWord(text: string): string {
    if text == " " then "0" else IntToString(|text|)
  }

  lemma LineIsClean(r: Reply, tsn: string, number: string, text: string)
    requires IsWord(tsn) && IsWord(number)
    ensures Clean(AnswerLine(Verb(r), tsn, number, CodeOf(r), text))
  {
    var len := LengthWord(text);
    IntIsWord(if r.Error? then r.code else 0);
    IntIsWord(|text|);
    JoinedClean(CodeOf(r), len);
    JoinedClean(number, CodeOf(r) + " " + len);
    JoinedClean(tsn, number + " " + (CodeOf(r) + " " + len));
    JoinedClean(Verb(r), tsn + " " + (number + " " + (CodeOf(r) + " " + len)));
  }

  lemma Regroup(a: string, b: string, c: string, d: string, e: string, z: string)
    ensures (a + " " + (b + " " + (c + " " + (d + " " + e)))) + z
      == a + " " + (b + " " + (c + " " + (d + " " + (e + z))))
  {
  }

  lemma LineJudged(r: Reply, tsn: string, number: string, text: string, last: string)
    requires IsWord(tsn) && IsWord(number)
    ensures var line := AnswerLine(Verb(r), tsn, number, CodeOf(r), text);
      Judge((line + "\r") + "\t\t\t" + last) == Meaning(r)
  {
    var len := LengthWord(text);
    var line := AnswerLine(Verb(r), tsn, number, CodeOf(r), text);
    var z := "\r" + ("\t\t\t" + last);
    JudgedRight(r, tsn, number, len + z);
    Regroup(Verb(r), tsn, number, CodeOf(r), len, z);
    assert (line + "\r") + "\t\t\t" + last == line + z;
  }

  /** What an answer says: the verdict, the transaction, the number it is about and the code. */
  ghost predicate Says(text: string, r: Reply, tsn: string, number: string) {
    var words := Split(text);
    && |words| > 4 && words[1] == tsn && words[2] == number
    && words[0] == (match r
                    case Ack => "ACK"
                    case AckResend => "ACK_RESEND"
                    case Error(code) => if code == 301 || code == 404 then "WARNING" else "ERROR")
    && ToInt(words[3]) == if r.Error? then r.code else 0
  }

  /** The text of an answer is there in full, behind three tabs. */
  ghost predicate EndsWithText(read: string, text: string) {
    exists header :: read == header + "\t\t\t" + (text + "\r")
  }

  lemma LineSays(r: Reply, tsn: string, number: string, text: string, last: string)
    requires IsWord(tsn) && IsWord(number)
    ensures Says((AnswerLine(Verb(r), tsn, number, CodeOf(r), text) + "\r") + "\t\t\t" + last, r, tsn, number)
  {
    var len := LengthWord(text);
    var line := AnswerLine(Verb(r), tsn, number, CodeOf(r), text);
    var z := "\r" + ("\t\t\t" + last);
    var code := if r.Error? then r.code else 0;
    IntIsWord(code);
    NumbersReadBack(code);
    assert Digits(0) == "0";
    Regroup(Verb(r), tsn, number, CodeOf(r), len, z);
    assert (line + "\r") + "\t\t\t" + last == line + z;
    FirstFour(Verb(r), tsn, number, CodeOf(r), len + z);
  }

  /** The header behind a request for a missing write: its words are the transaction and the
    * number that are printed into the answer. */
  lemma ResendHeader(t: int, k: int)
    ensures var words := Split("empty" + "\t" + (IntToString(t) + "\t" + (IntToString(k) + "\t" + "")));
      |words| >= 3 && ToInt(words[1]) == t && ToInt(words[2]) == k
  {
    IntIsWord(t);
    IntIsWord(k);
    NumbersReadBack(t);
    NumbersReadBack(k);
    SplitTab(IntToString(k), "");
    SplitTab(IntToString(t), IntToString(k) + "\t" + "");
    SplitTab("empty", IntToString(t) + "\t" + (IntToString(k) + "\t" + ""));
  }

  /** The answer to a request for a new transaction names it. */
  lemma NewTxnAnswer(t: int)
    ensures var words := Split("ACK" + "\t" + (IntToString(t) + "\t" + ("0" + "\t" + ("0" + "\t" + "0"))));
      |words| == 5 && words[0] == "ACK" && ToInt(words[1]) == t
  {
    IntIsWord(t);
    NumbersReadBack(t);
    SplitLastWord("0");
    SplitTab("0", "0");
    SplitTab("0", "0" + "\t" + "0");
    SplitTab(IntToString(t), "0" + "\t" + ("0" + "\t" + "0"));
    SplitTab("ACK", IntToString(t) + "\t" + ("0" + "\t" + ("0" + "\t" + "0")));
  }

  lemma FirstFour(a: string, b: string, c: string, d: string, rest: string)
    requires NoBlanks(a) && NoBlanks(b) && NoBlanks(c) && NoBlanks(d)
    ensures Split(a + " " + (b + " " + (c + " " + (d + " " + rest)))) == [a] + ([b] + ([c] + ([d] + Split(rest))))
  {
    SplitWord(d, rest);
    SplitWord(c, d + " " + rest);
    SplitWord(b, c + " " + (d + " " + rest));
    SplitWord(a, b + " " + (c + " " + (d + " " + rest)));
  }

  lemma {:induction false} DigitsThenReturn(s: string, acc: nat)
    requires forall i :: 0 <= i < |s| ==> IsDigit(s[i])
    ensures LeadingDigits(s + "\r", acc) == LeadingDigits(s, acc)
    decreases |s|
  {
    if s != "" {
      assert (s + "\r")[1..] == s[1..] + "\r";
      DigitsThenReturn(s[1..], 10 * acc + ValueOf(s[0]));
    }
  }

  lemma LengthRead(n: nat)
    ensures Atoi(IntToString(n) + "\r") == n
  {
    var s := IntToString(n) + "\r";
    DigitsReadBack(n);
    DigitsThenReturn(Digits(n), 0);
    assert s[0] == Digits(n)[0] && IsDigit(s[0]);
  }

  lemma FiveWords(a: string, b: string, c: string, d: string, e: string)
    requires NoBlanks(a) && NoBlanks(b) && NoBlanks(c) && NoBlanks(d) && NoBlanks(e)
    ensures Split(a + " " + (b + " " + (c + " " + (d + " " + e)))) == [a] + ([b] + ([c] + ([d] + [e])))
  {
    SplitLastWord(e);
    SplitWord(d, e);
    SplitWord(c, d + " " + e);
    SplitWord(b, c + " " + (d + " " + e));
    SplitWord(a, b + " " + (c + " " + (d + " " + e)));
  }

  lemma FifthOf(words: seq<string>, a: string, b: string, c: string, d: string, e: string)
    requires words == [a] + ([b] + ([c] + ([d] + [e])))
    ensures |words| == 5 && words[4] == e
  {
  }

  /** What follows the delimiter, before the last line end. */
  function TextSent(text: string): string {
    if text == " " then "" else text
  }

  lemma LengthWordRead(text: string)
    ensures Atoi(LengthWord(text) + "\r") == |TextSent(text)|
    ensures NoBlanks(LengthWord(text) + "\r")
  {
    IntIsWord(|text|);
    LengthRead(|text|);
    LengthRead(0);
    assert Digits(0) == "0";
  }

  lemma CodeIsWord(r: Reply)
    ensures NoBlanks(Verb(r)) && NoBlanks(CodeOf(r))
  {
    IntIsWord(if r.Error? then r.code else 0);
  }

  /** The header announces the length of the text, its carriage return notwithstanding. */
  lemma LengthAnnounced(r: Reply, tsn: string, number: string, text: string)
    requires IsWord(tsn) && IsWord(number)
    ensures GetBytesResponse(AnswerLine(Verb(r), tsn, number, CodeOf(r), text) + "\r") == |TextSent(text)|
  {
    var len := LengthWord(text);
    LengthWordRead(text);
    CodeIsWord(r);
    Regroup(Verb(r), tsn, number, CodeOf(r), len, "\r");
    FiveWords(Verb(r), tsn, number, CodeOf(r), len + "\r");
    var words := Split(AnswerLine(Verb(r), tsn, number, CodeOf(r), text) + "\r");
    FifthOf(words, Verb(r), tsn, number, CodeOf(r), len + "\r");
  }

  // ----- every cut ---------------------------------------------------------------------------

  lemma DelimiterAfterLine(line: string, z: string)
    requires Clean(line)
    ensures DelimiterEndsAt(line + DELIMITER + z, |line| + 4)
  {
    var all := line + DELIMITER + z;
    forall k: nat | k <= |all| ensures HasDelimiter(Prefix(all, k)) <==> k >= |line| + 4 {
      if k >= |line| + 4 {
        assert DelimiterAt(Prefix(all, k), |line|);
      } else {
        assert forall i :: 0 <= i < |line| ==> all[i] == line[i];
      }
    }
  }

  lemma LineEndAfterText(text: string, z: string)
    requires OneLine(text)
    ensures LineEndsAt(text + "\r\n" + z, |text| + 2)
  {
    var all := text + "\r\n" + z;
    forall k: nat | k <= |all| ensures HasLineEnd(Prefix(all, k)) <==> k >= |text| + 2 {
      if k >= |text| + 2 {
        assert LineEndAt(Prefix(all, k), |text|);
      } else {
        assert forall i :: 0 <= i < |text| ==> all[i] == text[i];
      }
    }
  }

  /** The answer from a buffer that holds its header and u of what follows. */
  lemma AnswerInParts(line: string, u: string, net: seq<string>)
    requires Clean(line)
    ensures AnswerIn(line + DELIMITER + u, net) ==
      var (b2, net2, ok) := if GetBytesResponse(line + "\r") > 0 then ReadUntilLine(u, net) else (u, net, true);
      if !ok then Lost else Received((line + "\r") + "\t\t\t" + GetLine(Stream(b2, false), "\r").0, net2)
  {
    assert line + DELIMITER + u == (line + "\r") + "\n" + ("\r" + "\n" + u);
    GetLineAt(line + "\r", "\r" + "\n" + u, "");
    GetLineAt("\r", u, "");
  }

  /** The buffer after the header has been read: all of it, and the piece it ends in. */
  lemma HeaderBuffered(line: string, z: string, pieces: seq<string>) returns (u: string)
    requires Clean(line) && Joined(pieces) == line + DELIMITER + z
    ensures var d := |line| + 4;
      && ReadAnswer(pieces) == AnswerIn(line + DELIMITER + u, After(pieces, d))
      && u + Joined(After(pieces, d)) == z
      && |u| == PieceEnd(pieces, d) - d
  {
    var d, all := |line| + 4, Joined(pieces);
    DelimiterAfterLine(line, z);
    assert "" + all == all;
    ReadUntilTakes("", pieces, d);
    var r := ReadUntil(Reader("", "", pieces)).0;
    assert r.b == Prefix(all, |r.b|);
    CutBehind(r.b, Joined(r.net), line + DELIMITER, z);
    u := r.b[d..];
  }

  /** How many bytes of an answer must be read: all but a last line end that no text precedes. */
  function Needed(verb: string, tsn: string, number: string, code: string, text: string): nat {
    var line := AnswerLine(verb, tsn, number, code, text);
    |line| + 4 + if TextSent(text) == "" then 0 else |TextSent(text)| + 2
  }

  lemma AnswerSplit(line: string, sent: string, rest: string)
    ensures line + DELIMITER + sent + "\r\n" + rest == line + DELIMITER + (sent + "\r\n" + rest)
  {
  }

  ghost predicate ReadsAs(answer: Received, line: string, net: seq<string>, last: string) {
    answer == Received((line + "\r") + "\t\t\t" + last, net)
  }

  /** The rest of the reading when the header announces no text. */
  lemma NoTextRead(line: string, u: string, net: seq<string>) returns (last: string)
    requires Clean(line) && GetBytesResponse(line + "\r") == 0
    ensures ReadsAs(AnswerIn(line + DELIMITER + u, net), line, net, last)
  {
    AnswerInParts(line, u, net);
    last := GetLine(Stream(u, false), "\r").0;
  }

  /** The rest of the reading when it does, with m bytes still to come. */
  lemma TextRead(line: string, sent: string, rest: string, m: int, u: string, net: seq<string>)
    requires Clean(line) && GetBytesResponse(line + "\r") > 0 && OneLine(sent)
    requires u + Joined(net) == sent + "\r\n" + rest && m + |u| == |sent| + 2
    ensures m <= |Joined(net)|
    ensures ReadsAs(AnswerIn(line + DELIMITER + u, net), line, After(net, m), sent + "\r")
  {
    AnswerInParts(line, u, net);
    LineEndAfterText(sent, rest);
    ReadUntilLineTakes(u, net, m + |u|);
    var (b', net', _) := ReadUntilLine(u, net);
    CutBehind(b', Joined(net'), sent + "\r\n", rest);
    TextLine(b', sent, b'[|sent + "\r\n"|..]);
  }

  lemma TextLine(b: string, sent: string, more: string)
    requires OneLine(sent) && b == sent + "\r\n" + more
    ensures GetLine(Stream(b, false), "\r").0 == sent + "\r"
  {
    assert b == (sent + "\r") + "\n" + more;
    GetLineAt(sent + "\r", more, "\r");
  }

  lemma WholeReadWithText(line: string, sent: string, rest: string, e: nat, pieces: seq<string>)
    requires Clean(line) && GetBytesResponse(line + "\r") > 0 && OneLine(sent) && e == |line| + 4 + |sent| + 2
    requires Joined(pieces) == line + DELIMITER + (sent + "\r\n" + rest)
    ensures e <= |Joined(pieces)| && ReadsAs(ReadAnswer(pieces), line, After(pieces, e), sent + "\r")
  {
    var d, z := |line| + 4, sent + "\r\n" + rest;
    var u := HeaderBuffered(line, z, pieces);
    var m, net, left := BeyondHeader(d, e, |z|, pieces);
    assert |u| + m == e - d;
    TextRead(line, sent, rest, m, u, net);
  }

  /** What is left when d bytes have been read, and then as many as make e. */
  lemma BeyondHeader(d: nat, e: nat, more: nat, pieces: seq<string>)
    returns (m: int, net: seq<string>, left: seq<string>)
    requires |Joined(pieces)| == d + more && d <= e <= d + more
    ensures m == e - PieceEnd(pieces, d) && net == After(pieces, d) && left == After(pieces, e)
    ensures m <= |Joined(net)| && After(net, m) == left
  {
    AfterAfter(pieces, d, e);
    m, net, left := e - PieceEnd(pieces, d), After(pieces, d), After(pieces, e);
  }

  lemma WholeReadWithoutText(line: string, z: string, pieces: seq<string>) returns (last: string)
    requires Clean(line) && GetBytesResponse(line + "\r") == 0
    requires Joined(pieces) == line + DELIMITER + z
    ensures |line| + 4 <= |Joined(pieces)|
    ensures ReadsAs(ReadAnswer(pieces), line, After(pieces, |line| + 4), last)
  {
    var u := HeaderBuffered(line, z, pieces);
    last := NoTextRead(line, u, After(pieces, |line| + 4));
  }

  /** For every cut of the bytes: an answer is always received and understood as what it
    * means. The pieces up to the one that completes what must be read are gone with it, so
    * the next answer starts where this one ends if and only if that piece ends there. */
  lemma AnswerUnderstoodForEveryCut(
    r: Reply, tsn: string, number: string, text: string, rest: string, pieces: seq<string>)
    requires IsWord(tsn) && IsWord(number) && OneLine(text)
    requires Joined(pieces) == GenAnswer(Verb(r), tsn, number, CodeOf(r), text) + rest
    ensures var e := Needed(Verb(r), tsn, number, CodeOf(r), text);
      var answer := ReadAnswer(pieces);
      && e <= |Joined(pieces)|
      && answer.Received? && Judge(answer.text) == Meaning(r) && Says(answer.text, r, tsn, number)
      && (TextSent(text) != "" ==> EndsWithText(answer.text, text))
      && answer.net == After(pieces, e)
      && (Joined(answer.net) == rest
          <==> PieceEnd(pieces, e) == |GenAnswer(Verb(r), tsn, number, CodeOf(r), text)|)
  {
    AnswerRead(r, tsn, number, text, rest, pieces);
    NextStart(Joined(pieces), GenAnswer(Verb(r), tsn, number, CodeOf(r), text), rest,
      PieceEnd(pieces, Needed(Verb(r), tsn, number, CodeOf(r), text)));
  }

  lemma AnswerRead(r: Reply, tsn: string, number: string, text: string, rest: string, pieces: seq<string>)
    requires IsWord(tsn) && IsWord(number) && OneLine(text)
    requires Joined(pieces) == GenAnswer(Verb(r), tsn, number, CodeOf(r), text) + rest
    ensures var e := Needed(Verb(r), tsn, number, CodeOf(r), text);
      var answer := ReadAnswer(pieces);
      && e <= |Joined(pieces)| && answer.Received? && answer.net == After(pieces, e)
      && Judge(answer.text) == Meaning(r) && Says(answer.text, r, tsn, number)
      && (TextSent(text) != "" ==> EndsWithText(answer.text, text))
  {
    var line, sent := AnswerLine(Verb(r), tsn, number, CodeOf(r), text), TextSent(text);
    LineIsClean(r, tsn, number, text);
    LengthAnnounced(r, tsn, number, text);
    AnswerSplit(line, sent, rest);
    var e := Needed(Verb(r), tsn, number, CodeOf(r), text);
    var last := LineRead(line, sent, e, sent + "\r\n" + rest, rest, pieces);
    LineJudged(r, tsn, number, text, last);
    LineSays(r, tsn, number, text, last);
  }

  lemma LineRead(line: string, sent: string, e: nat, z: string, rest: string, pieces: seq<string>)
    returns (last: string)
    requires Clean(line) && OneLine(sent) && GetBytesResponse(line + "\r") == |sent|
    requires z == sent + "\r\n" + rest && Joined(pieces) == line + DELIMITER + z
    requires e == |line| + 4 + if sent == "" then 0 else |sent| + 2
    ensures e <= |Joined(pieces)| && ReadsAs(ReadAnswer(pieces), line, After(pieces, e), last)
    ensures sent != "" ==> last == sent + "\r"
  {
    if sent == "" {
      last := WholeReadWithoutText(line, z, pieces);
    } else {
      WholeReadWithText(line, sent, rest, e, pieces);
      last := sent + "\r";
    }
  }

  lemma NextStart(all: string, first: string, rest: string, k: nat)
    requires all == first + rest && k <= |all|
    ensures all[k..] == rest <==> k == |first|
  {
  }

  // ----- what a misplaced end does to the next answer ------------------------------------------

  /** A stream that starts with the rest of a line end is answered by a refusal. */
  lemma StrayLineEndIsARefusal(lead: string, next: string, net: seq<string>)
    requires lead == "\r" || lead == ""
    requires Joined(net) == lead + "\n" + next && HasDelimiter(lead + "\n" + next)
    ensures ReadAnswer(net).Received? && Judge(ReadAnswer(net).text) == Other
  {
    var (r, found) := ReadUntil(Reader("", "", net));
    var all := lead + "\n" + next;
    assert "" + Joined(net) == all == r.b + Joined(r.net);
    assert r.net == [] ==> r.b == all;
    assert |r.b| >= 4;
    CutBehind(r.b, Joined(r.net), lead + "\n", next);
    ShortLineIsARefusal(lead, r.b[|lead + "\n"|..], r.net);
  }

  lemma ShortLineIsARefusal(line: string, u: string, net: seq<string>)
    requires line == "\r" || line == ""
    ensures var answer := AnswerIn(line + "\n" + u, net);
      answer.Received? && Judge(answer.text) == Other
  {
    GetLineAt(line, u, "");
    SplitLastWord(line);
    var last := GetLine(GetLine(Stream(u, false), "").2, GetLine(Stream(u, false), "").0).0;
    assert AnswerIn(line + "\n" + u, net).text == line + "\t\t\t" + last;
    NoVerb(line, last);
  }

  lemma NoVerb(line: string, last: string)
    requires line == "\r" || line == ""
    ensures Judge(line + "\t\t\t" + last) == Other
  {
    FirstSpaceWord(line + "\t\t\t" + last);
  }

  /** The piece that completes an answer without text ends before its last line end does. */
  predicate EndsEarly(pieces: seq<string>, verb: string, tsn: string, number: string, code: string)
    requires Needed(verb, tsn, number, code, " ") <= |Joined(pieces)|
  {
    PieceEnd(pieces, Needed(verb, tsn, number, code, " ")) < |GenAnswer(verb, tsn, number, code, " ")|
  }

  /** A late line end: if the pieces that complete the delimiter of an answer without text
    * end before its last line end does, the answer is understood, and what remains of the
    * line end makes a refusal of the next one, whatever it says. */
  lemma LateLineEndHidesTheNextAnswer(r: Reply, tsn: string, number: string, next: string, pieces: seq<string>)
    requires IsWord(tsn) && IsWord(number) && HasDelimiter(next)
    requires Joined(pieces) == GenAnswer(Verb(r), tsn, number, CodeOf(r), " ") + next
    ensures Needed(Verb(r), tsn, number, CodeOf(r), " ") <= |Joined(pieces)|
    ensures EndsEarly(pieces, Verb(r), tsn, number, CodeOf(r)) ==>
      var first := ReadAnswer(pieces);
      && first.Received? && Judge(first.text) == Meaning(r)
      && ReadAnswer(first.net).Received? && Judge(ReadAnswer(first.net).text) == Other
  {
    AnswerUnderstoodForEveryCut(r, tsn, number, " ", next, pieces);
    var answer := GenAnswer(Verb(r), tsn, number, CodeOf(r), " ");
    var k := PieceEnd(pieces, Needed(Verb(r), tsn, number, CodeOf(r), " "));
    if k < |answer| {
      var lead := if k == |answer| - 2 then "\r" else "";
      LeftOfLineEnd(AnswerLine(Verb(r), tsn, number, CodeOf(r), " ") + DELIMITER, next, k, lead);
      DelimiterBehind(lead + "\n", next);
      StrayLineEndIsARefusal(lead, next, ReadAnswer(pieces).net);
    }
  }

  /** It takes no more than a piece that ends with the delimiter. */
  lemma OneCutEndsEarly(verb: string, tsn: string, number: string, code: string, next: string)
    ensures var line := AnswerLine(verb, tsn, number, code, " ");
      var pieces := [line + DELIMITER, "\r\n" + next];
      && Joined(pieces) == GenAnswer(verb, tsn, number, code, " ") + next
      && Needed(verb, tsn, number, code, " ") <= |Joined(pieces)|
      && EndsEarly(pieces, verb, tsn, number, code)
  {
    var line := AnswerLine(verb, tsn, number, code, " ");
    var first := line + DELIMITER;
    JoinedTwo(first, "\r\n" + next);
    AnswerCut(first, next);
    assert PieceEnd([first, "\r\n" + next], |first|) == |first|;
  }

  lemma JoinedTwo(a: string, b: string)
    ensures Joined([a, b]) == a + b
  {
    assert [a, b][1..] == [b] && [b][1..] == [];
    assert Joined([b]) == b + Joined([]);
  }

  lemma AnswerCut(first: string, next: string)
    ensures first + ("\r\n" + next) == first + "" + "\r\n" + next
  {
  }

  lemma LeftOfLineEnd(a: string, next: string, k: nat, lead: string)
    requires |a| <= k < |a| + 2 && lead == if k == |a| then "\r" else ""
    ensures (a + "" + "\r\n" + next)[k..] == lead + "\n" + next
  {
  }

  lemma DelimiterBehind(a: string, next: string)
    requires HasDelimiter(next)
    ensures HasDelimiter(a + next)
  {
    var i :| 0 <= i <= |next| - 4 && DelimiterAt(next, i);
    assert DelimiterAt(a + next, |a| + i);
  }

  /** A backup answers an incomplete commit once for every hole. Read off piece by piece,
    * the second of these answers is taken for the answer to whatever is sent next. */
  lemma SecondHoleAnswersTheNextMessage(tsn: string, k1: string, k2: string, net: seq<string>)
    requires IsWord(tsn) && IsWord(k1) && IsWord(k2)
    ensures var again := k => GenAnswer(Verb(AckResend), tsn, k, CodeOf(AckResend), " ");
      var first := ReadAnswer([again(k1), again(k2)] + net);
      && first.Received? && Judge(first.text) == Incomplete
      && ReadAnswer(first.net).Received? && Judge(ReadAnswer(first.net).text) == Incomplete
      && ReadAnswer(first.net).net == net
  {
    var a1 := GenAnswer(Verb(AckResend), tsn, k1, CodeOf(AckResend), " ");
    var a2 := GenAnswer(Verb(AckResend), tsn, k2, CodeOf(AckResend), " ");
    OnePieceAnswer(AckResend, tsn, k1, " ", [a2] + net);
    OnePieceAnswer(AckResend, tsn, k2, " ", net);
    assert [a1, a2] + net == [a1] + ([a2] + net);
  }

  lemma OnePieceAnswer(r: Reply, tsn: string, number: string, text: string, net: seq<string>)
    requires IsWord(tsn) && IsWord(number) && OneLine(text)
    ensures var answer := ReadAnswer([GenAnswer(Verb(r), tsn, number, CodeOf(r), text)] + net);
      answer.Received? && answer.net == net && Judge(answer.text) == Meaning(r)
  {
    var a := GenAnswer(Verb(r), tsn, number, CodeOf(r), text);
    var pieces := [a] + net;
    assert pieces[0] == a && pieces[1..] == net;
    AnswerUnderstoodForEveryCut(r, tsn, number, text, Joined(net), pieces);
    assert After(net, Needed(Verb(r), tsn, number, CodeOf(r), text) - |a|) == net;
  }
}
