/** Packets on a byte stream: what `genEcho` prints and what a session reads, however
  * the bytes are cut into pieces on the way. */
module Wire {
  import opened Text

  const DELIMITER: string := "\r\n\r\n"

  // ----- headers -------------------------------------------------------------------

  /** The number of a method; 0 for anything unknown. */
  function Method(header: string): nat {
    var m := Split(header)[0];
    if m == "ABORT" then 1
    else if m == "NEW_TXN" then 2
    else if m == "COMMIT" then 3
    else if m == "READ" then 4
    else if m == "WRITE" then 5
    else if m == "MAKE_TXN" then 6
    else if m == "PING" then 7
    else if m == "AUTH" then 8
    else if m == "KILL" then 9
    else 0
  }

  predicate ValidHeader(header: string) {
    |Split(header)| == 4
  }

  predicate NeedsData(header: string) {
    Method(header) in {2, 4, 5, 6, 7}
  }

  function GetBytes(header: string): int {
    var words := Split(header);
    if |words| < 4 then -100 else Atoi(words[3])
  }

  function GetSeq(header: string): int {
    var words := Split(header);
    if |words| < 3 then -100 else ToInt(words[2])
  }

  function GetTsn(header: string): int {
    var words := Split(header);
    if |words| < 2 then -100 else ToInt(words[1])
  }

  predicate DataAttached(header: string) {
    NeedsData(header) && GetBytes(header) > 0
  }

  // ----- the printer ---------------------------------------------------------------

  /** The header line that goes out: the first three words and the payload's length. */
  function EchoHeader(header: string, data: string): string
    requires |Split(header)| >= 3
  {
    var words := Split(header);
    words[0] + " " + (words[1] + " " + (words[2] + " " + (if |data| < 2 then "0" else IntToString(|data| + 1))))
  }

  function GenEcho(header: string, data: string): string
    requires |Split(header)| >= 3
  {
    EchoHeader(header, data) + DELIMITER + (if |data| < 2 then "\r\n" else data + "\n")
  }

  // ----- the reader -----------------------------------------------------------------

  /** The two stream buffers of a session and the pieces still to arrive. */
  datatype Reader = Reader(b: string, c: string, net: seq<string>)

  /** An input stream over a buffer; `eof` is set once a read has met the end. */
  datatype Stream = Stream(buf: string, eof: bool)

  /** What one `handle_read` comes to. After `Dead` the session reads no more. */
  datatype Result =
    | Packet(header: string, data: string)
    | EndOfStream
    | BadHeader
    | MissingData
    | Dead

  function IndexOf(s: string, c: char): (i: nat)
    ensures i <= |s| && (i < |s| ==> s[i] == c)
    ensures forall j :: 0 <= j < i ==> s[j] != c
  {
    if s == "" || s[0] == c then 0 else 1 + IndexOf(s[1..], c)
  }

  /** `getline`: the line, whether one was read, and the stream after it. On a stream
    * that has met its end the target keeps its old value. */
  function GetLine(s: Stream, previous: string): (r: (string, bool, Stream))
    ensures |r.2.buf| <= |s.buf| && (!s.eof && s.buf != "" ==> |r.2.buf| < |s.buf|)
  {
    if s.eof then (previous, false, s)
    else
      var i := IndexOf(s.buf, '\n');
      if i < |s.buf| then (s.buf[..i], true, Stream(s.buf[i + 1..], false))
      else (s.buf, s.buf != "", Stream("", true))
  }

  function NoReturns(s: string): (r: string)
    ensures (forall i :: 0 <= i < |s| ==> s[i] != '\r') ==> r == s
  {
    if s == "" then "" else (if s[0] == '\r' then "" else [s[0]]) + NoReturns(s[1..])
  }

  /** Skip lines shorter than a header can be; false at the end of the stream. */
  function SkipToHeader(header: string, s: Stream): (r: (string, bool, Stream))
    ensures |r.2.buf| <= |s.buf|
    decreases |s.buf| + if s.eof then 0 else 1
  {
    if |header| >= 8 then (header, true, s)
    else
      var (line, ok, s1) := GetLine(s, header);
      if !ok then (header, false, s1) else SkipToHeader(NoReturns(line), s1)
  }

  function Joined(net: seq<string>): string {
    if net == [] then "" else net[0] + Joined(net[1..])
  }

  /** The pieces left when the first n bytes have been taken. */
  function Drop(net: seq<string>, n: nat): (rest: seq<string>)
    requires n <= |Joined(net)|
    ensures Joined(rest) == Joined(net)[n..]
  {
    if n == 0 then net
    else if n < |net[0]| then [net[0][n..]] + net[1..]
    else Drop(net[1..], n - |net[0]|)
  }

  predicate DelimiterAt(s: string, i: int) {
    0 <= i <= |s| - 4 && s[i] == '\r' && s[i + 1] == '\n' && s[i + 2] == '\r' && s[i + 3] == '\n'
  }

  predicate HasDelimiter(s: string) {
    exists i :: 0 <= i <= |s| - 4 && DelimiterAt(s, i)
  }

  /** `async_read_until`: take pieces until the delimiter is buffered. */
  function ReadUntil(r: Reader): (r': (Reader, bool))
    ensures r'.0.c == r.c && r'.0.b + Joined(r'.0.net) == r.b + Joined(r.net)
    ensures r'.1 <==> HasDelimiter(r'.0.b)
    ensures !r'.1 ==> r'.0.net == []
    decreases |r.net|
  {
    if HasDelimiter(r.b) then (r, true)
    else if r.net == [] then (r, false)
    else ReadUntil(Reader(r.b + r.net[0], r.c, r.net[1..]))
  }

  /** The header: the first line that is long enough to be one. */
  function ReadHeader(b: string): (r: (string, bool, Stream))
    ensures b != "" ==> |r.2.buf| < |b|
  {
    var (first, _, s0) := GetLine(Stream(b, false), "");
    SkipToHeader(NoReturns(first), s0)
  }

  /** Drop the blank line and take what is buffered of the next one. */
  function ReadFragment(s: Stream): (r: (string, Stream))
    ensures |r.1.buf| <= |s.buf|
  {
    var (blank, _, s1) := GetLine(s, "");
    var (fragment, _, s2) := GetLine(s1, blank);
    (fragment, s2)
  }

  /** Complete the fragment with bytes from the connection, as the header's count says. */
  function ReadPayload(header: string, fragment: string, r: Reader): (r': (Result, Reader))
    ensures |r'.1.b| == |r.b| && |Joined(r'.1.net)| <= |Joined(r.net)|
  {
    var total := GetBytes(header) - |fragment|;
    if total == 1 then (Packet(header, fragment), r)
    else if total < 0 || total > |Joined(r.net)| then (Dead, r.(c := r.c + Joined(r.net), net := []))
    else
      var (rest, _, s) := GetLine(Stream(r.c + Joined(r.net)[..total], false), "");
      (Packet(header, fragment + rest), r.(c := s.buf, net := Drop(r.net, total)))
  }

  /** `handle_read`, once the delimiter is buffered. */
  function HandleRead(r: Reader): (r': (Result, Reader))
    ensures r.b != "" ==> |r'.1.b| + |Joined(r'.1.net)| < |r.b| + |Joined(r.net)|
  {
    var (header, found, s1) := ReadHeader(r.b);
    if !found then (EndOfStream, r.(b := s1.buf))
    else if !ValidHeader(header) then (BadHeader, r.(b := s1.buf))
    else
      var (fragment, s2) := ReadFragment(s1);
      var r1 := r.(b := s2.buf);
      if DataAttached(header) then ReadPayload(header, fragment, r1)
      else if NeedsData(header) then (MissingData, r1)
      else (Packet(header, " "), r1)
  }

  /** Everything a session makes of its connection. */
  function ReadAll(r: Reader): seq<Result>
    decreases |r.b| + |Joined(r.net)|
  {
    var (r1, found) := ReadUntil(r);
    if !found then []
    else
      assert |r1.b| + |Joined(r1.net)| == |r1.b + Joined(r1.net)|;
      var (result, r2) := HandleRead(r1);
      [result] + if result == Dead then [] else ReadAll(r2)
  }
}
