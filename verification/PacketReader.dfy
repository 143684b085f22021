/** The receiving side of a session as the program runs it: two buffers, filled and
  * consumed step by step. */
module PacketReaders {
  import opened Wire
  import opened Framing

  /** `getline` with its three results. */
  method NextLine(s: Stream, previous: string) returns (line: string, ok: bool, rest: Stream)
    ensures (line, ok, rest) == GetLine(s, previous)
  {
    var r := GetLine(s, previous);
    line, ok, rest := r.0, r.1, r.2;
  }

  class PacketReader {
    var b: string            // read up to a delimiter, and possibly beyond
    var c: string            // the rest of a payload
    var net: seq<string>     // what the connection will still yield, piece by piece

    ghost function State(): Reader
      reads this
    {
      Reader(b, c, net)
    }

    constructor (pieces: seq<string>)
      ensures State() == Reader("", "", pieces)
    {
      b, c, net := "", "", pieces;
    }

    method ReadUntilDelimiter() returns (found: bool)
      modifies this
      ensures (State(), found) == ReadUntil(old(State()))
    {
      while !HasDelimiter(b) && net != []
        invariant ReadUntil(State()) == ReadUntil(old(State()))
        decreases |net|
      {
        b, net := b + net[0], net[1..];
      }
      found := HasDelimiter(b);
    }

    /** Take exactly n bytes off the connection, cutting the last piece if need be. */
    method ReadExactly(n: nat)
      requires n <= |Joined(net)|
      modifies this`c, this`net
      ensures c == old(c) + Joined(old(net))[..n] && net == Drop(old(net), n)
    {
      var left: nat := n;
      while left > 0
        invariant left <= n && left <= |Joined(net)|
        invariant c + Joined(net)[..left] == old(c) + Joined(old(net))[..n]
        invariant Drop(net, left) == Drop(old(net), n)
        decreases left, |net|
      {
        var piece := net[0];
        var taken := if left < |piece| then left else |piece|;
        TakePiece(c, net, left, taken);
        c := c + piece[..taken];
        net := if left < |piece| then [piece[taken..]] + net[1..] else net[1..];
        left := left - taken;
      }
    }

    /** The first line long enough to be a header. */
    method ReadHeaderLine() returns (header: string, found: bool, stream: Stream)
      ensures (header, found, stream) == ReadHeader(b)
    {
      found := true;
      var ok;
      header, ok, stream := NextLine(Stream(b, false), "");
      header := NoReturns(header);
      while |header| < 8
        invariant SkipToHeader(header, stream) == ReadHeader(b)
        decreases |stream.buf| + if stream.eof then 0 else 1
      {
        header, ok, stream := SkipLine(header, stream);
        if !ok {
          return header, false, stream;
        }
        header := NoReturns(header);
      }
    }

    /** The rest of a payload of which `fragment` was read along with the header. */
    method ReadRest(header: string, fragment: string) returns (result: Result)
      modifies this
      ensures (result, State()) == ReadPayload(header, fragment, old(State()))
    {
      if GetBytes(header) == |fragment| + 1 {
        return Packet(header, fragment);
      }
      var total := GetBytes(header) - |fragment|;
      if total < 0 || total > |Joined(net)| {
        c, net := c + Joined(net), [];
        return Dead;
      }
      ReadExactly(total);
      var data, ok, stream := NextLine(Stream(c, false), "");
      c := stream.buf;
      return Packet(header, fragment + data);
    }

    /** One packet: the header, the fragment of data that was read along with it, and
      * whatever of the data is still missing. */
    method HandleRead() returns (result: Result)
      modifies this
      ensures (result, State()) == Wire.HandleRead(old(State()))
    {
      var header, found, stream := ReadHeaderLine();
      if !found || !ValidHeader(header) {
        b := stream.buf;
        return if found then BadHeader else EndOfStream;
      }
      var fragment, ok;
      fragment, ok, stream := NextLine(stream, "");
      fragment, ok, stream := NextLine(stream, fragment);
      b := stream.buf;
      if DataAttached(header) {
        result := ReadRest(header, fragment);
      } else {
        result := if NeedsData(header) then MissingData else Packet(header, " ");
      }
    }

    /** Wait for the next header and read its packet; None when the connection ends first. */
    method ReadOne() returns (result: Result, more: bool)
      modifies this
      ensures ReadAll(old(State())) ==
        if !more && result == EndOfStream then [] else [result] + if more then ReadAll(State()) else []
      ensures more ==> |b| + |Joined(net)| < |old(b)| + |Joined(old(net))|
    {
      var found := ReadUntilDelimiter();
      assert |b| + |Joined(net)| == |b + Joined(net)| == |old(b) + Joined(old(net))|;
      if !found {
        return EndOfStream, false;
      }
      result := HandleRead();
      more := result != Dead;
    }
  }

  /** The next line, in a stream that is short of a header. */
  method SkipLine(header: string, stream: Stream) returns (line: string, ok: bool, rest: Stream)
    requires |header| < 8
    ensures ok ==> SkipToHeader(NoReturns(line), rest) == SkipToHeader(header, stream)
    ensures !ok ==> SkipToHeader(header, stream) == (header, false, rest) && line == header
    ensures ok ==> |rest.buf| + (if rest.eof then 0 else 1) < |stream.buf| + if stream.eof then 0 else 1
  {
    line, ok, rest := NextLine(stream, header);
    if !ok {
      line := header;
    }
  }

  lemma TakePiece(c: string, net: seq<string>, left: nat, taken: nat)
    requires 0 < left <= |Joined(net)| && taken == if left < |net[0]| then left else |net[0]|
    ensures var net' := if left < |net[0]| then [net[0][taken..]] + net[1..] else net[1..];
      && Joined(net') == Joined(net)[taken..]
      && c + net[0][..taken] + Joined(net')[..left - taken] == c + Joined(net)[..left]
      && Drop(net', left - taken) == Drop(net, left)
  {
    var net' := if left < |net[0]| then [net[0][taken..]] + net[1..] else net[1..];
    assert Joined(net') == Joined(net)[taken..];
    assert net[0][..taken] + Joined(net')[..left - taken] == Joined(net)[..left];
  }

  lemma Shift(results: seq<Result>, result: Result, rest: seq<Result>)
    ensures results + ([result] + rest) == results + [result] + rest
  {
  }

  /** A session reading to the end of its connection recovers every packet sent from the
    * other end, in order, whatever the pieces. */
  method Receive(pieces: seq<string>, ghost sent: seq<Frame>) returns (results: seq<Result>)
    requires AllProper(sent) && Joined(pieces) == AllText(sent)
    ensures results == AllRead(sent)
  {
    ReadsAllFrames(Reader("", "", pieces), sent, "");
    var reader := new PacketReader(pieces);
    results := [];
    var more := true;
    while more
      invariant ReadAll(Reader("", "", pieces)) == results + if more then ReadAll(reader.State()) else []
      decreases more, |reader.b| + |Joined(reader.net)|
    {
      var result;
      result, more := reader.ReadOne();
      if more || result != EndOfStream {
        Shift(results, result, if more then ReadAll(reader.State()) else []);
        results := results + [result];
      }
    }
  }
}
