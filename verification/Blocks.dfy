/** The text that a commit appends: each write on a line of its own, by ascending number. */
module Blocks {
  import opened TransactionLog
  import opened Wire

  /** data(1) .. data(n), each with its line end. */
  ghost function Lines(w: map<int, string>, n: int): (lines: seq<string>)
    requires Filled(w, n)
    ensures |lines| == if n < 0 then 0 else n
    ensures forall k :: 1 <= k <= n ==> lines[k - 1] == w[k] + "\n"
  {
    seq(if n < 0 then 0 else n, i requires 0 <= i < n => assert i + 1 in w; w[i + 1] + "\n")
  }

  lemma {:induction false} JoinedOneMore(a: seq<string>, s: string)
    ensures Joined(a + [s]) == Joined(a) + s
  {
    if a == [] {
      assert [] + [s] == [s] && [s][1..] == [];
      assert Joined([s]) == s + Joined([]);
    } else {
      assert (a + [s])[1..] == a[1..] + [s];
      JoinedOneMore(a[1..], s);
    }
  }

  lemma {:induction false} BlockIsItsLines(w: map<int, string>, n: int)
    requires Filled(w, n)
    ensures Block(w, n) == Joined(Lines(w, n))
    decreases if n < 0 then 0 else n
  {
    if n > 0 {
      BlockIsItsLines(w, n - 1);
      assert Lines(w, n) == Lines(w, n - 1) + [w[n] + "\n"];
      JoinedOneMore(Lines(w, n - 1), w[n] + "\n");
      LineLast(Block(w, n - 1), w[n]);
    }
  }

  lemma LineLast(before: string, data: string)
    ensures before + (data + "\n") == before + data + "\n"
  {
  }

  /** One file has grown by a text at its end, and no other has changed. */
  ghost predicate Grown(before: map<string, string>, after: map<string, string>, file: string, text: string) {
    forall f :: Content(after, f) == if f == file then Content(before, f) + text else Content(before, f)
  }

  lemma AppendGrows(files: map<string, string>, file: string, w: map<int, string>, n: int)
    requires Filled(w, n)
    ensures Grown(files, Append(files, file, Block(w, n)), file, Joined(Lines(w, n)))
  {
    BlockIsItsLines(w, n);
    forall f
      ensures Content(Append(files, file, Block(w, n)), f)
        == if f == file then Content(files, f) + Joined(Lines(w, n)) else Content(files, f)
    {
      AppendContent(files, file, Block(w, n), f);
    }
  }

  // ----- reading a file back ----------------------------------------------------------------

  /** The complete lines of a text. */
  function ReadLines(s: string): seq<string>
    decreases |s|
  {
    var i := IndexOf(s, '\n');
    if i == |s| then [] else [s[..i]] + ReadLines(s[i + 1..])
  }

  ghost predicate OneLineEach(w: map<int, string>, n: int) {
    forall k :: 1 <= k <= n && k in w ==> '\n' !in w[k]
  }

  lemma FirstLine(line: string, rest: string)
    requires '\n' !in line
    ensures ReadLines(line + "\n" + rest) == [line] + ReadLines(rest)
  {
    var s := line + "\n" + rest;
    assert s[|line|] == '\n';
    assert IndexOf(s, '\n') == |line|;
    assert s[..|line|] == line && s[|line| + 1..] == rest;
  }

  /** A text that ends with a line end is its first line and another such text. */
  lemma LineApart(s: string) returns (line: string, rest: string)
    requires s != "" && s[|s| - 1] == '\n'
    ensures s == line + "\n" + rest && '\n' !in line
    ensures rest == "" || rest[|rest| - 1] == '\n'
  {
    var i := IndexOf(s, '\n');
    line, rest := s[..i], s[i + 1..];
  }

  lemma LineRegrouped(line: string, rest: string, last: string)
    ensures line + "\n" + rest + last == line + "\n" + (rest + last)
  {
  }

  lemma {:induction false} ReadOneMore(s: string, data: string)
    requires '\n' !in data && (s == "" || s[|s| - 1] == '\n')
    ensures ReadLines(s + (data + "\n")) == ReadLines(s) + [data]
    decreases |s|
  {
    if s == "" {
      FirstLine(data, "");
      assert s + (data + "\n") == data + "\n" + "";
    } else {
      var line, rest := LineApart(s);
      ReadOneMore(rest, data);
      FirstLine(line, rest);
      FirstLine(line, rest + (data + "\n"));
      LineRegrouped(line, rest, data + "\n");
    }
  }

  lemma BlockEndsLine(w: map<int, string>, n: int)
    requires Filled(w, n)
    ensures var s := Block(w, n);
      s == "" || s[|s| - 1] == '\n'
  {
  }

  /** The writes 1..n. */
  ghost function Data(w: map<int, string>, n: int): (r: seq<string>)
    requires Filled(w, n)
    ensures |r| == if n < 0 then 0 else n
    ensures forall k :: 1 <= k <= n ==> r[k - 1] == w[k]
  {
    seq(if n < 0 then 0 else n, i requires 0 <= i < n => assert i + 1 in w; w[i + 1])
  }

  lemma DataOneMore(w: map<int, string>, n: nat)
    requires n > 0 && Filled(w, n)
    ensures Data(w, n) == Data(w, n - 1) + [w[n]]
  {
  }

  lemma BlockOneMore(w: map<int, string>, n: nat) returns (before: string, line: string)
    requires n > 0 && Filled(w, n)
    ensures before == Block(w, n - 1) && line == w[n] && Block(w, n) == before + (line + "\n")
    ensures before == "" || before[|before| - 1] == '\n'
  {
    before, line := Block(w, n - 1), w[n];
    LineLast(before, line);
    BlockEndsLine(w, n - 1);
  }

  /** Whoever reads the block by lines gets the writes 1..n in order. */
  lemma {:induction false} BlockReadBack(w: map<int, string>, n: nat)
    requires Filled(w, n) && OneLineEach(w, n)
    ensures ReadLines(Block(w, n)) == Data(w, n)
    decreases n
  {
    if n > 0 {
      BlockReadBack(w, n - 1);
      DataOneMore(w, n);
      var before, line := BlockOneMore(w, n);
      ReadOneMore(before, line);
    }
  }
}
