/** How answers share the pieces in which their bytes arrive: one read takes the first answer
  * and drops whatever else is in its piece. */
module Pieces {
  import opened TransactionLog
  import opened Text
  import opened Wire
  import opened Framing
  import opened Delivery
  import opened Answers
  import opened Turns
  import Replication

  /** What the manager concludes from an answer is what it acts on: a commit made, a remedy to
    * queue, or a refusal. */
  lemma MeaningIsActedOn(r: Reply)
    ensures Meaning(r) == Conclusion.Committed <==> r == Ack
    ensures Meaning(r) in {Conclusion.Incomplete, Conclusion.Unknown} <==> Replication.Lagging(r)
    ensures Meaning(r) == Conclusion.Other <==> r.Error? && r.code != 201
  {
  }

  /** An answer as it is printed: with two words of the header it answers and its text. */
  datatype Print = Print(r: Reply, tsn: string, number: string, text: string)

  ghost predicate Proper(a: Print) {
    IsWord(a.tsn) && IsWord(a.number) && OneLine(a.text)
  }

  function Bytes(a: Print): (s: string) {
    GenAnswer(Verb(a.r), a.tsn, a.number, CodeOf(a.r), a.text)
  }

  function AllBytes(ps: seq<Print>): string {
    if ps == [] then "" else Bytes(ps[0]) + AllBytes(ps[1..])
  }

  function Replies(ps: seq<Print>): (rs: seq<Reply>)
    ensures |rs| == |ps| && forall i :: 0 <= i < |ps| ==> rs[i] == ps[i].r
  {
    if ps == [] then [] else [ps[0].r] + Replies(ps[1..])
  }

  lemma {:induction false} BytesInTwo(a: seq<Print>, c: seq<Print>)
    ensures AllBytes(a + c) == AllBytes(a) + AllBytes(c)
    decreases |a|
  {
    if a == [] {
      assert a + c == c;
    } else {
      assert (a + c)[1..] == a[1..] + c;
      BytesInTwo(a[1..], c);
    }
  }

  /** A read takes exactly the first piece when that holds k whole answers, and is judged by
    * the first of them. */
  lemma ReadTakesOnePiece(ps: seq<Print>, k: nat, pieces: seq<string>)
    requires 1 <= k <= |ps| && Proper(ps[0])
    requires pieces != [] && pieces[0] == AllBytes(ps[..k]) && Joined(pieces) == AllBytes(ps)
    ensures var answer := ReadAnswer(pieces);
      && answer.Received? && Judge(answer.text) == Meaning(ps[0].r)
      && answer.net == pieces[1..]
    ensures Joined(pieces[1..]) == AllBytes(ps[k..])
  {
    var a := ps[0];
    CutAt(ps, k);
    AnswerUnderstoodForEveryCut(a.r, a.tsn, a.number, a.text, AllBytes(ps[1..]), pieces);
    FirstPieceSuffices(a, ps[1..k], pieces);
    assert Joined(pieces) == pieces[0] + Joined(pieces[1..]);
  }

  lemma CutAt(ps: seq<Print>, k: nat)
    requires 1 <= k <= |ps|
    ensures AllBytes(ps) == AllBytes(ps[..k]) + AllBytes(ps[k..]) && ps[..k] == [ps[0]] + ps[1..k]
  {
    var front, rest := Halves(ps, k);
    BytesInTwo(front, rest);
  }

  lemma Halves(ps: seq<Print>, k: nat) returns (front: seq<Print>, rest: seq<Print>)
    requires 1 <= k <= |ps|
    ensures front == ps[..k] && rest == ps[k..] && front + rest == ps
    ensures front == [ps[0]] + ps[1..k]
  {
    front, rest := ps[..k], ps[k..];
  }

  lemma FirstPieceSuffices(a: Print, more: seq<Print>, pieces: seq<string>)
    requires pieces != [] && pieces[0] == AllBytes([a] + more)
    ensures var e := Needed(Verb(a.r), a.tsn, a.number, CodeOf(a.r), a.text);
      && 0 < e <= |Joined(pieces)| && After(pieces, e) == pieces[1..]
  {
    assert ([a] + more)[1..] == more;
    var e := Needed(Verb(a.r), a.tsn, a.number, CodeOf(a.r), a.text);
    assert 0 < e <= |Bytes(a)| <= |pieces[0]|;
  }

  // ----- the bytes of a whole conversation ---------------------------------------------------

  /** A message with the answers printed to it, and the pieces that the connection yields from
    * the moment its answer is read. */
  datatype Heard = Heard(e: Exchange, prints: seq<Print>, pieces: seq<string>)

  function Exchanges(hs: seq<Heard>): seq<Exchange> {
    if hs == [] then [] else [hs[0].e] + Exchanges(hs[1..])
  }

  /** The pieces carry, in order, what was left to read and what is answered then, and the
    * first piece holds one answer more than are dropped. */
  ghost predicate Carried(hs: seq<Heard>, b: Node, unread: seq<Print>) {
    hs == [] ||
      var h, all := hs[0], unread + hs[0].prints;
      && Replies(h.prints) == Turns.Answers(h.e, b)
      && (forall a :: a in all ==> Proper(a))
      && 1 + h.e.dropped <= |all|
      && h.pieces != [] && h.pieces[0] == AllBytes(all[..1 + h.e.dropped]) && Joined(h.pieces) == AllBytes(all)
      && Carried(hs[1..], Deliver(h.e.m, b), all[1 + h.e.dropped..])
  }

  /** What the manager concludes from the bytes is what the reply means. */
  ghost predicate Judged(h: Heard, r: Reply) {
    var answer := ReadAnswer(h.pieces);
    answer.Received? && Judge(answer.text) == Meaning(r)
  }

  /** What a read leaves, with the bytes answered next, is what the connection yields then. */
  ghost predicate Continues(h: Heard, next: Heard) {
    var answer := ReadAnswer(h.pieces);
    answer.Received? && Joined(next.pieces) == Joined(answer.net) + AllBytes(next.prints)
  }

  ghost predicate HeardAs(hs: seq<Heard>, read: seq<Reply>) {
    && |read| == |hs|
    && (forall i :: 0 <= i < |hs| ==> Judged(hs[i], read[i]))
    && (forall i :: 0 < i < |hs| ==> Continues(hs[i - 1], hs[i]))
  }

  lemma {:induction false} RepliesInTwo(a: seq<Print>, c: seq<Print>)
    ensures Replies(a + c) == Replies(a) + Replies(c)
  {
  }

  lemma KeptReplies(h: Heard, b: Node, unread: seq<Print>)
    requires Replies(h.prints) == Turns.Answers(h.e, b) && 1 + h.e.dropped <= |unread + h.prints|
    ensures var all := unread + h.prints;
      && Replies(unread) + Turns.Answers(h.e, b) == Replies(all)
      && LeftOver(h.e, b, Replies(unread)) == Replies(all[1 + h.e.dropped..])
  {
    RepliesInTwo(unread, h.prints);
  }

  lemma OneMoreHeard(h: Heard, hs: seq<Heard>, r: Reply, read: seq<Reply>)
    requires Judged(h, r) && HeardAs(hs, read) && (hs != [] ==> Continues(h, hs[0]))
    ensures HeardAs([h] + hs, [r] + read)
  {
    forall i | 0 < i < |[h] + hs| ensures Continues(([h] + hs)[i - 1], ([h] + hs)[i]) {
      if i > 1 { assert Continues(hs[i - 2], hs[i - 1]); }
    }
  }

  /** Reading the bytes is `Talk`: however the answers share pieces, each read is judged as
    * the reply that `Talk` reads, and leaves the bytes of what `Talk` leaves. */
  lemma {:induction false} BytesAreTalk(hs: seq<Heard>, b: Node, unread: seq<Print>)
    requires Carried(hs, b, unread) && Asking(Exchanges(hs), b)
    ensures HeardAs(hs, Talk(Exchanges(hs), b, Replies(unread)).0)
    decreases |hs|
  {
    if hs != [] {
      var r, rest, b1 := FirstOf(hs, b, unread);
      BytesAreTalk(hs[1..], b1, rest);
      OneMoreHeard(hs[0], hs[1..], r, Talk(Exchanges(hs[1..]), b1, Replies(rest)).0);
      Whole(hs);
    }
  }

  /** The reply r to the first message, and what is left to read then. */
  lemma FirstOf(hs: seq<Heard>, b: Node, unread: seq<Print>) returns (r: Reply, rest: seq<Print>, b1: Node)
    requires Carried(hs, b, unread) && Asking(Exchanges(hs), b) && hs != []
    ensures Judged(hs[0], r) && (hs[1..] != [] ==> Continues(hs[0], hs[1..][0]))
    ensures Carried(hs[1..], b1, rest) && Asking(Exchanges(hs[1..]), b1)
    ensures Talk(Exchanges(hs), b, Replies(unread)).0 == [r] + Talk(Exchanges(hs[1..]), b1, Replies(rest)).0
  {
    r, rest, b1 := FirstRead(hs, b, unread);
    FirstHeard(hs, b, unread);
  }

  lemma FirstRead(hs: seq<Heard>, b: Node, unread: seq<Print>) returns (r: Reply, rest: seq<Print>, b1: Node)
    requires Carried(hs, b, unread) && Asking(Exchanges(hs), b) && hs != []
    ensures unread + hs[0].prints != [] && r == (unread + hs[0].prints)[0].r
    ensures Carried(hs[1..], b1, rest) && Asking(Exchanges(hs[1..]), b1)
    ensures Talk(Exchanges(hs), b, Replies(unread)).0 == [r] + Talk(Exchanges(hs[1..]), b1, Replies(rest)).0
  {
    var all := unread + hs[0].prints;
    r, rest, b1 := all[0].r, all[1 + hs[0].e.dropped..], Deliver(hs[0].e.m, b);
    KeptReplies(hs[0], b, unread);
    assert Exchanges(hs)[0] == hs[0].e && Exchanges(hs)[1..] == Exchanges(hs[1..]);
  }

  lemma Whole(hs: seq<Heard>)
    requires hs != []
    ensures [hs[0]] + hs[1..] == hs
  {
  }

  lemma FirstHeard(hs: seq<Heard>, b: Node, unread: seq<Print>)
    requires Carried(hs, b, unread) && hs != []
    ensures unread + hs[0].prints != [] && Judged(hs[0], (unread + hs[0].prints)[0].r)
    ensures |hs| > 1 ==> Continues(hs[0], hs[1])
  {
    var all, k := unread + hs[0].prints, 1 + hs[0].e.dropped;
    ReadTakesOnePiece(all, k, hs[0].pieces);
    if |hs| > 1 {
      assert Carried(hs[1..], Deliver(hs[0].e.m, b), all[k..]);
      assert hs[1..][0] == hs[1];
      BytesInTwo(all[k..], hs[1].prints);
    }
  }
}
