/** The log of one server as the program keeps it: one mutable map, changed in place
  * by every request, together with the saved copy and the files on disk. */
module Logs {
  import opened TransactionLog
  import LogProperties
  import SortedKeys
  import Wire
  import Blocks

  /** What a server finds under `.server.log` when it starts. */
  datatype Stored = NoFile | Readable(log: map<Tsn, Txn>, registered: bool) | Corrupted

  ghost predicate IsAscending(keys: seq<int>) {
    forall i, j :: 0 <= i < j < |keys| ==> keys[i] < keys[j]
  }

  ghost predicate KeysOf(w: map<int, string>, keys: seq<int>) {
    && IsAscending(keys)
    && (forall k :: k in keys <==> k == -1 || k == 0 || k in w)
    && (forall k :: k in w ==> k >= 1)
  }

  lemma FirstKey(w: map<int, string>, keys: seq<int>)
    requires KeysOf(w, keys)
    ensures |keys| >= 2 && keys[0] == -1
  {
    assert -1 in keys && 0 in keys;
    var i :| 0 <= i < |keys| && keys[i] == -1;
    assert keys[0] in keys;
  }

  /** No key lies strictly between two neighbours. */
  lemma NothingBetween(keys: seq<int>, i: nat)
    requires IsAscending(keys) && i < |keys|
    ensures forall k :: (i == 0 || keys[i - 1] < k) && k < keys[i] ==> k !in keys
    ensures keys[i] in keys && (i > 0 ==> keys[i - 1] < keys[i])
  {
  }

  lemma NothingAbove(keys: seq<int>)
    requires IsAscending(keys) && keys != []
    ensures forall k :: k in keys ==> k <= keys[|keys| - 1]
  {
  }

  /** `fetch` lists, in order, the numbers from -1 up to but not including `upto`
    * that are not keys. */
  ghost predicate Gaps(fetch: seq<int>, keys: seq<int>, upto: int) {
    IsAscending(fetch) && forall k :: k in fetch <==> -1 <= k < upto && k !in keys
  }

  lemma PushGap(fetch: seq<int>, keys: seq<int>, k: int)
    requires Gaps(fetch, keys, k) && k >= -1 && k !in keys
    ensures Gaps(fetch + [k], keys, k + 1)
  {
    assert forall i :: 0 <= i < |fetch| ==> fetch[i] in fetch;
  }

  lemma SkipKey(fetch: seq<int>, keys: seq<int>, k: int)
    requires Gaps(fetch, keys, k) && k in keys
    ensures Gaps(fetch, keys, k + 1)
  {
  }

  /** The numbers absent from -1 up to the larger of the last key and n are the holes. */
  lemma FetchedAreHoles(w: map<int, string>, n: int, keys: seq<int>, fetch: seq<int>)
    requires KeysOf(w, keys) && |keys| >= 1
    requires Gaps(fetch, keys, 1 + if keys[|keys| - 1] < n then n else keys[|keys| - 1])
    ensures forall k :: k in fetch <==> Hole(w, n, k)
    ensures fetch == [] && n != 0 <==> TransactionLog.CanCommit(w, n)
  {
    var last := keys[|keys| - 1];
    assert last in keys;
    assert forall j :: j in w ==> j in keys && j <= last;
    forall k ensures k in fetch <==> Hole(w, n, k) {
      if k in fetch && k > n { assert last in w; }
    }
    LogProperties.CanCommitIffNoHole(w, n);
    if fetch == [] {
      forall k ensures !Hole(w, n, k) { assert k !in fetch; }
    } else {
      assert fetch[0] in fetch && Hole(w, n, fetch[0]);
    }
  }

  ghost predicate HasFreeDraw(draws: seq<Tsn>, log: map<Tsn, Txn>) {
    exists i :: 0 <= i < |draws| && draws[i] !in log
  }

  /** The first number drawn that names no transaction yet. */
  ghost function Picked(draws: seq<Tsn>, log: map<Tsn, Txn>): (t: Tsn)
    requires HasFreeDraw(draws, log)
    ensures t !in log && t in draws
  {
    if draws[0] !in log then draws[0]
    else
      var i :| 0 <= i < |draws| && draws[i] !in log;
      assert draws[1..][i - 1] == draws[i];
      Picked(draws[1..], log)
  }

  /** The log when the expiry pass has visited the transactions of `done`. */
  ghost function SweptSoFar(before: map<Tsn, Txn>, done: set<int>): map<Tsn, Txn> {
    map t | t in before && !(t in done && Removed(t, before[t])) :: if t in done then Aged(t, before[t]) else before[t]
  }

  lemma SweepOne(before: map<Tsn, Txn>, done: set<int>, t: Tsn)
    requires t in before && t !in done
    ensures t in SweptSoFar(before, done) && SweptSoFar(before, done)[t] == before[t]
    ensures SweptSoFar(before, done + {t}) ==
      if Removed(t, before[t]) then SweptSoFar(before, done) - {t}
      else SweptSoFar(before, done)[t := Aged(t, before[t])]
  {
  }

  /** The pass has visited the first i transactions in key order. */
  ghost predicate SweptTo(before: map<Tsn, Txn>, keys: seq<int>, i: nat, now: map<Tsn, Txn>)
    requires i <= |keys|
  {
    now == SweptSoFar(before, KeySet(keys[..i]))
  }

  ghost predicate KeysOfLog(log: map<Tsn, Txn>, keys: seq<int>) {
    IsAscending(keys) && forall k :: k in keys <==> k in log.Keys
  }

  lemma SweepStarts(before: map<Tsn, Txn>, keys: seq<int>)
    ensures SweptTo(before, keys, 0, before)
  {
  }

  lemma SweepNext(before: map<Tsn, Txn>, keys: seq<int>, i: nat, now: map<Tsn, Txn>)
    requires KeysOfLog(before, keys) && i < |keys| && SweptTo(before, keys, i, now)
    ensures keys[i] in before.Keys && keys[i] in now.Keys
    ensures var t: Tsn := keys[i];
      SweptTo(before, keys, i + 1, if Removed(t, now[t]) then now - {t} else now[t := Aged(t, now[t])])
  {
    assert keys[i] in keys;
    EarlierKeys(keys, i);
    SweepOne(before, KeySet(keys[..i]), keys[i]);
  }

  lemma SweepEnds(before: map<Tsn, Txn>, keys: seq<int>, now: map<Tsn, Txn>)
    requires KeysOfLog(before, keys) && SweptTo(before, keys, |keys|, now)
    ensures now == Timeouts(before)
    ensures WellFormed(before) ==> WellFormed(now)
  {
    assert keys[..|keys|] == keys;
    assert forall t: Tsn :: t in before ==> t in KeySet(keys);
    if WellFormed(before) { AgedWellFormed(before); }
  }

  /** `holder` lists the commit messages of the transactions of `done`, by ascending tsn. */
  ghost predicate CommitsOf(log: map<Tsn, Txn>, done: set<int>, holder: seq<Msg>) {
    && (forall m :: m in holder <==>
          m.Commit? && m.t >= 0 && m.t in done && LogProperties.IsCommitted(log, m.t) && m.n == log[m.t].num)
    && (forall i, j :: 0 <= i < j < |holder| ==> holder[i].t < holder[j].t)
  }

  lemma PushCommit(log: map<Tsn, Txn>, done: set<int>, holder: seq<Msg>, t: Tsn)
    requires CommitsOf(log, done, holder) && t in log && forall x :: x in done ==> x < t
    ensures CommitsOf(log, done + {t},
      if t >= 0 && log[t].status == Committed then holder + [Msg.Commit(t, log[t].num)] else holder)
  {
  }

  /** The keys before position i are those below keys[i]. */
  lemma EarlierKeys(keys: seq<int>, i: nat)
    requires IsAscending(keys) && i < |keys|
    ensures KeySet(keys[..i + 1]) == KeySet(keys[..i]) + {keys[i]}
    ensures keys[i] !in KeySet(keys[..i]) && forall x :: x in KeySet(keys[..i]) ==> x < keys[i]
  {
  }

  ghost function KeySet(keys: seq<int>): set<int> {
    set k | k in keys
  }

  class LogHandler {
    var log: map<Tsn, Txn>
    var role: Role             // record 0
    var registered: bool       // record -1: a backup has announced itself
    var files: map<string, string>
    var saved: map<Tsn, Txn>   // the contents of .server.log

    ghost predicate Valid()
      reads this
    {
      WellFormed(log) && WellFormed(saved)
    }

    ghost function View(): Node
      reads this
    {
      Node(log, files)
    }

    constructor (role: Role, stored: Stored, files: map<string, string>)
      requires stored.Readable? ==> WellFormed(stored.log)
      ensures Valid() && this.role == role && this.files == files
      ensures log == saved == if stored.Readable? then stored.log else map[]
      ensures registered <==> stored.Readable? && stored.registered
    {
      this.role, this.files := role, files;
      registered := stored.Readable? && stored.registered;
      log := if stored.Readable? then stored.log else map[];
      saved := if stored.Readable? then stored.log else map[];
    }

    method Save()
      modifies this`saved
      ensures saved == log
    {
      saved := log;
    }

    /** Walk the keys -1, 0 and those of the writes in order, collecting the gaps. */
    method CanCommit(t: Tsn, n: int) returns (ok: bool, fetch: seq<int>)
      requires Valid() && t in log
      ensures ok <==> TransactionLog.CanCommit(log[t].writes, n)
      ensures ok <==> fetch == [] && n != 0
      ensures forall k :: k in fetch <==> Hole(log[t].writes, n, k)
      ensures IsAscending(fetch)
    {
      var keys := SortedKeys.Ascending({-1, 0} + log[t].writes.Keys);
      FirstKey(log[t].writes, keys);
      var current := -1;
      fetch := [];
      for i := 0 to |keys|
        invariant current == if i == 0 then -1 else keys[i - 1]
        invariant Gaps(fetch, keys, current + 1)
      {
        NothingBetween(keys, i);
        if current != keys[i] - 1 {
          fetch := FetchFrom(fetch, current + 1, keys[i], keys);
        }
        if i > 0 { SkipKey(fetch, keys, keys[i]); }
        current := keys[i];
      }
      if current < n {
        NothingAbove(keys);
        fetch := FetchFrom(fetch, current + 1, n + 1, keys);
      }
      ok := fetch == [] && n != 0;
      FetchedAreHoles(log[t].writes, n, keys, fetch);
    }

    /** Collect the numbers from `first` up to but not including `upto`. */
    static method FetchFrom(fetch: seq<int>, first: int, upto: int, ghost keys: seq<int>) returns (more: seq<int>)
      requires first >= -1 && Gaps(fetch, keys, first)
      requires forall k :: first <= k < upto ==> k !in keys
      ensures Gaps(more, keys, if first < upto then upto else first)
    {
      more := fetch;
      var k := first;
      while k < upto
        invariant first <= k && (k <= upto || k == first) && Gaps(more, keys, k)
      {
        PushGap(more, keys, k);
        more := more + [k];
        k := k + 1;
      }
    }

    /** Append the block of a transaction to its file, or, on an I/O error, nothing. */
    method WriteFile(t: Tsn, disk: bool) returns (ok: bool)
      requires Valid() && t in log && log[t].num >= 0 && Filled(log[t].writes, log[t].num)
      modifies this`files
      ensures ok == disk
      ensures files ==
        if disk then Append(old(files), log[t].file, Block(log[t].writes, log[t].num)) else old(files)
      ensures disk ==>
        Blocks.Grown(old(files), files, log[t].file, Wire.Joined(Blocks.Lines(log[t].writes, log[t].num)))
    {
      if !disk {
        return false;
      }
      var text, number := "", 1;
      while number != log[t].num + 1
        invariant 1 <= number <= log[t].num + 1
        invariant text == Block(log[t].writes, number - 1)
        decreases log[t].num + 1 - number
      {
        text := text + (log[t].writes[number] + "\n");
        assert text == Block(log[t].writes, number - 1) + log[t].writes[number] + "\n";
        number := number + 1;
      }
      Blocks.AppendGrows(files, log[t].file, log[t].writes, log[t].num);
      files := Append(files, log[t].file, text);
      ok := true;
    }

    method ChangeStatus(t: Tsn, status: Status)
      requires t in log
      modifies this`log
      ensures log == old(log)[t := old(log)[t].(status := status)]
    {
      log := log[t := log[t].(status := status)];
    }

    method Commit(t: Tsn, n: int, disk: bool) returns (out: Outcome)
      requires Valid()
      modifies this`log, this`saved, this`files
      ensures Valid()
      ensures (View(), out) == CommitTxn(role, disk, old(View()), t, n)
      ensures saved == if out in {Committing, Incomplete, Refused(205)} then log else old(saved)
    {
      if t !in log {
        return Refused(201);
      }
      var status, num := log[t].status, log[t].num;
      if status == Committed && num == n {
        return AlreadyCommitted;
      }
      if status == Expired {
        return Refused(220);
      }
      if (status == Waiting || status == Committed) && num != n {
        return Refused(202);
      } else if n < 1 {
        return Refused(404);
      }
      var complete, toSend := CanCommit(t, n);
      if complete {
        log := log[t := log[t].(status := Writing, num := n)];
        Save();
        if role == Primary {
          return Committing;
        }
        var written := WriteFile(t, disk);
        if written {
          ChangeStatus(t, Committed);
          out := Committing;
        } else {
          ChangeStatus(t, Waiting);
          out := Refused(205);
        }
        Save();
      } else {
        log := log[t := log[t].(status := Waiting, num := n)];
        Save();
        return Incomplete;
      }
    }

    method AddLogEntry(t: Tsn, k: int, data: string, disk: bool) returns (out: Outcome)
      requires Valid()
      modifies this`log, this`saved, this`files
      ensures Valid()
      ensures (View(), out) == AddEntry(role, disk, old(View()), t, k, data)
      ensures saved == if out in {Committing, Refused(205)} then log else old(saved)
    {
      if k < 1 {
        return Refused(204);
      }
      if t !in log {
        return Refused(201);
      }
      if log[t].status == Committed {
        return Refused(202);
      }
      if log[t].status == Expired {
        return Refused(220);
      }
      if k in log[t].writes {
        return Refused(301);
      }
      if log[t].status == Waiting && log[t].num < k {
        return Refused(202);
      }
      log := log[t := log[t].(writes := log[t].writes[k := data])];
      if log[t].status == Waiting {
        var complete, gaps := CanCommit(t, log[t].num);
        if complete {
          out := Commit(t, log[t].num, disk);
          return;
        }
      } else {
        ghost var x := log[t];
        ChangeStatus(t, Active);
        assert log == old(log)[t := x.(status := Active)];
      }
      return Accepted;
    }

    method Abort(t: Tsn) returns (out: Outcome)
      requires Valid()
      modifies this`log
      ensures Valid()
      ensures (View(), out) == AbortTxn(old(View()), t)
      ensures out == Accepted <==> t in old(log) && old(log)[t].status !in {Status.Committed, Expired}
      ensures log == if out == Accepted then old(log) - {t} else old(log)
    {
      if t !in log {
        return Refused(201);
      }
      if log[t].status == Committed {
        return Refused(202);
      }
      if log[t].status == Expired {
        return Refused(220);
      }
      log := log - {t};
      return Accepted;
    }

    method MakeTxn(name: string, t: Tsn) returns (made: bool)
      requires Valid()
      modifies this`log, this`saved
      ensures Valid()
      ensures View() == TransactionLog.MakeTxn(old(View()), t, name)
      ensures made <==> t !in old(log)
      ensures log == if made then old(log)[t := Txn(Active, 0, Fresh, name, map[])] else old(log)
      ensures saved == if made then log else old(saved)
    {
      if t in log {
        return false;
      }
      log := log[t := TransactionLog.NewTxn(name)];
      Save();
      return true;
    }

    /** Draw numbers until one is free. `draws` is what the generator yields, and some
      * draw is free; `valid` is the verdict of the file-name check. */
    method NewTxn(name: string, valid: bool, draws: seq<Tsn>) returns (t: int)
      requires Valid() && HasFreeDraw(draws, log)
      modifies this`log, this`saved
      ensures Valid()
      ensures !valid ==> t == 0 && log == old(log) && saved == old(saved)
      ensures valid ==> t == Picked(draws, old(log)) && saved == log
      ensures valid ==> View() == TransactionLog.MakeTxn(old(View()), Picked(draws, old(log)), name)
      ensures valid ==> log == old(log)[Picked(draws, old(log)) := Txn(Active, 0, Fresh, name, map[])]
    {
      if !valid {
        return 0;
      }
      var i := 0;
      while draws[i] in log
        invariant 0 <= i < |draws|
        invariant HasFreeDraw(draws[i..], log) && Picked(draws[i..], log) == Picked(draws, log)
        decreases |draws| - i
      {
        assert draws[i..][0] == draws[i] && draws[i..][1..] == draws[i + 1..];
        var j :| 0 <= j < |draws[i..]| && draws[i..][j] !in log;
        assert draws[i + 1..][j - 1] == draws[i..][j];
        i := i + 1;
      }
      log := log[draws[i] := TransactionLog.NewTxn(name)];
      Save();
      return draws[i];
    }

    /** One transaction of the expiry pass. */
    method AgeOne(at: Tsn)
      requires at in log
      modifies this`log
      ensures log == if Removed(at, old(log)[at]) then old(log) - {at} else old(log)[at := Aged(at, old(log)[at])]
    {
      var x := log[at];
      if at >= 0 {
        match x.status
        case Active => ChangeStatus(at, Flag);
        case Flag => ChangeStatus(at, Expired);
        case Expired => log := log - {at};
        case Waiting =>
          if x.z == ZFlag {
            log := log[at := x.(z := ZExpired)];
          } else if x.z == ZExpired {
            log := log - {at};
          } else {
            log := log[at := x.(z := ZFlag)];
          }
        case _ => assert log[at := x] == log;
      } else {
        assert log[at := x] == log;
      }
    }

    /** The expiry pass: erase or age each transaction, once, in key order. */
    method Timeouts()
      requires Valid()
      modifies this`log, this`saved
      ensures Valid()
      ensures log == TransactionLog.Timeouts(old(log)) && saved == log
    {
      var keys := SortedKeys.Ascending(log.Keys);
      ghost var before := log;
      SweepStarts(before, keys);
      for i := 0 to |keys|
        invariant SweptTo(before, keys, i, log)
      {
        AgeNext(keys, i, before);
      }
      SweepEnds(before, keys, log);
      Save();
    }

    /** The i-th transaction of a pass over the log `before`. */
    method AgeNext(keys: seq<int>, i: nat, ghost before: map<Tsn, Txn>)
      requires KeysOfLog(before, keys) && i < |keys| && SweptTo(before, keys, i, log)
      modifies this`log
      ensures SweptTo(before, keys, i + 1, log)
    {
      SweepNext(before, keys, i, log);
      AgeOne(keys[i]);
    }

    /** One COMMIT message for each committed transaction, in key order. */
    method GetCommits() returns (holder: seq<Msg>)
      requires Valid()
      ensures forall m :: m in holder <==>
        m.Commit? && m.t >= 0 && LogProperties.IsCommitted(log, m.t) && m.n == log[m.t].num
      ensures forall i, j :: 0 <= i < j < |holder| ==> holder[i].t < holder[j].t
    {
      holder := [];
      var keys := SortedKeys.Ascending(log.Keys);
      for i := 0 to |keys|
        invariant CommitsOf(log, KeySet(keys[..i]), holder)
      {
        assert keys[i] in keys;
        var at: Tsn := keys[i];
        EarlierKeys(keys, i);
        PushCommit(log, KeySet(keys[..i]), holder, at);
        if at >= 0 && log[at].status == Committed {
          holder := holder + [Msg.Commit(at, log[at].num)];
        }
      }
      assert keys[..|keys|] == keys;
      assert forall t: Tsn :: t in log ==> t in KeySet(keys);
    }
  }
}
