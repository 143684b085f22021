/** Writes and the commit of one transaction may arrive in any order and more than
  * once: the state reached depends only on the set of requests that have arrived. */
module Arrival {
  import opened TransactionLog
  import opened LogProperties
  import Wire
  import Blocks

  /** The requests of a transaction that commits the writes `d[1..n]`. */
  ghost predicate Belongs(m: Msg, t: Tsn, n: int, d: map<int, string>) {
    m == Commit(t, n) || (m.Write? && m.t == t && 1 <= m.k <= n && m.k in d && m.data == d[m.k])
  }

  /** The writes among the requests seen so far. */
  ghost function ArrivedWrites(t: Tsn, n: int, d: map<int, string>, seen: set<Msg>): map<int, string> {
    map k | k in d && 1 <= k <= n && Write(t, k, d[k]) in seen :: d[k]
  }

  /** The state as a function of the set of requests seen: no order, no counts. */
  ghost function Arrived(nd: Node, t: Tsn, n: int, d: map<int, string>, seen: set<Msg>): Node
    requires t in nd.log
  {
    var w := ArrivedWrites(t, n, d, seen);
    var x := nd.log[t].(writes := w);
    if Commit(t, n) !in seen then nd.(log := nd.log[t := x])
    else if !Filled(w, n) then nd.(log := nd.log[t := x.(status := Waiting, num := n)])
    else Node(nd.log[t := x.(status := Committed, num := n)], Append(nd.files, x.file, Block(w, n)))
  }

  ghost predicate Begun(nd: Node, t: Tsn, n: int, d: map<int, string>) {
    && WellFormed(nd.log) && t in nd.log && n >= 1 && Filled(d, n)
    && nd.log[t].status == Active && nd.log[t].writes == map[]
  }

  lemma ArrivedContiguous(t: Tsn, n: int, d: map<int, string>, seen: set<Msg>)
    ensures forall k :: k in ArrivedWrites(t, n, d, seen) ==> 1 <= k <= n
    ensures n >= 1 ==> (Filled(ArrivedWrites(t, n, d, seen), n) <==> CanCommit(ArrivedWrites(t, n, d, seen), n))
  {
  }

  lemma ReceiveOne(t: Tsn, n: int, d: map<int, string>, seen: set<Msg>, m: Msg)
    requires Belongs(m, t, n, d)
    ensures m.Commit? ==> ArrivedWrites(t, n, d, seen + {m}) == ArrivedWrites(t, n, d, seen)
    ensures m.Write? ==> ArrivedWrites(t, n, d, seen + {m}) == ArrivedWrites(t, n, d, seen)[m.k := m.data]
  {
  }

  lemma OverwriteTwice(log: map<Tsn, Txn>, t: Tsn, x: Txn, y: Txn)
    ensures log[t := x][t := y] == log[t := y]
  {
  }

  ghost predicate Awaited(nd: Node, t: Tsn, n: int, d: map<int, string>, seen: set<Msg>, m: Msg) {
    && Begun(nd, t, n, d) && Belongs(m, t, n, d) && m.Write?
    && WellFormed(Arrived(nd, t, n, d, seen).log)
  }

  lemma RepeatedWrite(role: Role, nd: Node, t: Tsn, n: int, d: map<int, string>, seen: set<Msg>, m: Msg)
    requires Awaited(nd, t, n, d, seen, m) && m.k in ArrivedWrites(t, n, d, seen)
    ensures Step(role, Arrived(nd, t, n, d, seen), Op(m, true, true)) == Arrived(nd, t, n, d, seen)
  {
  }

  lemma WriteBeforeCommit(role: Role, nd: Node, t: Tsn, n: int, d: map<int, string>, seen: set<Msg>, m: Msg)
    requires Awaited(nd, t, n, d, seen, m) && m.k !in ArrivedWrites(t, n, d, seen) && Commit(t, n) !in seen
    ensures Step(role, Arrived(nd, t, n, d, seen), Op(m, true, true)) == Arrived(nd, t, n, d, seen + {m})
  {
    ReceiveOne(t, n, d, seen, m);
    OverwriteTwice(nd.log, t, Arrived(nd, t, n, d, seen).log[t], Arrived(nd, t, n, d, seen + {m}).log[t]);
  }

  lemma WriteAfterCommit(role: Role, nd: Node, t: Tsn, n: int, d: map<int, string>, seen: set<Msg>, m: Msg)
    requires Awaited(nd, t, n, d, seen, m) && m.k !in ArrivedWrites(t, n, d, seen) && Commit(t, n) in seen
    ensures Step(role, Arrived(nd, t, n, d, seen), Op(m, true, true)) == Arrived(nd, t, n, d, seen + {m})
  {
    var before, after := Arrived(nd, t, n, d, seen), Arrived(nd, t, n, d, seen + {m});
    var w' := ArrivedWrites(t, n, d, seen + {m});
    ArrivedContiguous(t, n, d, seen + {m});
    ReceiveOne(t, n, d, seen, m);
    var x1 := before.log[t].(writes := w');
    OverwriteTwice(nd.log, t, before.log[t], x1);
    OverwriteTwice(nd.log, t, x1, after.log[t]);
    OverwriteTwice(nd.log, t, x1, x1.(status := Writing));
    OverwriteTwice(nd.log, t, x1.(status := Writing), after.log[t]);
  }

  /** One more write moves the state to that of the larger set. */
  lemma OneWrite(role: Role, nd: Node, t: Tsn, n: int, d: map<int, string>, seen: set<Msg>, m: Msg)
    requires Awaited(nd, t, n, d, seen, m)
    ensures Step(role, Arrived(nd, t, n, d, seen), Op(m, true, true)) == Arrived(nd, t, n, d, seen + {m})
  {
    if m.k in ArrivedWrites(t, n, d, seen) {
      RepeatedWrite(role, nd, t, n, d, seen, m);
      ReceiveOne(t, n, d, seen, m);
      assert ArrivedWrites(t, n, d, seen + {m}) == ArrivedWrites(t, n, d, seen);
    } else if Commit(t, n) !in seen {
      WriteBeforeCommit(role, nd, t, n, d, seen, m);
    } else {
      WriteAfterCommit(role, nd, t, n, d, seen, m);
    }
  }

  lemma CommitBeforeData(role: Role, nd: Node, t: Tsn, n: int, d: map<int, string>, seen: set<Msg>)
    requires Begun(nd, t, n, d) && WellFormed(Arrived(nd, t, n, d, seen).log)
    requires !Filled(ArrivedWrites(t, n, d, seen), n)
    ensures Step(role, Arrived(nd, t, n, d, seen), Op(Commit(t, n), true, true))
      == Arrived(nd, t, n, d, seen + {Commit(t, n)})
  {
    var before, after := Arrived(nd, t, n, d, seen), Arrived(nd, t, n, d, seen + {Commit(t, n)});
    ReceiveOne(t, n, d, seen, Commit(t, n));
    OverwriteTwice(nd.log, t, before.log[t], after.log[t]);
  }

  lemma CommitAfterData(role: Role, nd: Node, t: Tsn, n: int, d: map<int, string>, seen: set<Msg>)
    requires Begun(nd, t, n, d) && WellFormed(Arrived(nd, t, n, d, seen).log)
    requires Filled(ArrivedWrites(t, n, d, seen), n)
    ensures Step(role, Arrived(nd, t, n, d, seen), Op(Commit(t, n), true, true))
      == Arrived(nd, t, n, d, seen + {Commit(t, n)})
  {
    var before, after := Arrived(nd, t, n, d, seen), Arrived(nd, t, n, d, seen + {Commit(t, n)});
    ArrivedContiguous(t, n, d, seen);
    ReceiveOne(t, n, d, seen, Commit(t, n));
    var x1 := after.log[t].(status := Writing);
    OverwriteTwice(nd.log, t, before.log[t], after.log[t]);
    OverwriteTwice(nd.log, t, before.log[t], x1);
    OverwriteTwice(nd.log, t, x1, after.log[t]);
  }

  function Ops(ms: seq<Msg>): seq<Event> {
    if ms == [] then [] else Ops(ms[..|ms| - 1]) + [Op(ms[|ms| - 1], true, true)]
  }

  function SetOf(ms: seq<Msg>): set<Msg> {
    set m | m in ms
  }

  lemma NothingArrived(nd: Node, t: Tsn, n: int, d: map<int, string>)
    requires Begun(nd, t, n, d)
    ensures Arrived(nd, t, n, d, {}) == nd
  {
  }

  lemma NextArrival(role: Role, nd: Node, t: Tsn, n: int, d: map<int, string>, es: seq<Event>, seen: set<Msg>, m: Msg)
    requires Begun(nd, t, n, d) && Belongs(m, t, n, d)
    requires Run(role, nd, es) == Arrived(nd, t, n, d, seen)
    ensures Run(role, nd, es + [Op(m, true, true)]) == Arrived(nd, t, n, d, seen + {m})
  {
    RunSplit(role, nd, es, Op(m, true, true));
    if m.Write? {
      OneWrite(role, nd, t, n, d, seen, m);
    } else {
      if Filled(ArrivedWrites(t, n, d, seen), n) {
        CommitAfterData(role, nd, t, n, d, seen);
      } else {
        CommitBeforeData(role, nd, t, n, d, seen);
      }
    }
  }

  lemma SetOfOneMore(ms: seq<Msg>)
    requires ms != []
    ensures SetOf(ms) == SetOf(ms[..|ms| - 1]) + {ms[|ms| - 1]}
    ensures forall m :: m in ms[..|ms| - 1] ==> m in ms
  {
    assert ms == ms[..|ms| - 1] + [ms[|ms| - 1]];
  }

  /** After any sequence of arrivals the state is that of their set. */
  lemma {:induction false} StateIsFunctionOfArrivedSet(
    role: Role, nd: Node, t: Tsn, n: int, d: map<int, string>, ms: seq<Msg>)
    requires Begun(nd, t, n, d)
    requires forall m :: m in ms ==> Belongs(m, t, n, d)
    ensures Run(role, nd, Ops(ms)) == Arrived(nd, t, n, d, SetOf(ms))
    decreases |ms|
  {
    if ms == [] {
      NothingArrived(nd, t, n, d);
    } else {
      var front, m := ms[..|ms| - 1], ms[|ms| - 1];
      SetOfOneMore(ms);
      StateIsFunctionOfArrivedSet(role, nd, t, n, d, front);
      NextArrival(role, nd, t, n, d, Ops(front), SetOf(front), m);
    }
  }

  /** t is committed at n in r, with what it had in nd and the writes d[1..n]. */
  ghost predicate CommittedOn(nd: Node, r: Node, t: Tsn, n: int, d: map<int, string>)
    requires t in nd.log
  {
    && r.log.Keys == nd.log.Keys
    && (forall t' :: t' in nd.log && t' != t ==> r.log[t'] == nd.log[t'])
    && r.log[t] == Txn(Committed, n, nd.log[t].z, nd.log[t].file, map k | k in d && 1 <= k <= n :: d[k])
  }

  lemma AllArrived(role: Role, nd: Node, t: Tsn, n: int, d: map<int, string>, ms: seq<Msg>)
    requires Begun(nd, t, n, d)
    requires forall m :: m in ms ==> Belongs(m, t, n, d)
    requires Commit(t, n) in ms && forall k :: 1 <= k <= n ==> Write(t, k, d[k]) in ms
    ensures var r := Run(role, nd, Ops(ms));
      r.files == Append(nd.files, nd.log[t].file, Block(d, n)) && CommittedOn(nd, r, t, n, d)
  {
    StateIsFunctionOfArrivedSet(role, nd, t, n, d, ms);
    var w := ArrivedWrites(t, n, d, SetOf(ms));
    assert w == map k | k in d && 1 <= k <= n :: d[k];
    BlockDependsOnPrefix(w, d, n);
  }

  /** Arrival-order confluence: once each of write 1..n and the commit has arrived at
    * least once, in whatever order and however often, the transaction is committed at n,
    * and its file alone has grown, by data(1)..data(n) on a line each, once. */
  lemma AnyArrivalOrderCommitsOnce(role: Role, nd: Node, t: Tsn, n: int, d: map<int, string>, ms: seq<Msg>)
    requires Begun(nd, t, n, d)
    requires forall m :: m in ms ==> Belongs(m, t, n, d)
    requires Commit(t, n) in ms && forall k :: 1 <= k <= n ==> Write(t, k, d[k]) in ms
    ensures var r := Run(role, nd, Ops(ms));
      && CommittedOn(nd, r, t, n, d)
      && Blocks.Grown(nd.files, r.files, nd.log[t].file, Wire.Joined(Blocks.Lines(d, n)))
  {
    AllArrived(role, nd, t, n, d, ms);
    Blocks.AppendGrows(nd.files, nd.log[t].file, d, n);
  }

  /** A block is determined by the writes 1..n. */
  lemma {:induction false} BlockDependsOnPrefix(w: map<int, string>, d: map<int, string>, n: int)
    requires Filled(w, n) && Filled(d, n)
    requires forall k :: 1 <= k <= n ==> w[k] == d[k]
    ensures Block(w, n) == Block(d, n)
    decreases if n < 0 then 0 else n
  {
    if n > 0 {
      BlockDependsOnPrefix(w, d, n - 1);
    }
  }
}
