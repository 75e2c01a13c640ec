/** fugs_stats_add, and sums over sets of rows that it has to agree with. */
module Totals {
  import opened Limits
  import opened UsageTables

  /** The counter of a row that belongs to a flag; FUSG_DELET has none. */
  function Counter(row: Stats, flag: Usage): u64 {
    match flag
    case READ => row.read
    case WRITE => row.write
    case CREAT => row.create
    case EXEC => row.exec
    case DELET => 0
  }

  /** The sum of one counter over a set of rows, not reduced. */
  ghost function Sum(evnt: map<RowKey, Stats>, keys: set<RowKey>, flag: Usage): nat
    requires keys <= evnt.Keys
    decreases |keys|
  {
    if keys == {} then 0
    else
      var k :| k in keys;
      Counter(evnt[k], flag) + Sum(evnt, keys - {k}, flag)
  }

  /** The order of summation does not matter. */
  lemma {:induction false} SumRemove(evnt: map<RowKey, Stats>, keys: set<RowKey>, flag: Usage, k: RowKey)
    requires keys <= evnt.Keys && k in keys
    ensures Sum(evnt, keys, flag) == Counter(evnt[k], flag) + Sum(evnt, keys - {k}, flag)
    decreases |keys|
  {
    var c :| c in keys && Sum(evnt, keys, flag) == Counter(evnt[c], flag) + Sum(evnt, keys - {c}, flag);
    if c != k {
      SumRemove(evnt, keys - {c}, flag, k);
      SumRemove(evnt, keys - {k}, flag, c);
      assert keys - {c} - {k} == keys - {k} - {c};
    }
  }

  lemma SumAdd(evnt: map<RowKey, Stats>, keys: set<RowKey>, flag: Usage, k: RowKey)
    requires keys <= evnt.Keys && k in evnt && k !in keys
    ensures Sum(evnt, keys + {k}, flag) == Counter(evnt[k], flag) + Sum(evnt, keys, flag)
  {
    SumRemove(evnt, keys + {k}, flag, k);
    assert keys + {k} - {k} == keys;
  }

  lemma {:induction false} SumUnion(evnt: map<RowKey, Stats>, a: set<RowKey>, b: set<RowKey>, flag: Usage)
    requires a <= evnt.Keys && b <= evnt.Keys && a !! b
    ensures Sum(evnt, a + b, flag) == Sum(evnt, a, flag) + Sum(evnt, b, flag)
    decreases |a|
  {
    if a == {} {
      assert a + b == b;
    } else {
      var k :| k in a;
      SumRemove(evnt, a, flag, k);
      SumUnion(evnt, a - {k}, b, flag);
      SumRemove(evnt, a + b, flag, k);
      assert a + b - {k} == a - {k} + b;
    }
  }

  /** Sums only look at the rows they sum over. */
  lemma {:induction false} SumSame(evnt: map<RowKey, Stats>, evnt': map<RowKey, Stats>, keys: set<RowKey>, flag: Usage)
    requires keys <= evnt.Keys && keys <= evnt'.Keys
    requires forall k | k in keys :: Counter(evnt[k], flag) == Counter(evnt'[k], flag)
    ensures Sum(evnt, keys, flag) == Sum(evnt', keys, flag)
    decreases |keys|
  {
    if keys != {} {
      var k :| k in keys;
      SumRemove(evnt, keys, flag, k);
      SumRemove(evnt', keys, flag, k);
      SumSame(evnt, evnt', keys - {k}, flag);
    }
  }

  /** The latest time of a set of rows, 0 for none. */
  ghost predicate Latest(evnt: map<RowKey, Stats>, keys: set<RowKey>, time: u64)
    requires keys <= evnt.Keys
  {
    && (forall k | k in keys :: evnt[k].time <= time)
    && (time == 0 || exists k :: k in keys && evnt[k].time == time)
  }

  /** What stats_total has to be once exactly the given rows have been added: wrapping sums, and the latest time. */
  ghost predicate IsTotal(evnt: map<RowKey, Stats>, keys: set<RowKey>, total: Stats)
    requires keys <= evnt.Keys
  {
    && (forall flag: Usage {:trigger Counter(total, flag)} ::
          Counter(total, flag) == Sum(evnt, keys, flag) % TWO_64)
    && Latest(evnt, keys, total.time)
  }

  lemma AddMod(a: nat, b: nat)
    ensures (a % TWO_64 + b) % TWO_64 == (a + b) % TWO_64
  {}

  function Added(total: Stats, row: Stats): Stats {
    Stats((total.read + row.read) % TWO_64, (total.write + row.write) % TWO_64,
          (total.create + row.create) % TWO_64, (total.exec + row.exec) % TWO_64,
          if total.time < row.time then row.time else total.time)
  }

  lemma TotalsAdded(evnt: map<RowKey, Stats>, keys: set<RowKey>, total: Stats, k: RowKey)
    requires keys <= evnt.Keys && k in evnt && k !in keys && IsTotal(evnt, keys, total)
    ensures IsTotal(evnt, keys + {k}, Added(total, evnt[k]))
  {
    var sum := Added(total, evnt[k]);
    forall flag: Usage
      ensures Counter(sum, flag) == Sum(evnt, keys + {k}, flag) % TWO_64
    {
      SumAdd(evnt, keys, flag, k);
      AddMod(Sum(evnt, keys, flag), Counter(evnt[k], flag));
      assert Counter(total, flag) == Sum(evnt, keys, flag) % TWO_64;
    }
    LatestAdded(evnt, keys, total.time, k);
  }

  lemma LatestAdded(evnt: map<RowKey, Stats>, keys: set<RowKey>, time: u64, k: RowKey)
    requires keys <= evnt.Keys && k in evnt && Latest(evnt, keys, time)
    ensures Latest(evnt, keys + {k}, if time < evnt[k].time then evnt[k].time else time)
  {
    if time < evnt[k].time {
      assert k in keys + {k};
    } else if time != 0 {
      var m :| m in keys && evnt[m].time == time;
      assert m in keys + {k};
    }
  }

  lemma TotalsNone(evnt: map<RowKey, Stats>)
    ensures IsTotal(evnt, {}, ZERO)
  {
    forall flag: Usage
      ensures Counter(ZERO, flag) == Sum(evnt, {}, flag) % TWO_64
    {}
  }

  /** The rows of the given keys, added one after the other. */
  function AddedUp(evnt: map<RowKey, Stats>, order: seq<RowKey>): Stats {
    if order == [] then ZERO
    else
      var k := order[|order| - 1];
      Added(AddedUp(evnt, order[..|order| - 1]), if k in evnt then evnt[k] else ZERO)
  }

  /** The keys of a set, each once. */
  ghost predicate Enumerates(order: seq<RowKey>, keys: set<RowKey>) {
    if order == [] then keys == {}
    else
      var k := order[|order| - 1];
      k in keys && Enumerates(order[..|order| - 1], keys - {k})
  }

  lemma EnumeratesMore(order: seq<RowKey>, keys: set<RowKey>, k: RowKey)
    requires Enumerates(order, keys) && k !in keys
    ensures Enumerates(order + [k], keys + {k})
  {
    assert (order + [k])[..|order|] == order;
    assert keys + {k} - {k} == keys;
  }

  lemma {:induction false} EnumeratesAll(order: seq<RowKey>, keys: set<RowKey>)
    requires Enumerates(order, keys)
    ensures |order| == |keys|
    ensures forall i | 0 <= i < |order| :: order[i] in keys
    ensures forall i, j | 0 <= i < j < |order| :: order[i] != order[j]
    ensures forall k | k in keys :: k in order
  {
    if order != [] {
      var n := |order| - 1;
      var rest := order[..n];
      EnumeratesAll(rest, keys - {order[n]});
      assert order == rest + [order[n]];
      assert order[n] !in keys - {order[n]};
    }
  }

  /** In whatever order the rows come, adding them up gives their total. */
  lemma {:induction false} AddedUpIsTotal(evnt: map<RowKey, Stats>, order: seq<RowKey>, keys: set<RowKey>)
    requires keys <= evnt.Keys && Enumerates(order, keys)
    ensures IsTotal(evnt, keys, AddedUp(evnt, order))
  {
    if order == [] {
      TotalsNone(evnt);
    } else {
      var k := order[|order| - 1];
      AddedUpIsTotal(evnt, order[..|order| - 1], keys - {k});
      TotalsAdded(evnt, keys - {k}, AddedUp(evnt, order[..|order| - 1]), k);
      assert keys - {k} + {k} == keys;
    }
  }

  /** fusg_stats_t stats_total, updated in place. */
  class StatsTotal {
    var read: u64
    var write: u64
    var create: u64
    var exec: u64
    var time: u64

    function Value(): Stats
      reads this
    {
      Stats(read, write, create, exec, time)
    }

    /** All counters and the time start at 0. */
    constructor ()
      ensures Value() == ZERO
    {
      read, write, create, exec, time := 0, 0, 0, 0, 0;
    }

    /** fugs_stats_add */
    method Add(row: Stats)
      modifies this
      ensures Value() == Added(old(Value()), row)
    {
      create := (create + row.create) % TWO_64;
      exec := (exec + row.exec) % TWO_64;
      read := (read + row.read) % TWO_64;
      write := (write + row.write) % TWO_64;
      time := if time < row.time then row.time else time;
    }
  }
}
