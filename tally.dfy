/** Grouping rows under a key in a dictionary of counters: for each row, create the
    key's entry on first sight, add one to its count and the row's amount to its total.
    The per-vehicle-type statistics of the parking service and the per-day totals of
    the monthly report are both this loop. A dictionary keeps its keys in insertion
    order, so it is a sequence of buckets here. */
module Tally {
  import opened Common
  import opened Seqs

  datatype Bucket<K> = Bucket(key: K, count: nat, total: real)

  /** Position of the bucket for k, if the dictionary has one (`k in d`). */
  function Find<K(==)>(bs: seq<Bucket<K>>, k: K): (r: Option<nat>)
    ensures r.Some? ==> r.value < |bs| && bs[r.value].key == k
    ensures r.None? ==> forall i :: 0 <= i < |bs| ==> bs[i].key != k
  {
    FirstIndex(bs, (b: Bucket<K>) => b.key == k)
  }

  /** One pass of the loop body for a row with key k and amount a. */
  function Add<K(==)>(bs: seq<Bucket<K>>, k: K, a: real): seq<Bucket<K>>
  {
    match Find(bs, k)
    case None => bs + [Bucket(k, 1, a)]
    case Some(i) => bs[i := Bucket(k, bs[i].count + 1, bs[i].total + a)]
  }

  /** The dictionary after the loop has seen the given rows. */
  function Group<T, K(==)>(rows: seq<T>, keyOf: T -> K, amountOf: T -> real): seq<Bucket<K>>
    decreases |rows|
  {
    if rows == [] then []
    else
      var last := rows[|rows| - 1];
      Add(Group(rows[..|rows| - 1], keyOf, amountOf), keyOf(last), amountOf(last))
  }

  /** The loop body as the source writes it: a new key gets a zero entry, then the
      entry's count goes up by one and its total by the amount. On a dictionary with one
      entry per key, the counts grow by one, the totals by the amount, k's own count by
      one, and every key keeps a single entry. */
  method Bump<K(==)>(bs: seq<Bucket<K>>, k: K, a: real) returns (r: seq<Bucket<K>>)
    ensures r == Add(bs, k, a)
    ensures Distinct(bs) ==>
      && Distinct(r) && Counts(r) == Counts(bs) + 1 && Totals(r) == Totals(bs) + a
      && CountOf(r, k) == CountOf(bs, k) + 1
  {
    if Distinct(bs) {
      AddSums(bs, k, a);
      AddEntry(bs, k, a, k);
    }
    AddCases(bs, k, a);
    var i := Find(bs, k);
    r := bs;
    if i.None? {
      r := r + [Bucket(k, 0, 0.0)];
      i := Some(|r| - 1);
    }
    r := r[i.value := r[i.value].(count := r[i.value].count + 1, total := r[i.value].total + a)];
  }

  lemma AddCases<K>(bs: seq<Bucket<K>>, k: K, a: real)
    ensures Find(bs, k).None? ==> Add(bs, k, a) == bs + [Bucket(k, 1, a)]
    ensures Find(bs, k).Some? ==>
      var i := Find(bs, k).value;
      Add(bs, k, a) == bs[i := Bucket(k, bs[i].count + 1, bs[i].total + a)]
  {
  }

  lemma GroupPrefix<T, K>(rows: seq<T>, i: nat, keyOf: T -> K, amountOf: T -> real)
    requires i < |rows|
    ensures Group(rows[..i + 1], keyOf, amountOf) == Add(Group(rows[..i], keyOf, amountOf), keyOf(rows[i]), amountOf(rows[i]))
  {
    assert rows[..i + 1][..i] == rows[..i];
  }

  // ---------------------------------------------------------------------------
  // What the dictionary holds

  function Counts<K>(bs: seq<Bucket<K>>): nat
    decreases |bs|
  {
    if bs == [] then 0 else bs[0].count + Counts(bs[1..])
  }

  function Totals<K>(bs: seq<Bucket<K>>): real
    decreases |bs|
  {
    if bs == [] then 0.0 else bs[0].total + Totals(bs[1..])
  }

  /** sum(amountOf(r) for r in rows) */
  function Sum<T>(rows: seq<T>, amountOf: T -> real): real
    decreases |rows|
  {
    if rows == [] then 0.0 else Sum(rows[..|rows| - 1], amountOf) + amountOf(rows[|rows| - 1])
  }

  predicate Distinct<K(==)>(bs: seq<Bucket<K>>)
  {
    forall i, j :: 0 <= i < j < |bs| ==> bs[i].key != bs[j].key
  }

  /** The count the dictionary holds for k, 0 without an entry. */
  function CountOf<K(==)>(bs: seq<Bucket<K>>, k: K): nat
  {
    var i := Find(bs, k);
    if i.None? then 0 else bs[i.value].count
  }

  /** The total the dictionary holds for k, 0 without an entry. */
  function TotalOf<K(==)>(bs: seq<Bucket<K>>, k: K): real
  {
    var i := Find(bs, k);
    if i.None? then 0.0 else bs[i.value].total
  }

  /** The rows whose key is k, as a filter. */
  function HasKey<T, K(==)>(keyOf: T -> K, k: K): T -> bool
  {
    (r: T) => keyOf(r) == k
  }

  lemma {:induction false} SumsOfUpdate<K>(bs: seq<Bucket<K>>, i: nat, b: Bucket<K>)
    requires i < |bs|
    ensures Counts(bs[i := b]) == Counts(bs) - bs[i].count + b.count
    ensures Totals(bs[i := b]) == Totals(bs) - bs[i].total + b.total
    decreases |bs|
  {
    if i > 0 {
      SumsOfUpdate(bs[1..], i - 1, b);
      assert bs[i := b][1..] == bs[1..][i - 1 := b];
    }
  }

  lemma {:induction false} SumsOfAppend<K>(bs: seq<Bucket<K>>, b: Bucket<K>)
    ensures Counts(bs + [b]) == Counts(bs) + b.count
    ensures Totals(bs + [b]) == Totals(bs) + b.total
    decreases |bs|
  {
    if bs != [] {
      SumsOfAppend(bs[1..], b);
      assert (bs + [b])[1..] == bs[1..] + [b];
    }
  }

  /** A row adds one to the counts and its amount to the totals, and never creates a
      second entry for a key. */
  lemma AddSums<K>(bs: seq<Bucket<K>>, k: K, a: real)
    requires Distinct(bs)
    ensures Counts(Add(bs, k, a)) == Counts(bs) + 1
    ensures Totals(Add(bs, k, a)) == Totals(bs) + a
    ensures Distinct(Add(bs, k, a))
  {
    match Find(bs, k)
    case None =>
      SumsOfAppend(bs, Bucket(k, 1, a));
    case Some(i) =>
      var after := Add(bs, k, a);
      SumsOfUpdate(bs, i, Bucket(k, bs[i].count + 1, bs[i].total + a));
      assert forall j :: 0 <= j < |bs| ==> after[j].key == bs[j].key;
  }

  /** The counts add up to the number of rows, the totals to the sum of the amounts,
      and every key has one entry. */
  lemma {:induction false} GroupTotals<T, K>(rows: seq<T>, keyOf: T -> K, amountOf: T -> real)
    ensures Counts(Group(rows, keyOf, amountOf)) == |rows|
    ensures Totals(Group(rows, keyOf, amountOf)) == Sum(rows, amountOf)
    ensures Distinct(Group(rows, keyOf, amountOf))
    decreases |rows|
  {
    if rows != [] {
      var init := rows[..|rows| - 1];
      var last := rows[|rows| - 1];
      GroupTotals(init, keyOf, amountOf);
      AddSums(Group(init, keyOf, amountOf), keyOf(last), amountOf(last));
    }
  }

  /** A row under one key leaves the entry of every other key as it was. */
  lemma AddEntry<K>(bs: seq<Bucket<K>>, rowKey: K, a: real, k: K)
    requires Distinct(bs)
    ensures var after := Add(bs, rowKey, a);
      && (Find(after, k).Some? <==> (Find(bs, k).Some? || rowKey == k))
      && CountOf(after, k) == CountOf(bs, k) + (if rowKey == k then 1 else 0)
      && TotalOf(after, k) == TotalOf(bs, k) + (if rowKey == k then a else 0.0)
  {
    var after := Add(bs, rowKey, a);
    AddSums(bs, rowKey, a);
    var ia := Find(after, k);
    var ib := Find(bs, k);
    if rowKey != k {
      if ib.Some? {
        assert after[ib.value] == bs[ib.value];
        assert ia.Some?;
        assert ia.value == ib.value;
      }
      if ia.Some? {
        assert ia.value < |bs| && after[ia.value] == bs[ia.value];
        assert ib.Some?;
      }
    } else {
      match Find(bs, rowKey)
      case None =>
        assert after[|bs|].key == k;
        assert ia.Some? && ia.value == |bs|;
      case Some(j) =>
        assert after[j].key == k;
        assert ia.Some? && ia.value == j;
    }
  }

  /** The entry for each key counts exactly the rows with that key, and a key has an
      entry exactly when some row has it. */
  lemma {:induction false} GroupCountPerKey<T, K>(rows: seq<T>, keyOf: T -> K, amountOf: T -> real, k: K)
    ensures var n := Count(rows, HasKey(keyOf, k));
      && (Find(Group(rows, keyOf, amountOf), k).Some? <==> n > 0)
      && CountOf(Group(rows, keyOf, amountOf), k) == n
    decreases |rows|
  {
    if rows != [] {
      var init := rows[..|rows| - 1];
      var last := rows[|rows| - 1];
      GroupCountPerKey(init, keyOf, amountOf, k);
      GroupTotals(init, keyOf, amountOf);
      AddEntry(Group(init, keyOf, amountOf), keyOf(last), amountOf(last), k);
    }
  }

  /** The entry for each key totals exactly the amounts of the rows with that key. */
  lemma {:induction false} GroupTotalPerKey<T, K>(rows: seq<T>, keyOf: T -> K, amountOf: T -> real, k: K)
    ensures TotalOf(Group(rows, keyOf, amountOf), k) == Sum(Filter(rows, HasKey(keyOf, k)), amountOf)
    decreases |rows|
  {
    if rows != [] {
      var init := rows[..|rows| - 1];
      var last := rows[|rows| - 1];
      GroupTotalPerKey(init, keyOf, amountOf, k);
      GroupTotals(init, keyOf, amountOf);
      AddEntry(Group(init, keyOf, amountOf), keyOf(last), amountOf(last), k);
      var matching := Filter(init, HasKey(keyOf, k));
      if keyOf(last) == k {
        assert Filter(rows, HasKey(keyOf, k)) == matching + [last];
        assert (matching + [last])[..|matching|] == matching;
      }
    }
  }
}
