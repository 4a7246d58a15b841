/**
 The free-model catalog: sums in which every shared pool counts once, at its
 largest row, and the published totals built from them.
 */
module FreeModels {
  import opened Prelude

  datatype FreeType =
    | RecurringDaily | RecurringMonthly | RecurringCredit | RecurringUncapped
    | OneTimeInitial | Keyless | Discontinued

  datatype Bucket = SteadyMonthly | RefillingCredit | OneTimeCredit | Uncapped | NoBucket

  /** Which figure a regime's allowance belongs to. */
  function TokenBucket(t: FreeType): Bucket {
    match t
    case RecurringDaily => SteadyMonthly
    case RecurringMonthly => SteadyMonthly
    case RecurringCredit => RefillingCredit
    case RecurringUncapped => Uncapped
    case OneTimeInitial => OneTimeCredit
    case Keyless => SteadyMonthly
    case Discontinued => NoBucket
  }

  function FreeTypesInBucket(bucket: Bucket): set<FreeType> {
    set t: FreeType | TokenBucket(t) == bucket
  }

  /** The sets the totals are summed over; the buckets are disjoint because a regime has one. */
  lemma DerivedSets()
    ensures FreeTypesInBucket(SteadyMonthly) == {RecurringDaily, RecurringMonthly, Keyless}
    ensures FreeTypesInBucket(RefillingCredit) == {RecurringCredit}
    ensures FreeTypesInBucket(OneTimeCredit) == {OneTimeInitial}
    ensures FreeTypesInBucket(Uncapped) == {RecurringUncapped}
  {
  }

  datatype Row = Row(
    provider: string,
    monthlyTokens: int,
    creditTokens: int,
    freeType: FreeType,
    poolKey: Option<string>,
    tosAvoid: bool,
    gated: bool,
    enabled: bool
  ) {
    /** A null or empty pool key leaves the row on its own. */
    predicate Pooled() {
      poolKey.Some? && poolKey.value != ""
    }
  }

  type Pick = Row -> int
  type Filter = Row -> bool

  // ----- sums over a map of pool maxima -----

  ghost function SumValues(m: map<string, int>): int {
    if m == map[] then 0
    else
      var k :| k in m;
      m[k] + SumValues(m - {k})
  }

  lemma {:induction false} SumTakes(m: map<string, int>, key: string)
    requires key in m
    ensures SumValues(m) == m[key] + SumValues(m - {key})
    decreases |m|
  {
    var k :| k in m && SumValues(m) == m[k] + SumValues(m - {k});
    if k != key {
      SumTakes(m - {k}, key);
      SumTakes(m - {key}, k);
      assert m - {k} - {key} == m - {key} - {k};
    }
  }

  lemma SumSets(m: map<string, int>, key: string, value: int)
    ensures SumValues(m[key := value]) == SumValues(m) - (if key in m then m[key] else 0) + value
  {
    SumTakes(m[key := value], key);
    if key in m {
      SumTakes(m, key);
      assert m[key := value] - {key} == m - {key};
    } else {
      assert m[key := value] - {key} == m;
    }
  }

  lemma {:induction false} SumGrows(m: map<string, int>, n: map<string, int>)
    requires forall k :: k in m ==> k in n && m[k] <= n[k]
    requires forall k :: k in n ==> 0 <= n[k]
    ensures SumValues(m) <= SumValues(n)
    ensures 0 <= SumValues(n)
    decreases |n|
  {
    if n == map[] {
      assert m == map[];
    } else {
      var k :| k in n;
      SumTakes(n, k);
      if k in m {
        SumTakes(m, k);
        SumGrows(m - {k}, n - {k});
      } else {
        SumGrows(m, n - {k});
      }
    }
  }

  // ----- the deduplicated sum -----

  function Max(a: int, b: int): int {
    if a < b then b else a
  }

  function MaxOf(m: map<string, int>, key: string): int {
    if key in m then m[key] else 0
  }

  function WithRow(m: map<string, int>, row: Row, pick: Pick, counted: Filter): map<string, int> {
    if counted(row) && row.Pooled() then m[row.poolKey.value := Max(MaxOf(m, row.poolKey.value), pick(row))] else m
  }

  /** Pool by pool, the largest amount among the counted rows, starting from zero. */
  function PoolMax(rows: seq<Row>, pick: Pick, counted: Filter): map<string, int> {
    if rows == [] then map[]
    else WithRow(PoolMax(rows[..|rows| - 1], pick, counted), rows[|rows| - 1], pick, counted)
  }

  function LooseAmount(row: Row, pick: Pick, counted: Filter): int {
    if counted(row) && !row.Pooled() then pick(row) else 0
  }

  function LooseSum(rows: seq<Row>, pick: Pick, counted: Filter): int {
    if rows == [] then 0
    else LooseSum(rows[..|rows| - 1], pick, counted) + LooseAmount(rows[|rows| - 1], pick, counted)
  }

  ghost function Deduped(rows: seq<Row>, pick: Pick, counted: Filter): int {
    LooseSum(rows, pick, counted) + SumValues(PoolMax(rows, pick, counted))
  }

  method DedupedSum(models: seq<Row>, pick: Pick, counted: Filter) returns (loose: int)
    ensures loose == Deduped(models, pick, counted)
  {
    var poolMax: map<string, int> := map[];
    loose := 0;
    for i := 0 to |models|
      invariant poolMax == PoolMax(models[..i], pick, counted)
      invariant loose == LooseSum(models[..i], pick, counted)
    {
      var m := models[i];
      assert models[..i + 1][..i] == models[..i];
      if counted(m) {
        if m.Pooled() {
          var key := m.poolKey.value;
          poolMax := poolMax[key := Max(MaxOf(poolMax, key), pick(m))];
        } else {
          loose := loose + pick(m);
        }
      }
    }
    assert models[..|models|] == models;
    ghost var all := poolMax;
    var todo := poolMax;
    while todo != map[]
      invariant loose + SumValues(todo) == LooseSum(models, pick, counted) + SumValues(all)
      decreases |todo|
    {
      var key :| key in todo;
      SumTakes(todo, key);
      loose := loose + todo[key];
      todo := todo - {key};
    }
  }

  // ----- what the sum is -----

  predicate InPool(row: Row, counted: Filter, key: string) {
    counted(row) && row.Pooled() && row.poolKey.value == key
  }

  ghost predicate Attained(rows: seq<Row>, pick: Pick, counted: Filter, key: string, value: int) {
    exists row :: row in rows && InPool(row, counted, key) && pick(row) == value
  }

  /** A pool is listed when some counted row names it, at its largest amount, or zero when all are negative. */
  lemma {:induction false} PoolMaxIsTheMaximum(rows: seq<Row>, pick: Pick, counted: Filter, key: string)
    ensures var m := PoolMax(rows, pick, counted);
            && (key in m <==> exists row :: row in rows && InPool(row, counted, key))
            && 0 <= MaxOf(m, key)
            && (forall row :: row in rows && InPool(row, counted, key) ==> pick(row) <= MaxOf(m, key))
            && (MaxOf(m, key) == 0 || Attained(rows, pick, counted, key, MaxOf(m, key)))
  {
    if rows != [] {
      var p, last := rows[..|rows| - 1], rows[|rows| - 1];
      assert rows == p + [last];
      PoolMaxIsTheMaximum(p, pick, counted, key);
      if InPool(last, counted, key) {
        assert last in rows;
      } else if Attained(p, pick, counted, key, MaxOf(PoolMax(p, pick, counted), key)) {
        var row :| row in p && InPool(row, counted, key) && pick(row) == MaxOf(PoolMax(p, pick, counted), key);
        assert row in rows;
      }
    }
  }

  lemma {:induction false} SameRowsSamePools(a: seq<Row>, b: seq<Row>, pick: Pick, counted: Filter)
    requires forall row :: row in a <==> row in b
    ensures PoolMax(a, pick, counted) == PoolMax(b, pick, counted)
  {
    forall key
      ensures key in PoolMax(a, pick, counted) <==> key in PoolMax(b, pick, counted)
      ensures MaxOf(PoolMax(a, pick, counted), key) == MaxOf(PoolMax(b, pick, counted), key)
    {
      PoolMaxIsTheMaximum(a, pick, counted, key);
      PoolMaxIsTheMaximum(b, pick, counted, key);
    }
    forall key | key in PoolMax(a, pick, counted)
      ensures PoolMax(a, pick, counted)[key] == PoolMax(b, pick, counted)[key]
    {
      assert MaxOf(PoolMax(a, pick, counted), key) == MaxOf(PoolMax(b, pick, counted), key);
    }
  }

  lemma {:induction false} LooseConcat(a: seq<Row>, b: seq<Row>, pick: Pick, counted: Filter)
    ensures LooseSum(a + b, pick, counted) == LooseSum(a, pick, counted) + LooseSum(b, pick, counted)
  {
    if b == [] {
      assert a + b == a;
    } else {
      LooseConcat(a, b[..|b| - 1], pick, counted);
      assert (a + b)[..|a + b| - 1] == a + b[..|b| - 1];
    }
  }

  lemma {:induction false} LoosePermuted(a: seq<Row>, b: seq<Row>, pick: Pick, counted: Filter)
    requires multiset(a) == multiset(b)
    ensures LooseSum(a, pick, counted) == LooseSum(b, pick, counted)
  {
    if a == [] {
      assert |multiset(a)| == |a| && |multiset(b)| == |b|;
    } else {
      var row := a[|a| - 1];
      assert row in multiset(a);
      var i :| 0 <= i < |b| && b[i] == row;
      MultisetWithout(a, |a| - 1);
      MultisetWithout(b, i);
      assert a[..|a| - 1] + a[|a|..] == a[..|a| - 1];
      LoosePermuted(a[..|a| - 1], b[..i] + b[i + 1..], pick, counted);
      LooseWithout(b, i, pick, counted);
    }
  }

  lemma {:induction false} MultisetWithout(rows: seq<Row>, i: nat)
    requires i < |rows|
    ensures multiset(rows[..i] + rows[i + 1..]) == multiset(rows) - multiset{rows[i]}
  {
    assert rows == rows[..i] + [rows[i]] + rows[i + 1..];
  }

  lemma {:induction false} LooseWithout(rows: seq<Row>, i: nat, pick: Pick, counted: Filter)
    requires i < |rows|
    ensures LooseSum(rows, pick, counted) == LooseSum(rows[..i] + rows[i + 1..], pick, counted) + LooseAmount(rows[i], pick, counted)
  {
    var before, after := rows[..i], rows[i + 1..];
    assert rows == (before + [rows[i]]) + after;
    LooseConcat(before + [rows[i]], after, pick, counted);
    LooseConcat(before, after, pick, counted);
    assert (before + [rows[i]])[..i] == before;
  }

  /** The order of the catalog never matters. */
  lemma OrderIsIrrelevant(a: seq<Row>, b: seq<Row>, pick: Pick, counted: Filter)
    requires multiset(a) == multiset(b)
    ensures Deduped(a, pick, counted) == Deduped(b, pick, counted)
  {
    forall row
      ensures row in a <==> row in b
    {
      assert row in multiset(a) <==> row in multiset(b);
    }
    SameRowsSamePools(a, b, pick, counted);
    LoosePermuted(a, b, pick, counted);
  }

  /** Listing a pooled row again changes nothing. */
  lemma RepeatedPooledRow(rows: seq<Row>, row: Row, pick: Pick, counted: Filter)
    requires row in rows && row.Pooled()
    ensures Deduped(rows + [row], pick, counted) == Deduped(rows, pick, counted)
  {
    SameRowsSamePools(rows + [row], rows, pick, counted);
    assert (rows + [row])[..|rows|] == rows;
  }

  /** A new row raises the sum by something between nothing and its own amount. */
  lemma {:induction false} AddingARow(rows: seq<Row>, row: Row, pick: Pick, counted: Filter)
    ensures var before, after := Deduped(rows, pick, counted), Deduped(rows + [row], pick, counted);
            && (!counted(row) ==> after == before)
            && (counted(row) && 0 <= pick(row) ==> before <= after <= before + pick(row))
  {
    assert (rows + [row])[..|rows|] == rows;
    var m := PoolMax(rows, pick, counted);
    if row.Pooled() && counted(row) {
      var key := row.poolKey.value;
      PoolMaxIsTheMaximum(rows, pick, counted, key);
      SumSets(m, key, Max(MaxOf(m, key), pick(row)));
    }
  }

  function PlainSum(rows: seq<Row>, pick: Pick, counted: Filter): int {
    if rows == [] then 0
    else PlainSum(rows[..|rows| - 1], pick, counted) + if counted(rows[|rows| - 1]) then pick(rows[|rows| - 1]) else 0
  }

  ghost predicate NonNegative(rows: seq<Row>, pick: Pick, counted: Filter) {
    forall row :: row in rows && counted(row) ==> 0 <= pick(row)
  }

  /** Every counted row fits in, and pooling only ever lowers the plain sum. */
  lemma {:induction false} BetweenLargestAndPlain(rows: seq<Row>, pick: Pick, counted: Filter)
    requires NonNegative(rows, pick, counted)
    ensures 0 <= Deduped(rows, pick, counted) <= PlainSum(rows, pick, counted)
    ensures forall row :: row in rows && counted(row) ==> pick(row) <= Deduped(rows, pick, counted)
  {
    if rows != [] {
      var p, last := rows[..|rows| - 1], rows[|rows| - 1];
      assert rows == p + [last];
      BetweenLargestAndPlain(p, pick, counted);
      AddingARow(p, last, pick, counted);
      if counted(last) {
        AmountFitsIn(p, last, pick, counted);
      }
    }
  }

  lemma {:induction false} AmountFitsIn(p: seq<Row>, last: Row, pick: Pick, counted: Filter)
    requires NonNegative(p + [last], pick, counted) && counted(last)
    requires 0 <= Deduped(p, pick, counted)
    ensures pick(last) <= Deduped(p + [last], pick, counted)
  {
    var rows := p + [last];
    assert rows[..|p|] == p;
    PoolsAreNonNegative(rows, pick, counted);
    PoolsAreNonNegative(p, pick, counted);
    LooseIsNonNegative(p, pick, counted);
    SumGrows(map[], PoolMax(rows, pick, counted));
    if last.Pooled() {
      var key := last.poolKey.value;
      PoolMaxIsTheMaximum(rows, pick, counted, key);
      SumTakes(PoolMax(rows, pick, counted), key);
      SumGrows(map[], PoolMax(rows, pick, counted) - {key});
    }
  }

  lemma PoolsAreNonNegative(rows: seq<Row>, pick: Pick, counted: Filter)
    ensures forall key :: key in PoolMax(rows, pick, counted) ==> 0 <= PoolMax(rows, pick, counted)[key]
  {
    forall key | key in PoolMax(rows, pick, counted)
      ensures 0 <= PoolMax(rows, pick, counted)[key]
    {
      PoolMaxIsTheMaximum(rows, pick, counted, key);
    }
  }

  lemma {:induction false} LooseIsNonNegative(rows: seq<Row>, pick: Pick, counted: Filter)
    requires NonNegative(rows, pick, counted)
    ensures 0 <= LooseSum(rows, pick, counted)
  {
    if rows != [] {
      LooseIsNonNegative(rows[..|rows| - 1], pick, counted);
    }
  }

  // ----- splitting a sum in two -----

  function MergeMax(m: map<string, int>, n: map<string, int>): map<string, int> {
    map k | k in m.Keys + n.Keys :: Max(MaxOf(m, k), MaxOf(n, k))
  }

  lemma MergeEmpty(m: map<string, int>)
    requires forall k :: k in m ==> 0 <= m[k]
    ensures MergeMax(m, map[]) == m == MergeMax(map[], m)
  {
  }

  lemma MergeSets(m: map<string, int>, n: map<string, int>, key: string, value: int)
    requires 0 <= MaxOf(m, key) && 0 <= MaxOf(n, key)
    ensures var merged := MergeMax(m, n);
            var after := merged[key := Max(MaxOf(merged, key), value)];
            && MergeMax(m, n[key := Max(MaxOf(n, key), value)]) == after
            && MergeMax(m[key := Max(MaxOf(m, key), value)], n) == after
  {
    var merged := MergeMax(m, n);
    var after := merged[key := Max(MaxOf(merged, key), value)];
    var right := MergeMax(m, n[key := Max(MaxOf(n, key), value)]);
    var left := MergeMax(m[key := Max(MaxOf(m, key), value)], n);
    assert left.Keys == right.Keys == after.Keys;
    forall k | k in after
      ensures left[k] == after[k] == right[k]
    {
    }
  }

  ghost predicate Overlap(m: map<string, int>, n: map<string, int>) {
    exists k :: k in m && k in n && m[k] > 0 && n[k] > 0
  }

  lemma {:induction false} SumOfMerge(m: map<string, int>, n: map<string, int>)
    requires forall k :: k in m ==> 0 <= m[k]
    requires forall k :: k in n ==> 0 <= n[k]
    ensures SumValues(MergeMax(m, n)) <= SumValues(m) + SumValues(n)
    ensures SumValues(MergeMax(m, n)) == SumValues(m) + SumValues(n) <==> !Overlap(m, n)
    decreases |n|
  {
    if n == map[] {
      MergeEmpty(m);
    } else {
      var k :| k in n;
      SumOfMerge(m, n - {k});
      SumTakes(n, k);
      OverlapGrows(m, n, k);
      SumOfMergeStep(m, n, k);
    }
  }

  lemma SumOfMergeStep(m: map<string, int>, n: map<string, int>, key: string)
    requires key in n && 0 <= n[key] && 0 <= MaxOf(m, key)
    ensures SumValues(MergeMax(m, n)) == SumValues(MergeMax(m, n - {key})) - MaxOf(m, key) + Max(MaxOf(m, key), n[key])
  {
    var rest := n - {key};
    var merged := MergeMax(m, rest);
    MergeSets(m, rest, key, n[key]);
    assert n == rest[key := Max(MaxOf(rest, key), n[key])];
    SumSets(merged, key, Max(MaxOf(merged, key), n[key]));
    assert MaxOf(merged, key) == Max(MaxOf(m, key), 0);
  }

  lemma OverlapGrows(m: map<string, int>, n: map<string, int>, key: string)
    requires key in n
    ensures Overlap(m, n) <==> Overlap(m, n - {key}) || (MaxOf(m, key) > 0 && n[key] > 0)
  {
    if Overlap(m, n) {
      var k :| k in m && k in n && m[k] > 0 && n[k] > 0;
      assert k != key ==> k in n - {key};
    }
    if Overlap(m, n - {key}) {
      var k :| k in m && k in n - {key} && m[k] > 0 && (n - {key})[k] > 0;
      assert k in n && n[k] > 0;
    }
  }

  /** Two positive rows of one pool, one counted on each side. */
  ghost predicate SharePool(a: seq<Row>, b: seq<Row>, pick: Pick, one: Filter, two: Filter) {
    exists x, y :: x in a && y in b && one(x) && two(y) && x.Pooled() && x.poolKey == y.poolKey && pick(x) > 0 && pick(y) > 0
  }

  lemma {:induction false} OverlapIsSharedPool(a: seq<Row>, b: seq<Row>, pick: Pick, one: Filter, two: Filter)
    ensures Overlap(PoolMax(a, pick, one), PoolMax(b, pick, two)) <==> SharePool(a, b, pick, one, two)
  {
    var m, n := PoolMax(a, pick, one), PoolMax(b, pick, two);
    if Overlap(m, n) {
      var key :| key in m && key in n && m[key] > 0 && n[key] > 0;
      PoolMaxIsTheMaximum(a, pick, one, key);
      PoolMaxIsTheMaximum(b, pick, two, key);
      var x :| x in a && InPool(x, one, key) && pick(x) == m[key];
      var y :| y in b && InPool(y, two, key) && pick(y) == n[key];
      assert x.poolKey == y.poolKey;
    }
    if SharePool(a, b, pick, one, two) {
      var x, y :| x in a && y in b && one(x) && two(y) && x.Pooled() && x.poolKey == y.poolKey && pick(x) > 0 && pick(y) > 0;
      var key := x.poolKey.value;
      PoolMaxIsTheMaximum(a, pick, one, key);
      PoolMaxIsTheMaximum(b, pick, two, key);
      assert InPool(x, one, key) && InPool(y, two, key);
    }
  }

  /** Concatenating catalogs adds their sums, less what shared pools save: exact when no shared pool is positive in both. */
  lemma ConcatenationAdds(a: seq<Row>, b: seq<Row>, pick: Pick, counted: Filter)
    ensures Deduped(a + b, pick, counted) <= Deduped(a, pick, counted) + Deduped(b, pick, counted)
    ensures Deduped(a + b, pick, counted) == Deduped(a, pick, counted) + Deduped(b, pick, counted) <==>
            !SharePool(a, b, pick, counted, counted)
  {
    OverlapIsSharedPool(a, b, pick, counted, counted);
    LooseConcat(a, b, pick, counted);
    PoolConcat(a, b, pick, counted);
    PoolsAreNonNegative(a, pick, counted);
    PoolsAreNonNegative(b, pick, counted);
    SumOfMerge(PoolMax(a, pick, counted), PoolMax(b, pick, counted));
  }

  lemma {:induction false} PoolConcat(a: seq<Row>, b: seq<Row>, pick: Pick, counted: Filter)
    ensures PoolMax(a + b, pick, counted) == MergeMax(PoolMax(a, pick, counted), PoolMax(b, pick, counted))
  {
    if b == [] {
      assert a + b == a;
      PoolsAreNonNegative(a, pick, counted);
      MergeEmpty(PoolMax(a, pick, counted));
    } else {
      var last := b[|b| - 1];
      PoolConcat(a, b[..|b| - 1], pick, counted);
      if last.Pooled() {
        PoolMaxIsTheMaximum(a, pick, counted, last.poolKey.value);
        PoolMaxIsTheMaximum(b[..|b| - 1], pick, counted, last.poolKey.value);
        MergeSets(PoolMax(a, pick, counted), PoolMax(b[..|b| - 1], pick, counted), last.poolKey.value, pick(last));
      }
      assert (a + b)[..|a + b| - 1] == a + b[..|b| - 1];
    }
  }

  /** `counted` is the disjoint union of two filters. */
  ghost predicate Splits(rows: seq<Row>, counted: Filter, one: Filter, two: Filter) {
    forall row :: row in rows ==> (counted(row) <==> one(row) || two(row)) && !(one(row) && two(row))
  }

  lemma {:induction false} SplitSums(rows: seq<Row>, pick: Pick, counted: Filter, one: Filter, two: Filter)
    requires Splits(rows, counted, one, two)
    ensures LooseSum(rows, pick, counted) == LooseSum(rows, pick, one) + LooseSum(rows, pick, two)
    ensures PoolMax(rows, pick, counted) == MergeMax(PoolMax(rows, pick, one), PoolMax(rows, pick, two))
  {
    if rows != [] {
      var p, last := rows[..|rows| - 1], rows[|rows| - 1];
      assert last in rows && forall row :: row in p ==> row in rows;
      SplitSums(p, pick, counted, one, two);
      if last.Pooled() {
        PoolMaxIsTheMaximum(p, pick, one, last.poolKey.value);
        PoolMaxIsTheMaximum(p, pick, two, last.poolKey.value);
        MergeSets(PoolMax(p, pick, one), PoolMax(p, pick, two), last.poolKey.value, pick(last));
      }
    }
  }

  /** Splitting the counted rows in two never loses tokens, and is exact when no pool is positive on both sides. */
  lemma SplittingTheRows(rows: seq<Row>, pick: Pick, counted: Filter, one: Filter, two: Filter)
    requires Splits(rows, counted, one, two)
    ensures Deduped(rows, pick, counted) <= Deduped(rows, pick, one) + Deduped(rows, pick, two)
    ensures Deduped(rows, pick, counted) == Deduped(rows, pick, one) + Deduped(rows, pick, two) <==>
            !SharePool(rows, rows, pick, one, two)
  {
    OverlapIsSharedPool(rows, rows, pick, one, two);
    SplitSums(rows, pick, counted, one, two);
    PoolsAreNonNegative(rows, pick, one);
    PoolsAreNonNegative(rows, pick, two);
    SumOfMerge(PoolMax(rows, pick, one), PoolMax(rows, pick, two));
  }

  /** Counting fewer rows never gives more. */
  lemma CountingLess(rows: seq<Row>, pick: Pick, fewer: Filter, more: Filter)
    requires NonNegative(rows, pick, more)
    requires forall row :: row in rows && fewer(row) ==> more(row)
    ensures Deduped(rows, pick, fewer) <= Deduped(rows, pick, more)
  {
    var dropped := (row: Row) => more(row) && !fewer(row);
    SplitSums(rows, pick, more, fewer, dropped);
    LooseIsNonNegative(rows, pick, dropped);
    PoolsAreNonNegative(rows, pick, fewer);
    PoolsAreNonNegative(rows, pick, more);
    SumGrows(PoolMax(rows, pick, fewer), PoolMax(rows, pick, more));
  }

  // ----- the published totals -----

  const MONTHLY: Pick := (row: Row) => row.monthlyTokens
  const CREDIT: Pick := (row: Row) => row.creditTokens

  function InBucket(bucket: Bucket, gated: bool): Filter {
    (row: Row) => TokenBucket(row.freeType) == bucket && row.gated == gated
  }

  const ALL_STEADY: Filter := (row: Row) => TokenBucket(row.freeType) == SteadyMonthly

  predicate KeepsRow(row: Row, exclude: bool) {
    !(exclude && row.tosAvoid) && row.enabled
  }

  function Kept(catalog: seq<Row>, excludeTosAvoid: bool): seq<Row> {
    if catalog == [] then []
    else
      var row := catalog[|catalog| - 1];
      var earlier := Kept(catalog[..|catalog| - 1], excludeTosAvoid);
      if KeepsRow(row, excludeTosAvoid) then earlier + [row] else earlier
  }

  datatype Totals = Totals(steady: int, gated: int, withCredits: int, firstMonth: int)

  ghost function TotalsOf(models: seq<Row>): Totals {
    var steady := Deduped(models, MONTHLY, InBucket(SteadyMonthly, false));
    var credits := Deduped(models, CREDIT, InBucket(RefillingCredit, false));
    var oneTime := Deduped(models, CREDIT, InBucket(OneTimeCredit, false));
    Totals(steady, Deduped(models, MONTHLY, InBucket(SteadyMonthly, true)), steady + credits, steady + credits + oneTime)
  }

  method ComputeFreeModelTotals(catalog: seq<Row>, excludeTosAvoid: bool) returns (totals: Totals)
    ensures totals == Published(catalog, excludeTosAvoid)
  {
    var models := Kept(catalog, excludeTosAvoid);
    var steady := DedupedSum(models, MONTHLY, InBucket(SteadyMonthly, false));
    var gated := DedupedSum(models, MONTHLY, InBucket(SteadyMonthly, true));
    var credits := DedupedSum(models, CREDIT, InBucket(RefillingCredit, false));
    var oneTime := DedupedSum(models, CREDIT, InBucket(OneTimeCredit, false));
    totals := Totals(steady, gated, steady + credits, steady + credits + oneTime);
  }

  /** The totals of a whole catalog: what is published. */
  ghost function Published(catalog: seq<Row>, excludeTosAvoid: bool): Totals {
    TotalsOf(Kept(catalog, excludeTosAvoid))
  }

  /** No other row of the same pool is among `rows`. */
  ghost predicate StandsAlone(rows: seq<Row>, row: Row) {
    !row.Pooled() || forall other :: other in rows ==> other.poolKey != row.poolKey
  }

  /** What a new row adds to one sum: a lone one its amount, a pooled one what it has over the largest counted amount of its pool. */
  function Gain(rows: seq<Row>, row: Row, pick: Pick, counted: Filter): int {
    if !counted(row) then 0
    else if !row.Pooled() then pick(row)
    else Max(0, pick(row) - MaxOf(PoolMax(rows, pick, counted), row.poolKey.value))
  }

  lemma {:induction false} AddingARowGains(rows: seq<Row>, row: Row, pick: Pick, counted: Filter)
    ensures Deduped(rows + [row], pick, counted) == Deduped(rows, pick, counted) + Gain(rows, row, pick, counted)
    ensures StandsAlone(rows, row) && counted(row) && 0 <= pick(row) ==> Gain(rows, row, pick, counted) == pick(row)
  {
    LastRow(rows, row, pick, counted);
    if row.Pooled() && counted(row) {
      var m, key := PoolMax(rows, pick, counted), row.poolKey.value;
      PoolMaxIsTheMaximum(rows, pick, counted, key);
      SumSets(m, key, Max(MaxOf(m, key), pick(row)));
    }
  }

  /** The four figures, each raised by its own amount. */
  function Raised(t: Totals, steady: int, gated: int, withCredits: int, firstMonth: int): Totals {
    Totals(t.steady + steady, t.gated + gated, t.withCredits + withCredits, t.firstMonth + firstMonth)
  }

  /** Every row gains in exactly the figures its regime feeds: steady rows in three, refilling credits in two, one-time credits in one; gated steady rows in their own; nothing else in any. */
  lemma {:induction false} RegimesFeed(models: seq<Row>, row: Row)
    ensures var before, after := TotalsOf(models), TotalsOf(models + [row]);
            var steady := Gain(models, row, MONTHLY, InBucket(SteadyMonthly, false));
            var gated := Gain(models, row, MONTHLY, InBucket(SteadyMonthly, true));
            var credits := Gain(models, row, CREDIT, InBucket(RefillingCredit, false));
            var once := Gain(models, row, CREDIT, InBucket(OneTimeCredit, false));
            match row.freeType
            case RecurringDaily => if row.gated then after == Raised(before, 0, gated, 0, 0) else after == Raised(before, steady, 0, steady, steady)
            case RecurringMonthly => if row.gated then after == Raised(before, 0, gated, 0, 0) else after == Raised(before, steady, 0, steady, steady)
            case Keyless => if row.gated then after == Raised(before, 0, gated, 0, 0) else after == Raised(before, steady, 0, steady, steady)
            case RecurringCredit => if row.gated then after == before else after == Raised(before, 0, 0, credits, credits)
            case OneTimeInitial => if row.gated then after == before else after == Raised(before, 0, 0, 0, once)
            case RecurringUncapped => after == before
            case Discontinued => after == before
  {
    AddingARowGains(models, row, MONTHLY, InBucket(SteadyMonthly, false));
    AddingARowGains(models, row, MONTHLY, InBucket(SteadyMonthly, true));
    AddingARowGains(models, row, CREDIT, InBucket(RefillingCredit, false));
    AddingARowGains(models, row, CREDIT, InBucket(OneTimeCredit, false));
  }

  /** What a row outside every pool of the catalog publishes. */
  function Contribution(row: Row): Totals {
    match row.freeType
    case RecurringDaily => SteadyContribution(row)
    case RecurringMonthly => SteadyContribution(row)
    case Keyless => SteadyContribution(row)
    case RecurringCredit => if row.gated then Totals(0, 0, 0, 0) else Totals(0, 0, row.creditTokens, row.creditTokens)
    case OneTimeInitial => if row.gated then Totals(0, 0, 0, 0) else Totals(0, 0, 0, row.creditTokens)
    case RecurringUncapped => Totals(0, 0, 0, 0)
    case Discontinued => Totals(0, 0, 0, 0)
  }

  function SteadyContribution(row: Row): Totals {
    if row.gated then Totals(0, row.monthlyTokens, 0, 0) else Totals(row.monthlyTokens, 0, row.monthlyTokens, row.monthlyTokens)
  }

  lemma {:induction false} LoneRowContributes(models: seq<Row>, row: Row)
    requires 0 <= row.monthlyTokens && 0 <= row.creditTokens && StandsAlone(models, row)
    ensures var c := Contribution(row);
            TotalsOf(models + [row]) == Raised(TotalsOf(models), c.steady, c.gated, c.withCredits, c.firstMonth)
  {
    RegimesFeed(models, row);
    AddingARowGains(models, row, MONTHLY, InBucket(SteadyMonthly, false));
    AddingARowGains(models, row, MONTHLY, InBucket(SteadyMonthly, true));
    AddingARowGains(models, row, CREDIT, InBucket(RefillingCredit, false));
    AddingARowGains(models, row, CREDIT, InBucket(OneTimeCredit, false));
  }

  lemma {:induction false} KeptOneMore(catalog: seq<Row>, row: Row, exclude: bool)
    ensures Kept(catalog + [row], exclude)
         == if row.enabled && !(exclude && row.tosAvoid) then Kept(catalog, exclude) + [row] else Kept(catalog, exclude)
  {
    assert (catalog + [row])[..|catalog|] == catalog;
  }

  lemma NothingToSum(pick: Pick, counted: Filter)
    ensures Deduped([], pick, counted) == 0
  {
  }

  lemma NoRowsNoTotals(models: seq<Row>)
    requires forall pick: Pick, counted: Filter :: Deduped(models, pick, counted) == 0
    ensures TotalsOf(models) == Totals(0, 0, 0, 0)
  {
  }

  /** An empty catalog publishes nothing. */
  lemma EmptyCatalog(exclude: bool)
    ensures Published([], exclude) == Totals(0, 0, 0, 0)
  {
    forall pick, counted
      ensures Deduped([], pick, counted) == 0
    {
      NothingToSum(pick, counted);
    }
    NoRowsNoTotals([]);
  }

  /** A disabled row, or a forbidden one when those are left out, changes nothing; any other that stands alone adds exactly its contribution. */
  lemma {:induction false} PublishedByRows(catalog: seq<Row>, row: Row, exclude: bool)
    requires 0 <= row.monthlyTokens && 0 <= row.creditTokens
    ensures var before, after, c := Published(catalog, exclude), Published(catalog + [row], exclude), Contribution(row);
            && (!row.enabled || (exclude && row.tosAvoid) ==> after == before)
            && (row.enabled && !(exclude && row.tosAvoid) && StandsAlone(catalog, row) ==>
                  after == Raised(before, c.steady, c.gated, c.withCredits, c.firstMonth))
  {
    KeptOneMore(catalog, row, exclude);
    if StandsAlone(catalog, row) {
      KeptStandsAlone(catalog, exclude, row);
      LoneRowContributes(Kept(catalog, exclude), row);
    }
  }

  lemma {:induction false} KeptStandsAlone(catalog: seq<Row>, exclude: bool, row: Row)
    requires StandsAlone(catalog, row)
    ensures StandsAlone(Kept(catalog, exclude), row)
  {
    forall other | other in Kept(catalog, exclude)
      ensures other in catalog
    {
      KeptIsExact(catalog, exclude, other);
      assert other in multiset(Kept(catalog, exclude));
      assert other in multiset(catalog);
    }
  }

  /** Of every row as many copies are kept as the catalog has, or none when it is disabled or left out. */
  lemma {:induction false} KeptIsExact(catalog: seq<Row>, exclude: bool, row: Row)
    ensures multiset(Kept(catalog, exclude))[row] == if row.enabled && !(exclude && row.tosAvoid) then multiset(catalog)[row] else 0
  {
    if catalog != [] {
      var p, last := catalog[..|catalog| - 1], catalog[|catalog| - 1];
      KeptIsExact(p, exclude, row);
      assert catalog == p + [last];
    }
  }

  /** What a row can add to each figure: its own amount, in the one bucket its regime feeds. */
  function OwnAmount(row: Row): int {
    match TokenBucket(row.freeType)
    case SteadyMonthly => row.monthlyTokens
    case RefillingCredit => row.creditTokens
    case OneTimeCredit => row.creditTokens
    case _ => 0
  }

  /** One more row, with nonnegative amounts, lowers no total and raises each by at most its own amount; a gated row moves only the gated figure. */
  lemma OneMoreRow(models: seq<Row>, row: Row)
    requires 0 <= row.monthlyTokens && 0 <= row.creditTokens
    ensures var before, after := TotalsOf(models), TotalsOf(models + [row]);
            && before.steady <= after.steady <= before.steady + OwnAmount(row)
            && before.gated <= after.gated <= before.gated + OwnAmount(row)
            && before.withCredits <= after.withCredits <= before.withCredits + OwnAmount(row)
            && before.firstMonth <= after.firstMonth <= before.firstMonth + OwnAmount(row)
            && (if row.gated then after == before.(gated := after.gated) else after.gated == before.gated)
  {
    AddingARow(models, row, MONTHLY, InBucket(SteadyMonthly, false));
    AddingARow(models, row, MONTHLY, InBucket(SteadyMonthly, true));
    AddingARow(models, row, CREDIT, InBucket(RefillingCredit, false));
    AddingARow(models, row, CREDIT, InBucket(OneTimeCredit, false));
  }

  /** Steady plus gated covers the deduplicated steady-monthly rows; exact when no pool has positive rows of both kinds. */
  lemma GatedAndSteadyCoverAll(models: seq<Row>)
    ensures var t := TotalsOf(models);
            && Deduped(models, MONTHLY, ALL_STEADY) <= t.steady + t.gated
            && (Deduped(models, MONTHLY, ALL_STEADY) == t.steady + t.gated <==>
                !SharePool(models, models, MONTHLY, InBucket(SteadyMonthly, false), InBucket(SteadyMonthly, true)))
  {
    SplittingTheRows(models, MONTHLY, ALL_STEADY, InBucket(SteadyMonthly, false), InBucket(SteadyMonthly, true));
  }

  /** An ungated and a gated row in one pool: the pool counts once in the deduplicated total and once in each figure. */
  lemma MixedPoolCountsTwice()
    ensures var rows := [Row("a", 5, 0, RecurringMonthly, Some("pool"), false, false, true),
                         Row("b", 3, 0, RecurringMonthly, Some("pool"), false, true, true)];
            Deduped(rows, MONTHLY, ALL_STEADY) < TotalsOf(rows).steady + TotalsOf(rows).gated
  {
    var rows := [Row("a", 5, 0, RecurringMonthly, Some("pool"), false, false, true),
                 Row("b", 3, 0, RecurringMonthly, Some("pool"), false, true, true)];
    var x, y := rows[0], rows[1];
    assert InBucket(SteadyMonthly, false)(x) && InBucket(SteadyMonthly, true)(y) && x.Pooled();
    assert SharePool(rows, rows, MONTHLY, InBucket(SteadyMonthly, false), InBucket(SteadyMonthly, true));
    GatedAndSteadyCoverAll(rows);
  }

  function AndKept(counted: Filter, exclude: bool): Filter {
    (row: Row) => counted(row) && KeepsRow(row, exclude)
  }

  lemma {:induction false} LastRow(rows: seq<Row>, row: Row, pick: Pick, counted: Filter)
    ensures PoolMax(rows + [row], pick, counted) == WithRow(PoolMax(rows, pick, counted), row, pick, counted)
    ensures LooseSum(rows + [row], pick, counted) == LooseSum(rows, pick, counted) + LooseAmount(row, pick, counted)
  {
    assert (rows + [row])[..|rows|] == rows;
  }

  lemma {:induction false} SumsIgnore(rows: seq<Row>, row: Row, pick: Pick, counted: Filter)
    requires !counted(row)
    ensures PoolMax(rows + [row], pick, counted) == PoolMax(rows, pick, counted)
    ensures LooseSum(rows + [row], pick, counted) == LooseSum(rows, pick, counted)
  {
    LastRow(rows, row, pick, counted);
  }

  lemma {:induction false} KeptSumsOneMore(p: seq<Row>, row: Row, exclude: bool, pick: Pick, counted: Filter)
    requires LooseSum(Kept(p, exclude), pick, counted) == LooseSum(p, pick, AndKept(counted, exclude))
    requires PoolMax(Kept(p, exclude), pick, counted) == PoolMax(p, pick, AndKept(counted, exclude))
    ensures LooseSum(Kept(p + [row], exclude), pick, counted) == LooseSum(p + [row], pick, AndKept(counted, exclude))
    ensures PoolMax(Kept(p + [row], exclude), pick, counted) == PoolMax(p + [row], pick, AndKept(counted, exclude))
  {
    KeptOneMore(p, row, exclude);
    if KeepsRow(row, exclude) {
      LastRow(p, row, pick, AndKept(counted, exclude));
      LastRow(Kept(p, exclude), row, pick, counted);
    } else {
      SumsIgnore(p, row, pick, AndKept(counted, exclude));
    }
  }

  /** Summing the kept rows is summing the catalog with the keep test moved into the filter. */
  lemma {:induction false} KeptIsAFilter(catalog: seq<Row>, exclude: bool, pick: Pick, counted: Filter)
    ensures LooseSum(Kept(catalog, exclude), pick, counted) == LooseSum(catalog, pick, AndKept(counted, exclude))
    ensures PoolMax(Kept(catalog, exclude), pick, counted) == PoolMax(catalog, pick, AndKept(counted, exclude))
  {
    if catalog != [] {
      var p, last := catalog[..|catalog| - 1], catalog[|catalog| - 1];
      KeptIsAFilter(p, exclude, pick, counted);
      assert catalog == p + [last];
      KeptSumsOneMore(p, last, exclude, pick, counted);
    }
  }

  lemma ExcludingLowersASum(catalog: seq<Row>, pick: Pick, counted: Filter)
    requires NonNegative(catalog, pick, counted)
    ensures Deduped(Kept(catalog, true), pick, counted) <= Deduped(Kept(catalog, false), pick, counted)
  {
    KeptIsAFilter(catalog, true, pick, counted);
    KeptIsAFilter(catalog, false, pick, counted);
    CountingLess(catalog, pick, AndKept(counted, true), AndKept(counted, false));
  }

  /** Leaving out rows whose terms forbid the use never raises a total. */
  lemma ExcludingNeverRaises(catalog: seq<Row>)
    requires forall row :: row in catalog ==> 0 <= row.monthlyTokens && 0 <= row.creditTokens
    ensures var without, with := TotalsOf(Kept(catalog, true)), TotalsOf(Kept(catalog, false));
            && without.steady <= with.steady && without.gated <= with.gated
            && without.withCredits <= with.withCredits && without.firstMonth <= with.firstMonth
  {
    ExcludingLowersASum(catalog, MONTHLY, InBucket(SteadyMonthly, false));
    ExcludingLowersASum(catalog, MONTHLY, InBucket(SteadyMonthly, true));
    ExcludingLowersASum(catalog, CREDIT, InBucket(RefillingCredit, false));
    ExcludingLowersASum(catalog, CREDIT, InBucket(OneTimeCredit, false));
  }
}
