/**
 * The dashboard's product statistics: the low-stock list sorted by stock,
 * the stock histogram (buckets of a fixed size, plus "Out of stock"), and
 * the products behind the histogram bars a user selects.
 */
module Dashboard {
  import opened JsCore

  /** A product as the dashboard reads it: its availability text and its stock count. */
  datatype Product = Product(title: string, availabilityStatus: string, stock: int)

  // ---------------------------------------------------------------------
  // Array.prototype.sort

  /** No element is "less" than the one before it. */
  predicate AdjacentSorted<T>(s: seq<T>, less: (T, T) -> bool) {
    forall k :: 0 < k < |s| ==> !less(s[k], s[k - 1])
  }

  /**
   * Array.prototype.sort in place, with `less(x, y)` standing for
   * `compare(x, y) < 0`: a stable insertion sort. The comparator only has
   * to be asymmetric (a NaN comparison is never "less").
   */
  method Sort<T(!new)>(a: array<T>, less: (T, T) -> bool)
    requires forall x, y :: less(x, y) ==> !less(y, x)
    modifies a
    ensures AdjacentSorted(a[..], less)
    ensures multiset(a[..]) == multiset(old(a[..]))
  {
    if a.Length == 0 {
      return;
    }
    var i := 1;
    while i < a.Length
      invariant 1 <= i <= a.Length
      invariant AdjacentSorted(a[..i], less)
      invariant multiset(a[..]) == multiset(old(a[..]))
    {
      Insert(a, i, less);
      i := i + 1;
    }
    assert a[..i] == a[..];
  }

  /**
   * The state of Insert while the element that started at i sits at j: the
   * neighbours in s[..i + 1] are in order except around j, and the elements
   * on either side of j are in order with each other.
   */
  predicate InsertState<T>(s: seq<T>, i: nat, j: nat, less: (T, T) -> bool) {
    && i < |s| && j <= i
    && (forall k :: 0 < k <= i && k != j ==> !less(s[k], s[k - 1]))
    && (0 < j < i ==> !less(s[j + 1], s[j - 1]))
  }

  /** One swap of Insert keeps its state, the elements and what lies beyond i. */
  lemma SwapDown<T(!new)>(s: seq<T>, i: nat, j: nat, less: (T, T) -> bool)
    requires forall x, y :: less(x, y) ==> !less(y, x)
    requires InsertState(s, i, j, less) && 0 < j && less(s[j], s[j - 1])
    ensures InsertState(s[j := s[j - 1]][j - 1 := s[j]], i, j - 1, less)
    ensures multiset(s[j := s[j - 1]][j - 1 := s[j]]) == multiset(s)
    ensures s[j := s[j - 1]][j - 1 := s[j]][i + 1..] == s[i + 1..]
  {
    var t := s[j := s[j - 1]][j - 1 := s[j]];
    assert !less(s[j - 1], s[j]);
    forall k | 0 < k <= i && k != j - 1
      ensures !less(t[k], t[k - 1])
    {
      if k == j {
        assert t[k] == s[j - 1] && t[k - 1] == s[j];
      } else if k == j + 1 {
        assert t[k] == s[j + 1] && t[k - 1] == s[j - 1];
      } else {
        assert t[k] == s[k] && t[k - 1] == s[k - 1];
      }
    }
  }

  /** Insert has nothing left to swap: s[..i + 1] is sorted. */
  lemma InsertDone<T>(s: seq<T>, i: nat, j: nat, less: (T, T) -> bool)
    requires InsertState(s, i, j, less) && (j == 0 || !less(s[j], s[j - 1]))
    ensures AdjacentSorted(s[..i + 1], less)
  {
    assert forall k :: 0 < k <= i ==> !less(s[k], s[k - 1]);
  }

  /** Moves a[i] down past every element it is "less" than, keeping a[..i + 1] sorted. */
  method Insert<T(!new)>(a: array<T>, i: nat, less: (T, T) -> bool)
    requires forall x, y :: less(x, y) ==> !less(y, x)
    requires 1 <= i < a.Length && AdjacentSorted(a[..i], less)
    modifies a
    ensures AdjacentSorted(a[..i + 1], less)
    ensures a[i + 1..] == old(a[i + 1..])
    ensures multiset(a[..]) == multiset(old(a[..]))
  {
    assert forall k :: 0 < k < i ==> !less(a[k], a[k - 1]);
    var j := i;
    while j > 0 && less(a[j], a[j - 1])
      invariant InsertState(a[..], i, j, less)
      invariant a[i + 1..] == old(a[i + 1..])
      invariant multiset(a[..]) == multiset(old(a[..]))
    {
      ghost var s := a[..];
      SwapDown(s, i, j, less);
      a[j], a[j - 1] := a[j - 1], a[j];
      assert a[..] == s[j := s[j - 1]][j - 1 := s[j]];
      j := j - 1;
    }
    InsertDone(a[..], i, j, less);
  }

  /** Keys that never decrease between neighbours never decrease at all. */
  lemma {:induction false} AdjacentToGlobal<T>(s: seq<T>, key: T -> int)
    requires forall k :: 0 < k < |s| ==> key(s[k - 1]) <= key(s[k])
    ensures forall i, j :: 0 <= i < j < |s| ==> key(s[i]) <= key(s[j])
  {
    if |s| > 1 {
      var init := s[..|s| - 1];
      AdjacentToGlobal(init, key);
      forall i, j | 0 <= i < j < |s|
        ensures key(s[i]) <= key(s[j])
      {
        if j == |s| - 1 && i < j - 1 {
          assert key(init[i]) <= key(init[j - 1]);
        }
      }
    }
  }

  // ---------------------------------------------------------------------
  // filterStock and sortData

  const LowStockStatus: string := "Low Stock"

  /** The filter step of filterStock. */
  function LowStock(products: seq<Product>): (r: seq<Product>)
    ensures forall p :: p in r <==> p in products && p.availabilityStatus == LowStockStatus
    ensures forall k :: 0 <= k < |r| ==> r[k].availabilityStatus == LowStockStatus
  {
    if products == [] then []
    else (if products[0].availabilityStatus == LowStockStatus then [products[0]] else []) + LowStock(products[1..])
  }

  /** The comparator `(a, b) => b.stock - a.stock` read as "a goes first". */
  predicate StockBefore(x: Product, y: Product) {
    y.stock - x.stock < 0
  }

  function NegatedStock(p: Product): int {
    -p.stock
  }

  /** sortData: sorts in place by stock, largest first. */
  method SortData(a: array<Product>)
    modifies a
    ensures multiset(a[..]) == multiset(old(a[..]))
    ensures forall i, j :: 0 <= i < j < a.Length ==> a[i].stock >= a[j].stock
  {
    Sort(a, StockBefore);
    AdjacentToGlobal(a[..], NegatedStock);
  }

  /** filterStock: exactly the low-stock products, largest stock first. */
  method FilterStock(products: seq<Product>) returns (r: seq<Product>)
    ensures multiset(r) == multiset(LowStock(products))
    ensures forall p :: p in r <==> p in products && p.availabilityStatus == LowStockStatus
    ensures forall i, j :: 0 <= i < j < |r| ==> r[i].stock >= r[j].stock
  {
    var low := LowStock(products);
    var a := new Product[|low|](i requires 0 <= i < |low| => low[i]);
    assert a[..] == low;
    SortData(a);
    r := a[..];
    forall p
      ensures p in r <==> p in low
    {
      assert p in r <==> p in multiset(r);
      assert p in low <==> p in multiset(low);
    }
  }

  // ---------------------------------------------------------------------
  // filterRange

  const OutOfStock: string := "Out of stock"

  /** `Math.floor((v - 1) / size) + 1`; Dafny's division rounds down for a positive divisor. */
  function BucketIndex(v: int, size: nat): int
    requires size >= 1
  {
    (v - 1) / size + 1
  }

  function BucketMin(v: int, size: nat): int
    requires size >= 1
  {
    (BucketIndex(v, size) - 1) * size + 1
  }

  function BucketMax(v: int, size: nat): int
    requires size >= 1
  {
    BucketIndex(v, size) * size
  }

  /** The histogram label of a stock value. */
  function RangeLabel(v: int, size: nat): string
    requires size >= 1
  {
    if v == 0 then OutOfStock else IntToString(BucketMin(v, size)) + "-" + IntToString(BucketMax(v, size))
  }

  /** A positive multiple of size is at least size. */
  lemma {:induction false} MulAtLeast(m: int, size: int)
    requires m >= 1 && size >= 1
    ensures m * size >= size
  {
    if m > 1 {
      MulAtLeast(m - 1, size);
      assert m * size == (m - 1) * size + size;
    }
  }

  /** The sign of a product with a positive size follows the other factor. */
  lemma MulSign(t: int, size: int)
    requires size >= 1
    ensures t >= 1 ==> t * size >= size
    ensures t <= -1 ==> t * size <= -size
  {
    if t >= 1 {
      MulAtLeast(t, size);
    } else if t <= -1 {
      MulAtLeast(-t, size);
      assert (-t) * size == -(t * size);
    }
  }

  /** Division by a positive size is determined by quotient and remainder. */
  lemma DivModUnique(x: int, size: int, q: int, r: int)
    requires size >= 1 && 0 <= r < size && x == q * size + r
    ensures x / size == q && x % size == r
  {
    var d := x / size;
    var m := x % size;
    assert x == d * size + m && 0 <= m < size;
    assert (d - q) * size == r - m;
    MulSign(d - q, size);
  }

  /**
   * A positive stock lies in its bucket, which holds `size` values, starts at
   * 1 or more and on the fixed grid 1, size + 1, 2 * size + 1, ...
   */
  lemma RangeLabelBounds(v: int, size: nat)
    requires v >= 1 && size >= 1
    ensures BucketMin(v, size) <= v <= BucketMax(v, size)
    ensures BucketMax(v, size) - BucketMin(v, size) + 1 == size
    ensures BucketMin(v, size) >= 1
    ensures BucketMin(v, size) % size == 1 % size
  {
    var q := (v - 1) / size;
    assert v - 1 == q * size + (v - 1) % size;
    assert q >= 0;
    assert q * size >= 0;
    assert BucketMax(v, size) == q * size + size;
    if size > 1 {
      DivModUnique(BucketMin(v, size), size, q, 1);
    }
  }

  /** A positive stock falls in the bucket of v exactly when it has v's bucket index. */
  lemma InBucketIff(s: int, v: int, size: nat)
    requires s >= 1 && v >= 1 && size >= 1
    ensures BucketMin(v, size) <= s <= BucketMax(v, size) <==> BucketIndex(s, size) == BucketIndex(v, size)
  {
    RangeLabelBounds(v, size);
    RangeLabelBounds(s, size);
    var q := BucketIndex(v, size) - 1;
    assert BucketMax(v, size) == q * size + size;
    if BucketMin(v, size) <= s <= BucketMax(v, size) {
      DivModUnique(s - 1, size, q, s - 1 - q * size);
    }
  }

  /** Two positive stocks have the same label exactly when they share a bucket. */
  lemma SameLabelSameBucket(v: int, w: int, size: nat)
    requires v >= 1 && w >= 1 && size >= 1
    ensures RangeLabel(v, size) == RangeLabel(w, size) <==> BucketIndex(v, size) == BucketIndex(w, size)
  {
    if RangeLabel(v, size) == RangeLabel(w, size) {
      RangeOfLabel(v, size);
      RangeOfLabel(w, size);
      var x := BucketMin(v, size) - 1;
      assert x == BucketMin(w, size) - 1;
      DivModUnique(x, size, BucketIndex(v, size) - 1, 0);
      DivModUnique(x, size, BucketIndex(w, size) - 1, 0);
    }
  }

  function Labels(products: seq<Product>, size: nat): (r: seq<string>)
    requires size >= 1
    ensures |r| == |products| && forall k :: 0 <= k < |r| ==> r[k] == RangeLabel(products[k].stock, size)
  {
    seq(|products|, k requires 0 <= k < |products| => RangeLabel(products[k].stock, size))
  }

  /** One histogram bar: a label and how many products carry it. */
  datatype Bucket = Bucket(range: string, count: nat)

  /** The bar for each label of keys, counted in m. */
  function Tally(keys: seq<string>, m: multiset<string>): (r: seq<Bucket>)
    ensures |r| == |keys| && forall k :: 0 <= k < |r| ==> r[k] == Bucket(keys[k], m[keys[k]])
  {
    seq(|keys|, k requires 0 <= k < |keys| => Bucket(keys[k], m[keys[k]]))
  }

  /** The bars before sorting: one per distinct label, in first-occurrence order, with its count. */
  function Entries(products: seq<Product>, size: nat): seq<Bucket>
    requires size >= 1
  {
    var labels := Labels(products, size);
    Tally(Dedup(labels), multiset(labels))
  }

  /** `parseInt(range.split("-")[0], 10)`: the start of a numeric label, NaN (None) otherwise. */
  function RangeStart(range: string): Option<int> {
    ParseInt(Split(range, '-')[0])
  }

  /**
   * `parseInt(range.split("-")[1])`: a missing part is undefined, which parses
   * as NaN. The source passes no radix here, so a "0x" prefix would be read as
   * hexadecimal; ParseInt reads decimal, which agrees on every label
   * RangeLabel writes, none of them holding an "x".
   */
  function RangeEnd(range: string): Option<int> {
    var parts := Split(range, '-');
    if |parts| >= 2 then ParseInt(parts[1]) else None
  }

  /** The comparator of filterRange read as "x goes first"; a NaN difference never is. */
  predicate BucketBefore(x: Bucket, y: Bucket) {
    var a := RangeStart(x.range);
    var b := RangeStart(y.range);
    a.Some? && b.Some? && a.value - b.value < 0
  }

  function StartKey(b: Bucket): int {
    RangeStart(b.range).GetOr(0)
  }

  /** A numeric label reads back as its bucket's first and last value. */
  lemma RangeOfLabel(v: int, size: nat)
    requires v >= 1 && size >= 1
    ensures RangeStart(RangeLabel(v, size)) == Some(BucketMin(v, size))
    ensures RangeEnd(RangeLabel(v, size)) == Some(BucketMax(v, size))
  {
    RangeLabelBounds(v, size);
    var lo := NatToString(BucketMin(v, size));
    var hi := NatToString(BucketMax(v, size));
    assert '-' !in lo && '-' !in hi;
    assert RangeLabel(v, size) == lo + ['-'] + hi;
    SplitFirst(lo, '-', hi);
    SplitNoSeparator(hi, '-');
    assert Split(RangeLabel(v, size), '-') == [lo, hi];
    ParseIntOfNatToString(BucketMin(v, size), "");
    ParseIntOfNatToString(BucketMax(v, size), "");
    assert lo + "" == lo && hi + "" == hi;
  }

  lemma OutOfStockHasNoRange()
    ensures RangeStart(OutOfStock) == None && RangeEnd(OutOfStock) == None
  {
    var s := OutOfStock;
    assert s[0] == 'O' && !IsJsWhitespace(s[0]);
    assert '-' !in s;
    SplitNoSeparator(s, '-');
    ParseIntRejects(s);
  }

  /** The dictionary of counts after counting xs one label at a time. */
  function CountMap(xs: seq<string>): map<string, nat> {
    if xs == [] then map[]
    else
      var m := CountMap(xs[..|xs| - 1]);
      var x := xs[|xs| - 1];
      m[x := (if x in m then m[x] else 0) + 1]
  }

  /** The dictionary has a key for each label that occurs, holding its number of occurrences. */
  lemma {:induction false} CountMapCounts(xs: seq<string>)
    ensures forall k :: k in CountMap(xs) <==> k in xs
    ensures forall k :: k in CountMap(xs) ==> CountMap(xs)[k] == multiset(xs)[k]
  {
    if xs != [] {
      var init := xs[..|xs| - 1];
      CountMapCounts(init);
      assert xs == init + [xs[|xs| - 1]];
    }
  }

  /** Counting one more label: a new key is listed at the end, and the label's count goes up by one. */
  lemma CountStep(prev: seq<string>, l: string)
    ensures Dedup(prev + [l]) == if l in CountMap(prev) then Dedup(prev) else Dedup(prev) + [l]
    ensures CountMap(prev + [l]) == CountMap(prev)[l := (if l in CountMap(prev) then CountMap(prev)[l] else 0) + 1]
  {
    assert (prev + [l])[..|prev|] == prev;
    DedupAppend(prev, l);
    DedupMembers(prev);
    CountMapCounts(prev);
  }

  /** The histogram loop: counts per label in a dictionary whose keys keep their insertion order. */
  method CountLabels(labels: seq<string>) returns (keys: seq<string>, counts: map<string, nat>)
    ensures keys == Dedup(labels)
    ensures forall k :: k in counts <==> k in keys
    ensures forall k :: k in counts ==> counts[k] == multiset(labels)[k]
  {
    counts := map[];
    keys := [];
    var n := 0;
    while n < |labels|
      invariant 0 <= n <= |labels|
      invariant keys == Dedup(labels[..n])
      invariant counts == CountMap(labels[..n])
    {
      var l := labels[n];
      ghost var before := counts;
      PrefixStep(labels, n);
      CountStep(labels[..n], l);
      // `!buckets[l]` holds only for a missing key: a present count is at least 1.
      if l !in counts {
        counts := counts[l := 0];
        keys := keys + [l];
      }
      counts := counts[l := counts[l] + 1];
      assert counts == before[l := (if l in before then before[l] else 0) + 1];
      n := n + 1;
    }
    assert labels[..n] == labels;
    CountMapCounts(labels);
    DedupMembers(labels);
  }

  /**
   * filterRange(products, "stock", size): the bars, a permutation of Entries,
   * sorted by the start of their range when every stock is positive.
   */
  method FilterRange(products: seq<Product>, size: nat) returns (r: seq<Bucket>)
    requires size >= 1
    ensures multiset(r) == multiset(Entries(products, size))
    ensures (forall k :: 0 <= k < |products| ==> products[k].stock >= 1) ==>
      forall i, j :: 0 <= i < j < |r| ==> StartKey(r[i]) <= StartKey(r[j])
  {
    var labels := Labels(products, size);
    var keys, counts := CountLabels(labels);
    var a := new Bucket[|keys|](k requires 0 <= k < |keys| => Bucket(keys[k], counts[keys[k]]));
    assert a[..] == Entries(products, size);
    Sort(a, BucketBefore);
    r := a[..];
    if forall k :: 0 <= k < |products| ==> products[k].stock >= 1 {
      SortedBarsAscend(r, products, size);
    }
  }

  /** With positive stocks every bar has a numeric start, so sorted neighbours give a sorted whole. */
  lemma SortedBarsAscend(r: seq<Bucket>, products: seq<Product>, size: nat)
    requires size >= 1
    requires forall k :: 0 <= k < |products| ==> products[k].stock >= 1
    requires multiset(r) == multiset(Entries(products, size))
    requires AdjacentSorted(r, BucketBefore)
    ensures forall i, j :: 0 <= i < j < |r| ==> StartKey(r[i]) <= StartKey(r[j])
  {
    var labels := Labels(products, size);
    var entries := Entries(products, size);
    forall k | 0 <= k < |r|
      ensures RangeStart(r[k].range).Some?
    {
      assert r[k] in multiset(entries);
      var e :| 0 <= e < |entries| && entries[e] == r[k];
      DedupIndexMember(labels, e);
      var m :| 0 <= m < |labels| && labels[m] == r[k].range;
      RangeOfLabel(products[m].stock, size);
    }
    AdjacentToGlobal(r, StartKey);
  }

  function TotalCount(bars: seq<Bucket>): nat {
    if bars == [] then 0 else TotalCount(bars[..|bars| - 1]) + bars[|bars| - 1].count
  }

  lemma {:induction false} TotalCountAppend(xs: seq<Bucket>, ys: seq<Bucket>)
    ensures TotalCount(xs + ys) == TotalCount(xs) + TotalCount(ys)
  {
    if ys == [] {
      assert xs + ys == xs;
    } else {
      TotalCountAppend(xs, ys[..|ys| - 1]);
      assert (xs + ys)[..|xs + ys| - 1] == xs + ys[..|ys| - 1];
    }
  }

  /** A list is its part before i, its element at i and its part after i; without that element it loses one occurrence of it. */
  lemma RemoveAt<T>(ys: seq<T>, i: nat)
    requires i < |ys|
    ensures ys == ys[..i] + [ys[i]] + ys[i + 1..]
    ensures multiset(ys[..i] + ys[i + 1..]) == multiset(ys) - multiset{ys[i]}
  {
    assert ys == ys[..i] + [ys[i]] + ys[i + 1..];
  }

  /** Taking one bar out of the list takes its count off the total. */
  lemma TotalCountRemove(ys: seq<Bucket>, i: nat)
    requires i < |ys|
    ensures TotalCount(ys) == ys[i].count + TotalCount(ys[..i] + ys[i + 1..])
  {
    var x := ys[i];
    RemoveAt(ys, i);
    TotalCountAppend(ys[..i] + [x], ys[i + 1..]);
    TotalCountAppend(ys[..i], [x]);
    TotalCountAppend(ys[..i], ys[i + 1..]);
    assert TotalCount([x]) == x.count by {
      assert [x][..0] == [];
    }
  }

  /** The total does not depend on the order of the bars. */
  lemma {:induction false} TotalCountPermutation(xs: seq<Bucket>, ys: seq<Bucket>)
    requires multiset(xs) == multiset(ys)
    ensures TotalCount(xs) == TotalCount(ys)
    decreases |xs|
  {
    if xs != [] {
      var x := xs[|xs| - 1];
      var init := xs[..|xs| - 1];
      assert xs == init + [x];
      assert x in multiset(ys);
      var i :| 0 <= i < |ys| && ys[i] == x;
      RemoveAt(ys, i);
      assert multiset(init) == multiset(xs) - multiset{x};
      TotalCountPermutation(init, ys[..i] + ys[i + 1..]);
      TotalCountRemove(ys, i);
      assert TotalCount(xs) == TotalCount(init) + x.count;
    } else {
      assert |ys| == |multiset(ys)| == 0;
    }
  }

  /** Counting one more occurrence of x adds one to the total of distinct keys holding x. */
  lemma {:induction false} TallyAddOne(keys: seq<string>, m: multiset<string>, x: string)
    requires Distinct(keys)
    ensures TotalCount(Tally(keys, m + multiset{x})) == TotalCount(Tally(keys, m)) + (if x in keys then 1 else 0)
  {
    if keys != [] {
      var init := keys[..|keys| - 1];
      assert Tally(keys, m + multiset{x})[..|keys| - 1] == Tally(init, m + multiset{x});
      assert Tally(keys, m)[..|keys| - 1] == Tally(init, m);
      TallyAddOne(init, m, x);
      assert x in keys <==> x in init || x == keys[|keys| - 1];
    }
  }

  /** Counting every label once: the totals of the first-occurrence tally add up to the number of labels. */
  lemma {:induction false} TallyTotal(labels: seq<string>)
    ensures TotalCount(Tally(Dedup(labels), multiset(labels))) == |labels|
  {
    if labels != [] {
      var init := labels[..|labels| - 1];
      var x := labels[|labels| - 1];
      assert labels == init + [x];
      assert multiset(labels) == multiset(init) + multiset{x};
      TallyTotal(init);
      DedupDistinct(init);
      DedupMembers(init);
      var d := Dedup(init);
      TallyAddOne(d, multiset(init), x);
      if x !in d {
        assert Dedup(labels) == d + [x];
        assert multiset(init)[x] == 0;
        assert Tally(d + [x], multiset(labels))[..|d|] == Tally(d, multiset(labels));
      }
    }
  }

  /** filterRange accounts for every product once: the bar counts add up to the number of products. */
  lemma FilterRangeCountsAll(r: seq<Bucket>, products: seq<Product>, size: nat)
    requires size >= 1
    requires multiset(r) == multiset(Entries(products, size))
    ensures TotalCount(r) == |products|
    ensures forall k :: 0 <= k < |products| ==> exists b :: b in r && b.range == RangeLabel(products[k].stock, size)
  {
    var labels := Labels(products, size);
    TallyTotal(labels);
    TotalCountPermutation(r, Entries(products, size));
    forall k | 0 <= k < |products|
      ensures exists b :: b in r && b.range == RangeLabel(products[k].stock, size)
    {
      DedupMembers(labels);
      assert labels[k] in Dedup(labels);
      var e :| 0 <= e < |Dedup(labels)| && Dedup(labels)[e] == labels[k];
      var b := Entries(products, size)[e];
      assert b in multiset(r);
    }
  }

  /** The bars carry distinct labels, one per distinct label of the products. */
  lemma EntriesDistinct(products: seq<Product>, size: nat)
    requires size >= 1
    ensures forall i, j :: 0 <= i < j < |Entries(products, size)| ==>
      Entries(products, size)[i].range != Entries(products, size)[j].range
  {
    DedupDistinct(Labels(products, size));
  }

  // ---------------------------------------------------------------------
  // tableShowByRange

  /**
   * The filter of tableShowByRange for one selected bar. Its start is read
   * with RangeStart although the source calls parseInt without a radix
   * there; the two differ only on a "0x" prefix, which no label holds.
   */
  predicate Shown(p: Product, range: string) {
    var lo := RangeStart(range);
    var hi := RangeEnd(range);
    (lo.Some? && hi.Some? && lo.value <= p.stock <= hi.value) || (range == OutOfStock && p.stock == 0)
  }

  /** `products.filter(...)` for one bar. */
  function InRange(products: seq<Product>, range: string): seq<Product> {
    if products == [] then []
    else (if Shown(products[0], range) then [products[0]] else []) + InRange(products[1..], range)
  }

  /** The products listed for a bar are exactly those the bar's filter accepts. */
  lemma {:induction false} InRangeMembers(products: seq<Product>, range: string, p: Product)
    ensures p in InRange(products, range) <==> p in products && Shown(p, range)
  {
    if products != [] {
      InRangeMembers(products[1..], range, p);
      assert products == [products[0]] + products[1..];
    }
  }

  /** The product lists of the selected bars, in selection order. */
  function Listed(products: seq<Product>, selection: seq<string>): seq<seq<Product>> {
    if selection == [] then []
    else Listed(products, selection[..|selection| - 1]) + [InRange(products, selection[|selection| - 1])]
  }

  /** There is one list per selected bar, and list k holds the products of bar k. */
  lemma {:induction false} ListedAt(products: seq<Product>, selection: seq<string>, k: nat)
    requires k < |selection|
    ensures |Listed(products, selection)| == |selection|
    ensures Listed(products, selection)[k] == InRange(products, selection[k])
  {
    var init := selection[..|selection| - 1];
    if k < |init| {
      ListedAt(products, init, k);
      assert init[k] == selection[k];
    } else if |init| > 0 {
      ListedAt(products, init, 0);
    }
  }

  /** tableShowByRange: for each selected bar, the products it stands for. */
  method TableShowByRange(products: seq<Product>, selection: seq<string>) returns (arr: seq<seq<Product>>)
    ensures arr == Listed(products, selection)
  {
    arr := [];
    var n := 0;
    while n < |selection|
      invariant 0 <= n <= |selection|
      invariant arr == Listed(products, selection[..n])
    {
      assert selection[..n + 1][..n] == selection[..n];
      arr := arr + [InRange(products, selection[n])];
      n := n + 1;
    }
    assert selection[..n] == selection;
  }

  /** A numeric label is never the "Out of stock" label. */
  lemma NumericLabelNotOutOfStock(v: int, size: nat)
    requires v >= 1 && size >= 1
    ensures RangeLabel(v, size) != OutOfStock
  {
    RangeOfLabel(v, size);
    OutOfStockHasNoRange();
  }

  /** The numeric bar of v lists the products whose stock lies in v's bucket. */
  lemma ShownInBucket(p: Product, v: int, size: nat)
    requires v >= 1 && size >= 1
    ensures Shown(p, RangeLabel(v, size)) <==> BucketMin(v, size) <= p.stock <= BucketMax(v, size)
  {
    RangeOfLabel(v, size);
    NumericLabelNotOutOfStock(v, size);
  }

  /** The "Out of stock" bar lists the products of zero stock. */
  lemma ShownOutOfStock(p: Product)
    ensures Shown(p, OutOfStock) <==> p.stock == 0
  {
    OutOfStockHasNoRange();
  }

  /**
   * A bar shows exactly the products with its label: for a product of
   * non-negative stock, being listed under the label of v is having the same
   * bar as v. So every product is found under its own bar.
   */
  lemma ShownIffSameLabel(p: Product, v: int, size: nat)
    requires p.stock >= 0 && v >= 0 && size >= 1
    ensures Shown(p, RangeLabel(v, size)) <==> RangeLabel(p.stock, size) == RangeLabel(v, size)
  {
    if v == 0 {
      ShownOutOfStock(p);
      if p.stock != 0 {
        NumericLabelNotOutOfStock(p.stock, size);
      }
    } else {
      ShownInBucket(p, v, size);
      NumericLabelNotOutOfStock(v, size);
      if p.stock == 0 {
        RangeLabelBounds(v, size);
      } else {
        SameLabelSameBucket(p.stock, v, size);
        InBucketIff(p.stock, v, size);
      }
    }
  }

  /** Every product of non-negative stock is among those listed under its own histogram bar. */
  lemma FoundUnderOwnLabel(products: seq<Product>, k: nat, size: nat)
    requires k < |products| && products[k].stock >= 0 && size >= 1
    ensures products[k] in InRange(products, RangeLabel(products[k].stock, size))
  {
    ShownIffSameLabel(products[k], products[k].stock, size);
    InRangeMembers(products, RangeLabel(products[k].stock, size), products[k]);
  }
}
