/** The two delay filters, `mave.c` and `mmedian.c`, against windows of the samples since the last reset. */
module DelayFilters {
  import opened Prelude

  // ---- what the filters compute ----

  // The last `len` samples, or all of them.
  function Window(history: seq<int>, len: nat): (w: seq<int>)
    ensures |w| <= len && |w| <= |history|
  {
    if |history| <= len then history else history[|history| - len..]
  }

  lemma WindowMoves(history: seq<int>, len: nat, x: int)
    requires len >= 1
    ensures var w := Window(history, len);
            Window(history + [x], len) == (if |w| < len then w else w[1..]) + [x]
  {
  }

  function Sum(w: seq<int>): int {
    if w == [] then 0 else w[0] + Sum(w[1..])
  }

  function Average(w: seq<int>): int
    requires w != []
  {
    TruncDiv(Sum(w), |w|)
  }

  ghost predicate Ascending(s: seq<int>) {
    forall i, j :: 0 <= i < j < |s| ==> s[i] <= s[j]
  }

  function Insert(s: seq<int>, x: int): seq<int> {
    if s == [] || x <= s[0] then [x] + s else [s[0]] + Insert(s[1..], x)
  }

  function Sort(w: seq<int>): seq<int> {
    if w == [] then [] else Insert(Sort(w[1..]), w[0])
  }

  // The middle value of an ascending list, or the mean of the two middle ones.
  function Middle(s: seq<int>): int
    requires s != []
  {
    if |s| % 2 == 1 then s[|s| / 2] else TruncDiv(s[|s| / 2 - 1] + s[|s| / 2], 2)
  }

  function Median(w: seq<int>): int
    requires w != []
  {
    SortIsSorted(w);
    Middle(Sort(w))
  }

  ghost function Bag(s: seq<int>): multiset<int> {
    multiset(s)
  }

  lemma BagConcat(s: seq<int>, r: seq<int>)
    ensures Bag(s + r) == Bag(s) + Bag(r)
  {
  }

  lemma BagCons(x: int, s: seq<int>)
    ensures Bag([x] + s) == multiset{x} + Bag(s)
  {
  }

  lemma BagTail(s: seq<int>)
    requires s != []
    ensures Bag(s) == multiset{s[0]} + Bag(s[1..])
  {
    assert s == [s[0]] + s[1..];
  }

  lemma BagSize(s: seq<int>)
    ensures |Bag(s)| == |s|
  {
  }

  lemma BagIn(s: seq<int>, i: nat)
    requires i < |s|
    ensures s[i] in Bag(s)
  {
    assert s[i] in s;
  }

  lemma HeadIsLeast(s: seq<int>, x: int)
    requires Ascending(s) && x in Bag(s)
    ensures s != [] && s[0] <= x
  {
    assert x in s;
    var i :| 0 <= i < |s| && s[i] == x;
  }

  lemma AscendingCons(x: int, s: seq<int>)
    requires Ascending(s) && (s == [] || x <= s[0])
    ensures Ascending([x] + s)
  {
  }

  lemma TailIsAscending(s: seq<int>)
    requires Ascending(s) && s != []
    ensures Ascending(s[1..]) && (s[1..] == [] || s[0] <= s[1..][0])
  {
  }

  lemma {:induction false} InsertIsSorted(s: seq<int>, x: int)
    requires Ascending(s)
    ensures Ascending(Insert(s, x)) && Bag(Insert(s, x)) == multiset{x} + Bag(s)
    ensures Insert(s, x) != [] && (Insert(s, x)[0] == x || (s != [] && Insert(s, x)[0] == s[0]))
  {
    hide Bag, Ascending;
    if s == [] || x <= s[0] {
      AscendingCons(x, s);
      BagCons(x, s);
    } else {
      TailIsAscending(s);
      InsertIsSorted(s[1..], x);
      AscendingCons(s[0], Insert(s[1..], x));
      BagCons(s[0], Insert(s[1..], x));
      BagTail(s);
    }
  }

  lemma {:induction false} SortIsSorted(w: seq<int>)
    ensures Ascending(Sort(w)) && Bag(Sort(w)) == Bag(w) && |Sort(w)| == |w|
  {
    if w != [] {
      hide Bag, Ascending;
      SortIsSorted(w[1..]);
      InsertIsSorted(Sort(w[1..]), w[0]);
      BagTail(w);
      BagSize(w);
      BagSize(Sort(w));
    }
  }

  lemma SameTails(s: seq<int>, r: seq<int>)
    requires s != [] && r != [] && s[0] == r[0] && Bag(s) == Bag(r)
    ensures Bag(s[1..]) == Bag(r[1..])
  {
    hide Bag;
    BagTail(s);
    BagTail(r);
    assert Bag(s[1..]) == Bag(s) - multiset{s[0]};
    assert Bag(r[1..]) == Bag(r) - multiset{s[0]};
  }

  // There is only one ascending arrangement.
  lemma {:induction false} AscendingIsUnique(s: seq<int>, r: seq<int>)
    requires Ascending(s) && Ascending(r) && Bag(s) == Bag(r)
    ensures s == r
  {
    hide Bag, Ascending;
    BagSize(s);
    BagSize(r);
    if s != [] {
      BagIn(s, 0);
      BagIn(r, 0);
      HeadIsLeast(r, s[0]);
      HeadIsLeast(s, r[0]);
      SameTails(s, r);
      TailIsAscending(s);
      TailIsAscending(r);
      AscendingIsUnique(s[1..], r[1..]);
      assert s == [s[0]] + s[1..] && r == [r[0]] + r[1..];
    }
  }

  lemma MedianIsMiddle(w: seq<int>, s: seq<int>)
    requires w != [] && Ascending(s) && Bag(s) == Bag(w)
    ensures s != [] && Median(w) == Middle(s)
  {
    hide Bag, Ascending;
    SortIsSorted(w);
    AscendingIsUnique(s, Sort(w));
  }

  ghost predicate Between(w: seq<int>, lo: int, hi: int) {
    forall i :: 0 <= i < |w| ==> lo <= w[i] <= hi
  }

  lemma {:induction false} SumBetween(w: seq<int>, lo: int, hi: int)
    requires Between(w, lo, hi)
    ensures |w| * lo <= Sum(w) <= |w| * hi
  {
    if w != [] {
      assert Between(w[1..], lo, hi) by {
        assert forall i :: 0 <= i < |w[1..]| ==> w[1..][i] == w[i + 1];
      }
      SumBetween(w[1..], lo, hi);
      assert |w| * lo == lo + |w[1..]| * lo && |w| * hi == hi + |w[1..]| * hi;
    }
  }

  lemma {:induction false} ProductNotNegative(n: int, d: nat)
    requires n > 0
    ensures n * d >= 0
  {
    if d > 0 {
      ProductNotNegative(n, d - 1);
      assert n * d == n * (d - 1) + n;
    }
  }

  lemma ProductGrows(n: int, a: int, b: int)
    requires n > 0 && a < b
    ensures n * a + n <= n * b
  {
    var d := b - a - 1;
    ProductNotNegative(n, d);
    assert n * b == n * (a + 1 + d);
  }

  lemma DivisionBetween(sum: int, n: int, lo: int, hi: int)
    requires n > 0 && n * lo <= sum <= n * hi
    ensures lo <= TruncDiv(sum, n) <= hi
  {
    hide TruncDiv;
    var q := TruncDiv(sum, n);
    assert q * n == n * q;
    if q > hi {
      ProductGrows(n, hi, q);
    } else if q < lo {
      ProductGrows(n, q, lo);
    }
  }

  // Neither filter leaves the range of its window.
  lemma FiltersStayBetween(w: seq<int>, lo: int, hi: int)
    requires w != [] && Between(w, lo, hi)
    ensures lo <= Average(w) <= hi && lo <= Median(w) <= hi
  {
    SumBetween(w, lo, hi);
    DivisionBetween(Sum(w), |w|, lo, hi);
    SortIsSorted(w);
    var s := Sort(w);
    forall i | 0 <= i < |s|
      ensures lo <= s[i] <= hi
    {
      BagIn(s, i);
      assert s[i] in w;
    }
  }

  // ---- moving average ----

  lemma {:induction false} SumConcat(a: seq<int>, b: seq<int>)
    ensures Sum(a + b) == Sum(a) + Sum(b)
  {
    if a == [] {
      assert a + b == b;
    } else {
      assert (a + b)[1..] == a[1..] + b;
      SumConcat(a[1..], b);
    }
  }

  function Next(index: nat, len: nat): (r: nat)
    requires index < len
    ensures r == if index + 1 == len then 0 else index + 1
  {
    (1 + index) % len
  }

  // A circular buffer in the order of time: full, it starts at `index`; otherwise it ends there.
  function Live(buffer: seq<int>, cnt: nat, index: nat): seq<int>
    requires cnt <= |buffer| && index <= |buffer|
  {
    if cnt < |buffer| then buffer[..cnt] else buffer[index..] + buffer[..index]
  }

  ghost predicate Circular(buffer: seq<int>, cnt: nat, index: nat, history: seq<int>) {
    && index < |buffer| && cnt <= |buffer| && (cnt < |buffer| ==> index == cnt)
    && Live(buffer, cnt, index) == Window(history, |buffer|)
  }

  // Writing one sample at `index` moves the window.
  lemma CircularMoves(b: seq<int>, cnt: nat, index: nat, history: seq<int>, x: int)
    requires Circular(b, cnt, index, history)
    ensures Circular(b[index := x], if cnt < |b| then cnt + 1 else cnt, Next(index, |b|), history + [x])
    ensures (cnt < |b| <==> |history| < |b|) && cnt == |Window(history, |b|)|
  {
    var n := Next(index, |b|);
    var c := b[index := x];
    WindowMoves(history, |b|, x);
    if cnt < |b| {
      if cnt + 1 == |b| {
        assert c[0..] + c[..0] == b[..cnt] + [x];
      } else {
        assert c[..cnt + 1] == b[..cnt] + [x];
      }
    } else {
      assert (b[index..] + b[..index])[1..] == b[index + 1..] + b[..index];
      if n == 0 {
        assert c[0..] + c[..0] == b[index + 1..] + b[..index] + [x];
      } else {
        assert c[n..] + c[..n] == b[index + 1..] + b[..index] + [x];
      }
    }
  }

  lemma SumOfSplit(b: seq<int>, k: nat)
    requires k <= |b|
    ensures Sum(b) == Sum(b[..k]) + Sum(b[k..])
  {
    assert b == b[..k] + b[k..];
    SumConcat(b[..k], b[k..]);
  }

  lemma {:induction false} SumOfZeros(b: seq<int>)
    requires forall i :: 0 <= i < |b| ==> b[i] == 0
    ensures Sum(b) == 0
  {
    if b != [] {
      SumOfZeros(b[1..]);
    }
  }

  // The sum of a circular buffer whose unused slots are zero.
  lemma SumOfLive(b: seq<int>, cnt: nat, index: nat)
    requires cnt <= |b| && index < |b| && forall i :: cnt <= i < |b| ==> b[i] == 0
    ensures Sum(b) == Sum(Live(b, cnt, index))
  {
    hide Sum;
    if cnt < |b| {
      SumOfSplit(b, cnt);
      SumOfZeros(b[cnt..]);
    } else {
      SumOfSplit(b, index);
      SumConcat(b[index..], b[..index]);
    }
  }

  lemma SumUpdate(b: seq<int>, i: nat, x: int)
    requires i < |b|
    ensures Sum(b[i := x]) == Sum(b) - b[i] + x
  {
    var c := b[i := x];
    assert b == b[..i] + ([b[i]] + b[i + 1..]) && c == b[..i] + ([x] + b[i + 1..]);
    SumConcat(b[..i], [b[i]] + b[i + 1..]);
    SumConcat(b[..i], [x] + b[i + 1..]);
  }

  class MovingAverage {
    const val: array<int>
    var cnt: nat
    var index: nat
    var sum: int
    ghost var history: seq<int>

    ghost predicate Valid()
      reads this, val
    {
      && Circular(val[..], cnt, index, history)
      && (forall i :: cnt <= i < val.Length ==> val[i] == 0)
      && sum == Sum(val[..])
    }

    // The running sum is the sum of the window.
    lemma SumIsWindowSum()
      requires Valid()
      ensures sum == Sum(Window(history, val.Length))
    {
      SumOfLive(val[..], cnt, index);
    }

    constructor (length: nat)
      requires length >= 1
      ensures Valid() && fresh(val) && val.Length == length && history == []
    {
      val := new int[length](_ => 0);
      cnt, index, sum, history := 0, 0, 0, [];
      new;
      SumOfZeros(val[..]);
    }

    // mave_accumulate
    method Accumulate(x: int) returns (r: int)
      requires Valid()
      modifies this`cnt, this`index, this`sum, this`history, val
      ensures Valid() && history == old(history) + [x]
      ensures Window(history, val.Length) != [] && r == Average(Window(history, val.Length))
    {
      hide Next, TruncDiv, Circular;
      ghost var b := val[..];
      CircularParts(b, cnt, index, history);
      CircularMoves(b, cnt, index, history, x);
      SumUpdate(b, index, x);
      sum := sum - val[index];
      val[index] := x;
      assert val[..] == b[index := x];
      index := Next(index, val.Length);
      sum := sum + x;
      if cnt < val.Length {
        cnt := cnt + 1;
      }
      history := history + [x];
      SumIsWindowSum();
      return TruncDiv(sum, cnt);
    }

    // mave_reset
    method Reset()
      requires Valid()
      modifies this`cnt, this`index, this`sum, this`history, val
      ensures Valid() && history == []
    {
      cnt, index, sum, history := 0, 0, 0, [];
      forall i | 0 <= i < val.Length {
        val[i] := 0;
      }
      SumOfZeros(val[..]);
    }
  }

  // ---- moving median ----

  // The slots of a circular buffer from the oldest to the newest.
  function Age(s: nat, index: nat, len: nat): nat {
    if s < index then s + len else s
  }

  // The slot `s` comes before `t`: by value, and the older one first.
  predicate Before(b: seq<int>, index: nat, s: nat, t: nat)
    requires s < |b| && t < |b|
  {
    b[s] < b[t] || (b[s] == b[t] && Age(s, index, |b|) < Age(t, index, |b|))
  }

  ghost predicate Slots(order: seq<int>, n: nat) {
    forall i :: 0 <= i < |order| ==> 0 <= order[i] < n
  }

  // `order` lists slots of the buffer in this order.
  ghost predicate InOrder(order: seq<int>, b: seq<int>, index: nat) {
    && Slots(order, |b|)
    && forall i, j :: 0 <= i < j < |order| ==> Before(b, index, order[i], order[j])
  }

  // The values of the slots.
  function Values(order: seq<int>, b: seq<int>): (v: seq<int>)
    requires Slots(order, |b|)
    ensures |v| == |order| && forall i :: 0 <= i < |v| ==> v[i] == b[order[i]]
  {
    if order == [] then [] else [b[order[0]]] + Values(order[1..], b)
  }

  // `order` is a permutation of the first `n` slots.
  ghost predicate Permutation(order: seq<int>, n: nat) {
    Slots(order, n) && Distinct(order) && |order| == n
  }

  lemma EveryValueListed(order: seq<int>, n: nat, x: nat)
    requires Permutation(order, n) && x < n
    ensures x in order
  {
    if x !in order && n > 1 {
      // Without x there are only n - 1 slots left for n entries.
      var r := seq(n, i requires 0 <= i < n => if order[i] > x then order[i] - 1 else order[i]);
      assert forall i :: 0 <= i < n ==> order[i] in order;
      TooMany(r, n - 1);
    } else if n == 1 {
      assert order[0] == 0;
    }
  }

  // More entries than slots.
  lemma {:induction false} TooMany(r: seq<int>, n: nat)
    requires n >= 1 && Slots(r, n) && |r| == n + 1
    ensures !Distinct(r)
    decreases n
  {
    if n == 1 {
      assert r[0] == r[1];
    } else if Distinct(r) {
      if i :| 0 <= i <= n && r[i] == n - 1 {
        DropOne(r, i, n);
        TooMany(r[..i] + r[i + 1..], n - 1);
      } else {
        DropOne(r, n, n);
        TooMany(r[..n] + r[n + 1..], n - 1);
      }
    }
  }

  lemma DropOne(r: seq<int>, k: nat, n: nat)
    requires k < |r| && n >= 1 && Slots(r, n) && Distinct(r)
    requires forall i :: 0 <= i < |r| && i != k ==> r[i] != n - 1
    ensures Slots(r[..k] + r[k + 1..], n - 1) && Distinct(r[..k] + r[k + 1..])
  {
    var q := r[..k] + r[k + 1..];
    assert forall i :: 0 <= i < |q| ==> q[i] == r[if i < k then i else i + 1];
  }

  lemma {:induction false} ValuesConcat(a: seq<int>, c: seq<int>, b: seq<int>)
    requires Slots(a, |b|) && Slots(c, |b|)
    ensures Slots(a + c, |b|) && Values(a + c, b) == Values(a, b) + Values(c, b)
  {
  }

  lemma ValuesAround(order: seq<int>, k: nat, b: seq<int>)
    requires k < |order| && Slots(order, |b|)
    ensures var rest := order[..k] + order[k + 1..];
            Slots(rest, |b|) && Bag(Values(order, b)) == Bag(Values(rest, b)) + multiset{b[order[k]]}
  {
    var p, q := order[..k], order[k + 1..];
    hide Values;
    ValuesConcat(p, q, b);
    var v, vp, vq := Values(order, b), Values(p, b), Values(q, b);
    var x := [b[order[k]]];
    assert v == vp + x + vq;
    hide Bag;
    BagConcat(vp + x, vq);
    BagConcat(vp, x);
    BagConcat(vp, vq);
    BagOne(b[order[k]]);
  }

  lemma BagOne(x: int)
    ensures Bag([x]) == multiset{x}
  {
  }

  lemma RemoveLastSlot(order: seq<int>, n: nat) returns (k: nat)
    requires Permutation(order, n) && n > 0
    ensures k < |order| && order[k] == n - 1 && Permutation(order[..k] + order[k + 1..], n - 1)
  {
    EveryValueListed(order, n, n - 1);
    k :| 0 <= k < n && order[k] == n - 1;
    DropOne(order, k, n);
  }

  lemma BagMore(b: seq<int>, n: nat)
    requires 0 < n <= |b|
    ensures Bag(b[..n]) == Bag(b[..n - 1]) + multiset{b[n - 1]}
  {
    assert b[..n] == b[..n - 1] + [b[n - 1]];
    BagConcat(b[..n - 1], [b[n - 1]]);
    BagOne(b[n - 1]);
  }

  // The slots in `order` hold the first `n` values.
  ghost predicate Lists(order: seq<int>, b: seq<int>, n: nat) {
    n <= |b| && Slots(order, |b|) && Bag(Values(order, b)) == Bag(b[..n])
  }

  lemma ListsNothing(b: seq<int>)
    ensures Lists([], b, 0)
  {
  }

  lemma ListsOneMore(order: seq<int>, b: seq<int>, n: nat, k: nat)
    requires k < |order| && Slots(order, |b|) && order[k] == n < |b| && Lists(order[..k] + order[k + 1..], b, n)
    ensures Lists(order, b, n + 1)
  {
    hide Bag, Values, Slots;
    ValuesAround(order, k, b);
    BagMore(b, n + 1);
  }

  lemma PermutationSlots(order: seq<int>, n: nat, m: nat)
    requires Permutation(order, n) && n <= m
    ensures Slots(order, m) && (n == 0 ==> order == [])
  {
  }

  // Listing every slot once lists every value once.
  lemma {:induction false} ValuesOfPermutation(order: seq<int>, b: seq<int>, n: nat)
    requires Permutation(order, n) && n <= |b|
    ensures Lists(order, b, n)
    decreases n
  {
    hide Lists, Permutation, Slots, Distinct;
    PermutationSlots(order, n, |b|);
    if n == 0 {
      ListsNothing(b);
    } else {
      var k := RemoveLastSlot(order, n);
      ValuesOfPermutation(order[..k] + order[k + 1..], b, n - 1);
      ListsOneMore(order, b, n - 1, k);
    }
  }

  // When the slot `index` is written, the other slots keep their order of age, and it is the newest.
  lemma AgesKeep(s: nat, t: nat, index: nat, len: nat)
    requires s < len && t < len && index < len && s != index && t != index
    ensures Age(s, index, len) < Age(t, index, len) <==> Age(s, Next(index, len), len) < Age(t, Next(index, len), len)
    ensures Age(s, Next(index, len), len) < Age(index, Next(index, len), len)
  {
  }

  // ... and stay in order.
  lemma RestInOrder(o: seq<int>, b: seq<int>, index: nat, x: int)
    requires index < |b| && InOrder(o, b, index) && index !in o
    ensures InOrder(o, b[index := x], Next(index, |b|))
  {
    var c := b[index := x];
    forall i, j | 0 <= i < j < |o|
      ensures Before(c, Next(index, |b|), o[i], o[j])
    {
      assert o[i] in o && o[j] in o;
      assert Before(b, index, o[i], o[j]);
      AgesKeep(o[i], o[j], index, |b|);
    }
  }

  lemma DropKeepsOrder(o: seq<int>, b: seq<int>, index: nat, k: nat)
    requires k < |o| && InOrder(o, b, index)
    ensures InOrder(o[..k] + o[k + 1..], b, index)
  {
    var q := o[..k] + o[k + 1..];
    assert forall i :: 0 <= i < |q| ==> q[i] == o[if i < k then i else i + 1];
  }

  // `p` is where a sample that is newer than all others belongs.
  ghost predicate Belongs(rest: seq<int>, b: seq<int>, x: int, p: nat)
    requires Slots(rest, |b|)
  {
    && p <= |rest|
    && (forall i :: 0 <= i < p ==> b[rest[i]] <= x)
    && (forall i :: p <= i < |rest| ==> x < b[rest[i]])
  }

  lemma InsertedInOrder(rest: seq<int>, b: seq<int>, slot: nat, p: nat)
    requires slot < |b| && InOrder(rest, b, Next(slot, |b|)) && slot !in rest && Belongs(rest, b, b[slot], p)
    ensures InOrder(rest[..p] + [slot] + rest[p..], b, Next(slot, |b|))
  {
    var q, n := rest[..p] + [slot] + rest[p..], Next(slot, |b|);
    assert |q| == |rest| + 1 && q[p] == slot;
    assert forall i :: 0 <= i < |q| && i != p ==> q[i] == rest[if i < p then i else i - 1];
    forall i, j | 0 <= i < j < |q|
      ensures Before(b, n, q[i], q[j])
    {
      if j == p {
        assert rest[i] in rest;
        AgesKeep(rest[i], rest[i], slot, |b|);
      } else if i != p {
        assert Before(b, n, rest[if i < p then i else i - 1], rest[if j < p then j else j - 1]);
      }
    }
  }

  lemma InsertedIsPermutation(rest: seq<int>, x: nat, p: nat, n: nat)
    requires Slots(rest, n) && Distinct(rest) && |rest| + 1 == n && x < n && x !in rest && p <= |rest|
    ensures Permutation(rest[..p] + [x] + rest[p..], n)
  {
    var q := rest[..p] + [x] + rest[p..];
    assert |q| == |rest| + 1 && q[p] == x;
    assert forall i :: 0 <= i < |q| && i != p ==> q[i] == rest[if i < p then i else i - 1];
    assert forall i :: 0 <= i < |rest| ==> rest[i] in rest;
  }

  lemma OrderedValuesAscend(o: seq<int>, b: seq<int>, index: nat)
    requires InOrder(o, b, index)
    ensures Ascending(Values(o, b))
  {
    var v := Values(o, b);
    forall i, j | 0 <= i < j < |v|
      ensures v[i] <= v[j]
    {
      assert Before(b, index, o[i], o[j]);
    }
  }

  lemma LiveIsBag(b: seq<int>, cnt: nat, index: nat)
    requires cnt <= |b| && index <= |b|
    ensures Bag(Live(b, cnt, index)) == Bag(b[..cnt])
  {
    if cnt == |b| {
      BagConcat(b[index..], b[..index]);
      BagConcat(b[..index], b[index..]);
      assert b[..cnt] == b[..index] + b[index..];
    }
  }

  // The middle of the order list is the median of the window.
  lemma MiddleIsMedian(o: seq<int>, b: seq<int>, cnt: nat, index: nat, history: seq<int>)
    requires Circular(b, cnt, index, history) && Permutation(o, cnt) && InOrder(o, b, index) && cnt > 0
    ensures var w := Window(history, |b|);
            && w != []
            && Median(w) == (if cnt % 2 == 1 then b[o[cnt / 2]] else TruncDiv(b[o[cnt / 2 - 1]] + b[o[cnt / 2]], 2))
  {
    ValuesOfPermutation(o, b, cnt);
    OrderedValuesAscend(o, b, index);
    LiveIsBag(b, cnt, index);
    BagSize(b[..cnt]);
    BagSize(Live(b, cnt, index));
    MedianIsMiddle(Window(history, |b|), Values(o, b));
  }

  class MovingMedian {
    const order: array<int>
    const samples: array<int>
    var cnt: nat
    var index: nat
    ghost var history: seq<int>

    ghost predicate Valid()
      reads this, order, samples
    {
      && order != samples && order.Length == samples.Length
      && Circular(samples[..], cnt, index, history)
      && Permutation(order[..cnt], cnt)
      && InOrder(order[..cnt], samples[..], index)
    }

    // mmedian_create
    constructor (length: nat)
      requires length >= 1
      ensures Valid() && fresh(order) && fresh(samples) && samples.Length == length && history == []
    {
      order := new int[length](_ => 0);
      samples := new int[length](_ => 0);
      cnt, index, history := 0, 0, [];
    }

    // Where the slot that is about to be written stands in the order list.
    method FindOldest() returns (i: nat)
      requires cnt <= order.Length && index in order[..cnt]
      ensures i < cnt && order[i] == index
    {
      ghost var k :| 0 <= k < cnt && order[..cnt][k] == index;
      i := 0;
      while order[i] != index
        invariant 0 <= i <= k
        decreases k - i
      {
        i := i + 1;
      }
    }

    // Take the entry at `k` out of the order list.
    method CloseGap(k: nat)
      requires order != samples && k < cnt <= order.Length
      modifies order
      ensures order[..cnt - 1] == old(order[..cnt])[..k] + old(order[..cnt])[k + 1..]
    {
      ghost var o := order[..cnt];
      var i := k;
      while i + 1 < cnt
        invariant k <= i < cnt
        invariant forall j :: k <= j < i ==> order[j] == o[j + 1]
        invariant forall j :: 0 <= j < k || i <= j < cnt ==> order[j] == o[j]
      {
        order[i] := order[i + 1];
        i := i + 1;
      }
      assert order[..cnt - 1] == o[..k] + o[k + 1..];
    }

    // The loop that makes room for the slot just written: the entries with greater values move up.
    method ShiftUp(n: nat) returns (i: nat)
      requires order != samples && n < order.Length == samples.Length && index < samples.Length
      requires Slots(order[..n], samples.Length)
      modifies order
      ensures i <= n && order[..i] == old(order[..n])[..i] && order[i + 1..n + 1] == old(order[..n])[i..]
      ensures forall j :: i <= j < n ==> samples[old(order[..n])[j]] > samples[index]
      ensures i > 0 ==> samples[old(order[..n])[i - 1]] <= samples[index]
    {
      ghost var rest := order[..n];
      i := n;
      while i > 0 && samples[order[i - 1]] > samples[index]
        invariant 0 <= i <= n
        invariant forall j :: 0 <= j < i ==> order[j] == rest[j]
        invariant forall j :: i < j <= n ==> order[j] == rest[j - 1]
        invariant forall j :: i <= j < n ==> samples[rest[j]] > samples[index]
      {
        order[i] := order[i - 1];
        i := i - 1;
      }
    }

    // Put the slot just written into the order list, whose first `n` entries are the others.
    method InsertNewest(n: nat) returns (ghost p: nat)
      requires order != samples && n < order.Length == samples.Length && index < samples.Length
      requires Slots(order[..n], samples.Length) && Ascending(Values(order[..n], samples[..]))
      modifies order
      ensures Belongs(old(order[..n]), samples[..], samples[index], p)
      ensures order[..n + 1] == old(order[..n])[..p] + [index] + old(order[..n])[p..]
    {
      ghost var rest, b := order[..n], samples[..];
      var i := ShiftUp(n);
      ghost var up := order[i + 1..n + 1];
      order[i] := index;
      p := i;
      assert order[..n + 1] == order[..i] + [index] + order[i + 1..n + 1];
      assert order[i + 1..n + 1] == up;
      BelongsThere(rest, b, samples[index], p);
    }

    lemma BelongsThere(rest: seq<int>, b: seq<int>, x: int, p: nat)
      requires Slots(rest, |b|) && Ascending(Values(rest, b)) && p <= |rest|
      requires forall j :: p <= j < |rest| ==> b[rest[j]] > x
      requires p > 0 ==> b[rest[p - 1]] <= x
      ensures Belongs(rest, b, x, p)
    {
      var v := Values(rest, b);
      hide Values;
      forall i | 0 <= i < p
        ensures b[rest[i]] <= x
      {
        assert v[i] <= v[p - 1];
      }
    }

    // mmedian_sample
    method Sample(x: int) returns (r: int)
      requires Valid()
      modifies this`cnt, this`index, this`history, order, samples
      ensures Valid() && history == old(history) + [x]
      ensures Window(history, samples.Length) != [] && r == Median(Window(history, samples.Length))
    {
      hide Circular, Bag, Before, Window, Median, Next, TruncDiv, InOrder, Permutation, Slots;
      ghost var b, len := samples[..], samples.Length;
      CircularParts(b, cnt, index, history);
      CircularMoves(b, cnt, index, history, x);
      ghost var n := MakeRoom(x);
      ghost var rest := order[..cnt - 1];
      RestFacts(rest, cnt, samples[..], Next(index, len));
      ghost var p := InsertNewest(cnt - 1);
      InsertedInOrder(rest, samples[..], index, p);
      InsertedIsPermutation(rest, index, p, cnt);
      index := Next(index, samples.Length);
      history := history + [x];
      r := MiddleSample();
    }

    lemma RestFacts(rest: seq<int>, n: nat, b: seq<int>, index: nat)
      requires InOrder(rest, b, index) && Slots(rest, n)
      ensures Slots(rest, |b|) && Ascending(Values(rest, b))
    {
      OrderedValuesAscend(rest, b, index);
    }

    // The value that mmedian_sample returns
    method MiddleSample() returns (r: int)
      requires Valid() && cnt > 0
      ensures Window(history, samples.Length) != [] && r == Median(Window(history, samples.Length))
    {
      MiddleIsMedian(order[..cnt], samples[..], cnt, index, history);
      hide Bag, Before, Window, Median, TruncDiv, InOrder;
      if cnt % 2 == 1 {
        return samples[order[cnt / 2]];
      } else {
        return TruncDiv(samples[order[cnt / 2 - 1]] + samples[order[cnt / 2]], 2);
      }
    }

    // The first half of mmedian_sample: the sample is stored, and the order list has the other slots.
    method MakeRoom(x: int) returns (ghost n: nat)
      requires Valid()
      modifies this`cnt, order, samples
      ensures samples[..] == old(samples[..])[index := x]
      ensures n == old(cnt) && cnt == (if n < samples.Length then n + 1 else n) && 0 < cnt && index < cnt
      ensures var rest := order[..cnt - 1];
              && Slots(rest, cnt) && Distinct(rest) && index !in rest
              && InOrder(rest, samples[..], Next(index, samples.Length))
    {
      hide Circular, Before, Permutation, Slots, InOrder, Distinct;
      ghost var b := samples[..];
      CircularParts(b, cnt, index, history);
      ghost var o := order[..cnt];
      n := cnt;
      samples[index] := x;
      assert samples[..] == b[index := x];
      if cnt < samples.Length {
        cnt := cnt + 1;
        UnusedSlot(o, n);
      } else {
        PermutationLists(o, n, index);
        var k := FindOldest();
        CloseGap(k);
        FreedSlot(o, n, b, index, k);
      }
      RestInOrder(order[..cnt - 1], b, index, x);
    }

    // mmedian_reset
    method Reset()
      requires Valid()
      modifies this`cnt, this`index, this`history
      ensures Valid() && history == []
    {
      cnt, index, history := 0, 0, [];
    }
  }

  lemma CircularParts(b: seq<int>, cnt: nat, index: nat, history: seq<int>)
    requires Circular(b, cnt, index, history)
    ensures index < |b| && cnt <= |b| && (cnt < |b| ==> index == cnt)
  {
  }

  lemma UnusedSlot(o: seq<int>, n: nat)
    requires Permutation(o, n)
    ensures |o| == n && n !in o && Slots(o, n + 1) && Distinct(o)
  {
  }

  lemma PermutationLists(o: seq<int>, n: nat, x: nat)
    requires Permutation(o, n) && x < n
    ensures x in o && |o| == n
  {
    EveryValueListed(o, n, x);
  }

  lemma FreedSlot(o: seq<int>, n: nat, b: seq<int>, index: nat, k: nat)
    requires Permutation(o, n) && InOrder(o, b, index) && k < |o| && o[k] == index
    ensures var q := o[..k] + o[k + 1..];
            Slots(q, n) && Distinct(q) && index !in q && InOrder(q, b, index)
  {
    var q := o[..k] + o[k + 1..];
    DropKeepsOrder(o, b, index, k);
    assert forall i :: 0 <= i < |q| ==> q[i] == o[if i < k then i else i + 1];
  }
}
