/** The binary heap of `pqueue.c`.

  The C queue stores `void *` and compares two elements by handing both pointers to a callback.
  Here the pointer is a `Cell<T>`, a mutable memory cell, and the callback is a function of the two
  cells' contents.  A client may therefore change a key behind the queue's back, exactly as in C:
  `Valid` speaks of the contents at the moment it is evaluated.
 */
module PriorityQueue {

  class Cell<T> {
    var v: T

    constructor (v: T)
      ensures this.v == v
    {
      this.v := v;
    }
  }

  type Compare<!T> = (T, T) -> int

  // `cmp(a, b) > 0` means that `a` goes before `b`.
  ghost predicate NotAfter<T>(cmp: Compare<T>, a: T, b: T) {
    cmp(a, b) >= 0
  }

  ghost predicate TotalPreorder<T(!new)>(cmp: Compare<T>) {
    && (forall a, b {:trigger NotAfter(cmp, a, b)} :: cmp(a, b) > 0 <==> cmp(b, a) < 0)
    && (forall a, b, c {:trigger NotAfter(cmp, a, b), NotAfter(cmp, b, c)} ::
          NotAfter(cmp, a, b) && NotAfter(cmp, b, c) ==> NotAfter(cmp, a, c))
  }

  lemma Flip<T(!new)>(cmp: Compare<T>, a: T, b: T)
    requires TotalPreorder(cmp)
    ensures cmp(a, b) > 0 <==> cmp(b, a) < 0
    ensures cmp(a, b) < 0 <==> cmp(b, a) > 0
  {
    var _ := NotAfter(cmp, a, b);
    var _ := NotAfter(cmp, b, a);
  }

  lemma Chain<T(!new)>(cmp: Compare<T>, a: T, b: T, c: T)
    requires TotalPreorder(cmp) && cmp(a, b) >= 0 && cmp(b, c) >= 0
    ensures cmp(a, c) >= 0
  {
    assert NotAfter(cmp, a, b) && NotAfter(cmp, b, c);
    assert NotAfter(cmp, a, c);
  }

  function Parent(i: int): (p: int)
    requires 1 <= i
    ensures 0 <= p < i
  {
    (1 + i) / 2 - 1
  }

  function Left(i: nat): (l: nat)
    ensures i < l && Parent(l) == i
  {
    (1 + i) * 2 - 1
  }

  function Right(i: nat): (r: nat)
    ensures r == Left(i) + 1 && Parent(r) == i
  {
    (1 + i) * 2
  }

  lemma ChildIsLeftOrRight(i: nat, c: int)
    requires 1 <= c && Parent(c) == i
    ensures c == Left(i) || c == Right(i)
  {
  }

  ghost predicate HeapAt<T(!new)>(cmp: Compare<T>, s: seq<T>, i: int)
    requires 1 <= i < |s|
  {
    cmp(s[Parent(i)], s[i]) >= 0
  }

  ghost predicate Heap<T(!new)>(cmp: Compare<T>, s: seq<T>)
  {
    forall i :: 1 <= i < |s| ==> HeapAt(cmp, s, i)
  }

  // Every child of `index` may be compared with the parent of `index`.
  ghost predicate Bridged<T(!new)>(cmp: Compare<T>, s: seq<T>, index: nat)
  {
    forall c {:trigger Parent(c)} :: 1 <= index && 1 <= c < |s| && Parent(c) == index ==>
      cmp(s[Parent(index)], s[c]) >= 0
  }

  // Heap order may be broken between `index` and its parent only.
  ghost predicate HeapButAbove<T(!new)>(cmp: Compare<T>, s: seq<T>, index: nat)
  {
    && index < |s|
    && (forall i :: 1 <= i < |s| && i != index ==> HeapAt(cmp, s, i))
    && Bridged(cmp, s, index)
  }

  // Heap order may be broken between `index` and its children only.
  ghost predicate HeapButBelow<T(!new)>(cmp: Compare<T>, s: seq<T>, index: nat)
  {
    && index <= |s|
    && (forall i :: 1 <= i < |s| && Parent(i) != index ==> HeapAt(cmp, s, i))
    && Bridged(cmp, s, index)
  }

  ghost function Swap<T>(s: seq<T>, i: nat, j: nat): (r: seq<T>)
    requires i < |s| && j < |s|
    ensures |r| == |s|
    ensures multiset(r) == multiset(s)
  {
    assert i != j ==> multiset(s[i := s[j]]) == multiset(s) - multiset{s[i]} + multiset{s[j]};
    s[i := s[j]][j := s[i]]
  }

  lemma {:induction false} RootIsGreatest<T(!new)>(cmp: Compare<T>, s: seq<T>, i: nat)
    requires TotalPreorder(cmp) && Heap(cmp, s) && i < |s|
    ensures cmp(s[0], s[i]) >= 0
  {
    if i > 0 {
      RootIsGreatest(cmp, s, Parent(i));
      assert HeapAt(cmp, s, i);
      Chain(cmp, s[0], s[Parent(i)], s[i]);
    } else {
      Flip(cmp, s[0], s[0]);
    }
  }

  lemma SiftUpStep<T(!new)>(cmp: Compare<T>, s: seq<T>, index: nat)
    requires TotalPreorder(cmp) && HeapButAbove(cmp, s, index)
    requires 1 <= index && cmp(s[Parent(index)], s[index]) < 0
    ensures HeapButAbove(cmp, Swap(s, index, Parent(index)), Parent(index))
  {
    var p := Parent(index);
    var r := Swap(s, index, p);
    Flip(cmp, s[p], s[index]);
    forall i | 1 <= i < |r| && i != p
      ensures HeapAt(cmp, r, i)
    {
      if i != index {
        assert HeapAt(cmp, s, i);
        if Parent(i) == p {
          Chain(cmp, s[index], s[p], s[i]);
        }
      }
    }
    forall c | 1 <= p && 1 <= c < |r| && Parent(c) == p
      ensures cmp(r[Parent(p)], r[c]) >= 0
    {
      assert HeapAt(cmp, s, p);
      if c != index {
        assert HeapAt(cmp, s, c);
        Chain(cmp, s[Parent(p)], s[p], s[c]);
      }
    }
  }

  lemma SiftUpDone<T(!new)>(cmp: Compare<T>, s: seq<T>, index: nat)
    requires HeapButAbove(cmp, s, index) && (index == 0 || HeapAt(cmp, s, index))
    ensures Heap(cmp, s)
  {
  }

  // `iMax` is what heapify selects: `index` itself or the child that beats it and its sibling.
  ghost predicate Selected<T(!new)>(cmp: Compare<T>, s: seq<T>, index: nat, iMax: nat)
  {
    && index <= |s|
    && (forall c {:trigger Parent(c)} :: 1 <= c < |s| && Parent(c) == index ==>
          iMax < |s| && cmp(s[iMax], s[c]) >= 0)
    && (iMax != index ==>
          1 <= iMax < |s| && Parent(iMax) == index && cmp(s[iMax], s[index]) > 0)
  }

  lemma SelectedOfTwo<T(!new)>(cmp: Compare<T>, s: seq<T>, index: nat, first: nat, iMax: nat)
    requires TotalPreorder(cmp) && index <= |s|
    requires first == if Left(index) < |s| && cmp(s[Left(index)], s[index]) > 0 then Left(index) else index
    requires iMax == if Right(index) < |s| && cmp(s[Right(index)], s[first]) > 0 then Right(index) else first
    ensures Selected(cmp, s, index, iMax)
  {
    if Left(index) < |s| {
      var l := s[Left(index)];
      Flip(cmp, l, s[index]);
      Flip(cmp, l, l);
      assert cmp(s[first], l) >= 0;
      Flip(cmp, s[first], s[first]);
      if Right(index) < |s| {
        Flip(cmp, s[Right(index)], s[first]);
        Flip(cmp, s[Right(index)], s[Right(index)]);
      }
      Chain(cmp, s[iMax], s[first], l);
      if iMax == Right(index) && first == Left(index) {
        BeatsBoth(cmp, s[iMax], s[first], s[index]);
      }
    }
    forall c | 1 <= c < |s| && Parent(c) == index
      ensures iMax < |s| && cmp(s[iMax], s[c]) >= 0
    {
      ChildIsLeftOrRight(index, c);
    }
  }

  lemma BeatsBoth<T(!new)>(cmp: Compare<T>, a: T, b: T, c: T)
    requires TotalPreorder(cmp) && cmp(a, b) > 0 && cmp(b, c) > 0
    ensures cmp(a, c) > 0
  {
    Flip(cmp, a, c);
    Flip(cmp, b, c);
    if cmp(c, a) >= 0 {
      Chain(cmp, c, a, b);
    }
  }

  lemma SiftDownStep<T(!new)>(cmp: Compare<T>, s: seq<T>, index: nat, iMax: nat)
    requires TotalPreorder(cmp) && HeapButBelow(cmp, s, index)
    requires Selected(cmp, s, index, iMax) && iMax != index
    ensures HeapButBelow(cmp, Swap(s, index, iMax), iMax)
  {
    var r := Swap(s, index, iMax);
    forall i | 1 <= i < |r| && Parent(i) != iMax
      ensures HeapAt(cmp, r, i)
    {
      if Parent(i) != index {
        assert HeapAt(cmp, s, i);
      }
    }
    forall c | 1 <= c < |r| && Parent(c) == iMax
      ensures cmp(r[Parent(iMax)], r[c]) >= 0
    {
      assert HeapAt(cmp, s, c);
    }
  }

  lemma SiftDownDone<T(!new)>(cmp: Compare<T>, s: seq<T>, index: nat)
    requires HeapButBelow(cmp, s, index) && Selected(cmp, s, index, index)
    ensures Heap(cmp, s)
  {
  }

  lemma HeapWithNewLeaf<T(!new)>(cmp: Compare<T>, s: seq<T>, d: T)
    requires Heap(cmp, s)
    ensures HeapButAbove(cmp, s + [d], |s|)
  {
    forall i | 1 <= i < |s|
      ensures HeapAt(cmp, s + [d], i)
    {
      assert HeapAt(cmp, s, i);
    }
  }

  // The sequence `pqueue_extract` leaves before it calls `heapify`.
  ghost function LastAtRoot<T>(s: seq<T>): (r: seq<T>)
    requires |s| > 0
    ensures |r| == |s| - 1
    ensures multiset(s) == multiset(r) + multiset{s[0]}
  {
    assert s == s[..|s| - 1] + [s[|s| - 1]];
    assert |s| > 1 ==> s[0 := s[|s| - 1]][..|s| - 1] == s[..|s| - 1][0 := s[|s| - 1]];
    s[0 := s[|s| - 1]][..|s| - 1]
  }

  lemma HeapWithLastAtRoot<T(!new)>(cmp: Compare<T>, s: seq<T>)
    requires Heap(cmp, s) && |s| > 0
    ensures HeapButBelow(cmp, LastAtRoot(s), 0)
  {
    var r := LastAtRoot(s);
    forall i | 1 <= i < |r| && Parent(i) != 0
      ensures HeapAt(cmp, r, i)
    {
      assert HeapAt(cmp, s, i);
    }
  }

  lemma RootIsFirst<T(!new)>(cmp: Compare<T>, s: seq<T>)
    requires TotalPreorder(cmp) && Heap(cmp, s) && |s| > 0
    ensures First(cmp, s, s[0])
  {
    forall i | 0 <= i < |s|
      ensures cmp(s[0], s[i]) >= 0
    {
      RootIsGreatest(cmp, s, i);
    }
  }

  // `c` goes before or with every element.
  ghost predicate First<T(!new)>(cmp: Compare<T>, s: seq<T>, c: T)
  {
    forall i :: 0 <= i < |s| ==> cmp(c, s[i]) >= 0
  }

  ghost function Keys<T>(s: seq<Cell<T>>): (ks: seq<T>)
    reads s
    ensures |ks| == |s| && forall i :: 0 <= i < |s| ==> ks[i] == s[i].v
  {
    seq(|s|, i requires 0 <= i < |s| reads s => s[i].v)
  }

  class PQueue<T(!new)> {
    var len: nat
    var max: nat
    var data: array<Cell?<T>>
    const cmp: Compare<T>
    // The queued cells in array order.
    ghost var elems: seq<Cell<T>>

    ghost predicate Shape()
      reads this, data
    {
      && len == |elems| <= max == data.Length
      && 1 <= max
      && (forall i :: 0 <= i < len ==> data[i] == elems[i])
    }

    ghost predicate Valid()
      reads this, data, elems
    {
      && Shape()
      && TotalPreorder(cmp)
      && Heap(cmp, Keys(elems))
    }

    // pqueue_create
    constructor (maxLength: nat, compare: Compare<T>)
      requires 1 <= maxLength
      requires TotalPreorder(compare)
      ensures Valid() && fresh(data)
      ensures elems == [] && max == maxLength && cmp == compare
    {
      len := 0;
      max := maxLength;
      cmp := compare;
      data := new Cell?<T>[maxLength](_ => null);
      elems := [];
    }

    // pqueue_length
    method Length() returns (n: nat)
      requires Shape()
      ensures n == |elems|
    {
      n := len;
    }

    // pqueue_peek
    method Peek() returns (c: Cell?<T>)
      requires Valid()
      ensures c == null <==> elems == []
      ensures c != null ==> c == elems[0] && First(cmp, Keys(elems), c.v)
    {
      c := if len != 0 then data[0] else null;
      if c != null {
        RootIsFirst(cmp, Keys(elems));
      }
    }

    // The `realloc` of pqueue_insert.
    method Grow()
      requires Shape()
      modifies this`data, this`max
      ensures Shape() && fresh(data) && max == 2 * old(max)
    {
      var buf := new Cell?<T>[2 * max](_ => null);
      forall i | 0 <= i < len {
        buf[i] := data[i];
      }
      data := buf;
      max := 2 * max;
    }

    // pqueue_insert; `canGrow` is the outcome of the `realloc` it would need.
    method Insert(d: Cell<T>, canGrow: bool) returns (ok: bool)
      requires Valid()
      modifies this, data
      ensures Valid() && (data == old(data) || fresh(data))
      ensures ok <==> old(len) < old(max) || canGrow
      ensures ok ==> multiset(elems) == multiset(old(elems)) + multiset{d}
      ensures !ok ==> elems == old(elems) && max == old(max) && data == old(data) && data[..] == old(data[..])
      ensures ok ==> if old(len) < old(max) then max == old(max) && data == old(data) else max == 2 * old(max)
    {
      if len >= max {
        if canGrow {
          Grow();
        } else {
          return false;
        }
      }
      SiftUp(d);
      return true;
    }

    method SiftUp(d: Cell<T>)
      requires Valid() && len < max
      modifies this`len, this`elems, data
      ensures Valid()
      ensures multiset(elems) == multiset(old(elems)) + multiset{d}
    {
      ghost var s, keys := elems + [d], Keys(elems) + [d.v];
      HeapWithNewLeaf(cmp, Keys(elems), d.v);
      hide HeapButAbove, Heap, TotalPreorder;
      var index := len;
      len := len + 1;
      while index != 0 && cmp(data[Parent(index)].v, d.v) < 0
        invariant 0 <= index < len == |s| == |keys| <= data.Length == max
        invariant s[index] == d
        invariant forall i :: 0 <= i < len && i != index ==> data[i] == s[i]
        invariant forall i :: 0 <= i < len ==> s[i].v == keys[i]
        invariant HeapButAbove(cmp, keys, index)
        invariant multiset(s) == multiset(old(elems)) + multiset{d}
        decreases index
      {
        SiftUpStep(cmp, keys, index);
        s, keys := Swap(s, index, Parent(index)), Swap(keys, index, Parent(index));
        data[index] := data[Parent(index)];
        index := Parent(index);
      }
      data[index] := d;
      SiftUpDone(cmp, keys, index);
      elems := s;
      assert Keys(elems) == keys;
    }

    method Exchange(i: nat, j: nat)
      requires Shape() && i < len && j < len
      modifies this`elems, data
      ensures Shape() && elems == Swap(old(elems), i, j)
    {
      var tmp := data[i];
      data[i] := data[j];
      data[j] := tmp;
      elems := Swap(elems, i, j);
    }

    // The comparisons at the top of heapify.
    method Select(index: nat, ghost keys: seq<T>) returns (iMax: nat)
      requires Shape() && TotalPreorder(cmp)
      requires keys == Keys(elems) && index <= len
      ensures Selected(cmp, keys, index, iMax)
    {
      iMax := index;
      var left, right := Left(index), Right(index);
      if left < len {
        if cmp(data[left].v, data[iMax].v) > 0 {
          iMax := left;
        }
      }
      ghost var first := iMax;
      if right < len && cmp(data[right].v, data[iMax].v) > 0 {
        iMax := right;
      }
      SelectedOfTwo(cmp, keys, index, first, iMax);
    }

    method Heapify(index: nat, ghost keys: seq<T>)
      requires Shape() && TotalPreorder(cmp)
      requires keys == Keys(elems) && HeapButBelow(cmp, keys, index)
      modifies this`elems, data
      ensures Valid()
      ensures multiset(elems) == multiset(old(elems))
      decreases len - index
    {
      var iMax := Select(index, keys);
      if iMax != index {
        SiftDownStep(cmp, keys, index, iMax);
        Exchange(index, iMax);
        assert Keys(elems) == Swap(keys, index, iMax);
        Heapify(iMax, Swap(keys, index, iMax));
      } else {
        SiftDownDone(cmp, keys, index);
      }
    }

    method MoveLastToRoot()
      requires Shape() && len > 0
      modifies this`len, this`elems, data
      ensures Shape() && elems == LastAtRoot(old(elems))
    {
      data[0] := data[len - 1];
      len := len - 1;
      elems := LastAtRoot(elems);
    }

    // pqueue_extract
    method Extract() returns (c: Cell?<T>)
      requires Valid()
      modifies this`len, this`elems, data
      ensures Valid() && data == old(data)
      ensures c == null <==> old(elems) == []
      ensures c == null ==> elems == []
      ensures c != null ==>
        && old(|elems|) > 0 && c == old(elems[0])
        && multiset(old(elems)) == multiset(elems) + multiset{c}
        && First(cmp, Keys(old(elems)), c.v)
    {
      if len == 0 {
        return null;
      }
      c := Peek();
      ghost var keys := Keys(elems);
      HeapWithLastAtRoot(cmp, keys);
      MoveLastToRoot();
      assert Keys(elems) == LastAtRoot(keys);
      Heapify(0, LastAtRoot(keys));
    }
  }

  ghost predicate SortedDown<T(!new)>(cmp: Compare<T>, s: seq<T>) {
    forall i, j :: 0 <= i < j < |s| ==> cmp(s[i], s[j]) >= 0
  }

  ghost predicate AllBefore<T(!new)>(cmp: Compare<T>, s: seq<T>, t: seq<T>) {
    forall i, j {:trigger s[i], t[j]} :: 0 <= i < |s| && 0 <= j < |t| ==> cmp(s[i], t[j]) >= 0
  }

  lemma FirstThenRest<T(!new)>(cmp: Compare<T>, out: seq<Cell<T>>, s: seq<Cell<T>>, c: Cell<T>, rest: seq<Cell<T>>)
    requires SortedDown(cmp, Keys(out)) && AllBefore(cmp, Keys(out), Keys(s)) && First(cmp, Keys(s), c.v)
    requires multiset(s) == multiset(rest) + multiset{c}
    ensures SortedDown(cmp, Keys(out + [c])) && AllBefore(cmp, Keys(out + [c]), Keys(rest))
    ensures |rest| < |s|
  {
    assert |multiset(s)| == |rest| + 1;
    assert c in multiset(s);
    var k :| 0 <= k < |s| && s[k] == c;
    assert Keys(s)[k] == c.v;
    assert Keys(out + [c]) == Keys(out) + [c.v];
    forall j | 0 <= j < |rest|
      ensures exists i :: 0 <= i < |s| && Keys(s)[i] == Keys(rest)[j]
    {
      assert rest[j] in multiset(s);
      var i :| 0 <= i < |s| && s[i] == rest[j];
      assert Keys(s)[i] == Keys(rest)[j];
    }
  }

  // `out` is what has been extracted so far.
  ghost predicate Drained<T(!new)>(q: PQueue<T>, out: seq<Cell<T>>)
    reads q, q.data, q.elems, out
  {
    && q.Valid()
    && SortedDown(q.cmp, Keys(out))
    && AllBefore(q.cmp, Keys(out), Keys(q.elems))
  }

  method ExtractOnto<T(!new)>(q: PQueue<T>, out: seq<Cell<T>>) returns (more: seq<Cell<T>>)
    requires Drained(q, out) && q.len > 0
    modifies q`len, q`elems, q.data
    ensures Drained(q, more) && q.data == old(q.data)
    ensures multiset(more) + multiset(q.elems) == multiset(out) + multiset(old(q.elems))
    ensures q.len < old(q.len)
  {
    ghost var before := q.elems;
    var top := q.Extract();
    FirstThenRest(q.cmp, out, before, top, q.elems);
    more := out + [top];
  }

  // Extracting until the queue is empty yields everything that was in it, in order.
  method Drain<T(!new)>(q: PQueue<T>) returns (out: seq<Cell<T>>)
    requires q.Valid()
    modifies q`len, q`elems, q.data
    ensures q.Valid() && q.elems == []
    ensures multiset(out) == multiset(old(q.elems))
    ensures SortedDown(q.cmp, Keys(out))
  {
    out := [];
    while q.len != 0
      invariant Drained(q, out) && q.data == old(q.data)
      invariant multiset(out) + multiset(q.elems) == multiset(old(q.elems))
      decreases q.len
    {
      out := ExtractOnto(q, out);
    }
  }
}
