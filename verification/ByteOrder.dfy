/** Conversion between network and host byte order, in place, on a little-endian host.

  A conversion is a list of fields of a buffer.  The C macros htons, ntohl, and so on are the same
  exchange of bytes in both directions; so is the pair scaled_ns_n2h and scaled_ns_h2n of `tlv.c`,
  although it overwrites eight bytes.
 */
module ByteOrder {
  import opened Prelude

  datatype Field = Swap(off: nat, width: nat) | Scaled(off: nat)

  function Width(f: Field): nat {
    if f.Swap? then f.width else 12
  }

  function End(f: Field): nat {
    f.off + Width(f)
  }

  predicate Covers(f: Field, i: int) {
    f.off <= i < End(f)
  }

  // The byte that the conversion of `f` alone puts at `i`.
  function Place(b: seq<Octet>, f: Field, i: int): Octet
    requires End(f) <= |b| && Covers(f, i)
  {
    if f.Swap? then b[2 * f.off + f.width - 1 - i]
    else
      var k := i - f.off;
      if k == 0 then b[f.off + 1]
      else if k == 1 then b[f.off]
      else if k < 8 then 0
      else if k == 8 then b[f.off]
      else if k == 9 then b[f.off + 1]
      else if k == 10 then b[f.off + 11]
      else b[f.off + 10]
  }

  // The fields lie between `lo` and `hi`, one after the other.
  predicate Ordered(fs: seq<Field>, lo: nat, hi: nat) {
    if fs == [] then lo <= hi
    else lo <= fs[0].off && Ordered(fs[1..], End(fs[0]), hi)
  }

  predicate Fit(fs: seq<Field>, n: nat) {
    forall k :: 0 <= k < |fs| ==> End(fs[k]) <= n
  }

  function ByteAt(b: seq<Octet>, fs: seq<Field>, i: nat): Octet
    requires Fit(fs, |b|) && i < |b|
  {
    if fs == [] then b[i]
    else if Covers(fs[0], i) then Place(b, fs[0], i)
    else ByteAt(b, fs[1..], i)
  }

  // The buffer with every field converted.
  function Converted(b: seq<Octet>, fs: seq<Field>): (r: seq<Octet>)
    requires Fit(fs, |b|)
    ensures |r| == |b| && forall i :: 0 <= i < |b| ==> r[i] == ByteAt(b, fs, i)
  {
    seq(|b|, i requires 0 <= i < |b| => ByteAt(b, fs, i))
  }

  lemma {:induction false} OrderedFit(fs: seq<Field>, lo: nat, hi: nat)
    requires Ordered(fs, lo, hi)
    ensures lo <= hi && Fit(fs, hi)
    ensures forall k :: 0 <= k < |fs| ==> lo <= fs[k].off
  {
    if fs != [] {
      OrderedFit(fs[1..], End(fs[0]), hi);
    }
  }

  lemma {:induction false} OrderedWithin(fs: seq<Field>, lo: nat, hi: nat, lo': nat, hi': nat)
    requires Ordered(fs, lo, hi) && lo' <= lo && hi <= hi'
    ensures Ordered(fs, lo', hi')
  {
    if fs != [] {
      OrderedWithin(fs[1..], End(fs[0]), hi, End(fs[0]), hi');
    }
  }

  lemma {:induction false} OrderedConcat(fs: seq<Field>, gs: seq<Field>, lo: nat, mid: nat, hi: nat)
    requires Ordered(fs, lo, mid) && Ordered(gs, mid, hi)
    ensures Ordered(fs + gs, lo, hi)
  {
    if fs == [] {
      assert fs + gs == gs;
      OrderedWithin(gs, mid, hi, lo, hi);
    } else {
      OrderedConcat(fs[1..], gs, End(fs[0]), mid, hi);
      assert (fs + gs)[1..] == fs[1..] + gs;
    }
  }

  lemma OrderedOne(a: Field, lo: nat, hi: nat)
    requires lo <= a.off && End(a) <= hi
    ensures Ordered([a], lo, hi)
  {
    assert [a][1..] == [];
  }

  lemma OrderedTwo(a: Field, b: Field, lo: nat, hi: nat)
    requires lo <= a.off && End(a) <= b.off && End(b) <= hi
    ensures Ordered([a, b], lo, hi) && Ordered([a], lo, hi) && Ordered([], lo, hi)
  {
    assert [a, b][1..] == [b] && [b][1..] == [];
  }

  lemma OrderedFour(a: Field, b: Field, c: Field, d: Field, lo: nat, hi: nat)
    requires lo <= a.off && End(a) <= b.off && End(b) <= c.off && End(c) <= d.off && End(d) <= hi
    ensures Ordered([a, b, c, d], lo, hi)
  {
    assert [a, b, c, d][1..] == [b, c, d] && [b, c, d][1..] == [c, d] && [c, d][1..] == [d] && [d][1..] == [];
    assert Ordered([c, d], End(b), hi);
  }

  // A byte outside every field stays.
  lemma {:induction false} Outside(b: seq<Octet>, fs: seq<Field>, i: nat)
    requires Fit(fs, |b|) && i < |b|
    requires forall k :: 0 <= k < |fs| ==> !Covers(fs[k], i)
    ensures ByteAt(b, fs, i) == b[i]
  {
    if fs != [] {
      assert !Covers(fs[0], i);
      forall k | 0 <= k < |fs[1..]|
        ensures !Covers(fs[1..][k], i)
      {
        assert fs[1..][k] == fs[k + 1];
      }
      Outside(b, fs[1..], i);
    }
  }

  // A byte inside a field depends on that field alone.
  lemma {:induction false} Inside(b: seq<Octet>, fs: seq<Field>, lo: nat, hi: nat, k: nat, i: nat)
    requires Fit(fs, |b|) && Ordered(fs, lo, hi) && k < |fs| && Covers(fs[k], i)
    ensures ByteAt(b, fs, i) == Place(b, fs[k], i)
  {
    if k > 0 {
      OrderedFit(fs[1..], End(fs[0]), hi);
      assert fs[k] == fs[1..][k - 1] && fs[k].off >= End(fs[0]);
      Inside(b, fs[1..], End(fs[0]), hi, k - 1, i);
    }
  }

  // A scaled-nanoseconds field survives the two conversions: its high half repeats in the last bytes
  // of the low half, and the rest of that is zero.
  predicate ScaledKept(b: seq<Octet>, f: Field)
    requires End(f) <= |b|
  {
    f.Scaled? ==>
      && (forall k :: f.off + 2 <= k < f.off + 8 ==> b[k] == 0)
      && b[f.off + 8] == b[f.off + 1] && b[f.off + 9] == b[f.off]
  }

  lemma FieldTwice(b: seq<Octet>, c: seq<Octet>, f: Field)
    requires |c| == |b| && End(f) <= |b|
    requires forall i :: Covers(f, i) ==> c[i] == Place(b, f, i)
    ensures (forall i :: Covers(f, i) ==> Place(c, f, i) == b[i]) <==> ScaledKept(b, f)
  {
    if f.Scaled? {
      assert forall i :: f.off + 2 <= i < f.off + 8 ==> Place(c, f, i) == 0;
      assert Place(c, f, f.off + 8) == c[f.off] == b[f.off + 1];
      assert Place(c, f, f.off + 9) == c[f.off + 1] == b[f.off];
      assert Covers(f, f.off + 8) && Covers(f, f.off + 9);
      assert Place(c, f, f.off) == b[f.off] && Place(c, f, f.off + 1) == b[f.off + 1];
      assert Place(c, f, f.off + 10) == b[f.off + 10] && Place(c, f, f.off + 11) == b[f.off + 11];
      forall i | Covers(f, i) && ScaledKept(b, f)
        ensures Place(c, f, i) == b[i]
      {
      }
      if forall i :: Covers(f, i) ==> Place(c, f, i) == b[i] {
        forall k | f.off + 2 <= k < f.off + 8
          ensures b[k] == 0
        {
          assert Covers(f, k) && Place(c, f, k) == 0;
        }
      }
    }
  }

  // Converting twice gives the buffer back exactly when every scaled-nanoseconds field survives it.
  lemma ConvertedTwice(b: seq<Octet>, fs: seq<Field>, lo: nat, hi: nat)
    requires Ordered(fs, lo, hi) && hi <= |b| && Fit(fs, |b|)
    ensures Converted(Converted(b, fs), fs) == b <==> forall k :: 0 <= k < |fs| ==> ScaledKept(b, fs[k])
  {
    var c := Converted(b, fs);
    var d := Converted(c, fs);
    forall k | 0 <= k < |fs|
      ensures (forall i :: Covers(fs[k], i) ==> d[i] == b[i]) <==> ScaledKept(b, fs[k])
    {
      forall i | Covers(fs[k], i)
        ensures c[i] == Place(b, fs[k], i) && d[i] == Place(c, fs[k], i)
      {
        Inside(b, fs, lo, hi, k, i);
        Inside(c, fs, lo, hi, k, i);
      }
      FieldTwice(b, c, fs[k]);
    }
    forall i | 0 <= i < |b| && forall k :: 0 <= k < |fs| ==> !Covers(fs[k], i)
      ensures d[i] == b[i]
    {
      Outside(b, fs, i);
      Outside(c, fs, i);
    }
    if forall k :: 0 <= k < |fs| ==> ScaledKept(b, fs[k]) {
      forall i | 0 <= i < |b|
        ensures d[i] == b[i]
      {
        if k :| 0 <= k < |fs| && Covers(fs[k], i) {
          assert ScaledKept(b, fs[k]);
        }
      }
    }
  }

  // Such a value: one nanosecond comes back as none.
  lemma ScaledIsLost()
    ensures var b: seq<Octet> := [0, 0, 0, 0, 0, 0, 0, 0, 0, 1, 0, 0];
            Fit([Scaled(0)], |b|) && Converted(Converted(b, [Scaled(0)]), [Scaled(0)]) != b
  {
    var b: seq<Octet> := [0, 0, 0, 0, 0, 0, 0, 0, 0, 1, 0, 0];
    OrderedOne(Scaled(0), 0, 12);
    ConvertedTwice(b, [Scaled(0)], 0, 12);
    assert !ScaledKept(b, [Scaled(0)][0]);
  }

  // ---- one field after the other ----

  lemma {:induction false} ByteAtConcat(b: seq<Octet>, fs: seq<Field>, gs: seq<Field>, i: nat)
    requires Fit(fs, |b|) && Fit(gs, |b|) && i < |b|
    ensures Fit(fs + gs, |b|)
    ensures ByteAt(b, fs + gs, i) ==
            if exists k :: 0 <= k < |fs| && Covers(fs[k], i) then ByteAt(b, fs, i) else ByteAt(b, gs, i)
  {
    if fs == [] {
      assert fs + gs == gs;
    } else {
      assert (fs + gs)[1..] == fs[1..] + gs;
      assert forall k :: 0 <= k < |fs[1..]| ==> fs[1..][k] == fs[k + 1];
      ByteAtConcat(b, fs[1..], gs, i);
      if !Covers(fs[0], i) {
        assert (exists k :: 0 <= k < |fs| && Covers(fs[k], i)) <==>
               (exists k :: 0 <= k < |fs[1..]| && Covers(fs[1..][k], i)) by {
          if k :| 0 <= k < |fs| && Covers(fs[k], i) {
            assert fs[1..][k - 1] == fs[k];
          }
        }
      }
    }
  }

  // One structure after the other.
  lemma ConvertedConcat(b: seq<Octet>, fs: seq<Field>, gs: seq<Field>, lo: nat, mid: nat, hi: nat)
    requires Ordered(fs, lo, mid) && Ordered(gs, mid, hi) && hi <= |b|
    ensures Fit(fs, |b|) && Fit(gs, |b|) && Fit(fs + gs, |b|)
    ensures Converted(Converted(b, fs), gs) == Converted(b, fs + gs)
  {
    OrderedFit(fs, lo, mid);
    OrderedFit(gs, mid, hi);
    var c := Converted(b, fs);
    forall i | 0 <= i < |b|
      ensures ByteAt(c, gs, i) == ByteAt(b, fs + gs, i)
    {
      ByteAtConcat(b, fs, gs, i);
      if j :| 0 <= j < |gs| && Covers(gs[j], i) {
        Inside(b, gs, mid, hi, j, i);
        Inside(c, gs, mid, hi, j, i);
        forall n | Covers(gs[j], n)
          ensures c[n] == b[n]
        {
          Outside(b, fs, n);
        }
      } else {
        Outside(c, gs, i);
        Outside(b, gs, i);
        if forall k :: 0 <= k < |fs| ==> !Covers(fs[k], i) {
          Outside(b, fs, i);
        }
      }
    }
    assert Fit(fs + gs, |b|) by {
      assert forall k :: 0 <= k < |fs + gs| ==> (fs + gs)[k] == if k < |fs| then fs[k] else gs[k - |fs|];
    }
  }

  predicate Apart(f: Field, g: Field) {
    End(f) <= g.off || End(g) <= f.off
  }

  ghost predicate AllApart(fs: seq<Field>, f: Field) {
    forall k :: 0 <= k < |fs| ==> Apart(fs[k], f)
  }

  // Converting one more field, apart from the others, is converting them all.
  lemma OneMoreField(b: seq<Octet>, fs: seq<Field>, f: Field)
    requires Fit(fs, |b|) && End(f) <= |b| && AllApart(fs, f)
    ensures Fit([f], |b|) && Fit(fs + [f], |b|) && Fit([f] + fs, |b|)
    ensures Converted(Converted(b, fs), [f]) == Converted(b, fs + [f]) == Converted(b, [f] + fs)
  {
    var c := Converted(b, fs);
    forall i | 0 <= i < |b|
      ensures ByteAt(c, [f], i) == ByteAt(b, fs + [f], i) == ByteAt(b, [f] + fs, i)
    {
      ByteAtConcat(b, fs, [f], i);
      ByteAtConcat(b, [f], fs, i);
      if Covers(f, i) {
        forall j | Covers(f, j)
          ensures c[j] == b[j]
        {
          assert forall k :: 0 <= k < |fs| ==> Apart(fs[k], f);
          Outside(b, fs, j);
        }
        assert forall k :: 0 <= k < |fs| ==> Apart(fs[k], f);
        assert ByteAt(c, [f], i) == Place(c, f, i) == Place(b, f, i);
        assert Covers([f][0], i);
        assert forall k :: 0 <= k < |fs| ==> !Covers(fs[k], i);
      } else {
        assert !Covers([f][0], i);
        Outside(c, [f], i);
        if forall k :: 0 <= k < |fs| ==> !Covers(fs[k], i) {
          Outside(b, fs, i);
          Outside(b, [f], i);
        }
      }
    }
  }

  function Shift(fs: seq<Field>, d: nat): (r: seq<Field>)
    ensures |r| == |fs|
    ensures forall k :: 0 <= k < |fs| ==>
              r[k] == (if fs[k].Swap? then Swap(fs[k].off + d, fs[k].width) else Scaled(fs[k].off + d))
  {
    if fs == [] then []
    else [if fs[0].Swap? then Swap(fs[0].off + d, fs[0].width) else Scaled(fs[0].off + d)] + Shift(fs[1..], d)
  }

  lemma {:induction false} OrderedShift(fs: seq<Field>, lo: nat, hi: nat, d: nat)
    requires Ordered(fs, lo, hi)
    ensures Ordered(Shift(fs, d), lo + d, hi + d)
  {
    if fs != [] {
      OrderedShift(fs[1..], End(fs[0]), hi, d);
      assert Shift(fs, d)[1..] == Shift(fs[1..], d);
    }
  }

  // Converting a part of a buffer.
  lemma {:induction false} ByteAtShift(b: seq<Octet>, fs: seq<Field>, lo: nat, hi: nat, i: nat)
    requires lo <= hi <= |b| && Fit(fs, hi - lo) && i < |b|
    ensures Fit(Shift(fs, lo), |b|)
    ensures ByteAt(b, Shift(fs, lo), i) == if lo <= i < hi then ByteAt(b[lo..hi], fs, i - lo) else b[i]
  {
    if fs != [] {
      assert Shift(fs, lo)[1..] == Shift(fs[1..], lo);
      assert Fit(fs[1..], hi - lo) by {
        assert forall k :: 0 <= k < |fs[1..]| ==> fs[1..][k] == fs[k + 1];
      }
      ByteAtShift(b, fs[1..], lo, hi, i);
      assert End(fs[0]) <= hi - lo;
    }
  }

  lemma ConvertedPart(b: seq<Octet>, fs: seq<Field>, lo: nat, hi: nat)
    requires lo <= hi <= |b| && Fit(fs, hi - lo)
    ensures Fit(Shift(fs, lo), |b|)
    ensures Converted(b, Shift(fs, lo)) == b[..lo] + Converted(b[lo..hi], fs) + b[hi..]
  {
    ShiftFits(fs, lo, hi, |b|);
    forall i | 0 <= i < |b|
      ensures Converted(b, Shift(fs, lo))[i] == (b[..lo] + Converted(b[lo..hi], fs) + b[hi..])[i]
    {
      ByteAtShift(b, fs, lo, hi, i);
    }
  }

  lemma ShiftFits(fs: seq<Field>, lo: nat, hi: nat, n: nat)
    requires lo <= hi <= n && Fit(fs, hi - lo)
    ensures Fit(Shift(fs, lo), n)
  {
    forall k | 0 <= k < |fs|
      ensures End(Shift(fs, lo)[k]) <= n
    {
      assert End(fs[k]) <= hi - lo;
    }
  }

  // ---- what the conversion means ----

  // The number the bytes stand for on the wire.
  function NetValue(s: seq<Octet>): nat {
    if s == [] then 0 else 256 * NetValue(s[..|s| - 1]) + s[|s| - 1]
  }

  // The number the host reads.
  function HostValue(s: seq<Octet>): nat {
    if s == [] then 0 else s[0] + 256 * HostValue(s[1..])
  }

  function Net16(s: seq<Octet>, off: nat): nat
    requires off + 2 <= |s|
  {
    256 * (s[off] as int) + s[off + 1]
  }

  function Host16(s: seq<Octet>, off: nat): nat
    requires off + 2 <= |s|
  {
    s[off] as int + 256 * (s[off + 1] as int)
  }

  lemma {:induction false} ReverseReads(s: seq<Octet>, r: seq<Octet>)
    requires |r| == |s| && forall i :: 0 <= i < |s| ==> r[i] == s[|s| - 1 - i]
    ensures HostValue(r) == NetValue(s)
  {
    if s != [] {
      ReverseReads(s[..|s| - 1], r[1..]);
    }
  }

  // After the conversion the host reads from a field the number that was received in it.
  lemma ConvertedReads(b: seq<Octet>, fs: seq<Field>, lo: nat, hi: nat, k: nat)
    requires Ordered(fs, lo, hi) && Fit(fs, |b|) && k < |fs| && fs[k].Swap?
    ensures var f := fs[k];
            HostValue(Converted(b, fs)[f.off..End(f)]) == NetValue(b[f.off..End(f)])
  {
    var f := fs[k];
    var s, r := b[f.off..End(f)], Converted(b, fs)[f.off..End(f)];
    forall i | 0 <= i < |s|
      ensures r[i] == s[|s| - 1 - i]
    {
      Inside(b, fs, lo, hi, k, f.off + i);
    }
    ReverseReads(s, r);
  }

  // Of a scaled-nanoseconds field the host reads the high half and the fraction as they were sent, and instead of
  // the low half, in the byte order of the wire, the high half once more.
  lemma ScaledReads(b: seq<Octet>, fs: seq<Field>, lo: nat, hi: nat, k: nat)
    requires Ordered(fs, lo, hi) && Fit(fs, |b|) && k < |fs| && fs[k].Scaled?
    ensures var off, c := fs[k].off, Converted(b, fs);
            && off + 12 <= |b|
            && Host16(c, off) == Net16(b, off) && Host16(c, off + 10) == Net16(b, off + 10)
            && NetValue(c[off + 2..off + 10]) == Net16(b, off)
  {
    var off, c := fs[k].off, Converted(b, fs);
    forall i | off <= i < off + 12
      ensures c[i] == Place(b, fs[k], i)
    {
      Inside(b, fs, lo, hi, k, i);
    }
    hide ByteAt;
    assert c[off] == b[off + 1] && c[off + 1] == b[off] && c[off + 10] == b[off + 11] && c[off + 11] == b[off + 10];
    var s := c[off + 2..off + 10];
    assert s[6] == b[off] && s[7] == b[off + 1];
    assert s[0] == c[off + 2] && s[1] == c[off + 3] && s[2] == c[off + 4] && s[3] == c[off + 5] && s[4] == c[off + 6] &&
           s[5] == c[off + 7];
    LeadingZeros(s, 6);
  }

  lemma {:induction false} LeadingZeros(s: seq<Octet>, n: nat)
    requires n <= |s| <= n + 2 && forall i :: 0 <= i < n ==> s[i] == 0
    ensures NetValue(s) == if |s| == n + 2 then 256 * s[n] + s[n + 1] else if |s| == n + 1 then s[n] as int else 0
    decreases |s|
  {
    if |s| > n {
      LeadingZeros(s[..|s| - 1], n);
    } else if n > 0 {
      LeadingZeros(s[..|s| - 1], n - 1);
    }
  }

  // ---- in place ----

  method ConvertField(a: array<Octet>, f: Field)
    requires End(f) <= a.Length
    modifies a
    ensures Fit([f], a.Length) && a[..] == Converted(old(a[..]), [f])
  {
    var b := a[..];
    forall i | f.off <= i < End(f) {
      a[i] := Place(b, f, i);
    }
    assert [f][1..] == [];
    assert forall i :: 0 <= i < a.Length ==> a[i] == ByteAt(b, [f], i);
  }

  ghost predicate IsConverted(a: seq<Octet>, b: seq<Octet>, fs: seq<Field>) {
    Fit(fs, |b|) && a == Converted(b, fs)
  }

  lemma ConvertStep(b: seq<Octet>, fs: seq<Field>, lo: nat, hi: nat, k: nat)
    requires Ordered(fs, lo, hi) && Fit(fs, |b|) && k < |fs|
    ensures Fit(fs[..k], |b|) && Fit([fs[k]], |b|) && Fit(fs[..k + 1], |b|)
    ensures Converted(Converted(b, fs[..k]), [fs[k]]) == Converted(b, fs[..k + 1])
  {
    OrderedApart(fs, lo, hi, k);
    hide ByteAt, Ordered;
    assert fs[..k + 1] == fs[..k] + [fs[k]];
    OneMoreField(b, fs[..k], fs[k]);
  }

  lemma NotYetConverted(b: seq<Octet>)
    ensures IsConverted(b, b, [])
  {
  }

  // The fields of a structure that starts at `base`.
  method ConvertFields(a: array<Octet>, base: nat, fs: seq<Field>, ghost size: nat)
    requires Ordered(fs, 0, size) && base + size <= a.Length
    modifies a
    ensures IsConverted(a[..], old(a[..]), Shift(fs, base))
  {
    ghost var b := a[..];
    ghost var gs := Shift(fs, base);
    OrderedFit(fs, 0, size);
    ShiftFits(fs, base, base + size, a.Length);
    OrderedShift(fs, 0, size, base);
    NotYetConverted(b);
    hide Ordered, Place, ByteAt;
    assert gs[..0] == [];
    var k := 0;
    while k < |fs|
      invariant 0 <= k <= |fs| && IsConverted(a[..], b, gs[..k])
    {
      var f := if fs[k].Swap? then Swap(fs[k].off + base, fs[k].width) else Scaled(fs[k].off + base);
      ConvertStep(b, gs, base, base + size, k);
      ConvertField(a, f);
      k := k + 1;
    }
    assert gs[..k] == gs;
  }

  lemma {:induction false} OrderedApart(fs: seq<Field>, lo: nat, hi: nat, k: nat)
    requires Ordered(fs, lo, hi) && k < |fs|
    ensures AllApart(fs[..k], fs[k])
  {
    if k > 0 {
      OrderedFit(fs[1..], End(fs[0]), hi);
      OrderedApart(fs[1..], End(fs[0]), hi, k - 1);
      assert fs[1..][k - 1] == fs[k];
      forall j | 0 <= j < k
        ensures Apart(fs[..k][j], fs[k])
      {
        if j > 0 {
          assert fs[..k][j] == fs[1..][..k - 1][j - 1];
        }
      }
    }
  }
}
