/** msg_post_recv and msg_pre_send as they work: in the message's buffer, one TLV after the other.

  The methods are proved against the functions of `Codec`.
 */
module MessageBuffer {
  import opened Prelude
  import opened ByteOrder
  import opened Tlv
  import opened Codec

  // An entry of a message's list of TLVs: where the TLV starts in the buffer.
  datatype Descriptor = Descriptor(off: nat, extra: Extra)

  // The list for the host-order suffix `h` at `base`.
  ghost function Descriptors(h: seq<Octet>, xs: seq<Extra>, base: nat): seq<Descriptor> {
    if xs == [] || |h| < TLV_SIZE || Host16(h, 2) > |h| - TLV_SIZE then []
    else [Descriptor(base, xs[0])] + Descriptors(h[4 + Host16(h, 2)..], xs[1..], base + 4 + Host16(h, 2))
  }

  // `a` is `b` with its part from `lo` to `hi` replaced.
  ghost predicate Spliced(a: seq<Octet>, b: seq<Octet>, lo: nat, hi: nat, part: seq<Octet>) {
    lo <= hi <= |b| && |part| == hi - lo && a == b[..lo] + part + b[hi..]
  }

  lemma SplicedParts(a: seq<Octet>, b: seq<Octet>, lo: nat, hi: nat, part: seq<Octet>)
    requires Spliced(a, b, lo, hi, part)
    ensures |a| == |b| && a[..lo] == b[..lo] && a[lo..hi] == part && a[hi..] == b[hi..]
  {
  }

  // Where the j-th record starts.
  function RecordStart(base: nat, j: nat, size: nat): nat
    decreases j
  {
    if j == 0 then base else RecordStart(base + size, j - 1, size)
  }

  lemma {:induction false} RecordStartIs(base: nat, j: nat, size: nat)
    ensures RecordStart(base, j, size) == base + j * size
    decreases j
  {
    if j > 0 {
      RecordStartIs(base + size, j - 1, size);
      assert j * size == (j - 1) * size + size;
    }
  }

  lemma {:induction false} RecordsFit(base: nat, j: nat, n: nat, size: nat)
    requires j < n
    ensures RecordStart(base, j, size) + size == RecordStart(base, j + 1, size) <= RecordStart(base, n, size)
    decreases j
  {
    if j > 0 {
      RecordsFit(base + size, j - 1, n - 1, size);
    } else {
      StartsGrow(base + size, n - 1, size);
    }
  }

  lemma {:induction false} StartsGrow(base: nat, n: nat, size: nat)
    ensures base <= RecordStart(base, n, size)
    decreases n
  {
    if n > 0 {
      StartsGrow(base + size, n - 1, size);
    }
  }

  lemma {:induction false} OneRecordMore(j: nat, record: seq<Field>, size: nat, base: nat)
    ensures RecordFields(j + 1, record, size, base) ==
            RecordFields(j, record, size, base) + Shift(record, RecordStart(base, j, size))
  {
    hide Shift;
    if j > 0 {
      OneRecordMore(j - 1, record, size, base + size);
    }
  }

  // Another record has been converted, behind `j` others.
  lemma RecordConverted(a: seq<Octet>, c: seq<Octet>, b: seq<Octet>, j: nat, n: nat, record: seq<Field>, size: nat,
                        base: nat)
    requires Ordered(record, 0, size) && j < n && RecordStart(base, n, size) <= |b|
    requires IsConverted(c, b, RecordFields(j, record, size, base))
    requires IsConverted(a, c, Shift(record, RecordStart(base, j, size)))
    ensures IsConverted(a, b, RecordFields(j + 1, record, size, base))
  {
    hide Ordered, Shift, RecordFields, ByteAt;
    var ptr := RecordStart(base, j, size);
    RecordsFit(base, j, n, size);
    RecordStartIs(base, j, size);
    RecordsAreOrdered(j, record, size, base);
    OneRecordMore(j, record, size, base);
    OrderedShift(record, 0, size, ptr);
    ConvertedConcat(b, RecordFields(j, record, size, base), Shift(record, ptr), base, ptr, ptr + size);
  }

  // The loops over the records of slave timing data.
  method ConvertRecords(a: array<Octet>, base: nat, n: nat, record: seq<Field>, size: nat)
    requires Ordered(record, 0, size) && base + n * size <= a.Length
    modifies a
    ensures IsConverted(a[..], old(a[..]), RecordFields(n, record, size, base))
  {
    ghost var b := a[..];
    NotYetConverted(b);
    assert RecordFields(0, record, size, base) == [] && RecordStart(base, 0, size) == base;
    RecordStartIs(base, n, size);
    hide Ordered, IsConverted, Shift, RecordFields, RecordStart;
    var j, ptr := 0, base;
    while j < n
      invariant 0 <= j <= n && ptr == RecordStart(base, j, size)
      invariant IsConverted(a[..], b, RecordFields(j, record, size, base))
    {
      ghost var c := a[..];
      RecordsFit(base, j, n, size);
      ConvertFields(a, ptr, record, size);
      RecordConverted(a[..], c, b, j, n, record, size, base);
      j, ptr := j + 1, ptr + size;
    }
  }

  // All fields of a value that starts at `off`.
  method ConvertLayout(a: array<Octet>, off: nat, l: Layout, ghost n: nat)
    requires Within(l, n) && off + n <= a.Length
    modifies a
    ensures IsConverted(a[..], old(a[..]), Shift(Fields(l), off))
  {
    ghost var b := a[..];
    ConvertFields(a, off, l.head, if l.count == 0 then n else PORT_IDENTITY);
    if l.count == 0 {
      PlainFields(l);
    } else {
      ghost var c := a[..];
      ConvertRecords(a, off + PORT_IDENTITY, l.count, l.record, l.size);
      LayoutConverted(a[..], b, c, l, off, n);
    }
  }

  lemma LayoutConverted(a: seq<Octet>, b: seq<Octet>, c: seq<Octet>, l: Layout, off: nat, n: nat)
    requires Within(l, n) && l.count > 0 && off + n <= |b|
    requires IsConverted(c, b, Shift(l.head, off))
    requires IsConverted(a, c, RecordFields(l.count, l.record, l.size, off + PORT_IDENTITY))
    ensures IsConverted(a, b, Shift(Fields(l), off))
  {
    hide Ordered, Shift, RecordFields, ByteAt;
    var rs := RecordFields(l.count, l.record, l.size, PORT_IDENTITY);
    var at := off + PORT_IDENTITY;
    var qs := RecordFields(l.count, l.record, l.size, at);
    ShiftedRecords(l.count, l.record, l.size, PORT_IDENTITY, off);
    ShiftConcat(l.head, rs, off);
    OrderedShift(l.head, 0, PORT_IDENTITY, off);
    RecordsAreOrdered(l.count, l.record, l.size, at);
    ConvertedConcat(b, Shift(l.head, off), qs, off, at, at + l.count * l.size);
  }

  lemma {:induction false} ShiftConcat(fs: seq<Field>, gs: seq<Field>, d: nat)
    ensures Shift(fs + gs, d) == Shift(fs, d) + Shift(gs, d)
  {
    if fs == [] {
      assert fs + gs == gs;
    } else {
      assert (fs + gs)[1..] == fs[1..] + gs;
      ShiftConcat(fs[1..], gs, d);
    }
  }

  lemma {:induction false} ShiftTwice(fs: seq<Field>, d: nat, e: nat)
    ensures Shift(Shift(fs, d), e) == Shift(fs, d + e)
  {
    if fs != [] {
      assert Shift(fs, d)[1..] == Shift(fs[1..], d);
      ShiftTwice(fs[1..], d, e);
    }
  }

  lemma {:induction false} ShiftedRecords(n: nat, record: seq<Field>, size: nat, base: nat, d: nat)
    ensures Shift(RecordFields(n, record, size, base), d) == RecordFields(n, record, size, base + d)
  {
    if n > 0 {
      ShiftedRecords(n - 1, record, size, base + size, d);
      ShiftConcat(Shift(record, base), RecordFields(n - 1, record, size, base + size), d);
      ShiftTwice(record, base, d);
    }
  }

  // Seen from the buffer, converting a value replaces it.
  lemma ConvertedIsSpliced(a: seq<Octet>, b: seq<Octet>, fs: seq<Field>, lo: nat, hi: nat)
    requires lo <= hi <= |b| && Ordered(fs, 0, hi - lo) && IsConverted(a, b, Shift(fs, lo))
    ensures Fit(fs, hi - lo) && Spliced(a, b, lo, hi, Converted(b[lo..hi], fs))
  {
    OrderedFit(fs, 0, hi - lo);
    ConvertedPart(b, fs, lo, hi);
  }

  // tlv_post_recv for the value from `lo` to `hi`.  A value that is refused may be left partly converted.
  method TlvPostRecv(a: array<Octet>, lo: nat, hi: nat, ttype: nat) returns (extra: Option<Extra>)
    requires lo <= hi <= a.Length < 0x1_0000 && (hi - lo) % 2 == 0
    modifies a
    ensures extra == None <==> HostTlv(ttype, old(a[lo..hi])) == None
    ensures extra != None ==>
      var (host, x) := HostTlv(ttype, old(a[lo..hi])).value;
      extra == Some(x) && Spliced(a[..], old(a[..]), lo, hi, host)
  {
    ghost var b := a[..];
    hide ReceiveLayout, Ordered, Within, Fields;
    var layout := ReceiveLayout(ttype, a[lo..hi]);
    if layout == None {
      return None;
    }
    ReceiveIsWithin(ttype, a[lo..hi]);
    ReceiveIsOrdered(ttype, a[lo..hi]);
    assert b[lo..hi] == a[lo..hi];
    ConvertLayout(a, lo, layout.value, hi - lo);
    ConvertedIsSpliced(a[..], b, Fields(layout.value), lo, hi);
    return Some(layout.value.extra);
  }

  // tlv_pre_send
  method TlvPreSend(a: array<Octet>, lo: nat, hi: nat, ttype: nat, extra: Extra)
    requires lo <= hi <= a.Length && SendsWithin(ttype, a[lo..hi], extra)
    modifies a
    ensures SendsWithin(ttype, old(a[lo..hi]), extra)
    ensures Spliced(a[..], old(a[..]), lo, hi, NetTlv(ttype, old(a[lo..hi]), extra))
  {
    ghost var b := a[..];
    hide SendLayout, Ordered, Within, Fields;
    var l := SendLayout(ttype, a[lo..hi], extra);
    WithinIsOrdered(l, hi - lo);
    assert b[lo..hi] == a[lo..hi];
    ConvertLayout(a, lo, l, hi - lo);
    ConvertedIsSpliced(a[..], b, Fields(l), lo, hi);
  }

  // ntohs or htons of type and length
  method TurnTypeAndLength(a: array<Octet>, ptr: nat)
    requires ptr + TLV_SIZE <= a.Length
    modifies a
    ensures Spliced(a[..], old(a[..]), ptr, ptr + 4, Turned(old(a[ptr..ptr + 4])))
  {
    ghost var b := a[..];
    a[ptr], a[ptr + 1] := a[ptr + 1], a[ptr];
    a[ptr + 2], a[ptr + 3] := a[ptr + 3], a[ptr + 2];
    assert b[ptr..ptr + 4] == [b[ptr], b[ptr + 1], b[ptr + 2], b[ptr + 3]];
  }

  // What has been read of the suffix, in front of what comes from the rest.
  ghost function Behind(done: seq<Octet>, xs: seq<Extra>, r: Option<(seq<Octet>, seq<Extra>)>)
    : Option<(seq<Octet>, seq<Extra>)>
  {
    if r == None then None else Some((done + r.value.0, xs + r.value.1))
  }

  // The loop of suffix_post_recv is between two TLVs: `done` is in host order, the rest as it came.
  ghost predicate ReadTo(a: seq<Octet>, b: seq<Octet>, start: nat, ptr: nat, end: nat, done: seq<Octet>, xs: seq<Extra>,
                         tlvs: seq<Descriptor>)
    requires end <= |b| < 0x1_0000
  {
    && start <= ptr <= end && Spliced(a, b, start, ptr, done)
    && HostSuffix(b[start..end]) == Behind(done, xs, HostSuffix(b[ptr..end]))
    && (HostSuffix(b[start..end]) != None ==>
          var (h, ys) := HostSuffix(b[start..end]).value;
          var (g, zs) := HostSuffix(b[ptr..end]).value;
          Descriptors(h, ys, start) == tlvs + Descriptors(g, zs, ptr))
  }

  lemma ReadNothing(b: seq<Octet>, start: nat, end: nat)
    requires start <= end <= |b| < 0x1_0000
    ensures ReadTo(b, b, start, start, end, [], [], [])
  {
    assert b == b[..start] + [] + b[start..];
    var r := HostSuffix(b[start..end]);
    if r != None {
      assert [] + r.value.0 == r.value.0 && [] + r.value.1 == r.value.1;
    }
  }

  // The TLV at `ptr` is accepted, before `end`.
  ghost predicate Accepted(b: seq<Octet>, ptr: nat, end: nat) {
    && ptr + TLV_SIZE <= end <= |b| < 0x1_0000
    && Net16(b, ptr + 2) % 2 == 0 && TlvEnd(b, ptr) <= end
    && HostTlv(Net16(b, ptr), b[ptr + 4..TlvEnd(b, ptr)]) != None
  }

  // ... what becomes of it, and what is noted.
  ghost function HostPart(b: seq<Octet>, ptr: nat, end: nat): (r: seq<Octet>)
    requires Accepted(b, ptr, end)
    ensures |r| == TlvEnd(b, ptr) - ptr
  {
    Turned(b[ptr..ptr + 4]) + HostTlv(Net16(b, ptr), b[ptr + 4..TlvEnd(b, ptr)]).value.0
  }

  ghost function Noted(b: seq<Octet>, ptr: nat, end: nat): Extra
    requires Accepted(b, ptr, end)
  {
    HostTlv(Net16(b, ptr), b[ptr + 4..TlvEnd(b, ptr)]).value.1
  }

  lemma FrontOf(b: seq<Octet>, ptr: nat, end: nat)
    requires ptr + TLV_SIZE <= end <= |b|
    ensures Net16(b[ptr..end], 0) == Net16(b, ptr) && Net16(b[ptr..end], 2) == Net16(b, ptr + 2)
    ensures b[ptr..end][..4] == b[ptr..ptr + 4]
    ensures TlvEnd(b, ptr) <= end ==>
              && b[ptr..end][4..TlvEnd(b, ptr) - ptr] == b[ptr + 4..TlvEnd(b, ptr)]
              && b[ptr..end][TlvEnd(b, ptr) - ptr..] == b[TlvEnd(b, ptr)..end]
  {
    var s, next := b[ptr..end], TlvEnd(b, ptr);
    if next <= end {
      var v, w := s[4..next - ptr], b[ptr + 4..next];
      assert |v| == |w| && forall i :: 0 <= i < |v| ==> v[i] == w[i];
      assert s[next - ptr..] == b[next..end];
    }
  }

  // What suffix_post_recv makes of it.
  lemma FrontTlv(b: seq<Octet>, ptr: nat, end: nat)
    requires ptr + TLV_SIZE <= end <= |b| < 0x1_0000
    ensures HostSuffix(b[ptr..end]) ==
            if Accepted(b, ptr, end) then
              Behind(HostPart(b, ptr, end), [Noted(b, ptr, end)], HostSuffix(b[TlvEnd(b, ptr)..end]))
            else None
  {
    hide HostTlv, Turned;
    FrontOf(b, ptr, end);
    hide Net16;
  }

  lemma BehindTwice(d: seq<Octet>, xs: seq<Extra>, e: seq<Octet>, ys: seq<Extra>, r: Option<(seq<Octet>, seq<Extra>)>)
    ensures Behind(d, xs, Behind(e, ys, r)) == Behind(d + e, xs + ys, r)
  {
    if r != None {
      assert d + (e + r.value.0) == d + e + r.value.0;
      assert xs + (ys + r.value.1) == xs + ys + r.value.1;
    }
  }

  // The descriptor of a TLV at the front.
  lemma FrontDescriptor(b: seq<Octet>, ptr: nat, end: nat, g: seq<Octet>, zs: seq<Extra>)
    requires Accepted(b, ptr, end)
    ensures Descriptors(HostPart(b, ptr, end) + g, [Noted(b, ptr, end)] + zs, ptr) ==
            [Descriptor(ptr, Noted(b, ptr, end))] + Descriptors(g, zs, TlvEnd(b, ptr))
  {
    hide HostTlv;
    var part, x := HostPart(b, ptr, end), Noted(b, ptr, end);
    var h := part + g;
    assert Host16(h, 2) == Net16(b, ptr + 2);
    assert h[|part|..] == g && ([x] + zs)[1..] == zs;
  }

  // One turn of the loop, with a TLV that is accepted.
  lemma ReadOneMore(a: seq<Octet>, a': seq<Octet>, b: seq<Octet>, start: nat, ptr: nat, end: nat, done: seq<Octet>,
                    xs: seq<Extra>, tlvs: seq<Descriptor>)
    requires Accepted(b, ptr, end) && ReadTo(a, b, start, ptr, end, done, xs, tlvs)
    requires Spliced(a', a, ptr, TlvEnd(b, ptr), HostPart(b, ptr, end))
    ensures ReadTo(a', b, start, TlvEnd(b, ptr), end, done + HostPart(b, ptr, end), xs + [Noted(b, ptr, end)],
                   tlvs + [Descriptor(ptr, Noted(b, ptr, end))])
  {
    assert TlvEnd(b, ptr) <= end;
    hide HostSuffix, HostPart, Accepted, Noted, Spliced, TlvEnd, Descriptors;
    FrontTlv(b, ptr, end);
    var next, part, x := TlvEnd(b, ptr), HostPart(b, ptr, end), Noted(b, ptr, end);
    BehindTwice(done, xs, part, [x], HostSuffix(b[next..end]));
    SplicedTwice(a', a, b, start, ptr, next, done, part);
    if HostSuffix(b[start..end]) != None {
      var (g, zs) := HostSuffix(b[next..end]).value;
      assert HostSuffix(b[ptr..end]) == Some((part + g, [x] + zs));
      FrontDescriptor(b, ptr, end, g, zs);
      ConcatAgain(tlvs, Descriptor(ptr, x), Descriptors(g, zs, next));
    }
  }

  lemma ConcatAgain(tlvs: seq<Descriptor>, d: Descriptor, rest: seq<Descriptor>)
    ensures tlvs + ([d] + rest) == tlvs + [d] + rest
  {
  }

  lemma SplicedTwice(a': seq<Octet>, a: seq<Octet>, b: seq<Octet>, start: nat, ptr: nat, next: nat, done: seq<Octet>,
                     part: seq<Octet>)
    requires Spliced(a, b, start, ptr, done) && Spliced(a', a, ptr, next, part)
    ensures Spliced(a', b, start, next, done + part)
  {
    assert a[..ptr] == b[..start] + done;
    assert a[next..] == b[next..];
  }

  // One TLV of suffix_post_recv, with `len` bytes left.
  method ReceiveOne(a: array<Octet>, ptr: nat, len: nat) returns (ok: bool, next: nat, extra: Extra)
    requires TLV_SIZE <= len && ptr + len <= a.Length < 0x1_0000
    modifies a
    ensures ok <==> Accepted(old(a[..]), ptr, ptr + len)
    ensures ok ==>
      && next == TlvEnd(old(a[..]), ptr) && extra == Noted(old(a[..]), ptr, ptr + len)
      && Spliced(a[..], old(a[..]), ptr, next, HostPart(old(a[..]), ptr, ptr + len))
  {
    hide HostTlv;
    ghost var b := a[..];
    next, extra := ptr, NoExtra;
    TurnTypeAndLength(a, ptr);
    SplicedParts(a[..], b, ptr, ptr + 4, Turned(b[ptr..ptr + 4]));
    ghost var c := a[..];
    TurnedReads(c, b, ptr);
    var ttype, n := Host16(a[..], ptr), Host16(a[..], ptr + 2);
    if n % 2 != 0 {
      return false, next, extra;
    }
    if n > len - TLV_SIZE {
      return false, next, extra;
    }
    next := ptr + TLV_SIZE + n;
    SliceOfTail(c, b, ptr + 4, next);
    var x := TlvPostRecv(a, ptr + TLV_SIZE, next, ttype);
    if x == None {
      return false, next, extra;
    }
    SplicedTwice(a[..], c, b, ptr, ptr + 4, next, Turned(b[ptr..ptr + 4]), HostTlv(ttype, b[ptr + 4..next]).value.0);
    return true, next, x.value;
  }

  lemma SliceOfTail(c: seq<Octet>, b: seq<Octet>, lo: nat, hi: nat)
    requires lo <= hi <= |b| == |c| && c[lo..] == b[lo..]
    ensures c[lo..hi] == b[lo..hi]
  {
    assert c[lo..hi] == c[lo..][..hi - lo] && b[lo..hi] == b[lo..][..hi - lo];
  }

  lemma TurnedReads(c: seq<Octet>, b: seq<Octet>, ptr: nat)
    requires ptr + 4 <= |b| == |c| && c[ptr..ptr + 4] == Turned(b[ptr..ptr + 4])
    ensures Host16(c, ptr) == Net16(b, ptr) && Host16(c, ptr + 2) == Net16(b, ptr + 2)
    ensures Net16(c, ptr) == Host16(b, ptr) && Net16(c, ptr + 2) == Host16(b, ptr + 2)
  {
    var t := b[ptr..ptr + 4];
    assert t == [b[ptr], b[ptr + 1], b[ptr + 2], b[ptr + 3]];
    assert c[ptr] == c[ptr..ptr + 4][0] && c[ptr + 1] == c[ptr..ptr + 4][1];
    assert c[ptr + 2] == c[ptr..ptr + 4][2] && c[ptr + 3] == c[ptr..ptr + 4][3];
  }

  // One turn of the loop in suffix_post_recv.
  method ReadNext(a: array<Octet>, ptr: nat, len: nat, ghost b: seq<Octet>, ghost start: nat, ghost done: seq<Octet>,
                  ghost xs: seq<Extra>, tlvs: seq<Descriptor>)
    returns (ok: bool, next: nat, tlvs': seq<Descriptor>, ghost done': seq<Octet>, ghost xs': seq<Extra>)
    requires TLV_SIZE <= len && ptr + len <= a.Length == |b| < 0x1_0000
    requires ReadTo(a[..], b, start, ptr, ptr + len, done, xs, tlvs)
    modifies a
    ensures !ok ==> HostSuffix(b[start..ptr + len]) == None
    ensures ok ==> ptr < next <= ptr + len && ReadTo(a[..], b, start, next, ptr + len, done', xs', tlvs')
  {
    hide ReadTo, HostTlv, HostSuffix, Descriptors, Spliced, Net16, HostPart, Noted, Accepted;
    ghost var c, end := a[..], ptr + len;
    ReadToParts(c, b, start, ptr, end, done, xs, tlvs);
    tlvs', done', xs' := tlvs, done, xs;
    var extra;
    ok, next, extra := ReceiveOne(a, ptr, len);
    if ok {
      ReadOneMore(c, a[..], b, start, ptr, end, done, xs, tlvs);
      done', xs' := done + HostPart(b, ptr, end), xs + [extra];
      tlvs' := tlvs + [Descriptor(ptr, extra)];
    }
  }

  // suffix_post_recv, on the suffix from `start` to `end`
  method SuffixPostRecv(a: array<Octet>, start: nat, end: nat) returns (ok: bool, tlvs: seq<Descriptor>)
    requires start <= end <= a.Length < 0x1_0000
    modifies a
    ensures ok <==> HostSuffix(old(a[start..end])) != None
    ensures ok ==>
      var (h, xs) := HostSuffix(old(a[start..end])).value;
      Spliced(a[..], old(a[..]), start, end, h) && tlvs == Descriptors(h, xs, start)
  {
    hide ReadTo, HostSuffix, Descriptors, Spliced;
    ghost var b := a[..];
    ghost var done: seq<Octet>, xs: seq<Extra> := [], [];
    assert b[start..end] == a[start..end];
    ReadNothing(b, start, end);
    tlvs := [];
    var ptr, len := start, end - start;
    while len >= TLV_SIZE
      invariant 0 <= len && start <= ptr && ptr + len == end
      invariant ReadTo(a[..], b, start, ptr, end, done, xs, tlvs)
      decreases len
    {
      var next;
      ok, next, tlvs, done, xs := ReadNext(a, ptr, len, b, start, done, xs, tlvs);
      if !ok {
        return;
      }
      len, ptr := len - (next - ptr), next;
    }
    ok := true;
    ReadAll(a[..], b, start, ptr, end, done, xs, tlvs);
  }

  // What the loop knows in front of the next TLV: it is as it came, and a bad one spoils the suffix.
  lemma ReadToParts(a: seq<Octet>, b: seq<Octet>, start: nat, ptr: nat, end: nat, done: seq<Octet>, xs: seq<Extra>,
                    tlvs: seq<Descriptor>)
    requires ptr + TLV_SIZE <= end <= |b| < 0x1_0000 && ReadTo(a, b, start, ptr, end, done, xs, tlvs)
    ensures |a| == |b| && (Accepted(a, ptr, end) <==> Accepted(b, ptr, end))
    ensures Accepted(b, ptr, end) ==>
              && TlvEnd(a, ptr) == TlvEnd(b, ptr) && HostPart(a, ptr, end) == HostPart(b, ptr, end)
              && Noted(a, ptr, end) == Noted(b, ptr, end) && ptr < TlvEnd(b, ptr) <= end
    ensures !Accepted(b, ptr, end) ==> HostSuffix(b[start..end]) == None
  {
    hide HostSuffix, Descriptors;
    SplicedParts(a, b, start, ptr, done);
    FrontTlv(b, ptr, end);
    TailIsSame(a, b, ptr);
    hide HostTlv, Turned;
  }

  lemma TailIsSame(a: seq<Octet>, b: seq<Octet>, ptr: nat)
    requires |a| == |b| && ptr + TLV_SIZE <= |b| && a[ptr..] == b[ptr..]
    ensures TlvEnd(a, ptr) == TlvEnd(b, ptr) && Net16(a, ptr) == Net16(b, ptr) && Net16(a, ptr + 2) == Net16(b, ptr + 2)
    ensures a[ptr..ptr + 4] == b[ptr..ptr + 4]
    ensures TlvEnd(b, ptr) <= |b| ==> a[ptr + 4..TlvEnd(b, ptr)] == b[ptr + 4..TlvEnd(b, ptr)]
  {
    assert forall i :: ptr <= i < |b| ==> a[i] == a[ptr..][i - ptr] == b[i];
  }

  lemma ReadAll(a: seq<Octet>, b: seq<Octet>, start: nat, ptr: nat, end: nat, done: seq<Octet>, xs: seq<Extra>,
                tlvs: seq<Descriptor>)
    requires start <= ptr <= end <= |b| < 0x1_0000 && ReadTo(a, b, start, ptr, end, done, xs, tlvs)
    requires end - ptr < TLV_SIZE
    ensures HostSuffix(b[start..end]) != None
    ensures var (h, ys) := HostSuffix(b[start..end]).value;
            Spliced(a, b, start, end, h) && tlvs == Descriptors(h, ys, start)
  {
    var r := b[ptr..end];
    assert HostSuffix(r) == Some((r, []));
    assert b[ptr..] == r + b[end..];
    assert tlvs + [] == tlvs;
  }

  // ---- sending ----

  // The loop of suffix_pre_send is between two TLVs: `done` is in network order, the rest in host order.
  ghost predicate SentTo(a: seq<Octet>, b: seq<Octet>, start: nat, ptr: nat, end: nat, done: seq<Octet>, xs: seq<Extra>,
                         ys: seq<Extra>, rest: seq<Descriptor>)
    requires start <= end <= |b| && Sendable(b[start..end], xs)
  {
    && start <= ptr <= end && Spliced(a, b, start, ptr, done)
    && Sendable(b[ptr..end], ys) && NetSuffix(b[start..end], xs) == done + NetSuffix(b[ptr..end], ys)
    && rest == Descriptors(b[ptr..end], ys, ptr)
  }

  lemma SentNothing(b: seq<Octet>, start: nat, end: nat, xs: seq<Extra>)
    requires start <= end <= |b| && Sendable(b[start..end], xs)
    ensures SentTo(b, b, start, start, end, [], xs, xs, Descriptors(b[start..end], xs, start))
  {
    assert b == b[..start] + [] + b[start..];
    assert [] + NetSuffix(b[start..end], xs) == NetSuffix(b[start..end], xs);
  }

  // The end of a TLV in host order.
  function HostEnd(b: seq<Octet>, ptr: nat): nat
    requires ptr + TLV_SIZE <= |b|
  {
    ptr + TLV_SIZE + Host16(b, ptr + 2)
  }

  // The TLV at `ptr` can be sent, before `end`.
  ghost predicate CanSend(b: seq<Octet>, ptr: nat, end: nat, x: Extra) {
    && ptr + TLV_SIZE <= end <= |b| && HostEnd(b, ptr) <= end
    && SendsWithin(Host16(b, ptr), b[ptr + 4..HostEnd(b, ptr)], x)
  }

  ghost function NetPart(b: seq<Octet>, ptr: nat, end: nat, x: Extra): (r: seq<Octet>)
    requires CanSend(b, ptr, end, x)
    ensures |r| == HostEnd(b, ptr) - ptr
  {
    Turned(b[ptr..ptr + 4]) + NetTlv(Host16(b, ptr), b[ptr + 4..HostEnd(b, ptr)], x)
  }

  lemma HostFrontOf(b: seq<Octet>, ptr: nat, end: nat)
    requires ptr + TLV_SIZE <= end <= |b|
    ensures Host16(b[ptr..end], 0) == Host16(b, ptr) && Host16(b[ptr..end], 2) == Host16(b, ptr + 2)
    ensures b[ptr..end][..4] == b[ptr..ptr + 4]
    ensures HostEnd(b, ptr) <= end ==>
              && b[ptr..end][4..HostEnd(b, ptr) - ptr] == b[ptr + 4..HostEnd(b, ptr)]
              && b[ptr..end][HostEnd(b, ptr) - ptr..] == b[HostEnd(b, ptr)..end]
  {
    var s, next := b[ptr..end], HostEnd(b, ptr);
    if next <= end {
      var v, w := s[4..next - ptr], b[ptr + 4..next];
      assert |v| == |w| && forall i :: 0 <= i < |v| ==> v[i] == w[i];
      assert s[next - ptr..] == b[next..end];
    }
  }

  lemma CanSendFront(b: seq<Octet>, ptr: nat, end: nat, ys: seq<Extra>)
    requires ptr <= end <= |b| && ys != [] && Sendable(b[ptr..end], ys)
    ensures CanSend(b, ptr, end, ys[0]) && Sendable(b[HostEnd(b, ptr)..end], ys[1..])
  {
    hide SendsWithin, Host16;
    HostFrontOf(b, ptr, end);
  }

  lemma NetFront(b: seq<Octet>, ptr: nat, end: nat, ys: seq<Extra>)
    requires ptr <= end <= |b| && ys != [] && Sendable(b[ptr..end], ys)
    requires CanSend(b, ptr, end, ys[0]) && Sendable(b[HostEnd(b, ptr)..end], ys[1..])
    ensures NetSuffix(b[ptr..end], ys) == NetPart(b, ptr, end, ys[0]) + NetSuffix(b[HostEnd(b, ptr)..end], ys[1..])
  {
    hide SendsWithin, NetTlv, Turned, Host16, Sendable;
    HostFrontOf(b, ptr, end);
  }

  // What suffix_pre_send makes of the TLV at the front, and its descriptor.
  lemma SendFront(b: seq<Octet>, ptr: nat, end: nat, ys: seq<Extra>)
    requires ptr <= end <= |b| && ys != [] && Sendable(b[ptr..end], ys)
    ensures CanSend(b, ptr, end, ys[0]) && Sendable(b[HostEnd(b, ptr)..end], ys[1..])
    ensures NetSuffix(b[ptr..end], ys) == NetPart(b, ptr, end, ys[0]) + NetSuffix(b[HostEnd(b, ptr)..end], ys[1..])
    ensures Descriptors(b[ptr..end], ys, ptr) ==
            [Descriptor(ptr, ys[0])] + Descriptors(b[HostEnd(b, ptr)..end], ys[1..], HostEnd(b, ptr))
  {
    hide SendsWithin, NetTlv, Turned, Host16, Sendable, NetSuffix, NetPart;
    CanSendFront(b, ptr, end, ys);
    NetFront(b, ptr, end, ys);
    HostFrontOf(b, ptr, end);
  }

  lemma SendOneMore(a: seq<Octet>, a': seq<Octet>, b: seq<Octet>, start: nat, ptr: nat, end: nat, done: seq<Octet>,
                    xs: seq<Extra>, ys: seq<Extra>, rest: seq<Descriptor>)
    requires start <= end <= |b| && Sendable(b[start..end], xs)
    requires ys != [] && SentTo(a, b, start, ptr, end, done, xs, ys, rest) && CanSend(b, ptr, end, ys[0])
    requires Spliced(a', a, ptr, HostEnd(b, ptr), NetPart(b, ptr, end, ys[0]))
    ensures rest != [] && rest[0] == Descriptor(ptr, ys[0])
    ensures SentTo(a', b, start, HostEnd(b, ptr), end, done + NetPart(b, ptr, end, ys[0]), xs, ys[1..], rest[1..])
  {
    hide NetPart, Sendable, NetSuffix, Descriptors, SendsWithin, Host16, Spliced;
    SendFront(b, ptr, end, ys);
    var next, part := HostEnd(b, ptr), NetPart(b, ptr, end, ys[0]);
    SplicedTwice(a', a, b, start, ptr, next, done, part);
    var r := NetSuffix(b[next..end], ys[1..]);
    assert done + (part + r) == done + part + r;
  }

  // The buffer in front of a TLV that is to be sent.
  lemma SentToParts(a: seq<Octet>, b: seq<Octet>, start: nat, ptr: nat, end: nat, done: seq<Octet>, xs: seq<Extra>,
                    ys: seq<Extra>, rest: seq<Descriptor>)
    requires start <= end <= |b| && Sendable(b[start..end], xs) && SentTo(a, b, start, ptr, end, done, xs, ys, rest)
    ensures |a| == |b| && (ys == [] <==> rest == [])
    ensures ys != [] ==>
              && ptr + TLV_SIZE <= end && rest[0] == Descriptor(ptr, ys[0]) && CanSend(a, ptr, end, ys[0]) &&
                  CanSend(b, ptr, end, ys[0])
              && HostEnd(a, ptr) == HostEnd(b, ptr) && NetPart(a, ptr, end, ys[0]) == NetPart(b, ptr, end, ys[0])
  {
    hide Sendable, NetSuffix, SendsWithin, NetTlv, Turned, Host16;
    SplicedParts(a, b, start, ptr, done);
    if ys != [] {
      SendFront(b, ptr, end, ys);
      HostTailIsSame(a, b, ptr);
    }
  }

  lemma HostTailIsSame(a: seq<Octet>, b: seq<Octet>, ptr: nat)
    requires |a| == |b| && ptr + TLV_SIZE <= |b| && a[ptr..] == b[ptr..]
    ensures HostEnd(a, ptr) == HostEnd(b, ptr) && Host16(a, ptr) == Host16(b, ptr) &&
            Host16(a, ptr + 2) == Host16(b, ptr + 2)
    ensures a[ptr..ptr + 4] == b[ptr..ptr + 4]
    ensures HostEnd(b, ptr) <= |b| ==> a[ptr + 4..HostEnd(b, ptr)] == b[ptr + 4..HostEnd(b, ptr)]
  {
    assert forall i :: ptr <= i < |b| ==> a[i] == a[ptr..][i - ptr] == b[i];
  }

  // One TLV of suffix_pre_send: the value first, then type and length.
  method SendOne(a: array<Octet>, d: Descriptor, ghost end: nat)
    requires CanSend(a[..], d.off, end, d.extra)
    modifies a
    ensures CanSend(old(a[..]), d.off, end, d.extra)
    ensures Spliced(a[..], old(a[..]), d.off, HostEnd(old(a[..]), d.off), NetPart(old(a[..]), d.off, end, d.extra))
  {
    hide SendsWithin, NetTlv, Turned, Host16;
    ghost var b := a[..];
    var ptr := d.off;
    var ttype, next := Host16(a[..], ptr), HostEnd(a[..], ptr);
    assert a[ptr + 4..next] == b[ptr + 4..next];
    TlvPreSend(a, ptr + TLV_SIZE, next, ttype, d.extra);
    ghost var c := a[..];
    ghost var part := NetTlv(ttype, b[ptr + 4..next], d.extra);
    SplicedParts(c, b, ptr + 4, next, part);
    assert c[ptr..ptr + 4] == b[ptr..ptr + 4] by {
      assert c[..ptr + 4][ptr..] == b[..ptr + 4][ptr..];
    }
    TurnTypeAndLength(a, ptr);
    SplicedBefore(a[..], c, b, ptr, next, Turned(b[ptr..ptr + 4]), part);
  }

  lemma SplicedBefore(a: seq<Octet>, c: seq<Octet>, b: seq<Octet>, ptr: nat, next: nat, t: seq<Octet>, part: seq<Octet>)
    requires Spliced(c, b, ptr + 4, next, part) && Spliced(a, c, ptr, ptr + 4, t)
    ensures Spliced(a, b, ptr, next, t + part)
  {
    assert c[..ptr] == b[..ptr];
    assert c[ptr + 4..] == part + b[next..];
  }

  // suffix_pre_send, for a list of TLVs that starts at `start`; the list is given back afterwards.
  method SuffixPreSend(a: array<Octet>, tlvs: seq<Descriptor>, ghost start: nat, ghost end: nat, ghost xs: seq<Extra>)
    requires start <= end <= a.Length && Sendable(a[start..end], xs) && tlvs == Descriptors(a[start..end], xs, start)
    modifies a
    ensures Sendable(old(a[start..end]), xs)
    ensures Spliced(a[..], old(a[..]), start, end, NetSuffix(old(a[start..end]), xs))
  {
    hide SentTo, Sendable, NetSuffix, Descriptors, CanSend, NetPart, Spliced;
    ghost var b := a[..];
    assert b[start..end] == a[start..end];
    ghost var done: seq<Octet>, ys, ptr := [], xs, start;
    SentNothing(b, start, end, xs);
    var k := 0;
    while k < |tlvs|
      invariant 0 <= k <= |tlvs| && start <= ptr
      invariant SentTo(a[..], b, start, ptr, end, done, xs, ys, tlvs[k..])
    {
      ghost var c := a[..];
      SentToParts(c, b, start, ptr, end, done, xs, ys, tlvs[k..]);
      SendOne(a, tlvs[k], end);
      SendOneMore(c, a[..], b, start, ptr, end, done, xs, ys, tlvs[k..]);
      done, ys, ptr := done + NetPart(b, ptr, end, ys[0]), ys[1..], HostEnd(b, ptr);
      assert tlvs[k..][1..] == tlvs[k + 1..];
      k := k + 1;
    }
    SentToParts(a[..], b, start, ptr, end, done, xs, ys, tlvs[k..]);
    SentAll(a[..], b, start, ptr, end, done, xs, tlvs[k..]);
  }

  lemma SentAll(a: seq<Octet>, b: seq<Octet>, start: nat, ptr: nat, end: nat, done: seq<Octet>, xs: seq<Extra>,
                rest: seq<Descriptor>)
    requires start <= end <= |b| && Sendable(b[start..end], xs) && SentTo(a, b, start, ptr, end, done, xs, [], rest)
    ensures Spliced(a, b, start, end, NetSuffix(b[start..end], xs))
  {
    NothingToSend(b[ptr..end]);
    assert b[ptr..] == b[ptr..end] + b[end..];
  }

  // ---- whole messages ----

  lemma {:induction false} ShiftNothing(fs: seq<Field>)
    ensures Shift(fs, 0) == fs
  {
    if fs != [] {
      ShiftNothing(fs[1..]);
    }
  }

  // Header and body converted one after the other.
  lemma PduIsSpliced(a: seq<Octet>, c: seq<Octet>, b: seq<Octet>, mtype: nat)
    requires PduLength(mtype) != None && PduLength(mtype).value <= |b|
    requires IsConverted(c, b, Shift(HeaderFields(), 0)) && IsConverted(a, c, Shift(BodyFields(mtype), 0))
    ensures Spliced(a, b, 0, PduLength(mtype).value, HostPdu(b[..PduLength(mtype).value], mtype))
  {
    var n := PduLength(mtype).value;
    PduIsOrdered(mtype);
    PartsAreOrdered(mtype);
    hide HeaderFields, BodyFields, ByteAt, Ordered;
    var fs := HeaderFields() + BodyFields(mtype);
    ShiftNothing(HeaderFields());
    ShiftNothing(BodyFields(mtype));
    ShiftNothing(fs);
    ConvertedConcat(b, HeaderFields(), BodyFields(mtype), 0, HEADER_SIZE, n);
    ConvertedIsSpliced(a, b, fs, 0, n);
    assert b[0..n] == b[..n];
  }

  lemma PartsAreOrdered(mtype: nat)
    requires PduLength(mtype) != None
    ensures Ordered(HeaderFields(), 0, HEADER_SIZE) && Ordered(BodyFields(mtype), HEADER_SIZE, PduLength(mtype).value)
    ensures Ordered(BodyFields(mtype), 0, PduLength(mtype).value)
  {
    var n := PduLength(mtype).value;
    OrderedFour(Swap(2, 2), Swap(8, 8), Swap(28, 2), Swap(30, 2), 0, HEADER_SIZE);
    if mtype == ANNOUNCE {
      assert [Swap(44, 2), Swap(50, 2), Swap(61, 2)][1..] == [Swap(50, 2), Swap(61, 2)];
      OrderedTwo(Swap(50, 2), Swap(61, 2), 46, n);
    }
    OrderedWithin(BodyFields(mtype), HEADER_SIZE, n, 0, n);
  }

  // Which messages carry a time stamp that msg_post_recv takes out.
  predicate HasTimestamp(mtype: nat) {
    mtype == SYNC || mtype == PDELAY_RESP || mtype == FOLLOW_UP || mtype == DELAY_RESP ||
    mtype == PDELAY_RESP_FOLLOW_UP || mtype == ANNOUNCE
  }

  class Message {
    const data: array<Octet>
    var tlvs: seq<Descriptor>
    var pdu: Timestamp

    constructor (size: nat)
      ensures data.Length == size && tlvs == [] && fresh(data)
    {
      data := new Octet[size](_ => 0);
      tlvs := [];
      pdu := Timestamp(0, 0);
    }

    // hdr_post_recv and the conversion of the body
    method PduPostRecv(mtype: nat, n: nat)
      requires PduLength(mtype) == Some(n) && n <= data.Length
      modifies data
      ensures Spliced(data[..], old(data[..]), 0, n, HostPdu(old(data[..n]), mtype))
    {
      hide HostPdu, Shift, Ordered, Spliced;
      ghost var b := data[..];
      PartsAreOrdered(mtype);
      ConvertFields(data, 0, HeaderFields(), HEADER_SIZE);
      ghost var c := data[..];
      ConvertFields(data, 0, BodyFields(mtype), n);
      PduIsSpliced(data[..], c, b, mtype);
      assert b[..n] == old(data[..n]);
    }

    // msg_post_recv.  A message that is refused may be left partly converted.
    method PostRecv(cnt: nat) returns (error: Option<Error>)
      requires cnt <= data.Length < 0x1_0000
      modifies this, data
      ensures match HostMessage(old(data[..cnt]))
              case Err(e) => error == Some(e)
              case Ok(m) =>
                var n := PduLength(MessageType(old(data[..cnt]))).value;
                && error == None && Spliced(data[..], old(data[..]), 0, cnt, m.bytes)
                && MessageType(m.bytes) == MessageType(old(data[..cnt]))
                && tlvs == Descriptors(m.bytes[n..], m.extras, n)
      ensures error == None ==>
                pdu == if MessageType(old(data[..cnt])) in {SYNC, PDELAY_RESP, FOLLOW_UP, DELAY_RESP,
                                                            PDELAY_RESP_FOLLOW_UP, ANNOUNCE}
                       then Timestamp(NetValue(old(data[34..40])), NetValue(old(data[40..44]))) else old(pdu)
    {
      hide HostSuffix, Descriptors, HostPdu;
      ghost var b := data[..];
      if cnt < HEADER_SIZE {
        return Some(EBADMSG);
      }
      if data[1] % 16 != VERSION {
        return Some(EPROTO);
      }
      var mtype := data[0] % 16;
      var n := PduLength(mtype);
      if n == None {
        return Some(EBADMSG);
      }
      if cnt < n.value {
        return Some(EBADMSG);
      }
      error := BodyPostRecv(cnt, mtype, n.value);
    }

    method BodyPostRecv(cnt: nat, mtype: nat, n: nat) returns (error: Option<Error>)
      requires cnt <= data.Length < 0x1_0000 && HEADER_SIZE <= cnt && data[1] % 16 == VERSION
      requires mtype == MessageType(data[..cnt]) && PduLength(mtype) == Some(n) && n <= cnt
      modifies this, data
      ensures match HostMessage(old(data[..cnt]))
              case Err(e) => error == Some(e)
              case Ok(m) =>
                && error == None && Spliced(data[..], old(data[..]), 0, cnt, m.bytes)
                && MessageType(m.bytes) == mtype && tlvs == Descriptors(m.bytes[n..], m.extras, n)
      ensures error == None ==>
                pdu == if HasTimestamp(mtype) then Timestamp(NetValue(old(data[34..40])), NetValue(old(data[40..44])))
                       else old(pdu)
    {
      hide HostSuffix, Descriptors, HostPdu, Spliced, NetValue;
      ghost var b := data[..];
      assert b[..n] == data[..n] && b[n..cnt] == data[n..cnt];
      if HasTimestamp(mtype) {
        pdu := Timestamp(NetValue(data[34..40]), NetValue(data[40..44]));
      }
      PduPostRecv(mtype, n);
      ghost var c, h := data[..], HostPdu(b[..n], mtype);
      SplicedParts(c, b, 0, n, h);
      SliceOfTail(c, b, n, cnt);
      assert data[n..cnt] == c[n..cnt];
      error := RestPostRecv(cnt, mtype, n);
      HostMessageParts(b, cnt, n, mtype);
      if error == None {
        ghost var r := HostRest(b[n..cnt], mtype).value.0;
        SplicedTwice(data[..], c, b, 0, n, cnt, h, r);
        PduRoundTrip(b[..n], mtype);
      }
    }

    // suffix_post_recv, for a message that may have a suffix
    method RestPostRecv(cnt: nat, mtype: nat, n: nat) returns (error: Option<Error>)
      requires n <= cnt <= data.Length < 0x1_0000
      modifies this`tlvs, data
      ensures HostRest(old(data[n..cnt]), mtype) == None ==> error == Some(EBADMSG)
      ensures HostRest(old(data[n..cnt]), mtype) != None ==>
        var (r, xs) := HostRest(old(data[n..cnt]), mtype).value;
        error == None && Spliced(data[..], old(data[..]), n, cnt, r) && tlvs == Descriptors(r, xs, n)
    {
      hide HostSuffix, Descriptors;
      if !HasSuffix(mtype) {
        tlvs := [];
        NoDescriptors(data[n..cnt], n);
        SplicedNothing(data[..], n, cnt);
        assert data[..][n..cnt] == data[n..cnt];
        return None;
      }
      var ok, list := SuffixPostRecv(data, n, cnt);
      if !ok {
        return Some(EBADMSG);
      }
      tlvs := list;
      return None;
    }

    // msg_pre_send.  `cnt` is the length of the message, and `xs` what its descriptors note.
    method PreSend(ghost cnt: nat, ghost xs: seq<Extra>)
      requires cnt <= data.Length && SendableMessage(HostMsg(data[..cnt], xs))
      requires var n := PduLength(MessageType(data[..cnt])).value;
               tlvs == Descriptors(data[n..cnt], xs, n)
      modifies this`tlvs, data
      ensures tlvs == []
      ensures SendableMessage(HostMsg(old(data[..cnt]), xs))
      ensures Spliced(data[..], old(data[..]), 0, cnt, NetMessage(HostMsg(old(data[..cnt]), xs)))
    {
      hide Sendable, NetSuffix, Descriptors, NetPdu;
      ghost var b := data[..];
      assert b[..cnt] == data[..cnt];
      var mtype := data[0] % 16;
      var n := PduLength(mtype).value;
      assert b[n..cnt] == data[n..cnt] && b[..cnt][n..] == b[n..cnt] && b[..cnt][..n] == b[..n];
      PduPreSend(mtype, n);
      ghost var c := data[..];
      SplicedParts(c, b, 0, n, NetPdu(b[..n], mtype));
      SliceOfTail(c, b, n, cnt);
      assert data[n..cnt] == c[n..cnt];
      SuffixPreSend(data, tlvs, n, cnt, xs);
      tlvs := [];
      SplicedTwice(data[..], c, b, 0, n, cnt, NetPdu(b[..n], mtype), NetSuffix(b[n..cnt], xs));
    }

    // hdr_pre_send and the conversion of the body
    method PduPreSend(mtype: nat, n: nat)
      requires PduLength(mtype) == Some(n) && n <= data.Length
      modifies data
      ensures Spliced(data[..], old(data[..]), 0, n, NetPdu(old(data[..n]), mtype))
    {
      hide HostPdu, Shift, Ordered, HeaderFields, BodyFields, TimestampFields;
      ghost var b := data[..];
      PartsAreOrdered(mtype);
      PduIsOrdered(mtype);
      ConvertFields(data, 0, HeaderFields(), HEADER_SIZE);
      ghost var c := data[..];
      ConvertFields(data, 0, BodyFields(mtype), n);
      ghost var d := data[..];
      PduIsSpliced(d, c, b, mtype);
      ConvertFields(data, 0, TimestampFields(mtype), n);
      ConvertedIsSpliced(data[..], d, TimestampFields(mtype), 0, n);
      assert b[..n] == old(data[..n]);
      SplicedAgain(data[..], d, b, n, mtype);
    }
  }

  lemma SplicedAgain(a: seq<Octet>, d: seq<Octet>, b: seq<Octet>, n: nat, mtype: nat)
    requires PduLength(mtype) == Some(n) && n <= |b| && Spliced(d, b, 0, n, HostPdu(b[..n], mtype))
    requires Fit(TimestampFields(mtype), n) && Spliced(a, d, 0, n, Converted(d[0..n], TimestampFields(mtype)))
    ensures Spliced(a, b, 0, n, NetPdu(b[..n], mtype))
  {
    hide HeaderFields, BodyFields, TimestampFields, ByteAt;
    SplicedParts(d, b, 0, n, HostPdu(b[..n], mtype));
    assert d[0..n] == HostPdu(b[..n], mtype);
  }

  // What follows the part of fixed length.
  ghost function HostRest(s: seq<Octet>, mtype: nat): (r: Option<(seq<Octet>, seq<Extra>)>)
    requires |s| < 0x1_0000
    ensures r != None ==> |r.value.0| == |s|
  {
    if HasSuffix(mtype) then HostSuffix(s) else Some((s, []))
  }

  lemma HostMessageParts(b: seq<Octet>, cnt: nat, n: nat, mtype: nat)
    requires HEADER_SIZE <= cnt <= |b| < 0x1_0000 && b[1] % 16 == VERSION
    requires mtype == MessageType(b[..cnt]) && PduLength(mtype) == Some(n) && n <= cnt
    ensures HostMessage(b[..cnt]) ==
            var r := HostRest(b[n..cnt], mtype);
            if r == None then Err(EBADMSG) else Ok(HostMsg(HostPdu(b[..n], mtype) + r.value.0, r.value.1))
  {
    hide HostSuffix, HostPdu;
    assert b[..cnt][..n] == b[..n] && b[..cnt][n..] == b[n..cnt];
  }

  lemma NoDescriptors(h: seq<Octet>, base: nat)
    ensures Descriptors(h, [], base) == []
  {
  }

  lemma SplicedNothing(b: seq<Octet>, n: nat, cnt: nat)
    requires n <= cnt <= |b|
    ensures Spliced(b, b, n, cnt, b[n..cnt])
  {
  }
}
