/** Whole messages: msg_post_recv and msg_pre_send of `msg.c`, with the list of TLVs in between.

  First what the two make of the bytes, as functions, and how they undo each other; then the methods
  that work in the message's buffer.
 */
module Codec {
  import opened Prelude
  import opened ByteOrder
  import opened Tlv

  const SYNC := 0x0
  const DELAY_REQ := 0x1
  const PDELAY_REQ := 0x2
  const PDELAY_RESP := 0x3
  const FOLLOW_UP := 0x8
  const DELAY_RESP := 0x9
  const PDELAY_RESP_FOLLOW_UP := 0xA
  const ANNOUNCE := 0xB
  const SIGNALING := 0xC
  const MANAGEMENT_MESSAGE := 0xD

  const HEADER_SIZE := 34
  const TLV_SIZE := 4
  const VERSION := 2

  // ---- the list of TLVs ----

  // A received suffix in host order, with what the descriptors note; None is EBADMSG.
  function HostSuffix(s: seq<Octet>): (r: Option<(seq<Octet>, seq<Extra>)>)
    requires |s| < 0x1_0000
    ensures r != None ==> |r.value.0| == |s|
  {
    if |s| < TLV_SIZE then Some((s, []))
    else
      var n := Net16(s, 2);
      if n % 2 == 1 || n > |s| - TLV_SIZE then None
      else
        var tlv := HostTlv(Net16(s, 0), s[4..4 + n]);
        if tlv == None then None
        else Prepend(Turned(s[..4]) + tlv.value.0, tlv.value.1, HostSuffix(s[4 + n..]))
  }

  function Prepend(t: seq<Octet>, x: Extra, r: Option<(seq<Octet>, seq<Extra>)>): Option<(seq<Octet>, seq<Extra>)> {
    if r == None then None else Some((t + r.value.0, [x] + r.value.1))
  }

  // Type and length, in the other byte order.
  function Turned(s: seq<Octet>): (r: seq<Octet>)
    requires |s| == 4
    ensures |r| == 4
  {
    [s[1], s[0], s[3], s[2]]
  }

  // The fields of a value in host order lie inside it.
  predicate SendsWithin(ttype: nat, h: seq<Octet>, x: Extra) {
    Within(SendLayout(ttype, h, x), |h|)
  }

  // tlv_pre_send
  function NetTlv(ttype: nat, h: seq<Octet>, x: Extra): (v: seq<Octet>)
    requires SendsWithin(ttype, h, x)
    ensures |v| == |h|
  {
    WithinIsOrdered(SendLayout(ttype, h, x), |h|);
    OrderedFit(Fields(SendLayout(ttype, h, x)), 0, |h|);
    Converted(h, Fields(SendLayout(ttype, h, x)))
  }

  // tlv_post_recv
  function HostTlv(ttype: nat, v: seq<Octet>): (r: Option<(seq<Octet>, Extra)>)
    requires |v| < 0x1_0000 && |v| % 2 == 0
    ensures r != None ==> |r.value.0| == |v|
  {
    var l := ReceiveLayout(ttype, v);
    if l == None then None
    else
      ReceiveIsOrdered(ttype, v);
      OrderedFit(Fields(l.value), 0, |v|);
      Some((Converted(v, Fields(l.value)), l.value.extra))
  }

  // The TLVs of a message in host order lie one after the other in the suffix.
  predicate Sendable(h: seq<Octet>, xs: seq<Extra>) {
    xs == [] ||
    (&& |h| >= TLV_SIZE && Host16(h, 2) <= |h| - TLV_SIZE
     && SendsWithin(Host16(h, 0), h[4..4 + Host16(h, 2)], xs[0])
     && Sendable(h[4 + Host16(h, 2)..], xs[1..]))
  }

  function NetSuffix(h: seq<Octet>, xs: seq<Extra>): (r: seq<Octet>)
    requires Sendable(h, xs)
    ensures |r| == |h|
  {
    if xs == [] then h
    else
      var n := Host16(h, 2);
      Turned(h[..4]) + NetTlv(Host16(h, 0), h[4..4 + n], xs[0]) + NetSuffix(h[4 + n..], xs[1..])
  }

  // The one kind of sub-field that is lost on the way is a scaled-nanoseconds value that does not
  // happen to repeat its high half: in a time status, or in the follow-up information of IEEE 802.1AS.
  predicate TlvKept(ttype: nat, v: seq<Octet>) {
    && (ttype == MANAGEMENT && |v| == 52 && Net16(v, 0) == TIME_STATUS_NP ==> ScaledKept(v, Scaled(28)))
    && (ttype == ORGANIZATION_EXTENSION && |v| == 28 && Ieee8021(v) && v[5] == 1 ==> ScaledKept(v, Scaled(12)))
  }

  predicate SuffixKept(s: seq<Octet>) {
    |s| < TLV_SIZE || Net16(s, 2) > |s| - TLV_SIZE ||
    (TlvKept(Net16(s, 0), s[4..4 + Net16(s, 2)]) && SuffixKept(s[4 + Net16(s, 2)..]))
  }

  lemma {:induction false} NoScaledInRecords(n: nat, ttype: nat, base: nat)
    ensures forall k :: 0 <= k < |RecordFields(n, SlaveRecord(ttype).1, SlaveRecord(ttype).0, base)| ==>
              RecordFields(n, SlaveRecord(ttype).1, SlaveRecord(ttype).0, base)[k].Swap?
  {
    var record := SlaveRecord(ttype);
    assert forall k :: 0 <= k < |record.1| ==> record.1[k].Swap?;
    hide SlaveRecord, Shift;
    if n > 0 {
      NoScaledInRecords(n - 1, ttype, base + record.0);
    }
  }

  // Which fields are scaled.
  lemma WhereScaled(ttype: nat, v: seq<Octet>)
    requires ReceiveLayout(ttype, v) != None
    requires Fit(Fields(ReceiveLayout(ttype, v).value), |v|)
    ensures (forall k :: 0 <= k < |Fields(ReceiveLayout(ttype, v).value)| ==>
               ScaledKept(v, Fields(ReceiveLayout(ttype, v).value)[k])) <==> TlvKept(ttype, v)
  {
    hide ReceiveLayout, Fields, ScaledKept;
    var fs := Fields(ReceiveLayout(ttype, v).value);
    if ttype == MANAGEMENT {
      MgtScaled(v);
    } else if ttype == ORGANIZATION_EXTENSION {
      OrgScaled(v);
    } else {
      OthersNotScaled(ttype, v);
      SwapsAreKept(v, fs);
    }
  }

  lemma SwapsAreKept(v: seq<Octet>, fs: seq<Field>)
    requires Fit(fs, |v|) && forall k :: 0 <= k < |fs| ==> fs[k].Swap?
    ensures forall k :: 0 <= k < |fs| ==> ScaledKept(v, fs[k])
  {
  }

  ghost predicate AllSwaps(fs: seq<Field>) {
    forall k :: 0 <= k < |fs| ==> fs[k].Swap?
  }

  lemma OthersNotScaled(ttype: nat, v: seq<Octet>)
    requires ttype != MANAGEMENT && ttype != ORGANIZATION_EXTENSION && ReceiveLayout(ttype, v) != None
    ensures AllSwaps(Fields(ReceiveLayout(ttype, v).value))
  {
    hide Fields, ArrayInvalid, ArrayCount, SlaveRecord, RecordFields, ResponseFields, AllSwaps;
    var l := ReceiveLayout(ttype, v).value;
    if IsSlaveData(ttype) {
      RecordsAreSwaps(l.count, ttype);
    } else {
      PlainFields(l);
      FewAreSwaps(ttype, v);
    }
  }

  lemma RecordsAreSwaps(n: nat, ttype: nat)
    ensures AllSwaps([Swap(8, 2)] + RecordFields(n, SlaveRecord(ttype).1, SlaveRecord(ttype).0, PORT_IDENTITY))
    ensures Fields(Layout([Swap(8, 2)], n, SlaveRecord(ttype).1, SlaveRecord(ttype).0, NoExtra)) ==
            [Swap(8, 2)] + RecordFields(n, SlaveRecord(ttype).1, SlaveRecord(ttype).0, PORT_IDENTITY)
  {
    hide SlaveRecord, RecordFields;
    NoScaledInRecords(n, ttype, PORT_IDENTITY);
  }

  lemma FewAreSwaps(ttype: nat, v: seq<Octet>)
    ensures AllSwaps([Swap(0, 2), Swap(2, 2)]) && AllSwaps([]) && AllSwaps(UnicastFields(ttype))
    ensures ResponseLayout(v) != None ==> AllSwaps(ResponseLayout(v).value.head)
  {
    assert AllSwaps(FootFields());
    hide FootFields;
  }

  lemma OrgScaled(v: seq<Octet>)
    requires ReceiveLayout(ORGANIZATION_EXTENSION, v) != None
    requires Fit(Fields(ReceiveLayout(ORGANIZATION_EXTENSION, v).value), |v|)
    ensures var fs := Fields(ReceiveLayout(ORGANIZATION_EXTENSION, v).value);
            (forall k :: 0 <= k < |fs| ==> ScaledKept(v, fs[k])) <==> TlvKept(ORGANIZATION_EXTENSION, v)
  {
    PlainFields(OrgLayout(v).value);
    var fs := FollowUpInfoFields();
    assert fs[2] == Scaled(12);
    assert forall k :: 0 <= k < |fs| && k != 2 ==> fs[k].Swap?;
    hide FollowUpInfoFields, Fields;
  }

  lemma MgtScaled(v: seq<Octet>)
    requires ReceiveLayout(MANAGEMENT, v) != None
    requires Fit(Fields(ReceiveLayout(MANAGEMENT, v).value), |v|)
    ensures var fs := Fields(ReceiveLayout(MANAGEMENT, v).value);
            (forall k :: 0 <= k < |fs| ==> ScaledKept(v, fs[k])) <==> TlvKept(MANAGEMENT, v)
  {
    var l := ReceiveLayout(MANAGEMENT, v).value;
    PlainFields(l);
    hide Describe, Fields;
    if |v| > 2 && Net16(v, 0) == TIME_STATUS_NP {
      assert l.head[6] == Scaled(28);
      assert forall k :: 0 <= k < |l.head| && k != 6 ==> l.head[k].Swap?;
    } else {
      assert forall k :: 0 <= k < |l.head| ==> l.head[k].Swap?;
    }
  }

  // One TLV, there and back.
  lemma TlvRoundTrip(ttype: nat, v: seq<Octet>)
    requires |v| < 0x1_0000 && |v| % 2 == 0 && HostTlv(ttype, v) != None
    ensures var (h, x) := HostTlv(ttype, v).value;
            SendsWithin(ttype, h, x) && (NetTlv(ttype, h, x) == v <==> TlvKept(ttype, v))
  {
    hide ReceiveLayout, SendLayout, TlvKept, Ordered, Fields, Within;
    ReceiveIsOrdered(ttype, v);
    ReceiveIsWithin(ttype, v);
    SendUndoesReceive(ttype, v);
    WhereScaled(ttype, v);
    ConvertedTwice(v, Fields(ReceiveLayout(ttype, v).value), 0, |v|);
  }

  lemma HostSuffixParts(s: seq<Octet>)
    requires TLV_SIZE <= |s| < 0x1_0000 && HostSuffix(s) != None
    ensures var n := Net16(s, 2);
            && n % 2 == 0 && n <= |s| - TLV_SIZE && HostTlv(Net16(s, 0), s[4..4 + n]) != None
            && HostSuffix(s[4 + n..]) != None
            && (var (hv, x) := HostTlv(Net16(s, 0), s[4..4 + n]).value;
                var (host, xs) := HostSuffix(s[4 + n..]).value;
                HostSuffix(s) == Some((Turned(s[..4]) + hv + host, [x] + xs)))
  {
    hide HostTlv;
  }

  lemma KeptParts(s: seq<Octet>)
    requires |s| >= TLV_SIZE && Net16(s, 2) <= |s| - TLV_SIZE
    ensures SuffixKept(s) <==> TlvKept(Net16(s, 0), s[4..4 + Net16(s, 2)]) && SuffixKept(s[4 + Net16(s, 2)..])
  {
    hide TlvKept;
  }

  lemma NetSuffixParts(t: seq<Octet>, hv: seq<Octet>, host: seq<Octet>, x: Extra, xs: seq<Extra>)
    requires |t| == 4 && |hv| == Net16(t, 2) && SendsWithin(Net16(t, 0), hv, x) && Sendable(host, xs)
    ensures var h := Turned(t) + hv + host;
            Sendable(h, [x] + xs) && NetSuffix(h, [x] + xs) == t + NetTlv(Net16(t, 0), hv, x) + NetSuffix(host, xs)
  {
    hide NetTlv, SendsWithin;
    var h := Turned(t) + hv + host;
    var n := Net16(t, 2);
    assert h[..4] == Turned(t) && Turned(h[..4]) == t;
    assert h[4..4 + n] == hv && h[4 + n..] == host;
    assert ([x] + xs)[1..] == xs;
  }

  // Sending a received list of TLVs restores every byte, exactly when every TLV is kept.
  lemma {:induction false} SuffixRoundTrip(s: seq<Octet>)
    requires |s| < 0x1_0000 && HostSuffix(s) != None
    ensures Sendable(HostSuffix(s).value.0, HostSuffix(s).value.1)
    ensures NetSuffix(HostSuffix(s).value.0, HostSuffix(s).value.1) == s <==> SuffixKept(s)
    decreases |s|
  {
    hide HostTlv, NetTlv, TlvKept, SendsWithin;
    if |s| < TLV_SIZE {
      NothingToSend(s);
    } else {
      SuffixRoundTripStep(s);
    }
  }

  lemma SuffixRoundTripStep(s: seq<Octet>)
    requires TLV_SIZE <= |s| < 0x1_0000 && HostSuffix(s) != None
    ensures Sendable(HostSuffix(s).value.0, HostSuffix(s).value.1)
    ensures NetSuffix(HostSuffix(s).value.0, HostSuffix(s).value.1) == s <==> SuffixKept(s)
    decreases |s|, 0
  {
    hide HostTlv, NetTlv, TlvKept, SendsWithin, HostSuffix, NetSuffix, Sendable, Turned, SuffixKept, Net16;
    HostSuffixParts(s);
    KeptParts(s);
    var n := Net16(s, 2);
    var ttype, v, rest := Net16(s, 0), s[4..4 + n], s[4 + n..];
    TlvRoundTrip(ttype, v);
    SuffixRoundTrip(rest);
    var (hv, x) := HostTlv(ttype, v).value;
    var (host, xs) := HostSuffix(rest).value;
    TypeAndLength(s);
    NetSuffixParts(s[..4], hv, host, x, xs);
    var nv, nr := NetTlv(ttype, hv, x), NetSuffix(host, xs);
    ThreeParts(s, n);
    ConcatEqual(s[..4], nv, nr, v, rest);
  }

  lemma ThreeParts(s: seq<Octet>, n: nat)
    requires 4 + n <= |s|
    ensures s == s[..4] + s[4..4 + n] + s[4 + n..]
  {
  }

  lemma TypeAndLength(s: seq<Octet>)
    requires |s| >= 4
    ensures Net16(s[..4], 0) == Net16(s, 0) && Net16(s[..4], 2) == Net16(s, 2)
  {
  }

  lemma ConcatEqual(t: seq<Octet>, a: seq<Octet>, b: seq<Octet>, c: seq<Octet>, d: seq<Octet>)
    requires |a| == |c|
    ensures t + a + b == t + c + d <==> a == c && b == d
  {
    if t + a + b == t + c + d {
      assert a == (t + a + b)[|t|..|t| + |a|] == c;
      assert b == (t + a + b)[|t| + |a|..] == d;
    }
  }

  // The end of the TLV that starts at `p`.
  function TlvEnd(s: seq<Octet>, p: nat): nat
    requires p + TLV_SIZE <= |s|
  {
    p + TLV_SIZE + Net16(s, p + 2)
  }

  // Where the TLVs of a suffix start, from `p` on, and where the last one ends.
  function Marks(s: seq<Octet>, p: nat): (m: seq<nat>)
    ensures m != [] && m[0] == p
    decreases |s| - p
  {
    if p + TLV_SIZE > |s| || TlvEnd(s, p) > |s| then [p] else [p] + Marks(s, TlvEnd(s, p))
  }

  // The k-th TLV is even in length, inside the suffix, and ends where the next one starts.
  predicate Lies(s: seq<Octet>, m: seq<nat>, k: nat)
    requires k + 1 < |m|
  {
    m[k] + TLV_SIZE <= |s| && Net16(s, m[k] + 2) % 2 == 0 && m[k + 1] == TlvEnd(s, m[k]) <= |s|
  }

  lemma OneTlvMore(s: seq<Octet>, from: nat, m: seq<nat>)
    requires from + TLV_SIZE <= |s| && Net16(s, from + 2) % 2 == 0 && TlvEnd(s, from) <= |s|
    requires m != [] && m[0] == TlvEnd(s, from) && forall k :: 0 <= k < |m| - 1 ==> Lies(s, m, k)
    ensures forall k :: 0 <= k < |m| ==> Lies(s, [from] + m, k)
  {
    forall k | 0 <= k < |m|
      ensures Lies(s, [from] + m, k)
    {
      if k > 0 {
        assert Lies(s, m, k - 1);
        assert ([from] + m)[k] == m[k - 1] && ([from] + m)[k + 1] == m[k];
      }
    }
  }

  lemma HostSuffixAt(s: seq<Octet>, from: nat)
    requires from + TLV_SIZE <= |s| < 0x1_0000 && HostSuffix(s[from..]) != None
    ensures var next := TlvEnd(s, from);
            && Net16(s, from + 2) % 2 == 0 && next <= |s| && HostSuffix(s[next..]) != None
            && |HostSuffix(s[from..]).value.1| == 1 + |HostSuffix(s[next..]).value.1|
  {
    hide HostTlv, HostSuffix;
    var r := s[from..];
    HostSuffixParts(r);
    assert Net16(r, 2) == Net16(s, from + 2);
    assert r[4 + Net16(r, 2)..] == s[TlvEnd(s, from)..];
  }

  // The TLVs of an accepted suffix follow each other, even in length and inside it, with one descriptor
  // each, and leave fewer than four bytes behind the last one.
  lemma {:induction false} TlvsCoverSuffix(s: seq<Octet>, from: nat)
    requires from <= |s| < 0x1_0000 && HostSuffix(s[from..]) != None
    ensures var m := Marks(s, from);
            && (forall k :: 0 <= k < |m| - 1 ==> Lies(s, m, k))
            && m[|m| - 1] <= |s| < m[|m| - 1] + TLV_SIZE
            && |m| == 1 + |HostSuffix(s[from..]).value.1|
    decreases |s| - from
  {
    if |s| - from >= TLV_SIZE {
      hide HostSuffix, HostTlv, Lies, TlvEnd;
      HostSuffixAt(s, from);
      var next := TlvEnd(s, from);
      assert Marks(s, from) == [from] + Marks(s, next);
      hide Marks, Net16;
      TlvsCoverSuffix(s, next);
      OneTlvMore(s, from, Marks(s, next));
    }
  }

  // What the host reads from a converted field of a TLV is what was sent in it.
  lemma TlvReads(ttype: nat, v: seq<Octet>, k: nat)
    requires |v| < 0x1_0000 && |v| % 2 == 0 && HostTlv(ttype, v) != None
    requires k < |Fields(ReceiveLayout(ttype, v).value)| && Fields(ReceiveLayout(ttype, v).value)[k].Swap?
    ensures var f := Fields(ReceiveLayout(ttype, v).value)[k];
            End(f) <= |v| && HostValue(HostTlv(ttype, v).value.0[f.off..End(f)]) == NetValue(v[f.off..End(f)])
  {
    hide ReceiveLayout, Fields, Ordered, ByteAt;
    var fs := Fields(ReceiveLayout(ttype, v).value);
    ReceiveIsOrdered(ttype, v);
    OrderedFit(fs, 0, |v|);
    ConvertedReads(v, fs, 0, |v|, k);
  }

  // The TLV that starts at `p` of the sent suffix `s` is in host order in `h`: the host reads its type, its length
  // and each of its fields as they were sent, and the descriptor says what its layout says.
  ghost predicate InHostOrder(s: seq<Octet>, h: seq<Octet>, p: nat, x: Extra)
    requires |h| == |s| && p + TLV_SIZE <= |s| && TlvEnd(s, p) <= |s|
  {
    var v, w, l := s[p + 4..TlvEnd(s, p)], h[p + 4..TlvEnd(s, p)], ReceiveLayout(Net16(s, p), s[p + 4..TlvEnd(s, p)]);
    && Host16(h, p) == Net16(s, p) && Host16(h, p + 2) == Net16(s, p + 2)
    && l != None && x == l.value.extra
    && forall k :: 0 <= k < |Fields(l.value)| && Fields(l.value)[k].Swap? ==> ReadsAsSent(v, w, Fields(l.value)[k])
  }

  ghost predicate ReadsAsSent(v: seq<Octet>, w: seq<Octet>, f: Field) {
    End(f) <= |v| == |w| && HostValue(w[f.off..End(f)]) == NetValue(v[f.off..End(f)])
  }

  lemma TlvInHostOrder(s: seq<Octet>, h: seq<Octet>, p: nat, x: Extra)
    requires |h| == |s| < 0x1_0000 && p + TLV_SIZE <= |s| && TlvEnd(s, p) <= |s| && Net16(s, p + 2) % 2 == 0
    requires h[p..p + 4] == Turned(s[p..p + 4])
    requires HostTlv(Net16(s, p), s[p + 4..TlvEnd(s, p)]) == Some((h[p + 4..TlvEnd(s, p)], x))
    ensures InHostOrder(s, h, p, x)
  {
    hide ReceiveLayout, Fields, HostValue, NetValue;
    var v, w := s[p + 4..TlvEnd(s, p)], h[p + 4..TlvEnd(s, p)];
    var l := ReceiveLayout(Net16(s, p), v);
    FirstFour(h, p);
    FirstFour(s, p);
    forall k | 0 <= k < |Fields(l.value)| && Fields(l.value)[k].Swap?
      ensures ReadsAsSent(v, w, Fields(l.value)[k])
    {
      TlvReads(Net16(s, p), v, k);
    }
  }

  lemma FirstFour(s: seq<Octet>, p: nat)
    requires p + 4 <= |s|
    ensures s[p..p + 4] == [s[p], s[p + 1], s[p + 2], s[p + 3]]
  {
  }

  // The TLV at `p` of the suffix `s` as the host has it in `h`, which starts at `from`.
  ghost predicate HostAt(s: seq<Octet>, from: nat, h: seq<Octet>, p: nat, x: Extra)
    requires |s| < 0x1_0000
  {
    && from <= p && p + TLV_SIZE <= |s| && TlvEnd(s, p) <= |s| && Net16(s, p + 2) % 2 == 0 && |h| == |s| - from
    && h[p - from..p - from + 4] == Turned(s[p..p + 4])
    && HostTlv(Net16(s, p), s[p + 4..TlvEnd(s, p)]) == Some((h[p - from + 4..TlvEnd(s, p) - from], x))
  }

  lemma HostAtStart(s: seq<Octet>, from: nat)
    requires from + TLV_SIZE <= |s| < 0x1_0000 && HostSuffix(s[from..]) != None
    ensures var next := TlvEnd(s, from);
            && from < next <= |s| && HostSuffix(s[next..]) != None
            && var (h, xs) := HostSuffix(s[from..]).value;
               && xs != [] && HostAt(s, from, h, from, xs[0])
               && h[next - from..] == HostSuffix(s[next..]).value.0 && xs[1..] == HostSuffix(s[next..]).value.1
  {
    hide HostTlv, HostSuffix;
    HostSuffixAt(s, from);
    var r := s[from..];
    HostSuffixParts(r);
    var next, n := TlvEnd(s, from), Net16(r, 2);
    assert Net16(r, 0) == Net16(s, from);
    assert r[4 + n..] == s[next..] && r[4..4 + n] == s[from + 4..next] && r[..4] == s[from..from + 4];
    var (hv, x) := HostTlv(Net16(r, 0), r[4..4 + n]).value;
    var (host, xs) := HostSuffix(s[next..]).value;
    hide Net16, Turned;
    var h := Turned(r[..4]) + hv + host;
    assert h[0..4] == Turned(r[..4]) && h[4..4 + n] == hv && h[4 + n..] == host;
  }

  lemma HostAtEarlier(s: seq<Octet>, from: nat, next: nat, h: seq<Octet>, p: nat, x: Extra)
    requires from <= next <= |s| < 0x1_0000 && |h| == |s| - from && HostAt(s, next, h[next - from..], p, x)
    ensures HostAt(s, from, h, p, x)
  {
    hide HostTlv, Turned, Net16;
    var host, d := h[next - from..], next - from;
    assert host[p - next..p - next + 4] == h[p - from..p - from + 4];
    assert host[p - next + 4..TlvEnd(s, p) - next] == h[p - from + 4..TlvEnd(s, p) - from];
  }

  lemma HostSuffixStarts(s: seq<Octet>, from: nat)
    requires from <= |s| < 0x1_0000 && HostSuffix(s[from..]) != None && HostSuffix(s[from..]).value.1 != []
    ensures from + TLV_SIZE <= |s|
  {
  }

  lemma MarksGoOn(s: seq<Octet>, from: nat)
    requires from + TLV_SIZE <= |s| && TlvEnd(s, from) <= |s|
    ensures Marks(s, from) == [from] + Marks(s, TlvEnd(s, from)) && |Marks(s, from)| > 1
  {
  }

  // Every TLV of an accepted suffix is put in host order, under its own descriptor.
  lemma {:induction false} AllInHostOrder(s: seq<Octet>, from: nat, k: nat)
    requires from <= |s| < 0x1_0000 && HostSuffix(s[from..]) != None && k < |HostSuffix(s[from..]).value.1|
    ensures k + 1 < |Marks(s, from)|
    ensures HostAt(s, from, HostSuffix(s[from..]).value.0, Marks(s, from)[k], HostSuffix(s[from..]).value.1[k])
    decreases k
  {
    hide HostSuffix, Marks, HostAt, TlvEnd, Lies, HostTlv;
    HostSuffixStarts(s, from);
    HostSuffixAt(s, from);
    HostAtStart(s, from);
    var next := TlvEnd(s, from);
    MarksGoOn(s, from);
    if k > 0 {
      AllInHostOrder(s, next, k - 1);
      HostAtEarlier(s, from, next, HostSuffix(s[from..]).value.0, Marks(s, next)[k - 1],
                    HostSuffix(s[next..]).value.1[k - 1]);
    }
  }

  // The k-th TLV has a layout.
  predicate HasLayout(s: seq<Octet>, p: nat) {
    p + TLV_SIZE <= |s| && TlvEnd(s, p) <= |s| && ReceiveLayout(Net16(s, p), s[p + 4..TlvEnd(s, p)]) != None
  }

  lemma HostTlvIff(ttype: nat, v: seq<Octet>)
    requires |v| < 0x1_0000 && |v| % 2 == 0
    ensures HostTlv(ttype, v) != None <==> ReceiveLayout(ttype, v) != None
  {
    hide ReceiveLayout;
  }

  // A suffix is accepted exactly if its TLVs are even in length and cover it up to three bytes, and each has a layout.
  ghost predicate Covered(s: seq<Octet>, m: seq<nat>)
    requires m != []
  {
    && m[|m| - 1] <= |s| < m[|m| - 1] + TLV_SIZE
    && forall k :: 0 <= k < |m| - 1 ==> Lies(s, m, k) && HasLayout(s, m[k])
  }

  lemma SuffixStepIff(s: seq<Octet>, from: nat)
    requires from + TLV_SIZE <= |s| < 0x1_0000
    ensures HostSuffix(s[from..]) != None <==>
            && Net16(s, from + 2) % 2 == 0 && TlvEnd(s, from) <= |s| && HasLayout(s, from)
            && HostSuffix(s[TlvEnd(s, from)..]) != None
  {
    hide HostTlv, ReceiveLayout;
    var r := s[from..];
    var n := Net16(r, 2);
    assert n == Net16(s, from + 2) && Net16(r, 0) == Net16(s, from);
    if n % 2 == 0 && n <= |r| - TLV_SIZE {
      assert r[4..4 + n] == s[from + 4..TlvEnd(s, from)] && r[4 + n..] == s[TlvEnd(s, from)..];
      HostTlvIff(Net16(r, 0), r[4..4 + n]);
    }
  }

  lemma CoveredStep(s: seq<Octet>, from: nat, m: seq<nat>)
    requires from + TLV_SIZE <= |s| && TlvEnd(s, from) <= |s| && m != [] && m[0] == TlvEnd(s, from)
    ensures Covered(s, [from] + m) <==> Net16(s, from + 2) % 2 == 0 && HasLayout(s, from) && Covered(s, m)
  {
    hide HasLayout, TlvEnd, Net16;
    var all := [from] + m;
    assert all[|all| - 1] == m[|m| - 1];
    forall k | 0 < k < |all| - 1
      ensures Lies(s, all, k) == Lies(s, m, k - 1) && all[k] == m[k - 1]
    {
    }
    if Covered(s, all) {
      assert Lies(s, all, 0) && HasLayout(s, all[0]);
      forall k | 0 <= k < |m| - 1
        ensures Lies(s, m, k) && HasLayout(s, m[k])
      {
        assert Lies(s, all, k + 1) && HasLayout(s, all[k + 1]);
      }
    }
    if Net16(s, from + 2) % 2 == 0 && HasLayout(s, from) && Covered(s, m) {
      forall k | 0 <= k < |all| - 1
        ensures Lies(s, all, k) && HasLayout(s, all[k])
      {
        if k > 0 {
          assert Lies(s, m, k - 1) && HasLayout(s, m[k - 1]);
        }
      }
    }
  }

  lemma {:induction false} SuffixAcceptedIff(s: seq<Octet>, from: nat)
    requires from <= |s| < 0x1_0000
    ensures HostSuffix(s[from..]) != None <==> Covered(s, Marks(s, from))
    decreases |s| - from
  {
    if |s| - from < TLV_SIZE {
      assert Marks(s, from) == [from];
    } else {
      SuffixStepIff(s, from);
      if TlvEnd(s, from) <= |s| {
        MarksGoOn(s, from);
        hide HostSuffix, Marks, Covered, Lies, HasLayout, Net16;
        SuffixAcceptedIff(s, TlvEnd(s, from));
        CoveredStep(s, from, Marks(s, TlvEnd(s, from)));
      } else {
        assert Marks(s, from) == [from];
        hide HostSuffix, HasLayout;
      }
    }
  }

  // ---- messages ----

  datatype Error = EBADMSG | EPROTO
  datatype Timestamp = Timestamp(sec: nat, nsec: nat)
  datatype HostMsg = HostMsg(bytes: seq<Octet>, extras: seq<Extra>)
  datatype Result<+T> = Ok(value: T) | Err(error: Error)

  function MessageType(b: seq<Octet>): nat
    requires b != []
  {
    b[0] % 16
  }

  function PduLength(mtype: nat): (n: Option<nat>)
    ensures n != None ==> HEADER_SIZE + 10 <= n.value <= 64
  {
    if mtype == SYNC || mtype == DELAY_REQ || mtype == FOLLOW_UP || mtype == SIGNALING then Some(44)
    else if mtype == PDELAY_REQ || mtype == PDELAY_RESP || mtype == DELAY_RESP ||
        mtype == PDELAY_RESP_FOLLOW_UP then Some(54)
    else if mtype == ANNOUNCE then Some(64)
    else if mtype == MANAGEMENT_MESSAGE then Some(48)
    else None
  }

  // msg_suffix
  predicate HasSuffix(mtype: nat) {
    mtype != SYNC && mtype != PDELAY_REQ && mtype != PDELAY_RESP
  }

  function HeaderFields(): seq<Field> {
    [Swap(2, 2), Swap(8, 8), Swap(28, 2), Swap(30, 2)]
  }

  // What both directions convert in the body.
  function BodyFields(mtype: nat): seq<Field> {
    if mtype == ANNOUNCE then [Swap(44, 2), Swap(50, 2), Swap(61, 2)]
    else if mtype == SIGNALING || mtype == MANAGEMENT_MESSAGE then [Swap(42, 2)]
    else if mtype == PDELAY_RESP || mtype == DELAY_RESP || mtype == PDELAY_RESP_FOLLOW_UP then [Swap(52, 2)]
    else []
  }

  // Whether the time stamp in the body is converted before sending; on receipt it is copied out instead.
  predicate SendsTimestamp(mtype: nat) {
    mtype == PDELAY_RESP || mtype == FOLLOW_UP || mtype == DELAY_RESP || mtype == PDELAY_RESP_FOLLOW_UP
  }

  function TimestampFields(mtype: nat): seq<Field> {
    if SendsTimestamp(mtype) then [Swap(34, 2), Swap(36, 4), Swap(40, 4)] else []
  }

  lemma PduIsOrdered(mtype: nat)
    requires PduLength(mtype) != None
    ensures Ordered(HeaderFields() + BodyFields(mtype), 0, PduLength(mtype).value)
    ensures Fit(HeaderFields() + BodyFields(mtype), PduLength(mtype).value)
    ensures Ordered(TimestampFields(mtype), 0, PduLength(mtype).value)
    ensures Fit(TimestampFields(mtype), PduLength(mtype).value)
    ensures forall k :: 0 <= k < |HeaderFields() + BodyFields(mtype)| ==> (HeaderFields() + BodyFields(mtype))[k].Swap?
  {
    var n := PduLength(mtype).value;
    OrderedFour(Swap(2, 2), Swap(8, 8), Swap(28, 2), Swap(30, 2), 0, HEADER_SIZE);
    assert Ordered(BodyFields(mtype), HEADER_SIZE, n) by {
      if mtype == ANNOUNCE {
        assert [Swap(44, 2), Swap(50, 2), Swap(61, 2)][1..] == [Swap(50, 2), Swap(61, 2)];
        OrderedTwo(Swap(50, 2), Swap(61, 2), 46, n);
      }
    }
    OrderedConcat(HeaderFields(), BodyFields(mtype), 0, HEADER_SIZE, n);
    OrderedFit(HeaderFields() + BodyFields(mtype), 0, n);
    if SendsTimestamp(mtype) {
      assert TimestampFields(mtype)[1..] == [Swap(36, 4), Swap(40, 4)];
      OrderedTwo(Swap(36, 4), Swap(40, 4), 36, n);
    }
    OrderedFit(TimestampFields(mtype), 0, n);
  }

  // The part of fixed length, on receipt ...
  function HostPdu(p: seq<Octet>, mtype: nat): (h: seq<Octet>)
    requires PduLength(mtype) == Some(|p|)
    ensures |h| == |p|
  {
    PduIsOrdered(mtype);
    Converted(p, HeaderFields() + BodyFields(mtype))
  }

  // ... and before sending.
  function NetPdu(h: seq<Octet>, mtype: nat): (p: seq<Octet>)
    requires PduLength(mtype) == Some(|h|)
    ensures |p| == |h|
  {
    PduIsOrdered(mtype);
    Converted(Converted(h, HeaderFields() + BodyFields(mtype)), TimestampFields(mtype))
  }

  // msg_post_recv, on the bytes of the datagram
  function HostMessage(b: seq<Octet>): (r: Result<HostMsg>)
    requires |b| < 0x1_0000
    ensures r.Ok? ==> |r.value.bytes| == |b|
  {
    if |b| < HEADER_SIZE then Err(EBADMSG)
    else if b[1] % 16 != VERSION then Err(EPROTO)
    else
      var mtype := MessageType(b);
      var n := PduLength(mtype);
      if n == None || |b| < n.value then Err(EBADMSG)
      else
        var pdu := HostPdu(b[..n.value], mtype);
        if !HasSuffix(mtype) then Ok(HostMsg(pdu + b[n.value..], []))
        else
          var s := HostSuffix(b[n.value..]);
          if s == None then Err(EBADMSG) else Ok(HostMsg(pdu + s.value.0, s.value.1))
  }

  predicate SendableMessage(m: HostMsg) {
    && |m.bytes| >= HEADER_SIZE
    && (var n := PduLength(MessageType(m.bytes));
        n != None && n.value <= |m.bytes| && Sendable(m.bytes[n.value..], m.extras))
  }

  // msg_pre_send
  function NetMessage(m: HostMsg): (b: seq<Octet>)
    requires SendableMessage(m)
    ensures |b| == |m.bytes|
  {
    var mtype := MessageType(m.bytes);
    var n := PduLength(mtype).value;
    NetPdu(m.bytes[..n], mtype) + NetSuffix(m.bytes[n..], m.extras)
  }

  // The three parts of the time stamp read the same in both directions.
  predicate TimestampKept(b: seq<Octet>)
    requires |b| >= HEADER_SIZE
  {
    SendsTimestamp(MessageType(b)) && |b| >= 44 ==>
      b[34] == b[35] && b[36] == b[39] && b[37] == b[38] && b[40] == b[43] && b[41] == b[42]
  }

  predicate TlvsKept(b: seq<Octet>)
    requires |b| >= HEADER_SIZE
  {
    var n := PduLength(MessageType(b));
    HasSuffix(MessageType(b)) && n != None && n.value <= |b| ==> SuffixKept(b[n.value..])
  }

  lemma TimestampTwice(p: seq<Octet>, mtype: nat)
    requires PduLength(mtype) == Some(|p|)
    ensures Fit(TimestampFields(mtype), |p|)
    ensures Converted(p, TimestampFields(mtype)) == p <==>
            (SendsTimestamp(mtype) ==>
               p[34] == p[35] && p[36] == p[39] && p[37] == p[38] && p[40] == p[43] && p[41] == p[42])
  {
    PduIsOrdered(mtype);
    var fs := TimestampFields(mtype);
    var r := Converted(p, fs);
    if SendsTimestamp(mtype) {
      forall k, i | 0 <= k < 3 && Covers(fs[k], i)
        ensures r[i] == Place(p, fs[k], i)
      {
        Inside(p, fs, 0, |p|, k, i);
      }
      hide ByteAt;
      assert Covers(fs[0], 34) && Covers(fs[0], 35);
      assert r[34] == p[35] && r[35] == p[34];
      assert Covers(fs[1], 36) && Covers(fs[1], 37) && Covers(fs[1], 38) && Covers(fs[1], 39);
      assert r[36] == p[39] && r[37] == p[38] && r[38] == p[37] && r[39] == p[36];
      assert Covers(fs[2], 40) && Covers(fs[2], 41) && Covers(fs[2], 42) && Covers(fs[2], 43);
      assert r[40] == p[43] && r[41] == p[42] && r[42] == p[41] && r[43] == p[40];
      forall i | 0 <= i < |p| && !(34 <= i < 44)
        ensures r[i] == p[i]
      {
        Outside(p, fs, i);
      }
    }
  }

  // A received message, sent on: the datagram is restored exactly when its time stamp and its TLVs
  // are kept.
  lemma RoundTrip(b: seq<Octet>)
    requires |b| < 0x1_0000 && HostMessage(b).Ok?
    ensures SendableMessage(HostMessage(b).value)
    ensures NetMessage(HostMessage(b).value) == b <==> TimestampKept(b) && TlvsKept(b)
  {
    hide Sendable, SuffixKept, HostSuffix, NetSuffix, HostPdu, NetPdu, SendsTimestamp;
    var mtype := MessageType(b);
    var n := PduLength(mtype).value;
    var p, rest := b[..n], b[n..];
    PduRoundTrip(p, mtype);
    RestTwice(b);
    var m := HostMessage(b).value;
    assert m.bytes[..n] == HostPdu(p, mtype);
    assert m.bytes[0] == b[0];
    var q, r := NetPdu(m.bytes[..n], mtype), NetSuffix(m.bytes[n..], m.extras);
    assert b == p + rest && [] + q == q && [] + p == p;
    ConcatEqual([], q, r, p, rest);
  }

  // What follows the fixed part.
  lemma RestTwice(b: seq<Octet>)
    requires |b| < 0x1_0000 && HostMessage(b).Ok?
    ensures var n := PduLength(MessageType(b)).value;
            var m := HostMessage(b).value;
            Sendable(m.bytes[n..], m.extras) && (NetSuffix(m.bytes[n..], m.extras) == b[n..] <==> TlvsKept(b))
  {
    hide Sendable, SuffixKept, HostSuffix, NetSuffix, HostPdu;
    var n := PduLength(MessageType(b)).value;
    var m, rest := HostMessage(b).value, b[n..];
    if HasSuffix(MessageType(b)) {
      SuffixRoundTrip(rest);
      assert m.bytes[n..] == HostSuffix(rest).value.0;
    } else {
      NothingToSend(rest);
      assert m.bytes[n..] == rest;
    }
  }

  // The fixed part, there and back: only the time stamp is not turned twice.
  lemma PduRoundTrip(p: seq<Octet>, mtype: nat)
    requires PduLength(mtype) == Some(|p|)
    ensures HostPdu(p, mtype)[0] == p[0]
    ensures NetPdu(HostPdu(p, mtype), mtype) == p <==>
            (SendsTimestamp(mtype) ==>
               p[34] == p[35] && p[36] == p[39] && p[37] == p[38] && p[40] == p[43] && p[41] == p[42])
  {
    hide ByteAt, TimestampFields, SendsTimestamp;
    PduIsOrdered(mtype);
    var fs := HeaderFields() + BodyFields(mtype);
    ConvertedTwice(p, fs, 0, |p|);
    StartStays(p, fs);
    TimestampTwice(p, mtype);
  }

  lemma SliceOfPrefix(s: seq<Octet>, n: nat, lo: nat, hi: nat)
    requires lo <= hi <= n <= |s|
    ensures s[..n][lo..hi] == s[lo..hi]
  {
  }

  lemma StartStays(p: seq<Octet>, fs: seq<Field>)
    requires |p| > 0 && Fit(fs, |p|) && Ordered(fs, 0, |p|) && fs != [] && fs[0].off > 1
    ensures ByteAt(p, fs, 0) == p[0]
  {
    OrderedFit(fs[1..], End(fs[0]), |p|);
    forall k | 0 <= k < |fs|
      ensures !Covers(fs[k], 0)
    {
      assert k > 0 ==> fs[k] == fs[1..][k - 1];
    }
    Outside(p, fs, 0);
  }

  lemma NothingToSend(h: seq<Octet>)
    ensures Sendable(h, []) && NetSuffix(h, []) == h
  {
  }

  // Signaling and Management messages without scaled nanoseconds always come back.
  lemma ForwardedUnchanged(b: seq<Octet>)
    requires |b| < 0x1_0000 && HostMessage(b).Ok?
    requires MessageType(b) == SIGNALING || MessageType(b) == MANAGEMENT_MESSAGE
    requires NoScaled(b[PduLength(MessageType(b)).value..])
    ensures SendableMessage(HostMessage(b).value) && NetMessage(HostMessage(b).value) == b
  {
    RoundTrip(b);
    NoScaledIsKept(b[PduLength(MessageType(b)).value..]);
  }

  // No TLV is a time status or IEEE 802.1AS follow-up information.
  predicate NoScaled(s: seq<Octet>) {
    |s| < TLV_SIZE || Net16(s, 2) > |s| - TLV_SIZE ||
    (var ttype, v := Net16(s, 0), s[4..4 + Net16(s, 2)];
     && !(ttype == MANAGEMENT && |v| >= 2 && Net16(v, 0) == TIME_STATUS_NP)
     && !(ttype == ORGANIZATION_EXTENSION && |v| >= 6 && Ieee8021(v) && v[5] == 1)
     && NoScaled(s[4 + Net16(s, 2)..]))
  }

  lemma {:induction false} NoScaledIsKept(s: seq<Octet>)
    requires NoScaled(s)
    ensures SuffixKept(s)
    decreases |s|
  {
    if |s| >= TLV_SIZE && Net16(s, 2) <= |s| - TLV_SIZE {
      NoScaledIsKept(s[4 + Net16(s, 2)..]);
    }
  }

  // What the host reads from a converted field of the header or the body is what was sent in it.
  lemma HostReadsWhatWasSent(b: seq<Octet>, k: nat)
    requires |b| < 0x1_0000 && HostMessage(b).Ok?
    requires k < |HeaderFields() + BodyFields(MessageType(b))|
    ensures var f := (HeaderFields() + BodyFields(MessageType(b)))[k];
            End(f) <= |b| && HostValue(HostMessage(b).value.bytes[f.off..End(f)]) == NetValue(b[f.off..End(f)])
  {
    hide HostSuffix, ByteAt;
    var mtype := MessageType(b);
    var n := PduLength(mtype).value;
    PduIsOrdered(mtype);
    assert HostMessage(b).value.bytes[..n] == HostPdu(b[..n], mtype);
    var fs := HeaderFields() + BodyFields(mtype);
    ConvertedReads(b[..n], fs, 0, n, k);
    var f := fs[k];
    assert End(f) <= n;
    var c := Converted(b[..n], fs);
    hide HeaderFields, BodyFields, Ordered;
    SliceOfPrefix(b, n, f.off, End(f));
    SliceOfPrefix(HostMessage(b).value.bytes, n, f.off, End(f));
  }
}
