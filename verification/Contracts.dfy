/** The contract table of `unicast_service.c` as values, and what the requests do to it.

  The state of the service is the list of its intervals; everything a client can observe of a grant
  or of a cancellation is a change of that list.  `UnicastService` shows that the C loops compute
  these functions.
 */
module Contracts {
  import opened Prelude

  const NS_PER_SEC: int := 1_000_000_000

  datatype Timespec = Timespec(sec: int, nsec: int)

  ghost predicate Normal(t: Timespec) {
    0 <= t.nsec < NS_PER_SEC
  }

  function Ns(t: Timespec): int {
    t.sec * NS_PER_SEC + t.nsec
  }

  // timespec_compare: positive when `a` is before `b`.
  function TimespecCompare(a: Timespec, b: Timespec): (r: int)
    ensures Normal(a) && Normal(b) ==> (r > 0 <==> Ns(a) < Ns(b)) && (r < 0 <==> Ns(b) < Ns(a))
  {
    if a.sec < b.sec then 1
    else if b.sec < a.sec then -1
    else if a.nsec < b.nsec then 1
    else if b.nsec < a.nsec then -1
    else 0
  }

  // Half a second, shifted right `k - 1` times.
  function FractionOfSecond(k: nat): nat
    requires 1 <= k
  {
    if k == 1 then 500_000_000 else FractionOfSecond(k - 1) / 2
  }

  // log_to_timespec, for the exponents whose shift C defines.
  function LogPeriod(log: int): (t: Timespec)
    requires log <= 30
    ensures Normal(t)
  {
    if log < 0 then
      FractionShrinks(1, -log);
      Timespec(0, FractionOfSecond(-log))
    else Timespec(Pow2(log), 0)
  }

  lemma FractionShrinks(j: nat, k: nat)
    requires 1 <= j <= k
    ensures FractionOfSecond(k) <= FractionOfSecond(j)
    ensures FractionOfSecond(j) <= 500_000_000
  {
    if j < k {
      FractionShrinks(j, k - 1);
    } else if j > 1 {
      FractionShrinks(j - 1, k - 1);
    }
  }

  lemma LastFraction()
    ensures FractionOfSecond(29) == 1 && FractionOfSecond(30) == 0
  {
    assert FractionOfSecond(5) == 31_250_000;
    assert FractionOfSecond(9) == 1_953_125;
    assert FractionOfSecond(13) == 122_070;
    assert FractionOfSecond(17) == 7_629;
    assert FractionOfSecond(21) == 476;
    assert FractionOfSecond(25) == 29;
    assert FractionOfSecond(29) == 1;
  }

  // What the exponent means: one second for zero, twice as long for each one more, and below zero the fraction of
  // a second in whole nanoseconds, rounded down.
  lemma PeriodIsPowerOfTwo(log: int)
    requires log <= 30
    ensures log >= 0 ==> Ns(LogPeriod(log)) == Pow2(log) * NS_PER_SEC
    ensures log < 0 ==> Ns(LogPeriod(log)) * Pow2(-log) <= NS_PER_SEC < (Ns(LogPeriod(log)) + 1) * Pow2(-log)
  {
    if log < 0 {
      FractionIsFloor(-log);
    }
    hide Pow2, FractionOfSecond;
  }

  lemma PeriodDoubles(log: int)
    requires 0 <= log < 30
    ensures Ns(LogPeriod(0)) == NS_PER_SEC && Ns(LogPeriod(log + 1)) == 2 * Ns(LogPeriod(log))
  {
  }

  lemma {:induction false} FractionIsFloor(k: nat)
    requires 1 <= k
    ensures FractionOfSecond(k) * Pow2(k) <= NS_PER_SEC < (FractionOfSecond(k) + 1) * Pow2(k)
  {
    if k == 1 {
      assert Pow2(1) == 2;
    } else {
      FractionIsFloor(k - 1);
      HalfIsFloor(FractionOfSecond(k - 1), FractionOfSecond(k), Pow2(k - 1));
    }
  }

  lemma HalfIsFloor(f: int, h: int, p: int)
    requires h == f / 2 && p > 0 && f * p <= NS_PER_SEC < (f + 1) * p
    ensures h * (2 * p) <= NS_PER_SEC < (h + 1) * (2 * p)
  {
    assert h * (2 * p) == (2 * h) * p && (h + 1) * (2 * p) == (2 * h + 2) * p;
    Grows(2 * h, f, p);
    Grows(f + 1, 2 * h + 2, p);
  }

  lemma Grows(a: int, b: int, p: int)
    requires a <= b && p > 0
    ensures a * p <= b * p
  {
  }

  // Exactly the exponents from -29 upwards give an interval that makes progress.
  lemma PositivePeriods(log: int)
    requires log <= 30
    ensures Ns(LogPeriod(log)) > 0 <==> -29 <= log
  {
    LastFraction();
    hide FractionOfSecond, Pow2;
    if -29 <= log < 0 {
      FractionShrinks(-log, 29);
    } else if log < -29 {
      FractionShrinks(30, -log);
    }
  }

  // ---- the table ----

  datatype Transport = UdpIPv4 | UdpIPv6 | Ieee8023 | Other

  datatype Address = Address(host: seq<nat>, port: nat)

  predicate Comparable(t: Transport) {
    t != Other
  }

  // addreq: only the host part counts, and only for three transports.
  predicate AddrEq(t: Transport, a: Address, b: Address) {
    Comparable(t) && a.host == b.host
  }

  datatype MessageType = Sync | Announce | DelayResp | PdelayResp | Unnegotiated(code: nat)

  // `messageTypes` is the bit mask, as the set of its bits.
  datatype Client = Client(addr: Address, messageTypes: set<MessageType>, grantTmo: int)

  datatype Interval = Interval(clients: seq<Client>, incr: Timespec, tmo: Timespec, logPeriod: int)

  datatype Request = Request(addr: Address, mtype: MessageType, logPeriod: int, duration: nat)

  function Extended(c: Client, tmo: int): Client {
    if tmo > c.grantTmo then c.(grantTmo := tmo) else c
  }

  // The record of `addr`, or the length of the list.
  function Find(t: Transport, s: seq<Client>, addr: Address): (k: nat)
    ensures k <= |s|
    ensures k < |s| ==> AddrEq(t, s[k].addr, addr)
    ensures forall i :: 0 <= i < k ==> !AddrEq(t, s[i].addr, addr)
  {
    if s == [] || AddrEq(t, s[0].addr, addr) then 0 else 1 + Find(t, s[1..], addr)
  }

  // Take `mtype` away from `addr`, and drop the record when nothing is left in it.
  function Strip(t: Transport, s: seq<Client>, addr: Address, mtype: MessageType): (r: seq<Client>) {
    if s == [] then [] else StripOne(t, s[0], addr, mtype) + Strip(t, s[1..], addr, mtype)
  }

  function StripOne(t: Transport, c: Client, addr: Address, mtype: MessageType): (r: seq<Client>) {
    if !AddrEq(t, c.addr, addr) then [c]
    else if c.messageTypes - {mtype} == {} then []
    else [c.(messageTypes := c.messageTypes - {mtype})]
  }

  // Record that `addr` has `mtype` until at least `tmo`.
  function Contract(t: Transport, s: seq<Client>, addr: Address, mtype: MessageType, tmo: int): seq<Client> {
    var k := Find(t, s, addr);
    if k < |s| then s[k := Extended(s[k].(messageTypes := s[k].messageTypes + {mtype}), tmo)]
    else [Extended(Client(addr, {mtype}, 0), tmo)] + s
  }

  function StripAll(t: Transport, ivs: seq<Interval>, addr: Address, mtype: MessageType): (r: seq<Interval>)
    ensures |r| == |ivs|
    ensures forall i :: 0 <= i < |ivs| ==> r[i] == ivs[i].(clients := Strip(t, ivs[i].clients, addr, mtype))
  {
    seq(|ivs|, i requires 0 <= i < |ivs| => ivs[i].(clients := Strip(t, ivs[i].clients, addr, mtype)))
  }

  // The interval with this period, or the length of the list.
  function IndexOf(ivs: seq<Interval>, logPeriod: int): (k: nat)
    ensures k <= |ivs|
    ensures k < |ivs| ==> ivs[k].logPeriod == logPeriod
    ensures forall i :: 0 <= i < k ==> ivs[i].logPeriod != logPeriod
  {
    if ivs == [] || ivs[0].logPeriod == logPeriod then 0 else 1 + IndexOf(ivs[1..], logPeriod)
  }

  function StripUnless(t: Transport, iv: Interval, req: Request): Interval {
    if iv.logPeriod == req.logPeriod then iv
    else iv.(clients := Strip(t, iv.clients, req.addr, req.mtype))
  }

  // What the loop over the intervals leaves: only the requested period's interval is not stripped.
  function StripOthers(t: Transport, ivs: seq<Interval>, req: Request): (r: seq<Interval>)
    ensures |r| == |ivs|
    ensures forall i :: 0 <= i < |ivs| ==> r[i] == StripUnless(t, ivs[i], req)
  {
    seq(|ivs|, i requires 0 <= i < |ivs| => StripUnless(t, ivs[i], req))
  }

  // The record that starts an interval's list of clients, in an interval of its own.
  function NewInterval(t: Transport, req: Request, now: int, first: Timespec): Interval
    requires req.logPeriod <= 30
  {
    Interval(Contract(t, [], req.addr, req.mtype, now + req.duration), LogPeriod(req.logPeriod), first, req.logPeriod)
  }

  // `now` is the reading behind the grant's end, `first` the new interval's first deadline.
  function Granted(t: Transport, ivs: seq<Interval>, req: Request, now: int, first: Timespec): seq<Interval>
    requires req.logPeriod <= 30
  {
    var k := IndexOf(ivs, req.logPeriod);
    var rest := StripOthers(t, ivs, req);
    if k < |ivs| then
      rest[k := ivs[k].(clients := Contract(t, ivs[k].clients, req.addr, req.mtype, now + req.duration))]
    else
      [NewInterval(t, req, now, first)] + rest
  }

  // ---- what every reachable table satisfies ----

  ghost predicate WellFormed(ivs: seq<Interval>) {
    && (forall i, j :: 0 <= i < j < |ivs| ==> ivs[i].logPeriod != ivs[j].logPeriod)
    && (forall i :: 0 <= i < |ivs| ==>
          ivs[i].logPeriod <= 30 && ivs[i].incr == LogPeriod(ivs[i].logPeriod) && Normal(ivs[i].tmo))
  }

  // One record per address, and none that grants nothing.
  ghost predicate Records(t: Transport, s: seq<Client>) {
    && (forall i, j :: 0 <= i < j < |s| ==> !AddrEq(t, s[i].addr, s[j].addr))
    && (forall i :: 0 <= i < |s| ==> s[i].messageTypes != {})
  }

  ghost predicate Has(t: Transport, s: seq<Client>, addr: Address, mtype: MessageType) {
    exists i :: 0 <= i < |s| && AddrEq(t, s[i].addr, addr) && mtype in s[i].messageTypes
  }

  // No address has one message type in two intervals.
  ghost predicate Unique(t: Transport, ivs: seq<Interval>) {
    && (forall i :: 0 <= i < |ivs| ==> Records(t, ivs[i].clients))
    && (forall i, j, a, m {:trigger Has(t, ivs[i].clients, a, m), Has(t, ivs[j].clients, a, m)} ::
          0 <= i < j < |ivs| && Has(t, ivs[i].clients, a, m) ==> !Has(t, ivs[j].clients, a, m))
  }

  lemma HasOne(t: Transport, c: Client, a: Address, m: MessageType)
    ensures Has(t, [c], a, m) <==> AddrEq(t, c.addr, a) && m in c.messageTypes
  {
    assert [c][0] == c;
  }

  lemma StripOneHas(t: Transport, c: Client, addr: Address, mtype: MessageType, a: Address, m: MessageType)
    ensures Has(t, StripOne(t, c, addr, mtype), a, m) <==>
            Has(t, [c], a, m) && !(AddrEq(t, addr, a) && m == mtype)
  {
    HasOne(t, c, a, m);
    var r := StripOne(t, c, addr, mtype);
    assert m in c.messageTypes - {mtype} <==> m in c.messageTypes && m != mtype;
    if r != [] {
      HasOne(t, r[0], a, m);
    }
  }

  // Strip removes exactly the one pair (address, message type).
  lemma {:induction false} StripHas(t: Transport, s: seq<Client>, addr: Address, mtype: MessageType, a: Address,
                                    m: MessageType)
    ensures Has(t, Strip(t, s, addr, mtype), a, m) <==>
            Has(t, s, a, m) && !(AddrEq(t, addr, a) && m == mtype)
  {
    if s != [] {
      StripHas(t, s[1..], addr, mtype, a, m);
      StripOneHas(t, s[0], addr, mtype, a, m);
      HasConcat(t, [s[0]], s[1..], a, m);
      HasConcat(t, StripOne(t, s[0], addr, mtype), Strip(t, s[1..], addr, mtype), a, m);
      assert [s[0]] + s[1..] == s;
    }
  }

  lemma HasConcat(t: Transport, s: seq<Client>, r: seq<Client>, a: Address, m: MessageType)
    ensures Has(t, s + r, a, m) <==> Has(t, s, a, m) || Has(t, r, a, m)
  {
    if Has(t, s, a, m) {
      var i :| 0 <= i < |s| && AddrEq(t, s[i].addr, a) && m in s[i].messageTypes;
      assert (s + r)[i] == s[i];
    }
    if Has(t, r, a, m) {
      var i :| 0 <= i < |r| && AddrEq(t, r[i].addr, a) && m in r[i].messageTypes;
      assert (s + r)[|s| + i] == r[i];
    }
  }

  // Where the messages for `a` go, and until when; None without a record.
  datatype Terms = Terms(dst: Address, end: int)

  ghost function TermsOf(t: Transport, s: seq<Client>, a: Address): Option<Terms> {
    var k := Find(t, s, a);
    if k < |s| then Some(Terms(s[k].addr, s[k].grantTmo)) else None
  }

  lemma TermsOfCons(t: Transport, c: Client, s: seq<Client>, a: Address)
    ensures TermsOf(t, [c] + s, a) == if AddrEq(t, c.addr, a) then Some(Terms(c.addr, c.grantTmo)) else TermsOf(t, s, a)
  {
    assert ([c] + s)[1..] == s;
  }

  // Whatever is stripped from a record, its terms stay while the record does.
  lemma StripOneTerms(t: Transport, c: Client, addr: Address, mtype: MessageType, rest: seq<Client>, a: Address)
    ensures var r := StripOne(t, c, addr, mtype) + rest;
            if !AddrEq(t, c.addr, a) then TermsOf(t, r, a) == TermsOf(t, rest, a)
            else StripOne(t, c, addr, mtype) != [] ==> TermsOf(t, r, a) == Some(Terms(c.addr, c.grantTmo))
  {
    var one := StripOne(t, c, addr, mtype);
    if one == [] {
      assert one + rest == rest;
    } else {
      TermsOfCons(t, one[0], rest, a);
      assert one + rest == [one[0]] + rest;
    }
    hide TermsOf;
  }

  // Who holds something beside the first record is not the first record's client.
  lemma OthersHold(t: Transport, s: seq<Client>, a: Address, m: MessageType)
    requires Records(t, s) && s != [] && AddrEq(t, s[0].addr, a)
    ensures Records(t, s[1..]) && !Has(t, s[1..], a, m)
  {
  }

  lemma RecordsOfTail(t: Transport, s: seq<Client>)
    requires Records(t, s) && s != []
    ensures Records(t, s[1..])
  {
  }

  // Who still holds something after the stripping holds it on the terms from before.
  lemma {:induction false} StripTerms(t: Transport, s: seq<Client>, addr: Address, mtype: MessageType, a: Address,
                                      m: MessageType)
    requires Records(t, s) && Has(t, Strip(t, s, addr, mtype), a, m)
    ensures TermsOf(t, Strip(t, s, addr, mtype), a) == TermsOf(t, s, a)
  {
    hide Records, Has, TermsOf, StripOne, AddrEq;
    if s == [] {
      assert Strip(t, s, addr, mtype) == s;
    } else {
      var one, rest := StripOne(t, s[0], addr, mtype), Strip(t, s[1..], addr, mtype);
      assert s == [s[0]] + s[1..];
      RecordsOfTail(t, s);
      TermsOfCons(t, s[0], s[1..], a);
      StripOneTerms(t, s[0], addr, mtype, rest, a);
      HasConcat(t, one, rest, a, m);
      if AddrEq(t, s[0].addr, a) {
        OthersHold(t, s, a, m);
        StripHas(t, s[1..], addr, mtype, a, m);
        HasNone(t, a, m);
      } else {
        StripOneHas(t, s[0], addr, mtype, a, m);
        HasOne(t, s[0], a, m);
        StripTerms(t, s[1..], addr, mtype, a, m);
      }
    }
  }

  lemma HasNone(t: Transport, a: Address, m: MessageType)
    ensures !Has(t, [], a, m)
  {
  }

  // Nothing but the addresses already in the list can appear in the stripped one.
  lemma {:induction false} StripRecords(t: Transport, s: seq<Client>, addr: Address, mtype: MessageType)
    requires Records(t, s)
    ensures Records(t, Strip(t, s, addr, mtype))
    ensures forall c :: c in Strip(t, s, addr, mtype) ==> exists d :: d in s && d.addr == c.addr
  {
    if s != [] {
      StripRecords(t, s[1..], addr, mtype);
      var r := Strip(t, s[1..], addr, mtype);
      forall i | 0 <= i < |r|
        ensures !AddrEq(t, s[0].addr, r[i].addr)
      {
        assert r[i] in r;
        var d :| d in s[1..] && d.addr == r[i].addr;
      }
    }
  }

  // Stripping what is not there changes nothing.
  lemma {:induction false} StripNothing(t: Transport, s: seq<Client>, addr: Address, mtype: MessageType)
    requires !Has(t, s, addr, mtype)
    requires forall i :: 0 <= i < |s| ==> s[i].messageTypes != {}
    ensures Strip(t, s, addr, mtype) == s
  {
    if s != [] {
      assert s[0] == ([s[0]] + s[1..])[0];
      assert !Has(t, s[1..], addr, mtype) by {
        HasConcat(t, [s[0]], s[1..], addr, mtype);
        assert [s[0]] + s[1..] == s;
      }
      StripNothing(t, s[1..], addr, mtype);
      if AddrEq(t, s[0].addr, addr) {
        assert mtype !in s[0].messageTypes;
        assert s[0].messageTypes - {mtype} == s[0].messageTypes;
      }
    }
  }

  lemma ContractHas(t: Transport, s: seq<Client>, addr: Address, mtype: MessageType, tmo: int, a: Address,
                    m: MessageType)
    requires Comparable(t)
    ensures Has(t, Contract(t, s, addr, mtype, tmo), a, m) <==>
            Has(t, s, a, m) || (AddrEq(t, addr, a) && m == mtype)
  {
    var k := Find(t, s, addr);
    var r := Contract(t, s, addr, mtype, tmo);
    if k < |s| {
      if Has(t, s, a, m) {
        var i :| 0 <= i < |s| && AddrEq(t, s[i].addr, a) && m in s[i].messageTypes;
        assert AddrEq(t, r[i].addr, a) && m in r[i].messageTypes;
      }
      assert AddrEq(t, addr, a) && m == mtype ==> AddrEq(t, r[k].addr, a) && m in r[k].messageTypes;
      if Has(t, r, a, m) {
        var i :| 0 <= i < |r| && AddrEq(t, r[i].addr, a) && m in r[i].messageTypes;
        assert i != k ==> r[i] == s[i];
        assert AddrEq(t, s[i].addr, a);
      }
    } else {
      HasConcat(t, [r[0]], s, a, m);
      assert Has(t, [r[0]], a, m) <==> AddrEq(t, addr, a) && m == mtype by {
        assert [r[0]][0].messageTypes == {mtype} && [r[0]][0].addr == addr;
      }
    }
  }

  lemma ContractRecords(t: Transport, s: seq<Client>, addr: Address, mtype: MessageType, tmo: int)
    requires Comparable(t) && Records(t, s)
    ensures Records(t, Contract(t, s, addr, mtype, tmo))
  {
  }

  // The clients of the interval with this period.
  function ClientsAt(ivs: seq<Interval>, logPeriod: int): seq<Client> {
    var k := IndexOf(ivs, logPeriod);
    if k < |ivs| then ivs[k].clients else []
  }

  // How often and when next the interval of this period has its turn; None without such an interval.
  datatype Timing = Timing(incr: Timespec, tmo: Timespec)

  ghost function TimingAt(ivs: seq<Interval>, logPeriod: int): Option<Timing> {
    var k := IndexOf(ivs, logPeriod);
    if k < |ivs| then Some(Timing(ivs[k].incr, ivs[k].tmo)) else None
  }

  // On what terms the interval of this period serves `a`.
  ghost function TermsAt(t: Transport, ivs: seq<Interval>, logPeriod: int, a: Address): Option<Terms> {
    TermsOf(t, ClientsAt(ivs, logPeriod), a)
  }

  lemma RecordsAtPeriod(t: Transport, ivs: seq<Interval>, p: int)
    requires forall i :: 0 <= i < |ivs| ==> Records(t, ivs[i].clients)
    ensures Records(t, ClientsAt(ivs, p))
  {
    EmptyRecords(t);
    hide Records;
  }

  // The interval of this period serves `m` to `a`.
  ghost predicate HasAt(t: Transport, ivs: seq<Interval>, logPeriod: int, a: Address, m: MessageType) {
    Has(t, ClientsAt(ivs, logPeriod), a, m)
  }

  lemma IndexIs(ivs: seq<Interval>, k: nat)
    requires forall i, j :: 0 <= i < j < |ivs| ==> ivs[i].logPeriod != ivs[j].logPeriod
    requires k < |ivs|
    ensures IndexOf(ivs, ivs[k].logPeriod) == k
  {
    var j := IndexOf(ivs, ivs[k].logPeriod);
    if j < k {
    } else if k < j {
    }
  }

  lemma SamePeriods(ivs: seq<Interval>, r: seq<Interval>, logPeriod: int)
    requires |r| == |ivs| && forall i :: 0 <= i < |ivs| ==> r[i].logPeriod == ivs[i].logPeriod
    ensures IndexOf(r, logPeriod) == IndexOf(ivs, logPeriod)
  {
    if ivs != [] && ivs[0].logPeriod != logPeriod {
      SamePeriods(ivs[1..], r[1..], logPeriod);
    }
  }

  lemma StrippedAt(t: Transport, ivs: seq<Interval>, addr: Address, mtype: MessageType, p: int, a: Address,
                   m: MessageType)
    requires forall i :: 0 <= i < |ivs| ==> Records(t, ivs[i].clients)
    ensures var r := StripAll(t, ivs, addr, mtype);
            && (HasAt(t, r, p, a, m) <==> HasAt(t, ivs, p, a, m) && !(AddrEq(t, addr, a) && m == mtype))
            && (HasAt(t, r, p, a, m) ==> TermsAt(t, r, p, a) == TermsAt(t, ivs, p, a))
  {
    var r := StripAll(t, ivs, addr, mtype);
    SamePeriods(ivs, r, p);
    RecordsAtPeriod(t, ivs, p);
    assert ClientsAt(r, p) == Strip(t, ClientsAt(ivs, p), addr, mtype);
    hide Strip, Records, Has, TermsOf, ClientsAt;
    StripHas(t, ClientsAt(ivs, p), addr, mtype, a, m);
    if HasAt(t, r, p, a, m) {
      StripTerms(t, ClientsAt(ivs, p), addr, mtype, a, m);
    }
  }

  // A cancellation takes away exactly the cancelled contract, in every interval, and every other one goes on
  // to the same address until the same end.
  lemma CancelEffect(t: Transport, ivs: seq<Interval>, addr: Address, mtype: MessageType)
    requires WellFormed(ivs) && Unique(t, ivs)
    ensures WellFormed(StripAll(t, ivs, addr, mtype)) && Unique(t, StripAll(t, ivs, addr, mtype))
    ensures forall p, a, m :: HasAt(t, StripAll(t, ivs, addr, mtype), p, a, m) <==>
                              HasAt(t, ivs, p, a, m) && !(AddrEq(t, addr, a) && m == mtype)
    ensures forall p, a, m :: HasAt(t, StripAll(t, ivs, addr, mtype), p, a, m) ==>
                              TermsAt(t, StripAll(t, ivs, addr, mtype), p, a) == TermsAt(t, ivs, p, a)
    ensures forall p :: TimingAt(StripAll(t, ivs, addr, mtype), p) == TimingAt(ivs, p)
  {
    var r := StripAll(t, ivs, addr, mtype);
    forall i, a, m | 0 <= i < |ivs|
      ensures Has(t, r[i].clients, a, m) <==> Has(t, ivs[i].clients, a, m) && !(AddrEq(t, addr, a) && m == mtype)
    {
      StripHas(t, ivs[i].clients, addr, mtype, a, m);
    }
    forall i | 0 <= i < |ivs|
      ensures Records(t, r[i].clients)
    {
      StripRecords(t, ivs[i].clients, addr, mtype);
    }
    forall p, a, m
      ensures HasAt(t, r, p, a, m) <==> HasAt(t, ivs, p, a, m) && !(AddrEq(t, addr, a) && m == mtype)
      ensures HasAt(t, r, p, a, m) ==> TermsAt(t, r, p, a) == TermsAt(t, ivs, p, a)
    {
      StrippedAt(t, ivs, addr, mtype, p, a, m);
    }
    forall p
      ensures TimingAt(r, p) == TimingAt(ivs, p)
    {
      SamePeriods(ivs, r, p);
    }
  }

  lemma IndexOfCons(iv: Interval, ivs: seq<Interval>, p: int)
    ensures IndexOf([iv] + ivs, p) == if iv.logPeriod == p then 0 else 1 + IndexOf(ivs, p)
  {
    assert ([iv] + ivs)[1..] == ivs;
  }

  // The table `Granted` builds, interval by interval.
  lemma GrantedClients(t: Transport, ivs: seq<Interval>, req: Request, now: int, first: Timespec, p: int)
    requires req.logPeriod <= 30
    ensures ClientsAt(Granted(t, ivs, req, now, first), p) ==
            if p == req.logPeriod then Contract(t, ClientsAt(ivs, p), req.addr, req.mtype, now + req.duration)
            else Strip(t, ClientsAt(ivs, p), req.addr, req.mtype)
  {
    StrippedClients(t, ivs, req, p);
    hide Contract, Strip, ClientsAt;
    var rest := StripOthers(t, ivs, req);
    var k := IndexOf(ivs, req.logPeriod);
    SamePeriods(ivs, rest, req.logPeriod);
    if k < |ivs| {
      var iv := ivs[k].(clients := Contract(t, ivs[k].clients, req.addr, req.mtype, now + req.duration));
      ClientsAfterUpdate(rest, k, iv, p);
      ClientsAtIndex(ivs, k);
    } else {
      ClientsAfterCons(NewInterval(t, req, now, first), rest, p);
      ClientsNowhere(ivs, req.logPeriod);
    }
  }

  lemma StrippedClients(t: Transport, ivs: seq<Interval>, req: Request, p: int)
    ensures ClientsAt(StripOthers(t, ivs, req), p) ==
            if p == req.logPeriod then ClientsAt(ivs, p) else Strip(t, ClientsAt(ivs, p), req.addr, req.mtype)
  {
    assert Strip(t, [], req.addr, req.mtype) == [];
    hide Strip, IndexOf;
    SamePeriods(ivs, StripOthers(t, ivs, req), p);
  }

  lemma ClientsAtIndex(ivs: seq<Interval>, k: nat)
    requires k < |ivs| && IndexOf(ivs, ivs[k].logPeriod) == k
    ensures ClientsAt(ivs, ivs[k].logPeriod) == ivs[k].clients
  {
  }

  lemma ClientsNowhere(ivs: seq<Interval>, p: int)
    requires IndexOf(ivs, p) == |ivs|
    ensures ClientsAt(ivs, p) == []
  {
  }

  lemma ClientsAfterUpdate(ivs: seq<Interval>, k: nat, iv: Interval, p: int)
    requires k < |ivs| && iv.logPeriod == ivs[k].logPeriod && IndexOf(ivs, iv.logPeriod) == k
    ensures ClientsAt(ivs[k := iv], p) == if p == iv.logPeriod then iv.clients else ClientsAt(ivs, p)
  {
    hide IndexOf;
    SamePeriods(ivs, ivs[k := iv], p);
  }

  lemma ClientsAfterCons(iv: Interval, ivs: seq<Interval>, p: int)
    ensures ClientsAt([iv] + ivs, p) == if p == iv.logPeriod then iv.clients else ClientsAt(ivs, p)
  {
    IndexOfCons(iv, ivs, p);
    hide IndexOf;
  }

  lemma GrantedHas(t: Transport, ivs: seq<Interval>, req: Request, now: int, first: Timespec, p: int, a: Address,
                   m: MessageType)
    requires req.logPeriod <= 30 && Comparable(t)
    ensures HasAt(t, Granted(t, ivs, req, now, first), p, a, m) <==>
            if AddrEq(t, req.addr, a) && m == req.mtype then p == req.logPeriod else HasAt(t, ivs, p, a, m)
  {
    hide Granted, Contract, Strip, Has;
    GrantedClients(t, ivs, req, now, first, p);
    ContractHas(t, ClientsAt(ivs, p), req.addr, req.mtype, now + req.duration, a, m);
    StripHas(t, ClientsAt(ivs, p), req.addr, req.mtype, a, m);
  }

  lemma GrantedShape(t: Transport, ivs: seq<Interval>, req: Request, now: int, first: Timespec)
    requires WellFormed(ivs) && req.logPeriod <= 30 && Normal(first)
    ensures WellFormed(Granted(t, ivs, req, now, first))
  {
    var k := IndexOf(ivs, req.logPeriod);
    var rest := StripOthers(t, ivs, req);
    assert WellFormed(rest);
    assert k < |ivs| ==> |Granted(t, ivs, req, now, first)| == |rest|;
  }

  lemma EmptyRecords(t: Transport)
    ensures Records(t, [])
  {
  }

  lemma GrantedRecords(t: Transport, ivs: seq<Interval>, req: Request, now: int, first: Timespec, i: nat)
    requires req.logPeriod <= 30 && Comparable(t)
    requires forall i :: 0 <= i < |ivs| ==> Records(t, ivs[i].clients)
    requires i < |Granted(t, ivs, req, now, first)|
    ensures Records(t, Granted(t, ivs, req, now, first)[i].clients)
  {
    hide Contract, Strip, Find, Records;
    var k := IndexOf(ivs, req.logPeriod);
    EmptyRecords(t);
    if k < |ivs| {
      StripRecords(t, ivs[i].clients, req.addr, req.mtype);
      ContractRecords(t, ivs[k].clients, req.addr, req.mtype, now + req.duration);
    } else if i == 0 {
      ContractRecords(t, [], req.addr, req.mtype, now + req.duration);
    } else {
      StripRecords(t, ivs[i - 1].clients, req.addr, req.mtype);
    }
  }

  // All other contracts keep their terms when a request is granted.
  lemma GrantedTerms(t: Transport, ivs: seq<Interval>, req: Request, now: int, first: Timespec, p: int, a: Address,
                     m: MessageType)
    requires req.logPeriod <= 30 && Comparable(t) && forall i :: 0 <= i < |ivs| ==> Records(t, ivs[i].clients)
    requires HasAt(t, Granted(t, ivs, req, now, first), p, a, m) && !(p == req.logPeriod && AddrEq(t, req.addr, a))
    ensures TermsAt(t, Granted(t, ivs, req, now, first), p, a) == TermsAt(t, ivs, p, a)
  {
    hide Granted, Contract, Strip, Has, Records, TermsOf;
    GrantedClients(t, ivs, req, now, first, p);
    RecordsAtPeriod(t, ivs, p);
    if p == req.logPeriod {
      ContractTermsOfOthers(t, ClientsAt(ivs, p), req.addr, req.mtype, now + req.duration, a);
    } else {
      StripTerms(t, ClientsAt(ivs, p), req.addr, req.mtype, a, m);
    }
  }

  lemma ContractTermsOfOthers(t: Transport, s: seq<Client>, addr: Address, mtype: MessageType, tmo: int, a: Address)
    requires Comparable(t) && !AddrEq(t, addr, a)
    ensures TermsOf(t, Contract(t, s, addr, mtype, tmo), a) == TermsOf(t, s, a)
  {
    var k, n := Find(t, s, addr), Find(t, s, a);
    var r := Contract(t, s, addr, mtype, tmo);
    if k < |s| {
      if n < |s| {
        FindIs(t, r, a, n);
      }
    } else {
      TermsOfCons(t, r[0], s, a);
    }
  }

  // A grant disturbs the timing of no interval, and makes at most that of the requested period.
  lemma GrantedTiming(t: Transport, ivs: seq<Interval>, req: Request, now: int, first: Timespec, p: int)
    requires req.logPeriod <= 30
    ensures TimingAt(Granted(t, ivs, req, now, first), p) ==
            if p == req.logPeriod && TimingAt(ivs, p) == None then Some(Timing(LogPeriod(p), first))
            else TimingAt(ivs, p)
  {
    hide Contract, Strip, LogPeriod, IndexOf;
    var rest := StripOthers(t, ivs, req);
    var k := IndexOf(ivs, req.logPeriod);
    SamePeriods(ivs, rest, p);
    if k < |ivs| {
      SamePeriods(ivs, Granted(t, ivs, req, now, first), p);
    } else {
      IndexOfCons(NewInterval(t, req, now, first), rest, p);
    }
  }

  // A granted request moves exactly one contract, to the interval of the requested period, and leaves every
  // other one on its terms.
  lemma GrantEffect(t: Transport, ivs: seq<Interval>, req: Request, now: int, first: Timespec)
    requires WellFormed(ivs) && Unique(t, ivs) && req.logPeriod <= 30 && Normal(first) && Comparable(t)
    ensures WellFormed(Granted(t, ivs, req, now, first)) && Unique(t, Granted(t, ivs, req, now, first))
    ensures forall p, a, m :: HasAt(t, Granted(t, ivs, req, now, first), p, a, m) <==>
              if AddrEq(t, req.addr, a) && m == req.mtype then p == req.logPeriod else HasAt(t, ivs, p, a, m)
    ensures forall p, a, m ::
              HasAt(t, Granted(t, ivs, req, now, first), p, a, m) && !(p == req.logPeriod && AddrEq(t, req.addr, a)) ==>
                TermsAt(t, Granted(t, ivs, req, now, first), p, a) == TermsAt(t, ivs, p, a)
    ensures TermsAt(t, Granted(t, ivs, req, now, first), req.logPeriod, req.addr) ==
            var end := now + req.duration;
            match TermsAt(t, ivs, req.logPeriod, req.addr)
            case None => Some(Terms(req.addr, Max(end, 0)))
            case Some(terms) => Some(Terms(terms.dst, Max(end, terms.end)))
    ensures forall p :: TimingAt(Granted(t, ivs, req, now, first), p) ==
              if p == req.logPeriod && TimingAt(ivs, p) == None then Some(Timing(LogPeriod(p), first))
              else TimingAt(ivs, p)
  {
    hide Granted, Contract, Strip, Find, IndexOf, Records, TermsAt, TimingAt, LogPeriod;
    forall p
      ensures TimingAt(Granted(t, ivs, req, now, first), p) ==
              if p == req.logPeriod && TimingAt(ivs, p) == None then Some(Timing(LogPeriod(p), first))
              else TimingAt(ivs, p)
    {
      GrantedTiming(t, ivs, req, now, first, p);
    }
    GrantLasts(t, ivs, req, now, first);
    var r := Granted(t, ivs, req, now, first);
    GrantedShape(t, ivs, req, now, first);
    forall i | 0 <= i < |r|
      ensures Records(t, r[i].clients)
    {
      GrantedRecords(t, ivs, req, now, first, i);
    }
    forall p, a, m
      ensures HasAt(t, r, p, a, m) <==>
              if AddrEq(t, req.addr, a) && m == req.mtype then p == req.logPeriod else HasAt(t, ivs, p, a, m)
    {
      GrantedHas(t, ivs, req, now, first, p, a, m);
    }
    forall p, a, m | HasAt(t, r, p, a, m) && !(p == req.logPeriod && AddrEq(t, req.addr, a))
      ensures TermsAt(t, r, p, a) == TermsAt(t, ivs, p, a)
    {
      GrantedTerms(t, ivs, req, now, first, p, a, m);
    }
    forall i, j, a, m | 0 <= i < j < |r| && Has(t, r[i].clients, a, m)
      ensures !Has(t, r[j].clients, a, m)
    {
      IndexIs(r, i);
      IndexIs(r, j);
      var p, q := r[i].logPeriod, r[j].logPeriod;
      GrantedHas(t, ivs, req, now, first, p, a, m);
      GrantedHas(t, ivs, req, now, first, q, a, m);
      assert HasAt(t, r, p, a, m) && p != q;
      OnePeriod(t, ivs, p, q, a, m);
    }
  }

  lemma OnePeriod(t: Transport, ivs: seq<Interval>, p: int, q: int, a: Address, m: MessageType)
    requires Unique(t, ivs) && p != q
    ensures !(HasAt(t, ivs, p, a, m) && HasAt(t, ivs, q, a, m))
  {
  }

  lemma ContractTerms(t: Transport, s: seq<Client>, addr: Address, mtype: MessageType, tmo: int)
    requires Comparable(t)
    ensures TermsOf(t, Contract(t, s, addr, mtype, tmo), addr) ==
            match TermsOf(t, s, addr)
            case None => Some(Terms(addr, Max(tmo, 0)))
            case Some(terms) => Some(Terms(terms.dst, Max(tmo, terms.end)))
  {
    var k := Find(t, s, addr);
    FindIs(t, Contract(t, s, addr, mtype, tmo), addr, if k < |s| then k else 0);
  }

  // A grant lasts as long as the longest request for it asked: a later request never shortens it.
  lemma GrantLasts(t: Transport, ivs: seq<Interval>, req: Request, now: int, first: Timespec)
    requires req.logPeriod <= 30 && Comparable(t)
    ensures TermsAt(t, Granted(t, ivs, req, now, first), req.logPeriod, req.addr) ==
            var end := now + req.duration;
            match TermsAt(t, ivs, req.logPeriod, req.addr)
            case None => Some(Terms(req.addr, Max(end, 0)))
            case Some(terms) => Some(Terms(terms.dst, Max(end, terms.end)))
  {
    GrantedClients(t, ivs, req, now, first, req.logPeriod);
    ContractTerms(t, ClientsAt(ivs, req.logPeriod), req.addr, req.mtype, now + req.duration);
  }

  lemma FindIs(t: Transport, s: seq<Client>, addr: Address, k: nat)
    requires k < |s| && AddrEq(t, s[k].addr, addr)
    requires forall i :: 0 <= i < k ==> !AddrEq(t, s[i].addr, addr)
    ensures Find(t, s, addr) == k
  {
  }

  // ---- transports whose addresses cannot be compared ----

  ghost predicate HostServed(ivs: seq<Interval>, host: seq<nat>, m: MessageType) {
    exists i, j :: 0 <= i < |ivs| && 0 <= j < |ivs[i].clients| &&
                   ivs[i].clients[j].addr.host == host && m in ivs[i].clients[j].messageTypes
  }

  lemma {:induction false} StripUncomparable(t: Transport, s: seq<Client>, addr: Address, mtype: MessageType)
    requires !Comparable(t)
    ensures Strip(t, s, addr, mtype) == s
  {
    if s != [] {
      StripUncomparable(t, s[1..], addr, mtype);
    }
  }

  lemma CancelledIsGone(t: Transport, ivs: seq<Interval>, addr: Address, mtype: MessageType)
    requires WellFormed(ivs) && Unique(t, ivs) && Comparable(t)
    ensures !HostServed(StripAll(t, ivs, addr, mtype), addr.host, mtype)
  {
    var s := StripAll(t, ivs, addr, mtype);
    forall i, j | 0 <= i < |s| && 0 <= j < |s[i].clients| && s[i].clients[j].addr.host == addr.host
      ensures mtype !in s[i].clients[j].messageTypes
    {
      StripHas(t, ivs[i].clients, addr, mtype, addr, mtype);
    }
  }

  lemma UncomparableStays(t: Transport, ivs: seq<Interval>, req: Request, now: int, first: Timespec)
    requires req.logPeriod <= 30 && !Comparable(t)
    ensures HostServed(StripAll(t, Granted(t, ivs, req, now, first), req.addr, req.mtype), req.addr.host, req.mtype)
  {
    var k := IndexOf(ivs, req.logPeriod);
    var r := Granted(t, ivs, req, now, first);
    var i := if k < |ivs| then k else 0;
    StripUncomparable(t, r[i].clients, req.addr, req.mtype);
    var c := StripAll(t, r, req.addr, req.mtype)[i].clients[0];
    assert c.addr == req.addr && req.mtype in c.messageTypes;
  }

  // A grant can be cancelled again if and only if the transport's addresses can be compared.
  lemma GrantThenCancel(t: Transport, ivs: seq<Interval>, req: Request, now: int, first: Timespec)
    requires WellFormed(ivs) && Unique(t, ivs) && req.logPeriod <= 30 && Normal(first)
    ensures !HostServed(StripAll(t, Granted(t, ivs, req, now, first), req.addr, req.mtype), req.addr.host, req.mtype)
            <==> Comparable(t)
  {
    if Comparable(t) {
      GrantEffect(t, ivs, req, now, first);
      CancelledIsGone(t, Granted(t, ivs, req, now, first), req.addr, req.mtype);
    } else {
      UncomparableStays(t, ivs, req, now, first);
    }
  }
}
