/** The unicast service of `unicast_service.c`: a list of intervals, a timer queue that holds the same
  intervals, and the deadline the kernel timer is armed with.
 */
module UnicastService {
  import opened Prelude
  import opened Contracts
  import opened Schedule
  import opened TimerRounds
  import opened PriorityQueue

  // compare_timeout
  function CompareTimeout(a: Interval, b: Interval): int {
    TimespecCompare(a.tmo, b.tmo)
  }

  lemma TimeoutsAreOrdered()
    ensures TotalPreorder(CompareTimeout)
  {
    var cmp: Compare<Interval> := CompareTimeout;
    forall a, b
      ensures cmp(a, b) > 0 <==> cmp(b, a) < 0
    {
    }
    forall a, b, c | NotAfter(cmp, a, b) && NotAfter(cmp, b, c)
      ensures NotAfter(cmp, a, c)
    {
    }
  }

  method TimespecNormalize(t: Timespec) returns (r: Timespec)
    ensures r == Normalized(t)
  {
    r := t;
    while r.nsec >= NS_PER_SEC
      invariant Normalized(r) == Normalized(t)
      decreases r.nsec
    {
      r := Timespec(r.sec + 1, r.nsec - NS_PER_SEC);
    }
  }

  method LogToTimespec(logSeconds: int) returns (t: Timespec)
    requires logSeconds <= 30
    ensures t == LogPeriod(logSeconds)
  {
    if logSeconds < 0 {
      var n := -logSeconds;
      var ns := 500_000_000;
      var i := 1;
      while i < n
        invariant 1 <= i <= n && ns == FractionOfSecond(i)
      {
        ns := ns / 2;
        i := i + 1;
      }
      t := Timespec(0, ns);
    } else {
      var sec := 1;
      for i := 0 to logSeconds
        invariant sec == Pow2(i)
      {
        sec := 2 * sec;
      }
      t := Timespec(sec, 0);
    }
  }

  datatype Result = ServiceGranted | ServiceDenied

  // unicast_service_clients at time `t`
  method ServeClients(cell: Cell<Interval>, t: Timespec) returns (sent: seq<Transmission>)
    modifies cell
    ensures cell.v == Fired(old(cell.v), t, true)
    ensures sent == Transmissions(old(cell.v.clients), t)
  {
    sent := [];
    ghost var was := cell.v;
    var j := 0;
    while j < |cell.v.clients|
      invariant 0 <= j <= |cell.v.clients|
      invariant cell.v == was.(clients := cell.v.clients)
      invariant cell.v.clients[..j] + Unexpired(cell.v.clients[j..], t) == Unexpired(was.clients, t)
      invariant sent + Transmissions(cell.v.clients[j..], t) == Transmissions(was.clients, t)
      decreases |cell.v.clients| - j
    {
      var clients := cell.v.clients;
      var client := clients[j];
      assert clients[j..] == [client] + clients[j + 1..];
      if t.sec > client.grantTmo {
        cell.v := cell.v.(clients := clients[..j] + clients[j + 1..]);
        assert cell.v.clients[..j] == clients[..j] && cell.v.clients[j..] == clients[j + 1..];
      } else {
        if Announce in client.messageTypes {
          sent := sent + [Transmission(Announce, client.addr)];
        }
        if Sync in client.messageTypes {
          sent := sent + [Transmission(Sync, client.addr)];
        }
        assert clients[..j + 1] == clients[..j] + [client];
        j := j + 1;
      }
    }
    assert cell.v.clients[..j] == cell.v.clients;
  }

  // The list of clients when the first `j` have been stripped and the others not yet.
  ghost function StrippedTo(t: Transport, s: seq<Client>, j: nat, addr: Address, mtype: MessageType): seq<Client>
    requires j <= |s|
  {
    s[..j] + Strip(t, s[j..], addr, mtype)
  }

  lemma StrippedEnds(t: Transport, s: seq<Client>, addr: Address, mtype: MessageType)
    ensures StrippedTo(t, s, 0, addr, mtype) == Strip(t, s, addr, mtype)
    ensures StrippedTo(t, s, |s|, addr, mtype) == s
  {
  }

  // The list after the loop body has looked at the client at `j`.
  function StripAt(t: Transport, s: seq<Client>, j: nat, addr: Address, mtype: MessageType): seq<Client>
    requires j < |s|
  {
    s[..j] + StripOne(t, s[j], addr, mtype) + s[j + 1..]
  }

  lemma StripStep(t: Transport, s: seq<Client>, j: nat, addr: Address, mtype: MessageType)
    requires j < |s|
    ensures var r := StripAt(t, s, j, addr, mtype);
            var n := j + |StripOne(t, s[j], addr, mtype)|;
            StrippedTo(t, r, n, addr, mtype) == StrippedTo(t, s, j, addr, mtype)
  {
    var r := StripAt(t, s, j, addr, mtype);
    var n := j + |StripOne(t, s[j], addr, mtype)|;
    assert r[n..] == s[j + 1..];
    assert r[..n] == s[..j] + StripOne(t, s[j], addr, mtype);
    assert s[j..] == [s[j]] + s[j + 1..];
  }

  // Clear one bit of the record at `j`, and unlink the record if that was its last one.
  method ClearBit(transport: Transport, cell: Cell<Interval>, j: nat, addr: Address, mtype: MessageType)
    returns (next: nat)
    requires j < |cell.v.clients| && AddrEq(transport, cell.v.clients[j].addr, addr)
    modifies cell
    ensures cell.v == old(cell.v).(clients := StripAt(transport, old(cell.v).clients, j, addr, mtype))
    ensures next == j + |StripOne(transport, old(cell.v).clients[j], addr, mtype)| <= |cell.v.clients|
  {
    var clients := cell.v.clients;
    var left := clients[j].messageTypes - {mtype};
    if left == {} {
      cell.v := cell.v.(clients := clients[..j] + clients[j + 1..]);
      next := j;
    } else {
      cell.v := cell.v.(clients := clients[j := clients[j].(messageTypes := left)]);
      next := j + 1;
    }
    assert cell.v.clients == StripAt(transport, clients, j, addr, mtype);
  }

  // The search for the record of `addr` before the client at `j`; a hit would have settled the request.
  ghost predicate Searching(t: Transport, s: seq<Client>, j: nat, req: Request, client: Option<nat>) {
    var k := Find(t, s, req.addr);
    && client == (if k < j then Some(k) else None)
    && (k < j && j <= |s| ==> req.mtype !in s[k].messageTypes)
  }

  lemma SearchStep(t: Transport, s: seq<Client>, j: nat, req: Request, client: Option<nat>)
    requires Comparable(t) ==> Records(t, s)
    requires j < |s| && Searching(t, s, j, req, client)
    ensures !AddrEq(t, s[j].addr, req.addr) ==> Searching(t, s, j + 1, req, client)
    ensures AddrEq(t, s[j].addr, req.addr) ==> Find(t, s, req.addr) == j
    ensures AddrEq(t, s[j].addr, req.addr) && req.mtype !in s[j].messageTypes ==> Searching(t, s, j + 1, req, Some(j))
  {
    var k := Find(t, s, req.addr);
    hide Find;
    assert k < j ==> !AddrEq(t, s[k].addr, s[j].addr);
  }

  // The loop over the clients of one interval in unicast_service_add.  `requested` tells whether this
  // is the interval of the requested period; `settled` that the whole request is settled here, and
  // `client` is the record to use.
  method ScanInterval(transport: Transport, cell: Cell<Interval>, requested: bool, req: Request, now: int)
    returns (settled: bool, client: Option<nat>)
    requires Comparable(transport) ==> Records(transport, cell.v.clients)
    modifies cell
    ensures !requested ==>
      !settled && cell.v == old(cell.v).(clients := Strip(transport, old(cell.v).clients, req.addr, req.mtype))
    ensures requested ==>
      var s := old(cell.v).clients;
      var k := Find(transport, s, req.addr);
      && (settled <==> k < |s| && req.mtype in s[k].messageTypes)
      && cell.v == (if settled then old(cell.v).(clients := s[k := Extended(s[k], now + req.duration)])
                    else old(cell.v))
      && (!settled ==> client == if k < |s| then Some(k) else None)
  {
    ghost var was := cell.v;
    ghost var s := was.clients;
    StrippedEnds(transport, s, req.addr, req.mtype);
    client := None;
    assert Searching(transport, s, 0, req, None);
    var j := 0;
    hide Find, Strip, StrippedTo, Searching, Records, StripOne;
    while j < |cell.v.clients|
      invariant 0 <= j <= |cell.v.clients|
      invariant requested ==> cell.v == was && Searching(transport, s, j, req, client)
      invariant !requested ==> cell.v == was.(clients := cell.v.clients)
      invariant !requested ==>
        StrippedTo(transport, cell.v.clients, j, req.addr, req.mtype) == Strip(transport, s, req.addr, req.mtype)
      decreases |cell.v.clients| - j
    {
      var c := cell.v.clients[j];
      ghost var clients := cell.v.clients;
      if requested {
        SearchStep(transport, s, j, req, client);
      } else {
        StripStep(transport, clients, j, req.addr, req.mtype);
      }
      if !AddrEq(transport, c.addr, req.addr) {
        StripOther(transport, clients, j, req.addr, req.mtype);
        j := j + 1;
      } else if requested {
        if req.mtype in c.messageTypes {
          cell.v := cell.v.(clients := cell.v.clients[j := Extended(c, now + req.duration)]);
          return true, client;
        }
        client := Some(j);
        j := j + 1;
      } else {
        j := ClearBit(transport, cell, j, req.addr, req.mtype);
      }
    }
    settled := false;
    StrippedEnds(transport, cell.v.clients, req.addr, req.mtype);
    SearchDone(transport, cell.v.clients, req, client);
  }

  lemma SearchDone(t: Transport, s: seq<Client>, req: Request, client: Option<nat>)
    ensures Searching(t, s, |s|, req, client) ==>
              var k := Find(t, s, req.addr);
              client == (if k < |s| then Some(k) else None) && (k < |s| ==> req.mtype !in s[k].messageTypes)
  {
  }

  lemma StripOther(t: Transport, s: seq<Client>, j: nat, addr: Address, mtype: MessageType)
    requires j < |s| && !AddrEq(t, s[j].addr, addr)
    ensures StripAt(t, s, j, addr, mtype) == s && |StripOne(t, s[j], addr, mtype)| == 1
  {
  }

  // The loop over the clients of one interval in unicast_service_remove.
  method CancelIn(transport: Transport, cell: Cell<Interval>, addr: Address, mtype: MessageType) returns (hit: bool)
    requires Comparable(transport) ==> Records(transport, cell.v.clients)
    modifies cell
    ensures hit <==> Has(transport, old(cell.v).clients, addr, mtype)
    ensures cell.v == if hit then old(cell.v).(clients := Strip(transport, old(cell.v).clients, addr, mtype))
            else old(cell.v)
  {
    ghost var s := cell.v.clients;
    var j := 0;
    while j < |cell.v.clients|
      invariant 0 <= j <= |s| && cell.v == old(cell.v)
      invariant forall i :: 0 <= i < j ==> !(AddrEq(transport, s[i].addr, addr) && mtype in s[i].messageTypes)
    {
      var c := cell.v.clients[j];
      if AddrEq(transport, c.addr, addr) && mtype in c.messageTypes {
        StripAtHit(transport, s, addr, mtype, j);
        var _ := ClearBit(transport, cell, j, addr, mtype);
        return true;
      }
      j := j + 1;
    }
    return false;
  }

  // With one record per address, editing the record that is hit is all there is to strip.
  lemma {:induction false} StripAtHit(t: Transport, s: seq<Client>, addr: Address, mtype: MessageType, j: nat)
    requires Comparable(t) ==> Records(t, s)
    requires j < |s| && AddrEq(t, s[j].addr, addr) && mtype in s[j].messageTypes
    ensures Strip(t, s, addr, mtype) == StripAt(t, s, j, addr, mtype)
  {
    if j > 0 {
      StripAtHit(t, s[1..], addr, mtype, j - 1);
      StripAtTail(t, s, j, addr, mtype);
    } else {
      StripAtHead(t, s, addr, mtype);
    }
  }

  lemma StripAtHead(t: Transport, s: seq<Client>, addr: Address, mtype: MessageType)
    requires Comparable(t) ==> Records(t, s)
    requires s != [] && AddrEq(t, s[0].addr, addr) && mtype in s[0].messageTypes
    ensures Strip(t, s, addr, mtype) == StripAt(t, s, 0, addr, mtype)
  {
    assert !Has(t, s[1..], addr, mtype);
    StripNothing(t, s[1..], addr, mtype);
  }

  lemma StripAtTail(t: Transport, s: seq<Client>, j: nat, addr: Address, mtype: MessageType)
    requires 0 < j < |s|
    ensures StripAt(t, s, j, addr, mtype) == [s[0]] + StripAt(t, s[1..], j - 1, addr, mtype)
  {
    hide StripOne;
    assert s[1..][..j - 1] == s[1..j] && s[1..][j..] == s[j + 1..];
    assert s[..j] == [s[0]] + s[1..j];
  }

  ghost predicate Sound(t: Transport, ivs: seq<Interval>) {
    WellFormed(ivs) && Unique(t, ivs)
  }

  // A contract found unchanged in the requested interval means there is nothing to strip elsewhere.
  lemma ScanMayStop(t: Transport, ivs: seq<Interval>, req: Request, k: nat, n: nat)
    requires Sound(t, ivs) && k < |ivs| && n < |ivs| && n != k
    requires Has(t, ivs[k].clients, req.addr, req.mtype)
    requires ivs[k].logPeriod == req.logPeriod
    ensures StripUnless(t, ivs[n], req) == ivs[n]
  {
    StripNothing(t, ivs[n].clients, req.addr, req.mtype);
  }

  lemma ExtendingIsContract(t: Transport, s: seq<Client>, req: Request, now: int)
    requires var k := Find(t, s, req.addr); k < |s| && req.mtype in s[k].messageTypes
    ensures var k := Find(t, s, req.addr);
            s[k := Extended(s[k], now + req.duration)] == Contract(t, s, req.addr, req.mtype, now + req.duration)
    ensures Has(t, s, req.addr, req.mtype)
  {
    var k := Find(t, s, req.addr);
    assert s[k].messageTypes + {req.mtype} == s[k].messageTypes;
  }

  ghost predicate ByTimeout(cmp: Compare<Interval>) {
    forall a, b :: cmp(a, b) == CompareTimeout(a, b)
  }

  ghost predicate SameTimeouts(r: seq<Interval>, s: seq<Interval>) {
    |r| == |s| && forall i :: 0 <= i < |r| ==> r[i].tmo == s[i].tmo
  }

  // The order of the queue depends on the timeouts alone.
  lemma SameTimeoutsSameHeap(cmp: Compare<Interval>, r: seq<Interval>, s: seq<Interval>)
    requires ByTimeout(cmp) && SameTimeouts(r, s) && Heap(cmp, r)
    ensures Heap(cmp, s)
  {
    forall i | 1 <= i < |s|
      ensures HeapAt(cmp, s, i)
    {
      assert HeapAt(cmp, r, i);
    }
  }

  // interval_increment
  method Increment(cell: Cell<Interval>)
    modifies cell
    ensures cell.v == Incremented(old(cell.v))
  {
    var iv := cell.v;
    var tmo := TimespecNormalize(Timespec(iv.tmo.sec + iv.incr.sec, iv.tmo.nsec + iv.incr.nsec));
    cell.v := iv.(tmo := tmo);
  }

  lemma RecordsAt(t: Transport, ivs: seq<Interval>, i: nat)
    requires Sound(t, ivs) && i < |ivs|
    ensures Records(t, ivs[i].clients)
  {
  }

  lemma NothingToCancel(t: Transport, ivs: seq<Interval>, addr: Address, mtype: MessageType)
    requires Sound(t, ivs)
    requires forall n :: 0 <= n < |ivs| ==> !Has(t, ivs[n].clients, addr, mtype)
    ensures StripAll(t, ivs, addr, mtype) == ivs
  {
    forall n | 0 <= n < |ivs|
      ensures StripAll(t, ivs, addr, mtype)[n] == ivs[n]
    {
      StripNothing(t, ivs[n].clients, addr, mtype);
    }
  }

  // By uniqueness the first hit is the only one.
  lemma CancelMayStop(t: Transport, ivs: seq<Interval>, addr: Address, mtype: MessageType, i: nat)
    requires Sound(t, ivs) && i < |ivs| && Has(t, ivs[i].clients, addr, mtype)
    ensures StripAll(t, ivs, addr, mtype) ==
            ivs[i := ivs[i].(clients := Strip(t, ivs[i].clients, addr, mtype))]
  {
    forall n | 0 <= n < |ivs| && n != i
      ensures StripAll(t, ivs, addr, mtype)[n] == ivs[n]
    {
      StripNothing(t, ivs[n].clients, addr, mtype);
    }
  }

  // While it is out of the queue, the interval may change without disturbing the queue.
  lemma ExtractedIsAlone<T>(s: seq<T>, before: seq<T>, after: seq<T>, x: T)
    requires Distinct(s) && multiset(s) == multiset(before) == multiset(after) + multiset{x}
    ensures x in s && x !in after
    ensures Distinct(Without(s, x)) && multiset(Without(s, x)) == multiset(after)
    ensures |after| < |before|
  {
    assert x in multiset(s);
    DistinctIsOnce(s, x);
    assert multiset(after)[x] == 0;
    assert |multiset(before)| == |multiset(after)| + 1;
    WithoutIsDistinct(s, x);
    assert multiset(s) - multiset{x} == multiset(after);
  }

  lemma WithoutIsDistinct<T>(s: seq<T>, x: T)
    requires Distinct(s)
    ensures Distinct(Without(s, x))
    ensures forall y :: y in Without(s, x) ==> y in s
  {
    if s != [] && s[0] != x {
      WithoutIsDistinct(s[1..], x);
      var r := Without(s[1..], x);
      assert Without(s, x) == [s[0]] + r;
      assert s[0] !in s[1..];
      hide Without;
      assert forall y :: y in [s[0]] + r ==> y == s[0] || y in r;
    }
  }

  lemma {:induction false} WithoutAt<T>(s: seq<T>, k: nat)
    requires Distinct(s) && k < |s|
    ensures Without(s, s[k]) == s[..k] + s[k + 1..]
  {
    if k > 0 {
      WithoutAt(s[1..], k - 1);
    }
  }

  // A turn leaves the table sound.
  lemma TurnIsSound(t: Transport, ivs: seq<Interval>, k: nat, reading: Timespec, master: bool)
    requires Sound(t, ivs) && k < |ivs|
    ensures Sound(t, Turn(ivs, k, reading, master))
  {
    hide Sound, Fired;
    FiredIsSound(t, ivs, k, Incremented(Fired(ivs[k], reading, master)), reading, master);
    RetiringIsSound(t, ivs, k);
  }

  lemma SoundIsWellFormed(t: Transport, ivs: seq<Interval>)
    requires Sound(t, ivs)
    ensures WellFormed(ivs)
  {
  }

  lemma FiredIsSound(t: Transport, ivs: seq<Interval>, k: nat, iv: Interval, reading: Timespec, master: bool)
    requires Sound(t, ivs) && k < |ivs| && iv == Incremented(Fired(ivs[k], reading, master))
    ensures Sound(t, ivs[k := iv])
  {
    hide Unexpired, Normalized, Has, Records;
    var r := ivs[k := iv];
    RecordsAt(t, ivs, k);
    UnexpiredRecords(t, ivs[k].clients, reading);
    forall i, j, a, m | 0 <= i < j < |r| && Has(t, r[i].clients, a, m)
      ensures !Has(t, r[j].clients, a, m)
    {
      if Has(t, r[k].clients, a, m) && master {
        UnexpiredHas(t, ivs[k].clients, reading, a, m);
      }
    }
  }

  lemma RetiringIsSound(t: Transport, ivs: seq<Interval>, k: nat)
    requires Sound(t, ivs) && k < |ivs|
    ensures Sound(t, ivs[..k] + ivs[k + 1..])
  {
    hide Has, Records;
    var r := ivs[..k] + ivs[k + 1..];
    forall i | 0 <= i < |r|
      ensures r[i] == ivs[if i < k then i else i + 1]
    {
    }
  }

  lemma KeysButOne(cells: seq<Cell<Interval>>, ivs: seq<Interval>, k: nat)
    requires k < |cells| == |ivs|
    requires forall n :: 0 <= n < |cells| && n != k ==> cells[n].v == ivs[n]
    ensures Keys(cells) == ivs[k := cells[k].v]
    ensures Keys(cells[..k] + cells[k + 1..]) == ivs[..k] + ivs[k + 1..]
  {
  }

  class Service {
    const transport: Transport
    const queue: PQueue<Interval>
    var intervals: seq<Cell<Interval>>
    // What timerfd_settime was last told; None stops the timer.
    var armed: Option<Timespec>

    ghost predicate Linked()
      reads this, queue, queue.data, queue.elems, intervals
    {
      && queue.Valid()
      && ByTimeout(queue.cmp)
      && Distinct(intervals)
      && multiset(intervals) == multiset(queue.elems)
    }

    ghost predicate Armed()
      reads this, queue, queue.elems
    {
      armed == if queue.elems == [] then None else Some(queue.elems[0].v.tmo)
    }

    // The list and the queue hold the same intervals, and the table is sound.
    ghost predicate Consistent()
      reads this, queue, queue.data, queue.elems, intervals
    {
      Linked() && Sound(transport, Keys(intervals))
    }

    ghost predicate Valid()
      reads this, queue, queue.data, queue.elems, intervals
    {
      Consistent() && Armed()
    }

    // unicast_service_initialize
    constructor (transport: Transport)
      ensures Valid() && intervals == [] && armed == None
      ensures this.transport == transport && fresh(queue) && fresh(queue.data)
    {
      TimeoutsAreOrdered();
      this.transport := transport;
      queue := new PQueue(16, CompareTimeout);
      intervals := [];
      armed := None;
    }

    // unicast_service_rearm_timer
    method RearmTimer()
      requires Linked()
      modifies this`armed
      ensures Linked() && Armed()
    {
      var top := queue.Peek();
      armed := if top != null then Some(top.v.tmo) else None;
    }

    lemma Queued(c: Cell<Interval>)
      requires Linked()
      ensures c in intervals <==> c in queue.elems
    {
      assert c in multiset(intervals) <==> c in multiset(queue.elems);
    }

    lemma NormalTimeout(c: Cell<Interval>)
      requires Consistent() && c in intervals
      ensures Normal(c.v.tmo)
    {
      var j :| 0 <= j < |intervals| && intervals[j] == c;
      assert Keys(intervals)[j] == c.v;
    }

    lemma RootIsEarliest(c: Cell<Interval>)
      requires Consistent() && c in intervals
      ensures queue.elems != [] && Ns(queue.elems[0].v.tmo) <= Ns(c.v.tmo)
    {
      hide Heap, TotalPreorder, WellFormed, Unique;
      Queued(c);
      Queued(queue.elems[0]);
      NormalTimeout(c);
      NormalTimeout(queue.elems[0]);
      RootIsFirst(queue.cmp, Keys(queue.elems));
      var i :| 0 <= i < |queue.elems| && queue.elems[i] == c;
      assert queue.cmp(queue.elems[0].v, Keys(queue.elems)[i]) >= 0;
    }

    // The armed deadline is that of the interval that is due first.
    lemma ArmedIsEarliest()
      requires Valid()
      ensures armed == None <==> intervals == []
      ensures armed != None ==>
        (exists c :: c in intervals && c.v.tmo == armed.value) &&
        (forall c :: c in intervals ==> Ns(armed.value) <= Ns(c.v.tmo))
    {
      assert |multiset(intervals)| == |multiset(queue.elems)|;
      if armed != None {
        Queued(queue.elems[0]);
        forall c | c in intervals
          ensures Ns(armed.value) <= Ns(c.v.tmo)
        {
          RootIsEarliest(c);
        }
      }
    }

    // Editing clients while every timeout stays put leaves the queue in order.
    twostate lemma StillLinked()
      requires old(Linked())
      requires intervals == old(intervals) && queue.elems == old(queue.elems) && queue.data == old(queue.data)
      requires queue.len == old(queue.len) && queue.max == old(queue.max) && queue.data[..] == old(queue.data[..])
      requires SameTimeouts(old(Keys(intervals)), Keys(intervals))
      ensures Linked()
      ensures armed == old(armed) && old(Armed()) ==> Armed()
    {
      forall i | 0 <= i < |queue.elems|
        ensures old(Keys(queue.elems))[i].tmo == Keys(queue.elems)[i].tmo
      {
        var c := queue.elems[i];
        assert c in multiset(intervals);
        var j :| 0 <= j < |intervals| && intervals[j] == c;
        assert old(Keys(intervals))[j].tmo == Keys(intervals)[j].tmo;
      }
      SameTimeoutsSameHeap(queue.cmp, old(Keys(queue.elems)), Keys(queue.elems));
      forall i | 0 <= i < queue.len
        ensures queue.data[i] == queue.elems[i]
      {
        assert queue.data[..][i] == old(queue.data[..])[i];
      }
    }

    // The two nested loops of unicast_service_add.
    method Scan(req: Request, now: int) returns (settled: bool, target: Option<nat>, client: Option<nat>)
      requires Consistent() && req.logPeriod <= 30
      modifies intervals
      ensures SameTimeouts(old(Keys(intervals)), Keys(intervals))
      ensures settled ==> forall first ::
                Keys(intervals) == Granted(transport, old(Keys(intervals)), req, now, first)
      ensures !settled ==>
        var ivs := old(Keys(intervals));
        var k := IndexOf(ivs, req.logPeriod);
        && Keys(intervals) == StripOthers(transport, ivs, req)
        && target == (if k < |ivs| then Some(k) else None)
        && (target == None ==> client == None)
        && (k < |ivs| ==>
              var n := Find(transport, ivs[k].clients, req.addr);
              client == if n < |ivs[k].clients| then Some(n) else None)
    {
      hide Find, IndexOf, Strip, Contract, Heap, TotalPreorder, Granted;
      target, client := None, None;
      ghost var ivs := Keys(intervals);
      ghost var k := IndexOf(ivs, req.logPeriod);
      var i := 0;
      while i < |intervals|
        invariant 0 <= i <= |intervals| == |ivs|
        invariant target == if k < i then Some(k) else None
        invariant k >= i ==> client == None
        invariant k < i ==>
          var n := Find(transport, ivs[k].clients, req.addr);
          client == if n < |ivs[k].clients| then Some(n) else None
        invariant forall n :: 0 <= n < |ivs| ==>
          intervals[n].v == if n < i then StripUnless(transport, ivs[n], req) else ivs[n]
      {
        var cell := intervals[i];
        if cell.v.logPeriod == req.logPeriod {
          target := Some(i);
        }
        var found;
        settled, found := ScanInterval(transport, cell, target == Some(i), req, now);
        if settled {
          SettledIsGranted(transport, ivs, req, now, i, Keys(intervals));
          return;
        }
        if target == Some(i) {
          client := found;
        }
        i := i + 1;
      }
      settled := false;
      assert Keys(intervals) == StripOthers(transport, ivs, req);
    }

    method ScanTable(req: Request, now: int) returns (settled: bool, target: Option<nat>, client: Option<nat>)
      requires Valid() && req.logPeriod <= 30
      modifies intervals
      ensures Linked() && Armed()
      ensures settled ==> forall first ::
                Keys(intervals) == Granted(transport, old(Keys(intervals)), req, now, first)
      ensures !settled ==>
        var ivs := old(Keys(intervals));
        var k := IndexOf(ivs, req.logPeriod);
        && Keys(intervals) == StripOthers(transport, ivs, req)
        && target == (if k < |ivs| then Some(k) else None)
        && (target == None ==> client == None)
        && (k < |ivs| ==>
              var n := Find(transport, ivs[k].clients, req.addr);
              client == if n < |ivs[k].clients| then Some(n) else None)
    {
      hide Strip, Contract, Has, Records, WellFormed, Unique, Find, Heap, TotalPreorder, IndexOf, StripOthers, Granted;
      settled, target, client := Scan(req, now);
      StillLinked();
    }

    // The end of unicast_service_add when the interval exists: the record is extended or made.
    method AddRecord(k: nat, client: Option<nat>, req: Request, now: int)
      requires Linked() && Armed() && k < |intervals|
      requires var s := intervals[k].v.clients;
               var n := Find(transport, s, req.addr);
               client == if n < |s| then Some(n) else None
      modifies intervals[k]
      ensures Linked() && Armed()
      ensures Keys(intervals) == old(Keys(intervals))[k := old(intervals[k].v).(clients :=
                Contract(transport, old(intervals[k].v.clients), req.addr, req.mtype, now + req.duration))]
    {
      var cell := intervals[k];
      ghost var ivs := Keys(intervals);
      var clients := cell.v.clients;
      if client.Some? {
        var c := clients[client.value];
        c := c.(messageTypes := c.messageTypes + {req.mtype});
        cell.v := cell.v.(clients := clients[client.value := Extended(c, now + req.duration)]);
      } else {
        var c := Client(req.addr, {req.mtype}, 0);
        cell.v := cell.v.(clients := [Extended(c, now + req.duration)] + clients);
      }
      assert forall i :: 0 <= i < |intervals| && i != k ==> intervals[i].v == ivs[i];
      StillLinked();
    }

    method LinkInterval(cell: Cell<Interval>, canGrow: bool) returns (ok: bool)
      requires Linked() && Armed() && cell !in intervals
      modifies this`intervals, this`armed, queue, queue.data
      ensures Linked() && Armed() && (queue.data == old(queue.data) || fresh(queue.data))
      ensures ok <==> old(queue.len) < old(queue.max) || canGrow
      ensures ok ==> intervals == [cell] + old(intervals)
      ensures !ok ==> intervals == old(intervals) && queue.elems == old(queue.elems) && armed == old(armed)
    {
      hide Heap, TotalPreorder;
      assert cell !in queue.elems by {
        assert multiset(intervals)[cell] == 0;
      }
      ghost var was := intervals;
      intervals := [cell] + intervals;
      ok := queue.Insert(cell, canGrow);
      if ok {
        assert multiset(intervals) == multiset{cell} + multiset(was);
        RearmTimer();
      } else {
        intervals := intervals[1..];
      }
    }

    lemma KeysCons(c: Cell<Interval>, s: seq<Cell<Interval>>)
      ensures Keys([c] + s) == [c.v] + Keys(s)
    {
    }

    // initialize_interval
    method InitializeInterval(logPeriod: int, later: Timespec) returns (cell: Cell<Interval>)
      requires logPeriod <= 30
      ensures fresh(cell) && cell.v == Interval([], LogPeriod(logPeriod), FirstDeadline(later), logPeriod)
    {
      hide Normalized, LogPeriod;
      var incr := LogToTimespec(logPeriod);
      var tmo := TimespecNormalize(Timespec(later.sec, later.nsec + 10_000_000));
      cell := new Cell(Interval([], incr, tmo, logPeriod));
    }

    // The end of unicast_service_add when there is no interval of the requested period yet.
    method AddInterval(req: Request, now: int, later: Timespec, canGrow: bool) returns (ok: bool)
      requires Linked() && Armed() && req.logPeriod <= 30
      modifies this`intervals, this`armed, queue, queue.data
      ensures Linked() && Armed() && (queue.data == old(queue.data) || fresh(queue.data))
      ensures ok <==> old(queue.len) < old(queue.max) || canGrow
      ensures ok ==> Keys(intervals) == [NewInterval(transport, req, now, FirstDeadline(later))] + old(Keys(intervals))
      ensures !ok ==> intervals == old(intervals)
    {
      hide Linked, Armed, Contract, Find, LogPeriod, FirstDeadline;
      ghost var was := intervals;
      var cell := InitializeInterval(req.logPeriod, later);
      ok := LinkInterval(cell, canGrow);
      if ok {
        KeysCons(cell, was);
        AddFirstClient(cell, req, now);
      }
    }

    method AddFirstClient(cell: Cell<Interval>, req: Request, now: int)
      requires Linked() && Armed() && intervals != [] && cell == intervals[0] && cell.v.clients == []
      modifies cell
      ensures Linked() && Armed()
      ensures cell.v == old(cell.v).(clients := Contract(transport, [], req.addr, req.mtype, now + req.duration))
      ensures Keys(intervals) == [cell.v] + old(Keys(intervals))[1..]
    {
      hide Heap, TotalPreorder;
      ghost var ivs := Keys(intervals);
      var client := Extended(Client(req.addr, {req.mtype}, 0), now + req.duration);
      cell.v := cell.v.(clients := [client] + cell.v.clients);
      assert forall i :: 1 <= i < |intervals| ==> intervals[i] != cell && intervals[i].v == ivs[i];
      StillLinked();
    }

    // unicast_service_add.  `now` and `later` are the clock readings of unicast_service_extend and of
    // initialize_interval.
    method Add(req: Request, now: Timespec, later: Timespec, canGrow: bool) returns (r: Result)
      requires Valid() && req.logPeriod <= 30 && Normal(later)
      modifies this`intervals, this`armed, intervals, queue, queue.data
      ensures Valid() && (queue.data == old(queue.data) || fresh(queue.data))
      ensures !req.mtype.Sync? && !req.mtype.Announce? ==>
        && r == (if req.mtype.Unnegotiated? then ServiceDenied else ServiceGranted)
        && intervals == old(intervals) && Keys(intervals) == old(Keys(intervals)) && armed == old(armed)
      ensures req.mtype.Sync? || req.mtype.Announce? ==>
        var ivs := old(Keys(intervals));
        if r == ServiceGranted then
          Keys(intervals) == Granted(transport, ivs, req, now.sec, FirstDeadline(later))
        else
          && Keys(intervals) == StripAll(transport, ivs, req.addr, req.mtype)
          && IndexOf(ivs, req.logPeriod) == |ivs| && !canGrow && old(queue.len) >= old(queue.max)
    {
      match req.mtype
      case DelayResp => return ServiceGranted;
      case PdelayResp => return ServiceGranted;
      case Unnegotiated(_) => return ServiceDenied;
      case Announce => r := AddContract(req, now, later, canGrow);
      case Sync => r := AddContract(req, now, later, canGrow);
    }

    method AddContract(req: Request, now: Timespec, later: Timespec, canGrow: bool) returns (r: Result)
      requires Valid() && req.logPeriod <= 30 && Normal(later)
      modifies this`intervals, this`armed, intervals, queue, queue.data
      ensures Valid() && (queue.data == old(queue.data) || fresh(queue.data))
      ensures r == ServiceGranted ==>
        Keys(intervals) == Granted(transport, old(Keys(intervals)), req, now.sec, FirstDeadline(later))
      ensures r == ServiceDenied ==>
        var ivs := old(Keys(intervals));
        && Keys(intervals) == StripAll(transport, ivs, req.addr, req.mtype)
        && IndexOf(ivs, req.logPeriod) == |ivs| && !canGrow && old(queue.len) >= old(queue.max)
    {
      hide Strip, Contract, Has, Records, WellFormed, Unique, Find, Heap, TotalPreorder, IndexOf, StripAll,
           StripOthers, Normalized, Linked, Armed;
      ghost var ivs := Keys(intervals);
      ghost var first := FirstDeadline(later);
      GrantedIsSound(transport, ivs, req, now.sec, first);
      StrippedIsSound(transport, ivs, req.addr, req.mtype);
      var settled, target, client := ScanTable(req, now.sec);
      if settled {
        return ServiceGranted;
      }
      if target.Some? {
        RequestedIsKept(transport, ivs, req, target.value);
        AddRecord(target.value, client, req, now.sec);
        GrantedInPlace(transport, ivs, req, now.sec, first, target.value, Keys(intervals)[target.value]);
        return ServiceGranted;
      }
      NothingElseToStrip(transport, ivs, req);
      var ok := AddInterval(req, now.sec, later, canGrow);
      if !ok {
        return ServiceDenied;
      }
      return ServiceGranted;
    }

    // unicast_service_remove
    method Remove(addr: Address, mtype: MessageType, maintainRequest: bool)
      requires Valid()
      modifies intervals
      ensures Valid()
      ensures Keys(intervals) ==
              if !maintainRequest && (mtype.Announce? || mtype.Sync?)
              then StripAll(transport, old(Keys(intervals)), addr, mtype)
              else old(Keys(intervals))
    {
      if maintainRequest {
        return;
      }
      match mtype
      case DelayResp =>
      case PdelayResp =>
      case Unnegotiated(_) =>
      case Announce => CancelFirst(addr, mtype);
      case Sync => CancelFirst(addr, mtype);
    }

    // The loops of unicast_service_remove, which stop at the first hit.
    method CancelFirst(addr: Address, mtype: MessageType)
      requires Valid()
      modifies intervals
      ensures Valid()
      ensures Keys(intervals) == StripAll(transport, old(Keys(intervals)), addr, mtype)
    {
      hide Strip, Records, WellFormed, Unique, Find, Heap, TotalPreorder, Has;
      ghost var ivs := Keys(intervals);
      StrippedIsSound(transport, ivs, addr, mtype);
      var i := 0;
      var hit := false;
      while i < |intervals| && !hit
        invariant 0 <= i <= |intervals| == |ivs|
        invariant !hit ==> forall n :: 0 <= n < i ==> !Has(transport, ivs[n].clients, addr, mtype)
        invariant !hit ==> Keys(intervals) == ivs
        invariant hit ==> Keys(intervals) == StripAll(transport, ivs, addr, mtype)
      {
        RecordsAt(transport, ivs, i);
        hit := CancelIn(transport, intervals[i], addr, mtype);
        if hit {
          CancelMayStop(transport, ivs, addr, mtype, i);
          assert Keys(intervals) == StripAll(transport, ivs, addr, mtype);
        } else {
          assert Keys(intervals) == ivs;
        }
        i := i + 1;
      }
      if !hit {
        NothingToCancel(transport, ivs, addr, mtype);
      }
      StillLinked();
    }

    // The interval in `cell` has been extracted and not yet been put back or retired.
    ghost predicate OneOut(cell: Cell<Interval>)
      reads this, queue, queue.data, queue.elems
    {
      && queue.Valid() && queue.len < queue.max
      && ByTimeout(queue.cmp)
      && Distinct(intervals) && cell in intervals && cell !in queue.elems
      && multiset(intervals) == multiset(queue.elems) + multiset{cell}
    }

    method TakeDue() returns (cell: Cell<Interval>)
      requires Linked() && queue.elems != []
      modifies queue`len, queue`elems, queue.data
      ensures OneOut(cell) && cell == old(queue.elems[0]) && queue.data == old(queue.data)
    {
      hide Heap, TotalPreorder;
      ghost var was := queue.elems;
      cell := queue.Extract();
      ExtractedIsAlone(intervals, was, queue.elems, cell);
    }

    method Retire(cell: Cell<Interval>)
      requires OneOut(cell)
      modifies this`intervals
      ensures Linked() && intervals == Without(old(intervals), cell)
    {
      hide Heap, TotalPreorder;
      WithoutIsDistinct(intervals, cell);
      ghost var was := intervals;
      intervals := Without(intervals, cell);
      assert multiset(queue.elems) == multiset(was) - multiset{cell} == multiset(intervals);
    }

    // The extraction made room: the queue never grows here, whatever the allocator would say.
    method PutBack(cell: Cell<Interval>, canGrow: bool)
      requires OneOut(cell)
      modifies queue, queue.data
      ensures Linked() && queue.data == old(queue.data)
    {
      hide Heap, TotalPreorder;
      var ok := queue.Insert(cell, canGrow);
      assert ok;
    }

    // One turn of the loop in unicast_service_timer, for an interval that is due.  `t` is the clock
    // reading of unicast_service_clients.
    method Round(t: Timespec, master: bool, canGrow: bool) returns (cell: Cell<Interval>, sent: seq<Transmission>)
      requires Linked() && queue.elems != []
      modifies this`intervals, queue.elems[0], queue, queue.data
      ensures Linked() && queue.data == old(queue.data)
      ensures cell == old(queue.elems[0]) && cell in old(intervals)
      ensures var iv := Fired(old(cell.v), t, master);
              if iv.clients == [] then cell.v == iv && intervals == Without(old(intervals), cell)
              else cell.v == Incremented(iv) && intervals == old(intervals)
      ensures sent == if master then Transmissions(old(cell.v.clients), t) else []
    {
      hide Heap, TotalPreorder, Unexpired, Normalized, Incremented, Transmissions;
      cell := TakeDue();
      sent := [];
      if master {
        sent := ServeClients(cell, t);
      }
      if cell.v.clients == [] {
        Retire(cell);
      } else {
        Increment(cell);
        PutBack(cell, canGrow);
      }
    }

    // The loop condition of unicast_service_timer.
    method PeekDue(now: Timespec) returns (due: bool)
      requires Consistent() && Normal(now)
      ensures due <==> queue.elems != [] && Ns(queue.elems[0].v.tmo) <= Ns(now)
    {
      hide Heap, TotalPreorder, WellFormed, Unique;
      var top := queue.Peek();
      if top == null {
        return false;
      }
      Queued(top);
      NormalTimeout(top);
      due := !(TimespecCompare(now, top.v.tmo) > 0);
    }

    lemma LinkedIsDistinct()
      requires Linked()
      ensures Distinct(intervals)
    {
    }

    // Round, as a turn of the table.
    method RoundAt(ghost k: nat, t: Timespec, master: bool, canGrow: bool) returns (sent: seq<Transmission>)
      requires Linked() && queue.elems != [] && k < |intervals| && intervals[k] == queue.elems[0]
      modifies this`intervals, queue.elems[0], queue, queue.data
      ensures Linked() && queue.data == old(queue.data)
      ensures Keys(intervals) == Turn(old(Keys(intervals)), k, t, master)
      ensures forall c :: c in intervals ==> c in old(intervals) && c.v.logPeriod == old(c.v.logPeriod)
      ensures sent == if master then Transmissions(old(intervals[k].v.clients), t) else []
    {
      hide Linked, Unexpired, Normalized, Transmissions;
      LinkedIsDistinct();
      ghost var ivs, before := Keys(intervals), intervals;
      WithoutAt(intervals, k);
      var cell;
      cell, sent := Round(t, master, canGrow);
      forall n | 0 <= n < |before| && n != k
        ensures before[n].v == ivs[n]
      {
      }
      KeysButOne(before, ivs, k);
    }

    // One turn of the loop, with its place in the log.
    method LoggedRound(ghost ivs: seq<Interval>, ghost log: seq<int>, ghost clock: Clock, t: Timespec, master: bool,
                       canGrow: bool)
      returns (ghost next: seq<int>, sent: seq<Transmission>)
      requires Consistent() && WellFormed(Keys(intervals))
      requires Keys(intervals) == After(ivs, log, clock, master) && Possible(ivs, log, clock, master)
      requires queue.elems != [] && Due(queue.elems[0].v, clock(0)) && (master ==> t == clock(|log| + 1))
      modifies this`intervals, queue.elems[0], queue, queue.data
      ensures Consistent() && queue.data == old(queue.data)
      ensures |next| == |log| + 1
      ensures Keys(intervals) == After(ivs, next, clock, master) && Possible(ivs, next, clock, master)
      ensures forall c :: c in intervals ==> c in old(intervals) && c.v.logPeriod == old(c.v.logPeriod)
      ensures if master then Sent(ivs, next, clock) == Sent(ivs, log, clock) + sent else sent == []
      ensures forall j :: EndedBy(old(Keys(intervals)), clock, j, master) && Monotone(clock) ==>
                && EndedBy(Keys(intervals), clock, j, master)
                && Measure(Keys(intervals), next, clock, j) < Measure(old(Keys(intervals)), log, clock, j)
    {
      hide Heap, TotalPreorder, Turn, Sound, WellFormed, Transmissions, After, Possible, Sent, EndedBy, Measure;
      ghost var was := Keys(intervals);
      ghost var k := EarliestQueued();
      next := log + [was[k].logPeriod];
      OneMoreTurn(ivs, log, clock, master, k);
      if master {
        SentOneMore(ivs, log, clock, k);
      }
      TurnIsSound(transport, was, k, t, master);
      SameTurn(was, k, t, clock(|next|), master);
      forall j | EndedBy(was, clock, j, master) && Monotone(clock)
        ensures EndedBy(Turn(was, k, t, master), clock, j, master)
        ensures Measure(Turn(was, k, t, master), next, clock, j) < Measure(was, log, clock, j)
      {
        MeasureDrops(was, k, log, next, clock, j, master);
      }
      sent := RoundAt(k, t, master, canGrow);
    }

    // The first interval of the queue, in the table.
    ghost method EarliestQueued() returns (k: nat)
      requires Consistent() && queue.elems != []
      ensures Earliest(Keys(intervals), k) && intervals[k] == queue.elems[0]
    {
      hide Heap, TotalPreorder, Sound;
      Queued(queue.elems[0]);
      k :| 0 <= k < |intervals| && intervals[k] == queue.elems[0];
      forall i | 0 <= i < |intervals|
        ensures Ns(queue.elems[0].v.tmo) <= Ns(Keys(intervals)[i].tmo)
      {
        RootIsEarliest(intervals[i]);
      }
    }

    // With nothing due at the head of the queue, nothing is due.
    lemma NothingDue(now: Timespec)
      requires Consistent() && (queue.elems == [] || !Due(queue.elems[0].v, now))
      ensures Over(Keys(intervals), now) && forall c :: c in intervals ==> !Due(c.v, now)
    {
      hide Heap, TotalPreorder, Sound;
      forall c | c in intervals
        ensures !Due(c.v, now)
      {
        RootIsEarliest(c);
      }
    }

    // unicast_service_timer on an enabled service.  `clock(0)` is the reading it starts with; each
    // call of unicast_service_clients takes a reading of its own.
    method Timer(clock: Clock, master: bool, canGrow: bool) returns (ghost log: seq<int>, sent: seq<Transmission>)
      requires Valid() && Monotone(clock) && WillEnd(Keys(intervals), clock, master)
      modifies this, intervals, queue, queue.data
      ensures Valid() && queue.data == old(queue.data)
      ensures var ivs := old(Keys(intervals));
              && Possible(ivs, log, clock, master)
              && Keys(intervals) == After(ivs, log, clock, master) && Over(Keys(intervals), clock(0))
              && sent == if master then Sent(ivs, log, clock) else []
      ensures forall c :: c in intervals ==>
                c in old(intervals) && c.v.logPeriod == old(c.v.logPeriod) && Ns(c.v.tmo) > Ns(clock(0))
    {
      hide Heap, TotalPreorder, Sound, Linked, WellFormed, After, Possible, Sent, EndedBy, Measure, WillEnd, Over;
      ghost var ivs := Keys(intervals);
      ghost var j := CommonReading(ivs, clock, master);
      var now, last := clock(0), 0;
      NoTurns(ivs, clock, master);
      log, sent := [], [];
      var due := PeekDue(now);
      while due
        invariant Consistent() && queue.data == old(queue.data)
        invariant due <==> queue.elems != [] && Due(queue.elems[0].v, now)
        invariant forall c :: c in intervals ==> c in old(intervals) && c.v.logPeriod == old(c.v.logPeriod)
        invariant master ==> last == |log|
        invariant Keys(intervals) == After(ivs, log, clock, master) && Possible(ivs, log, clock, master)
        invariant sent == if master then Sent(ivs, log, clock) else []
        invariant EndedBy(Keys(intervals), clock, j, master)
        decreases Measure(Keys(intervals), log, clock, j)
      {
        if master {
          last := last + 1;
        }
        SoundIsWellFormed(transport, Keys(intervals));
        Queued(queue.elems[0]);
        var more;
        log, more := LoggedRound(ivs, log, clock, clock(last), master, canGrow);
        sent := sent + more;
        due := PeekDue(now);
      }
      NothingDue(now);
      RearmTimer();
    }
  }

  // initialize_interval: the first deadline is 10 ms after the clock reading.
  function FirstDeadline(now: Timespec): (t: Timespec)
    ensures Normal(now) ==> Normal(t)
    ensures Ns(t) == Ns(now) + NS_PER_SEC / 100
  {
    Normalized(Timespec(now.sec, now.nsec + 10_000_000))
  }

  lemma GrantedIsSound(t: Transport, ivs: seq<Interval>, req: Request, now: int, first: Timespec)
    requires Sound(t, ivs) && req.logPeriod <= 30 && Normal(first)
    ensures Sound(t, Granted(t, ivs, req, now, first))
  {
    if Comparable(t) {
      GrantEffect(t, ivs, req, now, first);
    } else {
      GrantedShape(t, ivs, req, now, first);
      var r := Granted(t, ivs, req, now, first);
      forall i | 0 <= i < |ivs|
        ensures StripUnless(t, ivs[i], req) == ivs[i]
      {
        StripUncomparable(t, ivs[i].clients, req.addr, req.mtype);
      }
    }
  }

  lemma StrippedIsSound(t: Transport, ivs: seq<Interval>, addr: Address, mtype: MessageType)
    requires Sound(t, ivs)
    ensures Sound(t, StripAll(t, ivs, addr, mtype))
  {
    CancelEffect(t, ivs, addr, mtype);
  }

  lemma GrantedInPlace(t: Transport, ivs: seq<Interval>, req: Request, now: int, first: Timespec, k: nat, iv: Interval)
    requires req.logPeriod <= 30 && k == IndexOf(ivs, req.logPeriod) < |ivs|
    requires iv == ivs[k].(clients := Contract(t, ivs[k].clients, req.addr, req.mtype, now + req.duration))
    ensures Granted(t, ivs, req, now, first) == StripOthers(t, ivs, req)[k := iv]
  {
    hide Contract, Strip, IndexOf, StripOthers;
  }

  lemma RequestedIsKept(t: Transport, ivs: seq<Interval>, req: Request, k: nat)
    requires k == IndexOf(ivs, req.logPeriod) < |ivs|
    ensures StripOthers(t, ivs, req)[k] == ivs[k]
  {
  }

  lemma NothingElseToStrip(t: Transport, ivs: seq<Interval>, req: Request)
    requires IndexOf(ivs, req.logPeriod) == |ivs|
    ensures StripOthers(t, ivs, req) == StripAll(t, ivs, req.addr, req.mtype)
  {
  }

  // The table when the scan stops early at the interval `k`.
  lemma SettledIsGranted(t: Transport, ivs: seq<Interval>, req: Request, now: int, k: nat, r: seq<Interval>)
    requires Sound(t, ivs) && req.logPeriod <= 30 && k < |ivs| && ivs[k].logPeriod == req.logPeriod
    requires var n := Find(t, ivs[k].clients, req.addr);
             && n < |ivs[k].clients| && req.mtype in ivs[k].clients[n].messageTypes
             && |r| == |ivs|
             && r[k] == ivs[k].(clients := ivs[k].clients[n := Extended(ivs[k].clients[n], now + req.duration)])
    requires forall n :: 0 <= n < |ivs| && n != k ==>
               r[n] == if n < k then StripUnless(t, ivs[n], req) else ivs[n]
    ensures forall first :: r == Granted(t, ivs, req, now, first)
    ensures SameTimeouts(ivs, r)
  {
    ExtendingIsContract(t, ivs[k].clients, req, now);
    IndexIs(ivs, k);
    forall n | 0 <= n < |ivs| && n != k
      ensures r[n] == StripUnless(t, ivs[n], req)
    {
      ScanMayStop(t, ivs, req, k, n);
    }
    forall first
      ensures r == Granted(t, ivs, req, now, first)
    {
      hide Contract, Strip, StripUnless;
      assert |Granted(t, ivs, req, now, first)| == |r|;
    }
  }
}
