/** Deadlines and grants of a single interval, as values. */
module Schedule {
  import opened Prelude
  import opened Contracts

  function Normalized(t: Timespec): (r: Timespec)
    ensures Ns(r) == Ns(t)
    ensures 0 <= t.nsec ==> Normal(r)
    decreases t.nsec
  {
    if t.nsec >= NS_PER_SEC then Normalized(Timespec(t.sec + 1, t.nsec - NS_PER_SEC)) else t
  }

  // interval_increment
  function Incremented(iv: Interval): (r: Interval)
    ensures Ns(r.tmo) == Ns(iv.tmo) + Ns(iv.incr)
    ensures Normal(iv.tmo) && Normal(iv.incr) ==> Normal(r.tmo)
  {
    iv.(tmo := Normalized(Timespec(iv.tmo.sec + iv.incr.sec, iv.tmo.nsec + iv.incr.nsec)))
  }

  // ---- deadlines ----

  // How often `inc` must be added to `t` before it passes `now`.
  ghost function Steps(t: int, inc: int, now: int): nat
    requires inc > 0
    decreases Max(0, now - t + 1)
  {
    if t > now then 0 else 1 + Steps(t + inc, inc, now)
  }

  // `t` moved on by `Steps` increments.
  ghost function Advance(t: int, inc: int, now: int): int
    requires inc > 0
    decreases Max(0, now - t + 1)
  {
    if t > now then t else Advance(t + inc, inc, now)
  }

  // Advance is the least deadline of the original cadence that lies after `now`.
  lemma {:induction false} AdvanceIsLeast(t: int, inc: int, now: int)
    requires inc > 0
    ensures Advance(t, inc, now) > now
    ensures Advance(t, inc, now) == t + Steps(t, inc, now) * inc
    ensures forall k: nat :: t + k * inc > now ==> k >= Steps(t, inc, now)
    decreases Max(0, now - t + 1)
  {
    if t <= now {
      AdvanceIsLeast(t + inc, inc, now);
      var n := Steps(t + inc, inc, now);
      assert (1 + n) * inc == inc + n * inc;
      forall k: nat | t + k * inc > now
        ensures k >= 1 + n
      {
        assert k != 0;
        assert (k - 1) * inc == k * inc - inc;
        assert t + inc + (k - 1) * inc > now;
      }
    }
  }

  // `n` increments take `t` past `now`, and no smaller number does.
  ghost predicate LeastPassing(t: int, inc: int, now: int, n: nat) {
    t + n * inc > now && forall k: nat :: t + k * inc > now ==> n <= k
  }

  // ---- clients ----

  // The records unicast_service_clients keeps at time `t`.
  function Unexpired(s: seq<Client>, t: Timespec): (r: seq<Client>) {
    if s == [] then []
    else if t.sec > s[0].grantTmo then Unexpired(s[1..], t)
    else [s[0]] + Unexpired(s[1..], t)
  }

  datatype Transmission = Transmission(mtype: MessageType, dst: Address)

  function TransmissionsTo(c: Client): seq<Transmission> {
    (if Announce in c.messageTypes then [Transmission(Announce, c.addr)] else []) +
    (if Sync in c.messageTypes then [Transmission(Sync, c.addr)] else [])
  }

  // The messages it sends: to the unexpired clients, Announce before Sync.
  function Transmissions(s: seq<Client>, t: Timespec): seq<Transmission> {
    if s == [] then []
    else if t.sec > s[0].grantTmo then Transmissions(s[1..], t)
    else TransmissionsTo(s[0]) + Transmissions(s[1..], t)
  }

  lemma {:induction false} UnexpiredLater(s: seq<Client>, t: Timespec, u: Timespec)
    requires t.sec <= u.sec
    ensures Unexpired(Unexpired(s, t), u) == Unexpired(s, u)
  {
    if s != [] {
      UnexpiredLater(s[1..], t, u);
      if t.sec <= s[0].grantTmo {
        assert Unexpired(s, t)[1..] == Unexpired(s[1..], t);
      }
    }
  }

  // Exactly the records whose grant has not ended are kept ...
  lemma {:induction false} KeptAreUnexpired(s: seq<Client>, t: Timespec, c: Client)
    ensures c in Unexpired(s, t) <==> c in s && t.sec <= c.grantTmo
  {
    if s != [] {
      KeptAreUnexpired(s[1..], t, c);
      assert c in s <==> c == s[0] || c in s[1..];
    }
  }

  // ... and exactly these are sent what they hold of the two message types.
  lemma {:induction false} SentToUnexpired(s: seq<Client>, t: Timespec, x: Transmission)
    ensures x in Transmissions(s, t) <==>
            (x.mtype == Announce || x.mtype == Sync) &&
            exists c :: c in s && t.sec <= c.grantTmo && x.mtype in c.messageTypes && x.dst == c.addr
  {
    if s != [] {
      SentToUnexpired(s[1..], t, x);
      assert forall c :: c in s <==> c == s[0] || c in s[1..];
      assert x in TransmissionsTo(s[0]) <==>
             (x.mtype == Announce || x.mtype == Sync) && x.mtype in s[0].messageTypes && x.dst == s[0].addr;
    }
  }

  // A client that holds both message types is sent the Announce before the Sync.
  lemma AnnounceFirst(c: Client)
    requires Announce in c.messageTypes && Sync in c.messageTypes
    ensures TransmissionsTo(c) == [Transmission(Announce, c.addr), Transmission(Sync, c.addr)]
  {
  }

  // At time `t` a client of the interval has a right to the message.
  ghost predicate Entitles(iv: Interval, x: Transmission, t: Timespec) {
    (x.mtype == Announce || x.mtype == Sync) &&
    exists c :: c in iv.clients && t.sec <= c.grantTmo && x.mtype in c.messageTypes && x.dst == c.addr
  }

  lemma EntitledEarlier(iv: Interval, x: Transmission, t: Timespec, u: Timespec)
    requires Entitles(iv, x, u) && t.sec <= u.sec
    ensures Entitles(iv, x, t)
  {
    var c :| c in iv.clients && u.sec <= c.grantTmo && x.mtype in c.messageTypes && x.dst == c.addr;
    assert t.sec <= c.grantTmo;
  }

  // Expiry takes records away and changes nothing else in the table.
  lemma {:induction false} UnexpiredRecords(tr: Transport, s: seq<Client>, t: Timespec)
    requires Records(tr, s)
    ensures Records(tr, Unexpired(s, t))
    ensures forall c :: c in Unexpired(s, t) ==> c in s && t.sec <= c.grantTmo
  {
    if s != [] {
      UnexpiredRecords(tr, s[1..], t);
      var r := Unexpired(s[1..], t);
      forall i | 0 <= i < |r|
        ensures !AddrEq(tr, s[0].addr, r[i].addr)
      {
        assert r[i] in s[1..];
      }
    }
  }

  lemma UnexpiredHas(tr: Transport, s: seq<Client>, t: Timespec, a: Address, m: MessageType)
    requires Has(tr, Unexpired(s, t), a, m)
    ensures Has(tr, s, a, m)
    decreases s
  {
    if s != [] {
      assert [s[0]] + s[1..] == s;
      HasConcat(tr, [s[0]], s[1..], a, m);
      HasConcat(tr, [s[0]], Unexpired(s[1..], t), a, m);
      if Has(tr, Unexpired(s[1..], t), a, m) {
        UnexpiredHas(tr, s[1..], t, a, m);
      }
    }
  }
}
