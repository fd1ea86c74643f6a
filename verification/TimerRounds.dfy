/** The loop of `unicast_service_timer` as turns over a table of intervals, for every log of turns that the
  loop can make: when it ends, where it leaves each interval, and what each client is sent.
 */
module TimerRounds {
  import opened Prelude
  import opened Contracts
  import opened Schedule

  // Successive readings of CLOCK_MONOTONIC: the first is that of the timer, the others are those of its turns.
  type Clock = nat -> Timespec

  ghost predicate Monotone(clock: Clock) {
    && (forall i :: Normal(clock(i)))
    && (forall i, j :: i <= j ==> Ns(clock(i)) <= Ns(clock(j)))
  }

  lemma Later(clock: Clock, i: nat, j: nat)
    requires Monotone(clock) && i <= j
    ensures clock(i).sec <= clock(j).sec
  {
  }

  // The interval after its clients have been served at time `t`, which only a master does.
  function Fired(iv: Interval, t: Timespec, master: bool): Interval {
    if master then iv.(clients := Unexpired(iv.clients, t)) else iv
  }

  // One turn of the loop, for the interval at `k`.
  function Turn(ivs: seq<Interval>, k: nat, t: Timespec, master: bool): seq<Interval>
    requires k < |ivs|
  {
    var iv := Fired(ivs[k], t, master);
    if iv.clients == [] then ivs[..k] + ivs[k + 1..] else ivs[k := Incremented(iv)]
  }

  predicate Due(iv: Interval, now: Timespec) {
    Ns(iv.tmo) <= Ns(now)
  }

  ghost predicate Earliest(ivs: seq<Interval>, k: nat) {
    k < |ivs| && forall i :: 0 <= i < |ivs| ==> Ns(ivs[k].tmo) <= Ns(ivs[i].tmo)
  }

  ghost predicate Over(ivs: seq<Interval>, now: Timespec) {
    forall i :: 0 <= i < |ivs| ==> !Due(ivs[i], now)
  }

  // The table after intervals of these log periods have had a turn, one after the other.
  ghost function After(ivs: seq<Interval>, log: seq<int>, clock: Clock, master: bool): seq<Interval> {
    if log == [] then ivs
    else
      var r := After(ivs, log[..|log| - 1], clock, master);
      var k := IndexOf(r, log[|log| - 1]);
      if k == |r| then r else Turn(r, k, clock(|log|), master)
  }

  // The turns that the loop can make: each is for an interval that is due and none is earlier.
  ghost predicate Possible(ivs: seq<Interval>, log: seq<int>, clock: Clock, master: bool) {
    log == [] ||
    (var r := After(ivs, log[..|log| - 1], clock, master);
     var k := IndexOf(r, log[|log| - 1]);
     && Possible(ivs, log[..|log| - 1], clock, master)
     && Earliest(r, k) && Due(r[k], clock(0)))
  }

  lemma NoTurns(ivs: seq<Interval>, clock: Clock, master: bool)
    ensures After(ivs, [], clock, master) == ivs && Possible(ivs, [], clock, master) && Sent(ivs, [], clock) == []
  {
  }

  lemma OneMoreTurn(ivs: seq<Interval>, log: seq<int>, clock: Clock, master: bool, k: nat)
    requires var r := After(ivs, log, clock, master);
             WellFormed(r) && Possible(ivs, log, clock, master) && Earliest(r, k) && Due(r[k], clock(0))
    ensures var r := After(ivs, log, clock, master);
            var next := log + [r[k].logPeriod];
            && Possible(ivs, next, clock, master)
            && After(ivs, next, clock, master) == Turn(r, k, clock(|next|), master)
  {
    var r := After(ivs, log, clock, master);
    IndexIs(r, k);
    assert (log + [r[k].logPeriod])[..|log|] == log;
  }

  lemma EarliestExists(ivs: seq<Interval>) returns (k: nat)
    requires ivs != []
    ensures Earliest(ivs, k)
  {
    k := 0;
    for i := 1 to |ivs|
      invariant k < |ivs| && forall j :: 0 <= j < i ==> Ns(ivs[k].tmo) <= Ns(ivs[j].tmo)
    {
      if Ns(ivs[i].tmo) < Ns(ivs[k].tmo) {
        k := i;
      }
    }
  }

  lemma TurnIsWellFormed(ivs: seq<Interval>, k: nat, t: Timespec, master: bool)
    requires WellFormed(ivs) && k < |ivs|
    ensures WellFormed(Turn(ivs, k, t, master))
  {
    hide Unexpired, Normalized;
    var r := Turn(ivs, k, t, master);
    if |r| < |ivs| {
      assert forall i :: 0 <= i < |r| ==> r[i] == ivs[if i < k then i else i + 1];
    }
  }

  lemma {:induction false} AfterIsWellFormed(ivs: seq<Interval>, log: seq<int>, clock: Clock, master: bool)
    requires WellFormed(ivs)
    ensures WellFormed(After(ivs, log, clock, master))
  {
    if log != [] {
      hide WellFormed, Turn;
      AfterIsWellFormed(ivs, log[..|log| - 1], clock, master);
      var r := After(ivs, log[..|log| - 1], clock, master);
      var k := IndexOf(r, log[|log| - 1]);
      if k < |r| {
        TurnIsWellFormed(r, k, clock(|log|), master);
      }
    }
  }

  // ---- each interval goes its own way ----

  ghost function Lookup(ivs: seq<Interval>, logPeriod: int): Option<Interval> {
    var k := IndexOf(ivs, logPeriod);
    if k < |ivs| then Some(ivs[k]) else None
  }

  // One turn of an interval, which may be its last.
  ghost function OwnTurn(iv: Interval, t: Timespec, master: bool): Option<Interval> {
    var f := Fired(iv, t, master);
    if f.clients == [] then None else Some(Incremented(f))
  }

  // What becomes of one interval; None when it has been retired.
  ghost function State(iv: Interval, log: seq<int>, clock: Clock, master: bool): Option<Interval> {
    if log == [] then Some(iv)
    else
      var s := State(iv, log[..|log| - 1], clock, master);
      if s.Some? && log[|log| - 1] == iv.logPeriod then OwnTurn(s.value, clock(|log|), master) else s
  }

  lemma TurnLookup(ivs: seq<Interval>, k: nat, t: Timespec, master: bool, p: int)
    requires WellFormed(ivs) && k < |ivs|
    ensures Lookup(Turn(ivs, k, t, master), p) ==
            if p == ivs[k].logPeriod then OwnTurn(ivs[k], t, master) else Lookup(ivs, p)
  {
    hide Unexpired, Normalized;
    var r := Turn(ivs, k, t, master);
    TurnIsWellFormed(ivs, k, t, master);
    if |r| < |ivs| {
      assert forall i :: 0 <= i < |r| ==> r[i] == ivs[if i < k then i else i + 1];
    } else {
      IndexIs(r, k);
    }
    var n := IndexOf(ivs, p);
    if n < |ivs| && n != k {
      var m := if n < k || |r| == |ivs| then n else n - 1;
      assert r[m] == ivs[n];
      IndexIs(r, m);
    } else {
      IndexIs(ivs, k);
    }
  }

  // The table after the turns has each interval in its own state.
  lemma {:induction false} OwnWay(ivs: seq<Interval>, log: seq<int>, clock: Clock, master: bool, p: int)
    requires WellFormed(ivs)
    ensures var iv := Lookup(ivs, p);
            Lookup(After(ivs, log, clock, master), p) == if iv == None then None
                else State(iv.value, log, clock, master)
  {
    if log != [] {
      hide WellFormed, Turn, OwnTurn;
      var prefix := log[..|log| - 1];
      OwnWay(ivs, prefix, clock, master, p);
      AfterIsWellFormed(ivs, prefix, clock, master);
      var r := After(ivs, prefix, clock, master);
      var k := IndexOf(r, log[|log| - 1]);
      if k < |r| {
        TurnLookup(r, k, clock(|log|), master, p);
      }
      LookupPeriod(ivs, p);
      if k < |r| && r[k].logPeriod == p {
        assert Lookup(r, p) == Some(r[k]);
      }
    }
  }

  lemma LookupPeriod(ivs: seq<Interval>, p: int)
    ensures Lookup(ivs, p).Some? ==> Lookup(ivs, p).value.logPeriod == p && Lookup(ivs, p).value in ivs
  {
  }

  lemma LookupAt(ivs: seq<Interval>, k: nat)
    requires WellFormed(ivs) && k < |ivs|
    ensures Lookup(ivs, ivs[k].logPeriod) == Some(ivs[k])
  {
    IndexIs(ivs, k);
  }

  // ---- when the loop ends ----

  // The turns an interval still needs to leave the loop, if time stands still for its clients.
  ghost function Work(iv: Interval, now: Timespec): nat {
    if !Due(iv, now) then 0 else if Ns(iv.incr) > 0 then Steps(Ns(iv.tmo), Ns(iv.incr), Ns(now)) else 1
  }

  // The overdue increments of the whole table.
  ghost function Overdue(ivs: seq<Interval>, now: Timespec): nat {
    if ivs == [] then 0 else Work(ivs[0], now) + Overdue(ivs[1..], now)
  }

  // Nobody is left to be served by the interval at the reading `j`.
  ghost predicate Ended(iv: Interval, clock: Clock, j: nat, master: bool) {
    if master then Unexpired(iv.clients, clock(j)) == [] else iv.clients == []
  }

  // An interval that is due and that its increment does not move.
  predicate Standing(iv: Interval, now: Timespec) {
    Due(iv, now) && Ns(iv.incr) == 0
  }

  // By the reading `j` every standing interval can be retired.
  ghost predicate EndedBy(ivs: seq<Interval>, clock: Clock, j: nat, master: bool) {
    forall i :: 0 <= i < |ivs| && Standing(ivs[i], clock(0)) ==> Ended(ivs[i], clock, j, master)
  }

  ghost predicate Retirable(iv: Interval, clock: Clock, master: bool) {
    exists j: nat :: Ended(iv, clock, j, master)
  }

  // Every standing interval can be retired sooner or later.
  ghost predicate WillEnd(ivs: seq<Interval>, clock: Clock, master: bool) {
    forall i :: 0 <= i < |ivs| && Standing(ivs[i], clock(0)) ==> Retirable(ivs[i], clock, master)
  }

  // The intervals without an increment are those of at most 2^-30 s.
  lemma NoIncrement(ivs: seq<Interval>, k: nat)
    requires WellFormed(ivs) && k < |ivs|
    ensures Ns(ivs[k].incr) >= 0 && (Ns(ivs[k].incr) == 0 <==> ivs[k].logPeriod <= -30)
  {
    PositivePeriods(ivs[k].logPeriod);
    hide FractionOfSecond;
  }

  lemma EndedLater(iv: Interval, clock: Clock, i: nat, j: nat, master: bool)
    requires Monotone(clock) && i <= j && Ended(iv, clock, i, master)
    ensures Ended(iv, clock, j, master)
  {
    Later(clock, i, j);
    if master {
      UnexpiredLater(iv.clients, clock(i), clock(j));
    }
  }

  lemma {:induction false} CommonReading(ivs: seq<Interval>, clock: Clock, master: bool) returns (j: nat)
    requires Monotone(clock) && WillEnd(ivs, clock, master)
    ensures EndedBy(ivs, clock, j, master)
  {
    if ivs == [] {
      j := 0;
    } else {
      hide Ended, Standing;
      assert forall i :: 0 <= i < |ivs[1..]| ==> ivs[1..][i] == ivs[i + 1];
      var rest := CommonReading(ivs[1..], clock, master);
      var first: nat := 0;
      if Standing(ivs[0], clock(0)) {
        first :| Ended(ivs[0], clock, first, master);
      }
      j := Max(first, rest);
      forall i | 0 <= i < |ivs| && Standing(ivs[i], clock(0))
        ensures Ended(ivs[i], clock, j, master)
      {
        if i == 0 {
          EndedLater(ivs[0], clock, first, j, master);
        } else {
          assert ivs[1..][i - 1] == ivs[i];
          EndedLater(ivs[i], clock, rest, j, master);
        }
      }
    }
  }

  lemma {:induction false} OverdueSplit(ivs: seq<Interval>, k: nat, now: Timespec)
    requires k < |ivs|
    ensures Overdue(ivs, now) == Work(ivs[k], now) + Overdue(ivs[..k] + ivs[k + 1..], now)
  {
    hide Work;
    if k == 0 {
      assert ivs[..0] + ivs[1..] == ivs[1..];
    } else {
      OverdueSplit(ivs[1..], k - 1, now);
      assert (ivs[..k] + ivs[k + 1..])[1..] == ivs[1..][..k - 1] + ivs[1..][k..];
    }
  }

  lemma OverdueUpdate(ivs: seq<Interval>, k: nat, iv: Interval, now: Timespec)
    requires k < |ivs|
    ensures Overdue(ivs[k := iv], now) - Overdue(ivs, now) == Work(iv, now) - Work(ivs[k], now)
  {
    hide Work, Overdue;
    OverdueSplit(ivs, k, now);
    OverdueSplit(ivs[k := iv], k, now);
    assert ivs[k := iv][..k] + ivs[k := iv][k + 1..] == ivs[..k] + ivs[k + 1..];
  }

  // A turn of a single interval that is due.
  lemma OwnTurnDrops(iv: Interval, clock: Clock, n: nat, j: nat, master: bool)
    requires Monotone(clock) && Due(iv, clock(0)) && Ns(iv.incr) >= 0
    requires Standing(iv, clock(0)) ==> Ended(iv, clock, j, master)
    ensures Work(iv, clock(0)) >= 1
    ensures var s := OwnTurn(iv, clock(n), master);
            s.Some? ==>
              && Work(s.value, clock(0)) <= Work(iv, clock(0))
              && (n >= j ==> Work(s.value, clock(0)) < Work(iv, clock(0)))
              && (Standing(s.value, clock(0)) ==> Ended(s.value, clock, j, master))
  {
    hide Normalized;
    if Standing(iv, clock(0)) {
      if n >= j {
        EndedLater(iv, clock, j, n, master);
      } else if master {
        Later(clock, n, j);
        UnexpiredLater(iv.clients, clock(n), clock(j));
      }
    }
  }

  // Each turn does some of the work, or takes one of the readings that the clients are waited for.
  lemma TurnDrops(ivs: seq<Interval>, k: nat, clock: Clock, n: nat, j: nat, master: bool)
    requires WellFormed(ivs) && k < |ivs| && Due(ivs[k], clock(0)) && Monotone(clock) && EndedBy(ivs, clock, j, master)
    ensures var r := Turn(ivs, k, clock(n), master);
            && EndedBy(r, clock, j, master)
            && Overdue(r, clock(0)) <= Overdue(ivs, clock(0))
            && (n >= j ==> Overdue(r, clock(0)) < Overdue(ivs, clock(0)))
  {
    hide Work, Overdue, Ended, Standing, Fired, Incremented, LogPeriod;
    var r := Turn(ivs, k, clock(n), master);
    NoIncrement(ivs, k);
    OwnTurnDrops(ivs[k], clock, n, j, master);
    if Fired(ivs[k], clock(n), master).clients == [] {
      OverdueSplit(ivs, k, clock(0));
      assert forall i :: 0 <= i < |r| ==> r[i] == ivs[if i < k then i else i + 1];
    } else {
      OverdueUpdate(ivs, k, r[k], clock(0));
    }
  }

  // What the loop still has to do after the turns of the log, if all is ended by the reading `j`.
  ghost function Measure(ivs: seq<Interval>, log: seq<int>, clock: Clock, j: nat): nat {
    Overdue(ivs, clock(0)) + Max(0, j - |log|)
  }

  lemma MeasureDrops(ivs: seq<Interval>, k: nat, log: seq<int>, next: seq<int>, clock: Clock, j: nat, master: bool)
    requires WellFormed(ivs) && k < |ivs| && Due(ivs[k], clock(0)) && Monotone(clock) && EndedBy(ivs, clock, j, master)
    requires |next| == |log| + 1
    ensures var r := Turn(ivs, k, clock(|next|), master);
            EndedBy(r, clock, j, master) && Measure(r, next, clock, j) < Measure(ivs, log, clock, j)
  {
    hide WellFormed, Turn, EndedBy, Overdue;
    TurnDrops(ivs, k, clock, |next|, j, master);
  }

  // Who is not a master takes no reading in a turn.
  lemma SameTurn(ivs: seq<Interval>, k: nat, t: Timespec, u: Timespec, master: bool)
    requires k < |ivs| && (master ==> t == u)
    ensures Turn(ivs, k, t, master) == Turn(ivs, k, u, master)
  {
  }

  lemma {:induction false} LogIsBounded(ivs: seq<Interval>, log: seq<int>, clock: Clock, j: nat, master: bool)
    requires WellFormed(ivs) && Monotone(clock) && EndedBy(ivs, clock, j, master) && Possible(ivs, log, clock, master)
    ensures var r := After(ivs, log, clock, master);
            && EndedBy(r, clock, j, master)
            && |log| + Measure(r, log, clock, j) <= Measure(ivs, [], clock, j)
  {
    if log != [] {
      hide EndedBy, Measure, Turn, WellFormed, Due;
      var prefix := log[..|log| - 1];
      LogIsBounded(ivs, prefix, clock, j, master);
      AfterIsWellFormed(ivs, prefix, clock, master);
      var r := After(ivs, prefix, clock, master);
      MeasureDrops(r, IndexOf(r, log[|log| - 1]), prefix, log, clock, j, master);
    }
  }

  // An interval that can never be retired and that no increment moves stays where it is.
  lemma {:induction false} StandsForever(iv: Interval, log: seq<int>, clock: Clock, master: bool)
    requires Monotone(clock) && Standing(iv, clock(0)) && !Retirable(iv, clock, master)
    ensures var s := State(iv, log, clock, master);
            && s.Some? && Standing(s.value, clock(0))
            && forall j: nat :: j >= |log| ==> !Ended(s.value, clock, j, master)
  {
    if log != [] {
      hide Normalized;
      StandsForever(iv, log[..|log| - 1], clock, master);
      var s := State(iv, log[..|log| - 1], clock, master).value;
      assert !Ended(s, clock, |log|, master);
      forall j: nat | j >= |log|
        ensures master ==> Unexpired(Unexpired(s.clients, clock(|log|)), clock(j)) == Unexpired(s.clients, clock(j))
        ensures !Ended(s, clock, j, master)
      {
        Later(clock, |log|, j);
        UnexpiredLater(s.clients, clock(|log|), clock(j));
      }
    }
  }

  // ... so that the loop can always go on.
  lemma {:induction false} LongLog(ivs: seq<Interval>, i: nat, clock: Clock, master: bool, n: nat)
    returns (log: seq<int>)
    requires WellFormed(ivs) && Monotone(clock) && i < |ivs|
    requires Standing(ivs[i], clock(0)) && !Retirable(ivs[i], clock, master)
    ensures |log| == n && Possible(ivs, log, clock, master)
  {
    if n == 0 {
      log := [];
    } else {
      hide WellFormed, After, Possible, Ended, State;
      var p := LongLog(ivs, i, clock, master, n - 1);
      var r := After(ivs, p, clock, master);
      AfterIsWellFormed(ivs, p, clock, master);
      StandsForever(ivs[i], p, clock, master);
      OwnWay(ivs, p, clock, master, ivs[i].logPeriod);
      LookupAt(ivs, i);
      var k := EarliestExists(r);
      OneMoreTurn(ivs, p, clock, master, k);
      log := p + [r[k].logPeriod];
    }
  }

  // The loop makes a bounded number of turns, whichever of several earliest intervals the queue picks.
  ghost predicate Terminates(ivs: seq<Interval>, clock: Clock, master: bool) {
    exists bound: nat :: AtMost(ivs, clock, master, bound)
  }

  ghost predicate AtMost(ivs: seq<Interval>, clock: Clock, master: bool, bound: nat) {
    forall log :: Possible(ivs, log, clock, master) ==> |log| <= bound
  }

  // The loop ends if and only if every interval that is due and has no increment loses its clients: on a
  // master port by the end of their grants, on another port by having none from the start.
  lemma TerminatesIff(ivs: seq<Interval>, clock: Clock, master: bool)
    requires WellFormed(ivs) && Monotone(clock)
    ensures Terminates(ivs, clock, master) <==> WillEnd(ivs, clock, master)
  {
    hide WellFormed, Possible, Ended, Standing;
    if WillEnd(ivs, clock, master) {
      var j := CommonReading(ivs, clock, master);
      forall log | Possible(ivs, log, clock, master)
        ensures |log| <= Measure(ivs, [], clock, j)
      {
        LogIsBounded(ivs, log, clock, j, master);
      }
      assert AtMost(ivs, clock, master, Measure(ivs, [], clock, j));
    } else {
      var i :| 0 <= i < |ivs| && Standing(ivs[i], clock(0)) && !Retirable(ivs[i], clock, master);
      forall bound: nat
        ensures !AtMost(ivs, clock, master, bound)
      {
        var log := LongLog(ivs, i, clock, master, bound + 1);
      }
    }
  }

  // The clock passes this second.
  ghost predicate Passes(clock: Clock, sec: int) {
    exists j: nat :: clock(j).sec > sec
  }

  // The interval has no clients, or it is on a master port and each of their grants comes to an end.
  ghost predicate GrantsEnd(iv: Interval, clock: Clock, master: bool) {
    forall c :: c in iv.clients ==> master && Passes(clock, c.grantTmo)
  }

  lemma {:induction false} AllPassed(s: seq<Client>, clock: Clock) returns (j: nat)
    requires Monotone(clock) && forall c :: c in s ==> Passes(clock, c.grantTmo)
    ensures Unexpired(s, clock(j)) == []
  {
    if s == [] {
      j := 0;
    } else {
      assert forall c :: c in s[1..] ==> c in s;
      var rest := AllPassed(s[1..], clock);
      assert Passes(clock, s[0].grantTmo);
      var first: nat :| clock(first).sec > s[0].grantTmo;
      j := Max(first, rest);
      Later(clock, first, j);
      Later(clock, rest, j);
      UnexpiredLater(s[1..], clock(rest), clock(j));
    }
  }

  lemma EndsIff(iv: Interval, clock: Clock, master: bool)
    requires Monotone(clock)
    ensures Retirable(iv, clock, master) <==> GrantsEnd(iv, clock, master)
  {
    if !master {
      assert iv.clients == [] ==> Ended(iv, clock, 0, master);
      assert iv.clients != [] ==> iv.clients[0] in iv.clients;
    } else if Retirable(iv, clock, master) {
      var j: nat :| Ended(iv, clock, j, master);
      forall c | c in iv.clients
        ensures Passes(clock, c.grantTmo)
      {
        KeptAreUnexpired(iv.clients, clock(j), c);
        assert clock(j).sec > c.grantTmo;
      }
    } else if forall c :: c in iv.clients ==> Passes(clock, c.grantTmo) {
      var j := AllPassed(iv.clients, clock);
      assert Ended(iv, clock, j, master);
    }
  }

  // What a caller can tell beforehand: whether an interval of 2^-30 s or less is due that has a client, and
  // whether the port is a master and the client's grant ends.
  lemma WillEndIff(ivs: seq<Interval>, clock: Clock, master: bool)
    requires WellFormed(ivs) && Monotone(clock)
    ensures WillEnd(ivs, clock, master) <==>
            forall i :: 0 <= i < |ivs| && ivs[i].logPeriod <= -30 && Due(ivs[i], clock(0)) ==>
              GrantsEnd(ivs[i], clock, master)
  {
    forall i | 0 <= i < |ivs|
      ensures Standing(ivs[i], clock(0)) <==> ivs[i].logPeriod <= -30 && Due(ivs[i], clock(0))
      ensures Retirable(ivs[i], clock, master) <==> GrantsEnd(ivs[i], clock, master)
    {
      NoIncrement(ivs, i);
      EndsIff(ivs[i], clock, master);
    }
    hide Retirable, Standing, Due, WellFormed, GrantsEnd;
  }

  // If time goes on, the loop ends on every master port.
  lemma MasterEnds(ivs: seq<Interval>, clock: Clock)
    requires WellFormed(ivs) && Monotone(clock) && forall sec :: Passes(clock, sec)
    ensures Terminates(ivs, clock, true)
  {
    WillEndIff(ivs, clock, true);
    TerminatesIff(ivs, clock, true);
    hide WillEnd, Terminates, WellFormed, Due;
  }

  // ---- where the loop leaves an interval ----

  function Count(log: seq<int>, p: int): nat {
    if log == [] then 0 else Count(log[..|log| - 1], p) + if log[|log| - 1] == p then 1 else 0
  }

  // Expiry is the same whether or not it has happened before; who has been retired has no clients any more.
  lemma {:induction false} StateClients(iv: Interval, log: seq<int>, clock: Clock, master: bool, u: Timespec)
    requires Monotone(clock) && clock(|log|).sec <= u.sec
    ensures var s := State(iv, log, clock, master);
            if s.Some? then
              if master then Unexpired(s.value.clients, u) == Unexpired(iv.clients, u)
                  else s.value.clients == iv.clients
            else
              if master then Unexpired(iv.clients, u) == [] else iv.clients == []
  {
    if log != [] {
      hide Normalized;
      Later(clock, |log| - 1, |log|);
      StateClients(iv, log[..|log| - 1], clock, master, u);
      var s := State(iv, log[..|log| - 1], clock, master);
      if s.Some? {
        UnexpiredLater(s.value.clients, clock(|log|), u);
      }
    }
  }

  lemma StateIn(ivs: seq<Interval>, i: nat, log: seq<int>, clock: Clock, master: bool)
    requires WellFormed(ivs) && i < |ivs|
    ensures Lookup(After(ivs, log, clock, master), ivs[i].logPeriod) == State(ivs[i], log, clock, master)
  {
    LookupAt(ivs, i);
    OwnWay(ivs, log, clock, master, ivs[i].logPeriod);
  }

  lemma NextSteps(iv: Interval, t: Timespec, master: bool, now: Timespec)
    requires Ns(iv.incr) > 0 && Due(iv, now)
    ensures var s := OwnTurn(iv, t, master);
            && Work(iv, now) >= 1
            && (s.Some? ==>
                  && Work(s.value, now) == Work(iv, now) - 1 && s.value.incr == iv.incr
                  && Advance(Ns(s.value.tmo), Ns(iv.incr), Ns(now)) == Advance(Ns(iv.tmo), Ns(iv.incr), Ns(now)))
  {
    hide Unexpired, Normalized;
    var moved := Ns(iv.tmo) + Ns(iv.incr);
    assert Advance(Ns(iv.tmo), Ns(iv.incr), Ns(now)) == Advance(moved, Ns(iv.incr), Ns(now));
    assert Steps(Ns(iv.tmo), Ns(iv.incr), Ns(now)) == 1 + Steps(moved, Ns(iv.incr), Ns(now));
  }

  // Every turn of an interval takes it one increment on along its cadence.
  lemma {:induction false} TurnsProgress(ivs: seq<Interval>, i: nat, log: seq<int>, clock: Clock, master: bool)
    requires WellFormed(ivs) && i < |ivs| && Ns(ivs[i].incr) > 0 && Possible(ivs, log, clock, master)
    ensures var iv, n, now := ivs[i], Count(log, ivs[i].logPeriod), clock(0);
            var s := State(iv, log, clock, master);
            if s.Some? then
              && n + Work(s.value, now) == Work(iv, now) && s.value.incr == iv.incr
              && Advance(Ns(s.value.tmo), Ns(iv.incr), Ns(now)) == Advance(Ns(iv.tmo), Ns(iv.incr), Ns(now))
            else n <= Work(iv, now)
  {
    if log != [] {
      hide WellFormed, Work, OwnTurn, Turn, Advance;
      var prefix := log[..|log| - 1];
      TurnsProgress(ivs, i, prefix, clock, master);
      StateIn(ivs, i, prefix, clock, master);
      var s := State(ivs[i], prefix, clock, master);
      if s.Some? && log[|log| - 1] == ivs[i].logPeriod {
        NextSteps(s.value, clock(|log|), master, clock(0));
      }
    }
  }

  lemma WorkIsSteps(iv: Interval, now: Timespec)
    requires Ns(iv.incr) > 0
    ensures Work(iv, now) == Steps(Ns(iv.tmo), Ns(iv.incr), Ns(now))
    ensures Advance(Ns(iv.tmo), Ns(iv.incr), Ns(now)) == Ns(iv.tmo) <==> !Due(iv, now)
  {
    AdvanceIsLeast(Ns(iv.tmo), Ns(iv.incr), Ns(now));
  }

  // An interval that was not due has no turn.
  lemma {:induction false} NotDueNoTurn(ivs: seq<Interval>, i: nat, log: seq<int>, clock: Clock, master: bool)
    requires WellFormed(ivs) && i < |ivs| && !Due(ivs[i], clock(0)) && Possible(ivs, log, clock, master)
    ensures Count(log, ivs[i].logPeriod) == 0 && State(ivs[i], log, clock, master) == Some(ivs[i])
  {
    if log != [] {
      hide WellFormed, OwnTurn, Turn;
      NotDueNoTurn(ivs, i, log[..|log| - 1], clock, master);
      StateIn(ivs, i, log[..|log| - 1], clock, master);
    }
  }

  // Nothing is due any more when the loop is over.
  lemma OverState(ivs: seq<Interval>, i: nat, log: seq<int>, clock: Clock, master: bool)
    requires WellFormed(ivs) && i < |ivs| && Over(After(ivs, log, clock, master), clock(0))
    ensures var s := State(ivs[i], log, clock, master); s.Some? ==> !Due(s.value, clock(0))
  {
    hide WellFormed, After, State;
    StateIn(ivs, i, log, clock, master);
    var r := After(ivs, log, clock, master);
    LookupPeriod(r, ivs[i].logPeriod);
  }

  // An interval that survives is at the least deadline of its own cadence after `now`, having had one turn
  // for each increment on the way, so the cadence never drifts; one without an increment has not been due.
  lemma CadenceKept(ivs: seq<Interval>, i: nat, log: seq<int>, clock: Clock, master: bool)
    requires WellFormed(ivs) && i < |ivs| && Possible(ivs, log, clock, master)
    requires Over(After(ivs, log, clock, master), clock(0)) && State(ivs[i], log, clock, master).Some?
    ensures var iv, n, now := ivs[i], Count(log, ivs[i].logPeriod), Ns(clock(0));
            var v := State(iv, log, clock, master).value;
            LeastPassing(Ns(iv.tmo), Ns(iv.incr), now, n) && Ns(v.tmo) == Ns(iv.tmo) + n * Ns(iv.incr)
  {
    hide WellFormed, Possible, After, Over;
    var iv, now := ivs[i], clock(0);
    OverState(ivs, i, log, clock, master);
    NoIncrement(ivs, i);
    if Ns(iv.incr) > 0 {
      TurnsProgress(ivs, i, log, clock, master);
      WorkIsSteps(iv, now);
      AdvanceIsLeast(Ns(iv.tmo), Ns(iv.incr), Ns(now));
      WorkIsSteps(State(iv, log, clock, master).value, now);
    } else {
      StandingStaysDue(iv, log, clock, master);
      NotDueNoTurn(ivs, i, log, clock, master);
    }
  }

  lemma {:induction false} StandingStaysDue(iv: Interval, log: seq<int>, clock: Clock, master: bool)
    requires Ns(iv.incr) == 0
    ensures var s := State(iv, log, clock, master); s.Some? ==> Ns(s.value.tmo) == Ns(iv.tmo) && s.value.incr == iv.incr
  {
    if log != [] {
      hide Unexpired, Normalized;
      StandingStaysDue(iv, log[..|log| - 1], clock, master);
    }
  }

  // ---- what the clients are sent ----

  // The messages of all turns of a master.
  ghost function Sent(ivs: seq<Interval>, log: seq<int>, clock: Clock): seq<Transmission> {
    if log == [] then []
    else
      var iv := Lookup(After(ivs, log[..|log| - 1], clock, true), log[|log| - 1]);
      Sent(ivs, log[..|log| - 1], clock) + if iv == None then [] else Transmissions(iv.value.clients, clock(|log|))
  }

  lemma SentOneMore(ivs: seq<Interval>, log: seq<int>, clock: Clock, k: nat)
    requires var r := After(ivs, log, clock, true); WellFormed(r) && k < |r|
    ensures var r := After(ivs, log, clock, true);
            Sent(ivs, log + [r[k].logPeriod], clock) == Sent(ivs, log, clock) +
                Transmissions(r[k].clients, clock(|log| + 1))
  {
    var r := After(ivs, log, clock, true);
    LookupAt(r, k);
    assert (log + [r[k].logPeriod])[..|log|] == log;
  }

  // The turns of an interval that come before the end of a grant.
  ghost function TurnsBefore(log: seq<int>, p: int, clock: Clock, end: int): nat {
    if log == [] then 0
    else
      TurnsBefore(log[..|log| - 1], p, clock, end) + if log[|log| - 1] == p && clock(|log|).sec <= end then 1 else 0
  }

  ghost function Times(s: seq<Transmission>, x: Transmission): nat {
    multiset(s)[x]
  }

  lemma TimesConcat(s: seq<Transmission>, r: seq<Transmission>, x: Transmission)
    ensures Times(s + r, x) == Times(s, x) + Times(r, x)
  {
  }

  lemma TimesNone(s: seq<Transmission>, x: Transmission)
    ensures Times(s, x) == 0 <==> x !in s
  {
  }

  lemma {:induction false} ExpiryChangesNothing(s: seq<Client>, t: Timespec)
    ensures Transmissions(Unexpired(s, t), t) == Transmissions(s, t)
  {
    if s != [] {
      ExpiryChangesNothing(s[1..], t);
      if t.sec <= s[0].grantTmo {
        assert Unexpired(s, t)[1..] == Unexpired(s[1..], t);
      }
    }
  }

  lemma OncePerClient(c: Client, m: MessageType)
    requires m == Announce || m == Sync
    ensures Times(TransmissionsTo(c), Transmission(m, c.addr)) == if m in c.messageTypes then 1 else 0
  {
    var a := if Announce in c.messageTypes then [Transmission(Announce, c.addr)] else [];
    var s := if Sync in c.messageTypes then [Transmission(Sync, c.addr)] else [];
    TimesConcat(a, s, Transmission(m, c.addr));
  }

  // One turn sends a client one message of each type that it holds, unless its grant has ended.
  lemma {:induction false} OncePerTurn(tr: Transport, s: seq<Client>, i: nat, m: MessageType, t: Timespec)
    requires Comparable(tr) && Records(tr, s) && i < |s| && (m == Announce || m == Sync) && m in s[i].messageTypes
    ensures Times(Transmissions(s, t), Transmission(m, s[i].addr)) == if t.sec <= s[i].grantTmo then 1 else 0
  {
    var x := Transmission(m, s[i].addr);
    var rest := Transmissions(s[1..], t);
    TimesConcat(TransmissionsTo(s[0]), rest, x);
    if i == 0 {
      OncePerClient(s[0], m);
      SentToUnexpired(s[1..], t, x);
      TimesNone(rest, x);
    } else {
      OncePerTurn(tr, s[1..], i - 1, m, t);
      assert s[0].addr != s[i].addr;
      TimesNone(TransmissionsTo(s[0]), x);
    }
  }

  // What the turn of an interval sends depends on its clients at the start and on the time alone.
  lemma TurnSends(ivs: seq<Interval>, log: seq<int>, clock: Clock, p: int, t: Timespec)
    requires WellFormed(ivs) && Monotone(clock) && clock(|log|).sec <= t.sec
    ensures var v := Lookup(After(ivs, log, clock, true), p);
            var iv := Lookup(ivs, p);
            v.Some? ==> iv.Some? && Transmissions(v.value.clients, t) == Transmissions(iv.value.clients, t)
  {
    hide WellFormed, Lookup, Transmissions, Unexpired, After, State;
    OwnWay(ivs, log, clock, true, p);
    var iv := Lookup(ivs, p);
    var v := Lookup(After(ivs, log, clock, true), p);
    if v.Some? {
      StateClients(iv.value, log, clock, true, t);
      ExpiryChangesNothing(iv.value.clients, t);
      ExpiryChangesNothing(v.value.clients, t);
    }
  }

  lemma LastTurnIsReal(ivs: seq<Interval>, log: seq<int>, clock: Clock, master: bool)
    requires log != [] && Possible(ivs, log, clock, master)
    ensures Possible(ivs, log[..|log| - 1], clock, master)
    ensures Lookup(After(ivs, log[..|log| - 1], clock, master), log[|log| - 1]).Some?
    ensures Due(Lookup(After(ivs, log[..|log| - 1], clock, master), log[|log| - 1]).value, clock(0))
  {
  }

  // No other interval sends a message that this one has to send.
  lemma SentByOne(tr: Transport, ivs: seq<Interval>, i: nat, k: nat, n: nat, m: MessageType, t: Timespec)
    requires Comparable(tr) && WellFormed(ivs) && Unique(tr, ivs) && i < |ivs| && k < |ivs[i].clients| && n < |ivs|
    requires (m == Announce || m == Sync) && m in ivs[i].clients[k].messageTypes
    ensures var c := ivs[i].clients[k];
            Times(Transmissions(ivs[n].clients, t), Transmission(m, c.addr)) ==
            if n == i && t.sec <= c.grantTmo then 1 else 0
  {
    var c := ivs[i].clients[k];
    if n == i {
      OncePerTurn(tr, ivs[i].clients, k, m, t);
    } else {
      var x := Transmission(m, c.addr);
      assert Has(tr, ivs[i].clients, c.addr, m);
      assert !Has(tr, ivs[n].clients, c.addr, m);
      SentToUnexpired(ivs[n].clients, t, x);
      TimesNone(Transmissions(ivs[n].clients, t), x);
    }
  }

  // A client is sent each message type it holds exactly as often as its interval has a turn before the end
  // of its grant.
  lemma {:induction false} ServedPerTurn(tr: Transport, ivs: seq<Interval>, log: seq<int>, clock: Clock, i: nat, k: nat,
                                         m: MessageType)
    requires Comparable(tr) && WellFormed(ivs) && Unique(tr, ivs) && Monotone(clock) && Possible(ivs, log, clock, true)
    requires i < |ivs| && k < |ivs[i].clients| && (m == Announce || m == Sync) && m in ivs[i].clients[k].messageTypes
    ensures var c := ivs[i].clients[k];
            Times(Sent(ivs, log, clock), Transmission(m, c.addr)) ==
                TurnsBefore(log, ivs[i].logPeriod, clock, c.grantTmo)
  {
    hide WellFormed, Unique, After, Lookup, Transmissions, Possible, Times;
    var x := Transmission(m, ivs[i].clients[k].addr);
    if log == [] {
      TimesNone([], x);
    } else {
      var prefix, p, t := log[..|log| - 1], log[|log| - 1], clock(|log|);
      LastTurnIsReal(ivs, log, clock, true);
      ServedPerTurn(tr, ivs, prefix, clock, i, k, m);
      Later(clock, |log| - 1, |log|);
      TurnSends(ivs, prefix, clock, p, t);
      LookupPeriod(ivs, p);
      var n :| 0 <= n < |ivs| && ivs[n] == Lookup(ivs, p).value;
      SentByOne(tr, ivs, i, k, n, m, t);
      SamePeriod(ivs, i, n);
      TimesConcat(Sent(ivs, prefix, clock), Transmissions(ivs[n].clients, t), x);
    }
  }

  lemma SamePeriod(ivs: seq<Interval>, i: nat, n: nat)
    requires WellFormed(ivs) && i < |ivs| && n < |ivs|
    ensures ivs[i].logPeriod == ivs[n].logPeriod <==> i == n
  {
  }

  // Whoever is still entitled at the end by an interval that was due has been served, on every transport.
  lemma {:induction false} AllServed(ivs: seq<Interval>, log: seq<int>, clock: Clock, i: nat, x: Transmission)
    requires WellFormed(ivs) && Monotone(clock) && Possible(ivs, log, clock, true) && i < |ivs|
    requires Count(log, ivs[i].logPeriod) > 0 && Entitles(ivs[i], x, clock(|log|))
    ensures x in Sent(ivs, log, clock)
  {
    hide WellFormed, After, Transmissions, Possible, Due;
    var prefix, p, t := log[..|log| - 1], log[|log| - 1], clock(|log|);
    LastTurnIsReal(ivs, log, clock, true);
    Later(clock, |log| - 1, |log|);
    if p == ivs[i].logPeriod {
      TurnSends(ivs, prefix, clock, p, t);
      LookupAt(ivs, i);
      SentToUnexpired(ivs[i].clients, t, x);
    } else {
      EntitledEarlier(ivs[i], x, clock(|log| - 1), t);
      AllServed(ivs, prefix, clock, i, x);
    }
  }

  lemma {:induction false} DueHasTurn(ivs: seq<Interval>, i: nat, log: seq<int>, clock: Clock, master: bool)
    requires WellFormed(ivs) && i < |ivs| && Due(ivs[i], clock(0)) && Over(After(ivs, log, clock, master), clock(0))
    ensures Count(log, ivs[i].logPeriod) > 0
  {
    OverState(ivs, i, log, clock, master);
    if Count(log, ivs[i].logPeriod) == 0 {
      NoTurnNoChange(ivs[i], log, clock, master);
    }
  }

  lemma {:induction false} NoTurnNoChange(iv: Interval, log: seq<int>, clock: Clock, master: bool)
    requires Count(log, iv.logPeriod) == 0
    ensures State(iv, log, clock, master) == Some(iv)
  {
    if log != [] {
      NoTurnNoChange(iv, log[..|log| - 1], clock, master);
    }
  }

  // Nobody else is sent anything.
  lemma {:induction false} OnlyEntitled(ivs: seq<Interval>, log: seq<int>, clock: Clock, x: Transmission)
    requires WellFormed(ivs) && Monotone(clock) && Possible(ivs, log, clock, true) && x in Sent(ivs, log, clock)
    ensures exists i :: 0 <= i < |ivs| && Due(ivs[i], clock(0)) && Entitles(ivs[i], x, clock(0))
  {
    hide WellFormed, After, Lookup, Transmissions, Possible, Due;
    var prefix, p, t := log[..|log| - 1], log[|log| - 1], clock(|log|);
    LastTurnIsReal(ivs, log, clock, true);
    if x in Sent(ivs, prefix, clock) {
      OnlyEntitled(ivs, prefix, clock, x);
    } else {
      Later(clock, |log| - 1, |log|);
      TurnSends(ivs, prefix, clock, p, t);
      LookupPeriod(ivs, p);
      var n :| 0 <= n < |ivs| && ivs[n] == Lookup(ivs, p).value;
      Later(clock, 0, |log|);
      SentToUnexpired(ivs[n].clients, t, x);
      EntitledEarlier(ivs[n], x, clock(0), t);
      if !Due(ivs[n], clock(0)) {
        NotDueNoTurn(ivs, n, log, clock, true);
      }
    }
  }

  lemma {:induction false} NeverEnded(log: seq<int>, p: int, clock: Clock, end: int)
    requires Monotone(clock) && clock(|log|).sec <= end
    ensures TurnsBefore(log, p, clock, end) == Count(log, p)
  {
    if log != [] {
      Later(clock, |log| - 1, |log|);
      NeverEnded(log[..|log| - 1], p, clock, end);
    }
  }

  // A client whose grant outlasts the run is sent one message for each overdue increment, not one more and
  // not one less.
  lemma ServedPerIncrement(tr: Transport, ivs: seq<Interval>, log: seq<int>, clock: Clock, i: nat, k: nat,
                           m: MessageType)
    requires Comparable(tr) && WellFormed(ivs) && Unique(tr, ivs) && Monotone(clock) && Possible(ivs, log, clock, true)
    requires Over(After(ivs, log, clock, true), clock(0))
    requires i < |ivs| && k < |ivs[i].clients| && (m == Announce || m == Sync) && m in ivs[i].clients[k].messageTypes
    requires clock(|log|).sec <= ivs[i].clients[k].grantTmo
    ensures var n := Times(Sent(ivs, log, clock), Transmission(m, ivs[i].clients[k].addr));
            LeastPassing(Ns(ivs[i].tmo), Ns(ivs[i].incr), Ns(clock(0)), n)
  {
    hide WellFormed, Unique, After, Possible, Over, LeastPassing;
    var c := ivs[i].clients[k];
    ServedPerTurn(tr, ivs, log, clock, i, k, m);
    NeverEnded(log, ivs[i].logPeriod, clock, c.grantTmo);
    StateClients(ivs[i], log, clock, true, clock(|log|));
    KeptAreUnexpired(ivs[i].clients, clock(|log|), c);
    CadenceKept(ivs, i, log, clock, true);
  }
}
