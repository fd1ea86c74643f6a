/** Foreign master records and their qualification, from `port.c` (IEEE 1588-2008 section 9.3.2.5). */
module ForeignMasters {
  import opened Prelude
  import opened DatasetComparison
  import opened Selection

  const FOREIGN_MASTER_THRESHOLD: nat := 2
  const NSEC2SEC: int := 1_000_000_000
  const INT64_MAX: int := 0x7fff_ffff_ffff_ffff

  // A received Announce message; `host` is its reception time on CLOCK_MONOTONIC in nanoseconds.
  datatype Announce = Announce(source: PortIdentity, priority1: Octet, identity: ClockIdentity, quality: ClockQuality,
                               priority2: Octet, stepsRemoved: UInt16, logInterval: int, host: int)

  // announce_compare: do the grandmaster fields differ?
  predicate Differs(a: Announce, b: Announce) {
    !(a.priority1 == b.priority1 && a.quality == b.quality && a.priority2 == b.priority2 &&
      a.identity == b.identity && a.stepsRemoved == b.stepsRemoved)
  }

  // How long an Announce message with this interval stays current.
  function Lifetime(logInterval: int): int {
    if logInterval <= -31 then 0
    else if logInterval >= 31 then INT64_MAX
    else if logInterval < 0 then 4 * NSEC2SEC / Pow2(-logInterval)
    else 4 * Pow2(logInterval) * NSEC2SEC
  }

  // msg_current
  predicate Current(m: Announce, now: int) {
    now - m.host < Lifetime(m.logInterval)
  }

  function DropStale(ms: seq<Announce>, now: int): (r: seq<Announce>)
    ensures r <= ms
  {
    if ms == [] || Current(ms[|ms| - 1], now) then ms else DropStale(ms[..|ms| - 1], now)
  }

  // fc_prune on a list that is newest first.
  function Pruned(ms: seq<Announce>, now: int): (r: seq<Announce>)
    ensures r <= ms && |r| <= FOREIGN_MASTER_THRESHOLD
  {
    DropStale(if |ms| > FOREIGN_MASTER_THRESHOLD then ms[..FOREIGN_MASTER_THRESHOLD] else ms, now)
  }

  ghost predicate NewestFirst(ms: seq<Announce>) {
    forall i, j :: 0 <= i < j < |ms| ==> ms[i].host >= ms[j].host
  }

  ghost predicate OneInterval(ms: seq<Announce>) {
    forall i, j :: 0 <= i < j < |ms| ==> ms[i].logInterval == ms[j].logInterval
  }

  lemma {:induction false} DropStaleIsFilter(ms: seq<Announce>, now: int)
    requires NewestFirst(ms) && OneInterval(ms)
    ensures forall i :: 0 <= i < |ms| ==> (i < |DropStale(ms, now)| <==> Current(ms[i], now))
  {
    if ms != [] && !Current(ms[|ms| - 1], now) {
      DropStaleIsFilter(ms[..|ms| - 1], now);
    }
  }

  // A sender that keeps its interval: pruning keeps exactly the current ones of the newest two.
  lemma PrunedKeepsCurrent(ms: seq<Announce>, now: int)
    requires NewestFirst(ms) && OneInterval(ms)
    ensures forall i :: 0 <= i < |ms| ==>
              (i < |Pruned(ms, now)| <==> i < FOREIGN_MASTER_THRESHOLD && Current(ms[i], now))
  {
    DropStaleIsFilter(if |ms| > FOREIGN_MASTER_THRESHOLD then ms[..FOREIGN_MASTER_THRESHOLD] else ms, now);
  }

  // Pruning again, later, prunes as if it had not been done before.
  lemma {:induction false} PrunedAgain(ms: seq<Announce>, now: int, later: int)
    requires now <= later
    ensures Pruned(Pruned(ms, now), later) == Pruned(ms, later)
  {
    var top := if |ms| > FOREIGN_MASTER_THRESHOLD then ms[..FOREIGN_MASTER_THRESHOLD] else ms;
    DropStaleAgain(top, now, later);
  }

  lemma {:induction false} DropStaleAgain(ms: seq<Announce>, now: int, later: int)
    requires now <= later
    ensures DropStale(DropStale(ms, now), later) == DropStale(ms, later)
  {
    if ms != [] && !Current(ms[|ms| - 1], now) {
      DropStaleAgain(ms[..|ms| - 1], now, later);
    }
  }

  // "Younger than four intervals", multiplied out so that nothing is rounded.
  predicate YoungerThanFourIntervals(age: int, logInterval: int) {
    if logInterval < 0 then age * Pow2(-logInterval) < 4 * NSEC2SEC
    else age < 4 * Pow2(logInterval) * NSEC2SEC
  }

  // What a difference of two times can be, and what the header can say.
  predicate IsInt64(x: int) {
    -INT64_MAX - 1 <= x <= INT64_MAX
  }

  predicate IsInteger8(x: int) {
    -128 <= x <= 127
  }

  // The ages at which msg_current is wrong: one that the truncated division cuts off, those for which the
  // lifetime of a very fast sender is zero, and those at the far end of the times for a very slow one.
  predicate Misjudged(age: int, logInterval: int) {
    if logInterval <= -31 then age == 0 || (age == 1 && logInterval == -31)
    else if logInterval <= -12 then age == 4 * NSEC2SEC / Pow2(-logInterval)
    else if logInterval <= 30 then false
    else if logInterval == 31 then 4 * Pow2(31) * NSEC2SEC <= age < INT64_MAX
    else age == INT64_MAX
  }

  lemma MisjudgedAges(m: Announce, now: int)
    requires IsInteger8(m.logInterval) && IsInt64(now - m.host)
    ensures (Current(m, now) <==> YoungerThanFourIntervals(now - m.host, m.logInterval))
            <==> !Misjudged(now - m.host, m.logInterval)
  {
    var age, k := now - m.host, m.logInterval;
    if k <= -31 {
      VeryFast(age, -k);
    } else if k < 0 {
      Fast(age, -k);
    } else if k >= 31 {
      VerySlow(k);
    }
  }

  lemma Pow2Grows(j: nat, k: nat)
    requires j <= k
    ensures Pow2(j) <= Pow2(k)
  {
    if j < k {
      Pow2Grows(j, k - 1);
    }
  }

  lemma Pow2At31()
    ensures Pow2(31) == 0x8000_0000 && Pow2(32) == 0x1_0000_0000
  {
    assert Pow2(8) == 0x100;
    assert Pow2(16) == 0x1_0000;
    assert Pow2(24) == 0x100_0000;
    assert Pow2(31) == 0x8000_0000;
  }

  lemma VeryFast(age: int, k: nat)
    requires k >= 31
    ensures age * Pow2(k) < 4 * NSEC2SEC <==> age < 0 || age == 0 || (age == 1 && k == 31)
  {
    Pow2At31();
    if k > 31 {
      Pow2Grows(32, k);
    }
    hide Pow2;
    Multiples(Pow2(k), age);
    if age >= 2 {
      Multiples(Pow2(k), age - 1);
    }
  }

  lemma Fast(age: int, k: nat)
    requires 1 <= k <= 30
    ensures var q := 4 * NSEC2SEC / Pow2(k);
            age * Pow2(k) < 4 * NSEC2SEC <==> age < q || (age == q && k >= 12)
  {
    DivisibleUpTo(k);
    var q := 4 * NSEC2SEC / Pow2(k);
    QuotientAbove(4 * NSEC2SEC, Pow2(k));
    hide Pow2;
    BelowQuotient(age, q, Pow2(k), 4 * NSEC2SEC);
  }

  lemma QuotientAbove(total: int, p: int)
    requires p > 0
    ensures total < (total / p + 1) * p
  {
    assert (total / p + 1) * p == total / p * p + p;
  }

  lemma BelowQuotient(a: int, q: int, d: int, total: int)
    requires d > 0 && q * d <= total < (q + 1) * d
    ensures a * d < total <==> a < q || (a == q && q * d != total)
  {
    if a < q {
      Scale(a, q, d);
    } else if a > q {
      ScaleUp(q + 1, a, d);
    }
  }

  lemma ScaleUp(a: int, b: int, d: int)
    requires d > 0 && a <= b
    ensures a * d <= b * d
  {
  }

  lemma VerySlow(k: nat)
    requires k >= 31
    ensures if k == 31 then 4 * Pow2(k) * NSEC2SEC < INT64_MAX else 4 * Pow2(k) * NSEC2SEC > INT64_MAX
  {
    Pow2At31();
    if k > 31 {
      Pow2Grows(32, k);
    }
    hide Pow2;
  }

  // Current means younger than four intervals, at every age, for exactly the senders between 2^-11 s and 2^30 s.
  lemma CurrentIsFourIntervals(logInterval: int)
    requires IsInteger8(logInterval)
    ensures (forall m: Announce, now: int :: m.logInterval == logInterval && IsInt64(now - m.host) ==>
               (Current(m, now) <==> YoungerThanFourIntervals(now - m.host, logInterval)))
            <==> -11 <= logInterval <= 30
  {
    hide Current, YoungerThanFourIntervals;
    if -11 <= logInterval <= 30 {
      forall m: Announce, now: int | m.logInterval == logInterval && IsInt64(now - m.host)
        ensures Current(m, now) <==> YoungerThanFourIntervals(now - m.host, logInterval)
      {
        MisjudgedAges(m, now);
      }
    } else {
      var id: ClockIdentity := [0, 0, 0, 0, 0, 0, 0, 0];
      var m := Announce(PortIdentity(id, 0), 0, id, ClockQuality(0, 0, 0), 0, 0, logInterval, 0);
      var age := SomeMisjudged(logInterval);
      hide Misjudged;
      MisjudgedAges(m, age);
    }
  }

  lemma SomeMisjudged(logInterval: int) returns (age: int)
    requires IsInteger8(logInterval) && !(-11 <= logInterval <= 30)
    ensures IsInt64(age) && Misjudged(age, logInterval)
  {
    if logInterval <= -31 {
      age := 0;
    } else if logInterval <= -12 {
      age := 4 * NSEC2SEC / Pow2(-logInterval);
      QuotientBelow(4 * NSEC2SEC, Pow2(-logInterval));
      hide Pow2;
      Multiples(Pow2(-logInterval), 1);
    } else if logInterval == 31 {
      Pow2At31();
      hide Pow2;
      age := 4 * Pow2(31) * NSEC2SEC;
    } else {
      age := INT64_MAX;
    }
  }

  lemma Scale(a: int, q: int, d: int)
    requires d > 0
    ensures a < q <==> a * d < q * d
  {
  }

  lemma {:induction false} Pow2Adds(a: nat, b: nat)
    ensures Pow2(a + b) == Pow2(a) * Pow2(b)
  {
    if a > 0 {
      Pow2Adds(a - 1, b);
    }
  }

  lemma QuotientIs(total: int, p: int, q: int)
    requires p > 0 && total == p * q
    ensures total / p == q
  {
    var r := total / p;
    assert 0 <= total - p * r < p;
    assert p * (q - r) == total - p * r;
    Multiples(p, q - r);
  }

  lemma Multiples(p: int, x: int)
    requires p > 0
    ensures x >= 1 ==> p * x >= p
    ensures x <= -1 ==> p * x <= -p
  {
  }

  lemma QuotientBelow(total: int, p: int)
    requires p > 0
    ensures total / p * p <= total
  {
  }

  lemma DivisibleUpTo(k: nat)
    requires 1 <= k <= 30
    ensures (4 * NSEC2SEC / Pow2(k)) * Pow2(k) == 4 * NSEC2SEC <==> k <= 11
    ensures (4 * NSEC2SEC / Pow2(k)) * Pow2(k) <= 4 * NSEC2SEC
  {
    if k <= 11 {
      DividesUpTo11(k);
    } else {
      NotFrom12(k, 4 * NSEC2SEC / Pow2(k));
      hide Pow2;
      QuotientBelow(4 * NSEC2SEC, Pow2(k));
    }
  }

  lemma DividesUpTo11(k: nat)
    requires k <= 11
    ensures (4 * NSEC2SEC / Pow2(k)) * Pow2(k) == 4 * NSEC2SEC
  {
    assert Pow2(4) == 16 && Pow2(8) == 256;
    assert Pow2(11) == 2048;
    Pow2Adds(k, 11 - k);
    hide Pow2;
    var p, r := Pow2(k), Pow2(11 - k);
    assert p * (r * 1_953_125) == (p * r) * 1_953_125 == 4 * NSEC2SEC;
    QuotientIs(4 * NSEC2SEC, p, r * 1_953_125);
  }

  lemma NotFrom12(k: nat, q: int)
    requires 12 <= k
    ensures q * Pow2(k) != 4 * NSEC2SEC
  {
    assert Pow2(4) == 16 && Pow2(8) == 256 && Pow2(12) == 4096;
    Pow2Adds(12, k - 12);
    hide Pow2;
    Regroup(q, 4096, Pow2(k - 12));
    NotMultipleOf4096(q * Pow2(k - 12));
  }

  lemma Regroup(q: int, a: int, b: int)
    ensures q * (a * b) == a * (q * b)
  {
  }

  lemma NotMultipleOf4096(r: int)
    ensures 4096 * r != 4 * NSEC2SEC
  {
    if r <= 976562 {
      assert 4096 * r <= 4096 * 976562;
    } else {
      assert 4096 * r >= 4096 * 976563;
    }
  }

  // announce_to_dataset
  function ToDataset(m: Announce, localPriority: Octet, receiver: PortIdentity): Dataset {
    Dataset(m.priority1, m.identity, m.quality, m.priority2, localPriority, m.stepsRemoved, m.source, receiver)
  }

  // Two messages of one sender differ exactly when the data sets they give do.
  lemma DiffersIsDataset(a: Announce, b: Announce, localPriority: Octet, receiver: PortIdentity)
    requires a.source == b.source
    ensures Differs(a, b) <==> ToDataset(a, localPriority, receiver) != ToDataset(b, localPriority, receiver)
  {
  }

  // What a data set says is what the message says, as this port received it.
  ghost predicate Says(d: Dataset, m: Announce, localPriority: Octet, receiver: PortIdentity) {
    && d.priority1 == m.priority1 && d.priority2 == m.priority2 && d.quality == m.quality && d.identity == m.identity
    && d.stepsRemoved == m.stepsRemoved && d.sender == m.source && d.receiver == receiver
    && d.localPriority == localPriority
  }

  // What a record offers to the selection: nothing, or its newest message when it is qualified.
  function Candidate(ms: seq<Announce>, now: int, localPriority: Octet, receiver: PortIdentity): Option<Dataset> {
    if |Pruned(ms, now)| < FOREIGN_MASTER_THRESHOLD then None
    else Some(ToDataset(ms[0], localPriority, receiver))
  }

  // At most three messages, newest first, all from `sender` and none received after `latest`.
  ghost predicate KeptList(ms: seq<Announce>, sender: PortIdentity, latest: int) {
    && |ms| <= FOREIGN_MASTER_THRESHOLD + 1
    && NewestFirst(ms)
    && (forall i :: 0 <= i < |ms| ==> ms[i].host <= latest && ms[i].source == sender)
  }

  lemma KeptAfterAppend(ms: seq<Announce>, m: Announce, now: int, latest: int)
    requires KeptList(ms, m.source, latest) && latest <= m.host
    ensures KeptList([m] + Pruned(ms, now), m.source, m.host)
  {
  }

  lemma ShorterIsKept(ms: seq<Announce>, r: seq<Announce>, sender: PortIdentity, latest: int)
    requires KeptList(ms, sender, latest) && r <= ms
    ensures KeptList(r, sender, latest)
  {
  }

  lemma EmptyKept(sender: PortIdentity, latest: int)
    ensures KeptList([], sender, latest)
  {
  }

  lemma KeptLater(ms: seq<Announce>, sender: PortIdentity, latest: int, later: int)
    requires KeptList(ms, sender, latest) && latest <= later
    ensures KeptList(ms, sender, later)
  {
  }

  class ForeignClock {
    var messages: seq<Announce>
    var nMessages: nat
    var dataset: Dataset
    const port: Port

    constructor (port: Port, sender: PortIdentity)
      ensures this.port == port && messages == [] && nMessages == 0 && dataset.sender == sender
    {
      this.port := port;
      messages := [];
      nMessages := 0;
      var zero: ClockIdentity := [0, 0, 0, 0, 0, 0, 0, 0];
      dataset := Dataset(0, zero, ClockQuality(0, 0, 0), 0, 0, 0, sender, PortIdentity(zero, 0));
    }

    // What holds of a record in every run.
    ghost predicate Kept(latest: int)
      reads this
    {
      nMessages == |messages| && KeptList(messages, dataset.sender, latest)
    }

    method RemoveLast()
      requires nMessages == |messages| > 0
      modifies this`messages, this`nMessages
      ensures messages == old(messages)[..old(|messages|) - 1] && nMessages == |messages|
    {
      messages := messages[..|messages| - 1];
      nMessages := nMessages - 1;
    }

    // fc_clear
    method Clear()
      requires nMessages == |messages|
      modifies this`messages, this`nMessages
      ensures messages == [] && nMessages == 0
    {
      while nMessages != 0
        invariant nMessages == |messages|
      {
        RemoveLast();
      }
    }

    // fc_prune
    method Prune(now: int)
      requires nMessages == |messages|
      modifies this`messages, this`nMessages
      ensures messages == Pruned(old(messages), now) && nMessages == |messages|
    {
      while nMessages > FOREIGN_MASTER_THRESHOLD
        invariant nMessages == |messages| <= |old(messages)|
        invariant messages == old(messages)[..nMessages]
        invariant nMessages < FOREIGN_MASTER_THRESHOLD ==> messages == old(messages)
      {
        RemoveLast();
      }
      while messages != []
        invariant nMessages == |messages|
        invariant DropStale(messages, now) == Pruned(old(messages), now)
        decreases |messages|
      {
        if Current(messages[|messages| - 1], now) {
          break;
        }
        RemoveLast();
      }
    }

    // The body shared by add_foreign_master and update_current_master: prune, put the message at the
    // head, and compare it with the one before.
    method Append(m: Announce, now: int) returns (broke: bool, diff: bool)
      requires nMessages == |messages|
      modifies this`messages, this`nMessages
      ensures messages == [m] + Pruned(old(messages), now) && nMessages == |messages|
      ensures broke <==> |Pruned(old(messages), now)| == FOREIGN_MASTER_THRESHOLD - 1
      ensures diff <==> Pruned(old(messages), now) != [] && Differs(m, old(messages)[0])
    {
      Prune(now);
      broke := FOREIGN_MASTER_THRESHOLD - 1 == nMessages;
      nMessages := nMessages + 1;
      messages := [m] + messages;
      diff := false;
      if nMessages > 1 {
        diff := Differs(m, messages[1]);
      }
    }

    // The turn of the loop in port_compute_best up to the comparison.
    method Qualify(now: int) returns (qualified: bool)
      requires nMessages == |messages|
      modifies this
      ensures messages == Pruned(old(messages), now) && nMessages == |messages|
      ensures qualified <==> Candidate(old(messages), now, port.localPriority, port.portIdentity) != None
      ensures old(messages) != [] ==> dataset == ToDataset(old(messages)[0], port.localPriority, port.portIdentity)
      ensures old(messages) == [] ==> dataset == old(dataset)
    {
      if messages == [] {
        return false;
      }
      dataset := ToDataset(messages[0], port.localPriority, port.portIdentity);
      Prune(now);
      return nMessages >= FOREIGN_MASTER_THRESHOLD;
    }
  }

  ghost function Messages(fcs: seq<ForeignClock>): (r: seq<seq<Announce>>)
    reads fcs
    ensures |r| == |fcs| && forall i :: 0 <= i < |fcs| ==> r[i] == fcs[i].messages
  {
    seq(|fcs|, i requires 0 <= i < |fcs| reads fcs => fcs[i].messages)
  }

  ghost function Datasets(fcs: seq<ForeignClock>): (r: seq<Dataset>)
    reads fcs
    ensures |r| == |fcs| && forall i :: 0 <= i < |fcs| ==> r[i] == fcs[i].dataset
  {
    seq(|fcs|, i requires 0 <= i < |fcs| reads fcs => fcs[i].dataset)
  }

  function Candidates(ms: seq<seq<Announce>>, nows: seq<int>, localPriority: Octet, receiver: PortIdentity)
    : (r: seq<Option<Dataset>>)
    requires |ms| == |nows|
    ensures |r| == |ms|
    ensures forall i :: 0 <= i < |ms| ==> r[i] == Candidate(ms[i], nows[i], localPriority, receiver)
  {
    seq(|ms|, i requires 0 <= i < |ms| => Candidate(ms[i], nows[i], localPriority, receiver))
  }

  lemma CandidateIsNewest(ms: seq<Announce>, now: int, localPriority: Octet, receiver: PortIdentity)
    ensures Candidate(ms, now, localPriority, receiver) != None ==>
              ms != [] && Candidate(ms, now, localPriority, receiver).value == ToDataset(ms[0], localPriority, receiver)
  {
  }

  lemma CandidateIsFull(ms: seq<Announce>, now: int, localPriority: Octet, receiver: PortIdentity)
    ensures Candidate(ms, now, localPriority, receiver) != None ==>
              |ms| >= FOREIGN_MASTER_THRESHOLD && Pruned(ms, now) == ms[..FOREIGN_MASTER_THRESHOLD]
  {
  }

  // Of a sender that keeps its interval there is a candidate exactly if two messages are current.
  lemma CandidateIff(ms: seq<Announce>, now: int, localPriority: Octet, receiver: PortIdentity)
    requires NewestFirst(ms) && OneInterval(ms)
    ensures Candidate(ms, now, localPriority, receiver) != None <==>
            |ms| >= 2 && Current(ms[0], now) && Current(ms[1], now)
  {
    PrunedKeepsCurrent(ms, now);
    hide Pruned, Current;
  }

  lemma LeaderOfNone(alg: Algorithm)
    ensures Leader(alg, []) == None
  {
  }

  // The winner was never cleared.
  lemma {:induction false} WinnerIsKept(alg: Algorithm, cands: seq<Option<Dataset>>, k: nat)
    requires Leader(alg, cands) == Some(k)
    ensures !Cleared(alg, cands, k)
  {
    var n := |cands| - 1;
    if k < n {
      WinnerIsKept(alg, cands[..n], k);
      assert cands[..n][..k] == cands[..k];
    }
  }

  // One turn of the scan.
  lemma LeaderAfter(alg: Algorithm, cands: seq<Option<Dataset>>, i: nat)
    requires i < |cands|
    ensures var lead := Leader(alg, cands[..i]);
            && Leader(alg, cands[..i + 1]) ==
               (if cands[i] == None then lead
                else if lead == None || Compare(alg, cands[i], cands[lead.value]) > 0 then Some(i)
                else lead)
            && (Cleared(alg, cands, i) <==>
                cands[i] != None && lead != None && !(Compare(alg, cands[i], cands[lead.value]) > 0))
  {
    assert cands[..i + 1][..i] == cands[..i];
  }

  class Port {
    const portIdentity: PortIdentity
    const localPriority: Octet
    const masterOnly: bool
    var foreignMasters: seq<ForeignClock>
    var best: ForeignClock?

    constructor (portIdentity: PortIdentity, localPriority: Octet, masterOnly: bool)
      ensures foreignMasters == [] && best == null
      ensures this.portIdentity == portIdentity && this.localPriority == localPriority && this.masterOnly == masterOnly
    {
      this.portIdentity := portIdentity;
      this.localPriority := localPriority;
      this.masterOnly := masterOnly;
      foreignMasters := [];
      best := null;
    }

    ghost predicate Linked()
      reads this, foreignMasters
    {
      && Distinct(foreignMasters)
      && (forall fc :: fc in foreignMasters ==> fc.port == this && fc.nMessages == |fc.messages|)
      && (best != null ==> best in foreignMasters)
    }

    // port_ignore, as far as it looks at the sender: the port itself, and every port of its own clock.
    predicate Ignores(sender: PortIdentity) {
      sender == portIdentity || sender.clockIdentity == portIdentity.clockIdentity
    }

    // What holds in every run; `latest` is the latest reception time so far.
    ghost predicate Kept(latest: int)
      reads this, foreignMasters
    {
      && Linked()
      && (forall fc :: fc in foreignMasters ==> fc.Kept(latest) && !Ignores(fc.dataset.sender))
      && (forall i, j :: 0 <= i < j < |foreignMasters| ==>
            foreignMasters[i].dataset.sender != foreignMasters[j].dataset.sender)
    }

    lemma AllKeptLater(latest: int, later: int)
      requires Kept(latest) && latest <= later
      ensures Kept(later)
    {
      hide KeptList;
      forall fc | fc in foreignMasters
        ensures fc.Kept(later)
      {
        KeptLater(fc.messages, fc.dataset.sender, latest, later);
      }
    }

    // A new record, for which the first message is not counted.
    method AddRecord(sender: PortIdentity, ghost latest: int)
      requires Kept(latest) && !Ignores(sender)
      requires forall fc :: fc in foreignMasters ==> fc.dataset.sender != sender
      modifies this`foreignMasters
      ensures Kept(latest)
      ensures |foreignMasters| == |old(foreignMasters)| + 1 && foreignMasters[1..] == old(foreignMasters)
      ensures fresh(foreignMasters[0]) && foreignMasters[0].messages == [] && foreignMasters[0].dataset.sender == sender
    {
      hide KeptList;
      EmptyKept(sender, latest);
      var fc := new ForeignClock(this, sender);
      foreignMasters := [fc] + foreignMasters;
    }

    // The message is put on the record of its sender.
    method AppendTo(fc: ForeignClock, m: Announce, now: int, ghost latest: int) returns (broke: bool, diff: bool)
      requires Kept(latest) && latest <= m.host
      requires fc in foreignMasters && fc.dataset.sender == m.source
      modifies fc`messages, fc`nMessages
      ensures Kept(m.host)
      ensures fc.messages == [m] + Pruned(old(fc.messages), now)
      ensures broke <==> |Pruned(old(fc.messages), now)| == FOREIGN_MASTER_THRESHOLD - 1
      ensures diff <==> Pruned(old(fc.messages), now) != [] && Differs(m, old(fc.messages)[0])
    {
      hide KeptList, Pruned, Differs;
      assert fc.Kept(latest);
      AllKeptLater(latest, m.host);
      KeptAfterAppend(fc.messages, m, now, latest);
      broke, diff := fc.Append(m, now);
    }

    // The search of add_foreign_master.
    method FindRecord(sender: PortIdentity) returns (i: nat)
      ensures i <= |foreignMasters|
      ensures forall j :: 0 <= j < i ==> foreignMasters[j].dataset.sender != sender
      ensures i < |foreignMasters| ==> foreignMasters[i].dataset.sender == sender
    {
      i := 0;
      while i < |foreignMasters| && foreignMasters[i].dataset.sender != sender
        invariant 0 <= i <= |foreignMasters|
        invariant forall j :: 0 <= j < i ==> foreignMasters[j].dataset.sender != sender
      {
        i := i + 1;
      }
    }

    // add_foreign_master
    method AddForeignMaster(m: Announce, now: int, ghost latest: int) returns (changed: bool)
      requires Kept(latest) && latest <= m.host && !Ignores(m.source)
      modifies this`foreignMasters, foreignMasters
      ensures Kept(m.host) && best == old(best)
      ensures forall fc :: fc in old(foreignMasters) ==> fc in foreignMasters && fc.dataset == old(fc.dataset)
      ensures forall fc :: fc in old(foreignMasters) ==>
        fc.messages == if old(fc.dataset.sender) == m.source then [m] + Pruned(old(fc.messages), now)
                       else old(fc.messages)
      ensures (exists fc :: fc in old(foreignMasters) && old(fc.dataset.sender) == m.source) ==>
        foreignMasters == old(foreignMasters)
      ensures (forall fc :: fc in old(foreignMasters) ==> old(fc.dataset.sender) != m.source) ==>
        && !changed && |foreignMasters| == |old(foreignMasters)| + 1 && foreignMasters[1..] == old(foreignMasters)
        && foreignMasters[0].messages == [] && foreignMasters[0].dataset.sender == m.source
      ensures forall fc :: fc in old(foreignMasters) && old(fc.dataset.sender) == m.source ==>
        var kept := Pruned(old(fc.messages), now);
        changed <==> |kept| == FOREIGN_MASTER_THRESHOLD - 1 || (kept != [] && Differs(m, old(fc.messages)[0]))
    {
      hide KeptList, Pruned, Differs;
      var i := FindRecord(m.source);
      if i == |foreignMasters| {
        AllKeptLater(latest, m.host);
        AddRecord(m.source, m.host);
        return false;
      }
      var broke, diff := AppendTo(foreignMasters[i], m, now, latest);
      return broke || diff;
    }

    // The best is one of the records, and the only one of its sender.
    lemma BestIsOnly(latest: int)
      requires Kept(latest) && best != null
      ensures best in foreignMasters
      ensures forall fc :: fc in foreignMasters && fc.dataset.sender == best.dataset.sender ==> fc == best
    {
      hide KeptList;
      var k :| 0 <= k < |foreignMasters| && foreignMasters[k] == best;
      forall fc | fc in foreignMasters && fc.dataset.sender == best.dataset.sender
        ensures fc == best
      {
        var i :| 0 <= i < |foreignMasters| && foreignMasters[i] == fc;
      }
    }

    // update_current_master
    method UpdateCurrentMaster(m: Announce, now: int, ghost latest: int) returns (changed: bool)
      requires Kept(latest) && latest <= m.host && !Ignores(m.source)
      modifies this`foreignMasters, foreignMasters
      ensures Kept(m.host) && best == old(best)
      ensures forall fc :: fc in old(foreignMasters) ==> fc in foreignMasters && fc.dataset == old(fc.dataset)
      ensures forall fc :: fc in old(foreignMasters) ==>
        fc.messages == if old(fc.dataset.sender) == m.source then [m] + Pruned(old(fc.messages), now)
                       else old(fc.messages)
      ensures (exists fc :: fc in old(foreignMasters) && old(fc.dataset.sender) == m.source) ==>
        foreignMasters == old(foreignMasters)
      ensures (forall fc :: fc in old(foreignMasters) ==> old(fc.dataset.sender) != m.source) ==>
        && !changed && |foreignMasters| == |old(foreignMasters)| + 1 && foreignMasters[1..] == old(foreignMasters)
        && foreignMasters[0].messages == [] && foreignMasters[0].dataset.sender == m.source
      ensures forall fc :: fc in old(foreignMasters) && old(fc.dataset.sender) == m.source ==>
        var kept := Pruned(old(fc.messages), now);
        changed <==>
        (|kept| == FOREIGN_MASTER_THRESHOLD - 1 && fc != best) || (kept != [] && Differs(m, old(fc.messages)[0]))
    {
      hide Kept, Pruned, Differs;
      if best == null || best.dataset.sender != m.source {
        changed := AddForeignMaster(m, now, latest);
        return;
      }
      BestIsOnly(latest);
      var broke, diff := AppendTo(best, m, now, latest);
      return diff;
    }

    // announce_to_dataset is applied to the newest message there is.
    ghost function Refreshed(ds: Dataset, ms: seq<Announce>): (r: Dataset)
      ensures ms != [] && ms[0].source == ds.sender ==> r.sender == ds.sender
    {
      if ms == [] then ds else ToDataset(ms[0], localPriority, portIdentity)
    }

    // The scan has dealt with the record.
    ghost predicate Settled(fc: ForeignClock, ms: seq<Announce>, ds: Dataset, now: int, cleared: bool)
      reads fc
    {
      && fc.messages == (if cleared then [] else Pruned(ms, now))
      && fc.dataset == Refreshed(ds, ms)
    }

    // The state of the scan before the record `i`; `ms` and `ds` are the records as it found them.
    ghost predicate ScannedTo(alg: Algorithm, ms: seq<seq<Announce>>, ds: seq<Dataset>, nows: seq<int>,
                              cands: seq<Option<Dataset>>, i: nat)
      requires |ms| == |ds| == |nows| == |cands| == |foreignMasters| && i <= |ms|
      reads this, foreignMasters
    {
      && Linked()
      && (var k := Leader(alg, cands[..i]); best == if k == None then null else foreignMasters[k.value])
      && (forall j :: 0 <= j < i ==> Settled(foreignMasters[j], ms[j], ds[j], nows[j], Cleared(alg, cands, j)))
      && (forall j :: i <= j < |ms| ==> foreignMasters[j].messages == ms[j] && foreignMasters[j].dataset == ds[j])
    }

    ghost predicate Scanned(alg: Algorithm, ms: seq<seq<Announce>>, ds: seq<Dataset>, nows: seq<int>)
      requires |ms| == |ds| == |nows| == |foreignMasters|
      reads this, foreignMasters
    {
      ScannedTo(alg, ms, ds, nows, Candidates(ms, nows, localPriority, portIdentity), |ms|)
    }

    // The comparison in the loop of port_compute_best.
    method Challenge(alg: Algorithm, fc: ForeignClock)
      requires fc.nMessages == |fc.messages|
      modifies this`best, fc`messages, fc`nMessages
      ensures fc.nMessages == |fc.messages|
      ensures if old(best) == null || Compare(alg, Some(fc.dataset), Some(old(best.dataset))) > 0
              then best == fc && fc.messages == old(fc.messages)
              else best == old(best) && fc.messages == []
    {
      hide Compare;
      if best == null {
        best := fc;
      } else if Compare(alg, Some(fc.dataset), Some(best.dataset)) > 0 {
        best := fc;
      } else {
        fc.Clear();
      }
    }

    // One turn of the loop in port_compute_best.
    method Weigh(alg: Algorithm, i: nat, now: int, ghost ms: seq<seq<Announce>>, ghost ds: seq<Dataset>,
                 ghost nows: seq<int>, ghost cands: seq<Option<Dataset>>)
      requires |ms| == |ds| == |nows| == |foreignMasters| && i < |ms| && now == nows[i]
      requires cands == Candidates(ms, nows, localPriority, portIdentity)
      requires ScannedTo(alg, ms, ds, nows, cands, i)
      modifies this`best, foreignMasters[i]
      ensures ScannedTo(alg, ms, ds, nows, cands, i + 1)
    {
      hide Pruned, Candidate, Compare, Cleared, Leader, ToDataset, Settled, Refreshed;
      LeaderAfter(alg, cands, i);
      LeaderIsSettled(alg, ms, ds, nows, cands, i);
      CandidateIsNewest(ms[i], now, localPriority, portIdentity);
      var fc := foreignMasters[i];
      var qualified := fc.Qualify(now);
      if qualified {
        Challenge(alg, fc);
      }
      assert Settled(fc, ms[i], ds[i], now, Cleared(alg, cands, i)) by {
        IsSettled(fc, ms[i], ds[i], now, Cleared(alg, cands, i));
      }
    }

    lemma IsSettled(fc: ForeignClock, ms: seq<Announce>, ds: Dataset, now: int, cleared: bool)
      requires fc.messages == (if cleared then [] else Pruned(ms, now))
      requires fc.dataset == if ms == [] then ds else ToDataset(ms[0], localPriority, portIdentity)
      ensures Settled(fc, ms, ds, now, cleared)
    {
    }

    // port_compute_best.  `nows[i]` is the clock reading taken for the i-th record.
    method ComputeBest(alg: Algorithm, nows: seq<int>) returns (b: ForeignClock?)
      requires Linked() && |nows| == |foreignMasters|
      modifies this`best, foreignMasters
      ensures Linked() && b == best && foreignMasters == old(foreignMasters)
      ensures masterOnly ==>
        && b == null && Messages(foreignMasters) == old(Messages(foreignMasters))
        && Datasets(foreignMasters) == old(Datasets(foreignMasters))
      ensures !masterOnly ==>
        Scanned(alg, old(Messages(foreignMasters)), old(Datasets(foreignMasters)), nows)
    {
      hide Leader, Cleared, Settled, Candidate, Candidates, Scanned, Messages, Datasets;
      best := null;
      if masterOnly {
        return null;
      }
      ghost var ms, ds := Messages(foreignMasters), Datasets(foreignMasters);
      ghost var cands := Candidates(ms, nows, localPriority, portIdentity);
      ScanStarts(alg, ms, ds, nows, cands);
      hide ScannedTo;
      var i := 0;
      while i < |foreignMasters|
        invariant 0 <= i <= |foreignMasters| == |ms|
        invariant ScannedTo(alg, ms, ds, nows, cands, i)
      {
        Weigh(alg, i, nows[i], ms, ds, nows, cands);
        i := i + 1;
      }
      ScanEnds(alg, ms, ds, nows);
      return best;
    }

    lemma ScanStarts(alg: Algorithm, ms: seq<seq<Announce>>, ds: seq<Dataset>, nows: seq<int>,
                     cands: seq<Option<Dataset>>)
      requires Linked() && best == null && ms == Messages(foreignMasters) && ds == Datasets(foreignMasters)
      requires |ms| == |ds| == |nows| == |cands|
      ensures ScannedTo(alg, ms, ds, nows, cands, 0)
    {
      hide Leader, Cleared, Settled;
      LeaderOfNone(alg);
      assert cands[..0] == [];
    }

    lemma ScanEnds(alg: Algorithm, ms: seq<seq<Announce>>, ds: seq<Dataset>, nows: seq<int>)
      requires |ms| == |ds| == |nows| == |foreignMasters|
      requires ScannedTo(alg, ms, ds, nows, Candidates(ms, nows, localPriority, portIdentity), |ms|)
      ensures Linked() && Scanned(alg, ms, ds, nows)
    {
    }

    // port_best_foreign
    ghost function PortWinner(): Option<Dataset>
      reads this, best
    {
      if best == null then None else Some(best.dataset)
    }

    // What the scan leaves, without the scan: the winner of all candidates ...
    lemma BestOfPort(alg: Algorithm, ms: seq<seq<Announce>>, ds: seq<Dataset>, nows: seq<int>)
      requires |ms| == |ds| == |nows| == |foreignMasters|
      requires Scanned(alg, ms, ds, nows)
      ensures PortWinner() == Winner(alg, Candidates(ms, nows, localPriority, portIdentity))
    {
      var cands := Candidates(ms, nows, localPriority, portIdentity);
      assert cands[..|ms|] == cands;
      var k := Leader(alg, cands);
      if k != None {
        CandidateIsNewest(ms[k.value], nows[k.value], localPriority, portIdentity);
        hide Leader, Cleared, Candidate;
        assert Settled(foreignMasters[k.value], ms[k.value], ds[k.value], nows[k.value], Cleared(alg, cands, k.value));
      }
    }

    // ... which keeps its two newest messages ...
    lemma WinnerKeepsMessages(alg: Algorithm, ms: seq<seq<Announce>>, ds: seq<Dataset>, nows: seq<int>, i: nat)
      requires |ms| == |ds| == |nows| == |foreignMasters|
      requires Scanned(alg, ms, ds, nows) && i < |ms| && foreignMasters[i] == best
      ensures |ms[i]| >= FOREIGN_MASTER_THRESHOLD && best.messages == ms[i][..FOREIGN_MASTER_THRESHOLD]
    {
      hide Leader, Cleared, Pruned, Candidate;
      var cands := Candidates(ms, nows, localPriority, portIdentity);
      assert cands[..|ms|] == cands;
      assert Leader(alg, cands) == Some(i);
      WinnerIsKept(alg, cands, i);
      CandidateIsFull(ms[i], nows[i], localPriority, portIdentity);
      assert Settled(foreignMasters[i], ms[i], ds[i], nows[i], Cleared(alg, cands, i));
    }

    // ... and its data set says, member by member, what the newest of them says.
    lemma BestSaysNewest(alg: Algorithm, ms: seq<seq<Announce>>, ds: seq<Dataset>, nows: seq<int>, i: nat)
      requires |ms| == |ds| == |nows| == |foreignMasters|
      requires Scanned(alg, ms, ds, nows) && i < |ms| && foreignMasters[i] == best
      ensures best.messages != [] && best.messages[0] == ms[i][0]
      ensures Says(best.dataset, best.messages[0], localPriority, portIdentity)
    {
      WinnerKeepsMessages(alg, ms, ds, nows, i);
      var cands := Candidates(ms, nows, localPriority, portIdentity);
      hide Leader, Cleared, Pruned, Candidate;
      assert Settled(foreignMasters[i], ms[i], ds[i], nows[i], Cleared(alg, cands, i));
    }

    // ... while exactly the candidates that an earlier one equals or beats are cleared.
    lemma ClearedOnPort(alg: Algorithm, ms: seq<seq<Announce>>, ds: seq<Dataset>, nows: seq<int>, i: nat)
      requires |ms| == |ds| == |nows| == |foreignMasters| && i < |ms|
      requires Scanned(alg, ms, ds, nows)
      requires AllOrderly(alg, Candidates(ms, nows, localPriority, portIdentity))
      ensures var cands := Candidates(ms, nows, localPriority, portIdentity);
              cands[i] != None ==>
                (foreignMasters[i].messages == [] <==>
                 exists j :: 0 <= j < i && cands[j] != None && Compare(alg, cands[j], cands[i]) >= 0)
    {
      var cands := Candidates(ms, nows, localPriority, portIdentity);
      if cands[i] != None {
        ClearedAreLosers(alg, cands, i);
        assert Settled(foreignMasters[i], ms[i], ds[i], nows[i], Cleared(alg, cands, i));
      }
    }

    // The records stay what they are in every run.
    lemma KeptThroughSelection(alg: Algorithm, ms: seq<seq<Announce>>, ds: seq<Dataset>, nows: seq<int>, latest: int)
      requires |ms| == |ds| == |nows| == |foreignMasters|
      requires Scanned(alg, ms, ds, nows)
      requires forall i :: 0 <= i < |ms| ==> KeptList(ms[i], ds[i].sender, latest) && !Ignores(ds[i].sender)
      requires forall i, j :: 0 <= i < j < |ms| ==> ds[i].sender != ds[j].sender
      ensures Kept(latest)
    {
      hide Leader, Cleared, ToDataset;
      var cands := Candidates(ms, nows, localPriority, portIdentity);
      forall i | 0 <= i < |ms|
        ensures foreignMasters[i].dataset.sender == ds[i].sender && foreignMasters[i].Kept(latest)
      {
        assert Settled(foreignMasters[i], ms[i], ds[i], nows[i], Cleared(alg, cands, i));
        ShorterIsKept(ms[i], foreignMasters[i].messages, ds[i].sender, latest);
      }
    }

    // No candidate ever came from the clock itself.
    lemma CandidatesAreLocated(ms: seq<seq<Announce>>, nows: seq<int>, latest: int)
      requires Kept(latest) && ms == Messages(foreignMasters) && |nows| == |ms|
      ensures forall c :: c in Candidates(ms, nows, localPriority, portIdentity) && c != None ==> Located(c.value)
    {
      forall i | 0 <= i < |ms| && Candidate(ms[i], nows[i], localPriority, portIdentity) != None
        ensures Located(Candidate(ms[i], nows[i], localPriority, portIdentity).value)
      {
        CandidateIsNewest(ms[i], nows[i], localPriority, portIdentity);
        assert foreignMasters[i].Kept(latest) && ms[i][0].source == foreignMasters[i].dataset.sender;
      }
    }

    lemma LeaderIsSettled(alg: Algorithm, ms: seq<seq<Announce>>, ds: seq<Dataset>, nows: seq<int>,
                          cands: seq<Option<Dataset>>, i: nat)
      requires |ms| == |ds| == |nows| == |foreignMasters| && i < |ms|
      requires cands == Candidates(ms, nows, localPriority, portIdentity)
      requires ScannedTo(alg, ms, ds, nows, cands, i)
      ensures Leader(alg, cands[..i]) != None ==>
                var k := Leader(alg, cands[..i]).value;
                foreignMasters[k] != foreignMasters[i] && foreignMasters[k].dataset == cands[k].value
    {
      hide Leader, Cleared, Pruned, Candidate;
      if Leader(alg, cands[..i]) != None {
        var k := Leader(alg, cands[..i]).value;
        assert cands[..i][k] == cands[k];
        CandidateIsNewest(ms[k], nows[k], localPriority, portIdentity);
        assert Settled(foreignMasters[k], ms[k], ds[k], nows[k], Cleared(alg, cands, k));
      }
    }
  }
}
