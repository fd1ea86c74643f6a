/** The state decision algorithm of `bmc.c` (IEEE 1588-2008 section 9.3.3) and the event handler of
  `clock.c` that runs it for every port.
 */
module StateDecision {
  import opened Prelude
  import opened DatasetComparison
  import opened Selection
  import opened ForeignMasters

  datatype PortState = Initializing | Faulty | Disabled | Listening | PreMaster | Master | Passive | Uncalibrated
    | Slave | GrandMaster

  datatype Bmca = BmcaPtp | BmcaNoop

  // What bmc_state_decision sees of one port.
  datatype PortView = PortView(best: Option<Dataset>, state: PortState, bmca: Bmca)

  // ... and of the clock: `bestPort` is the port of the best foreign clock.
  datatype Snapshot = Snapshot(alg: Algorithm, dds: DefaultDS, ports: seq<PortView>, bestPort: Option<nat>)

  ghost predicate Consistent(s: Snapshot) {
    if s.bestPort == None then forall r :: 0 <= r < |s.ports| ==> s.ports[r].best == None
    else s.bestPort.value < |s.ports| && s.ports[s.bestPort.value].best != None
  }

  // clock_best_foreign
  function ClockBest(s: Snapshot): Option<Dataset>
    requires s.bestPort != None ==> s.bestPort.value < |s.ports|
  {
    if s.bestPort == None then None else s.ports[s.bestPort.value].best
  }

  // bmc_state_decision
  function Decide(s: Snapshot, r: nat): PortState
    requires s.bestPort != None ==> s.bestPort.value < |s.ports|
    requires r < |s.ports|
  {
    var clockDs := Some(ClockDefaultDs(s.dds));
    var clockBest := ClockBest(s);
    var portBest := s.ports[r].best;
    var ps := s.ports[r].state;
    if portBest == None && s.ports[r].bmca == BmcaNoop then ps
    else if portBest == None && ps == Listening then ps
    else if s.dds.clockQuality.clockClass <= 127 then
      if Compare(s.alg, clockDs, portBest) > 0 then GrandMaster else Passive
    else if Compare(s.alg, clockDs, clockBest) > 0 then GrandMaster
    else if s.bestPort == Some(r) then Slave
    else if Compare(s.alg, clockBest, portBest) == A_BETTER_TOPO then Passive
    else Master
  }

  ghost predicate AllPtp(s: Snapshot) {
    forall r :: 0 <= r < |s.ports| ==> s.ports[r].bmca == BmcaPtp
  }

  // The clock follows a foreign master: it may be a slave, there is somebody to follow, and the local
  // data set is not better.
  ghost predicate Follows(s: Snapshot)
    requires Consistent(s)
  {
    && s.dds.clockQuality.clockClass > 127
    && s.bestPort != None
    && Compare(s.alg, Some(ClockDefaultDs(s.dds)), ClockBest(s)) <= 0
  }

  // SLAVE is recommended to exactly one port when the clock follows, and to none otherwise.
  lemma OneSlave(s: Snapshot)
    requires Consistent(s) && AllPtp(s)
    ensures forall r :: 0 <= r < |s.ports| ==> (Decide(s, r) == Slave <==> Follows(s) && s.bestPort == Some(r))
  {
  }

  lemma SlaveCount(s: Snapshot)
    requires Consistent(s) && AllPtp(s)
    ensures |set r | 0 <= r < |s.ports| && Decide(s, r) == Slave| == if Follows(s) then 1 else 0
  {
    OneSlave(s);
    var slaves := set r | 0 <= r < |s.ports| && Decide(s, r) == Slave;
    if Follows(s) {
      assert slaves == {s.bestPort.value};
    } else {
      assert slaves == {};
    }
  }

  // No snapshot mixes GRAND_MASTER with MASTER or SLAVE.
  lemma OneSource(s: Snapshot, r: nat, q: nat)
    requires Consistent(s) && AllPtp(s) && r < |s.ports| && q < |s.ports|
    requires Decide(s, r) == GrandMaster
    ensures Decide(s, q) != Slave && Decide(s, q) != Master
  {
  }

  lemma MasterFollows(s: Snapshot, r: nat)
    requires Consistent(s) && AllPtp(s) && r < |s.ports| && Decide(s, r) == Master
    ensures Follows(s)
  {
    hide Compare;
    NothingIsWorse(s.alg, ClockDefaultDs(s.dds));
  }

  lemma NeverMixed(s: Snapshot)
    requires Consistent(s) && AllPtp(s)
    ensures |set p | 0 <= p < |s.ports| && Decide(s, p) == Slave| == if Follows(s) then 1 else 0
    ensures forall p, q :: 0 <= p < |s.ports| && 0 <= q < |s.ports| && Decide(s, p) == GrandMaster ==>
              Decide(s, q) != Slave && Decide(s, q) != Master
  {
    hide Decide;
    SlaveCount(s);
    forall p, q | 0 <= p < |s.ports| && 0 <= q < |s.ports| && Decide(s, p) == GrandMaster
      ensures Decide(s, q) != Slave && Decide(s, q) != Master
    {
      OneSource(s, p, q);
    }
  }

  // The port kept out of the rule by its BMCA setting may break it: it keeps the state it is in.
  lemma NoopIsNotDecided(s: Snapshot, r: nat)
    requires Consistent(s) && r < |s.ports|
    ensures s.ports[r].bmca == BmcaNoop && s.ports[r].best == None ==> Decide(s, r) == s.ports[r].state
    ensures !(s.ports[r].bmca == BmcaNoop && s.ports[r].best == None) ==>
              Decide(s, r) == Decide(s.(ports := s.ports[r := s.ports[r].(bmca := BmcaPtp)]), r)
  {
    var t := s.(ports := s.ports[r := s.ports[r].(bmca := BmcaPtp)]);
    assert ClockBest(t) == ClockBest(s);
  }

  // MASTER and PASSIVE are for ports whose own foreign master is no better than the clock's.
  lemma MasterIsJustified(s: Snapshot, r: nat)
    requires Consistent(s) && AllPtp(s) && r < |s.ports|
    requires forall q :: 0 <= q < |s.ports| ==> Compare(s.alg, s.ports[q].best, ClockBest(s)) <= 0
    ensures Decide(s, r) == Master ==>
              Follows(s) && (Compare(s.alg, ClockBest(s), s.ports[r].best) == A_BETTER ||
                             Compare(s.alg, ClockBest(s), s.ports[r].best) == 0)
    ensures Decide(s, r) == Passive && s.dds.clockQuality.clockClass > 127 ==>
              Follows(s) && Compare(s.alg, ClockBest(s), s.ports[r].best) == A_BETTER_TOPO
  {
    CompareAntisymmetric(s.alg, s.ports[r].best, ClockBest(s));
    CompareRange(s.alg, ClockBest(s), s.ports[r].best);
    CompareAntisymmetric(s.alg, Some(ClockDefaultDs(s.dds)), None);
  }

  // The best clock's data set beats that of the port, and it does so only by the way it came.
  ghost predicate Shadowed(s: Snapshot, r: nat)
    requires s.bestPort != None ==> s.bestPort.value < |s.ports|
    requires r < |s.ports|
  {
    && ClockBest(s) != None && s.ports[r].best != None
    && Compare(s.alg, ClockBest(s), s.ports[r].best) > 0
    && SameSource(s.alg, ClockBest(s).value, s.ports[r].best.value)
    && ByTheWay(ClockBest(s).value, s.ports[r].best.value)
  }

  // With a class above 127, a port that is not the best one is PASSIVE exactly if the clock follows and its own
  // foreign master leads to the same source by a worse way, and MASTER in every other case.
  lemma PassiveIffShadowed(s: Snapshot, r: nat)
    requires Consistent(s) && AllPtp(s) && r < |s.ports| && s.dds.clockQuality.clockClass > 127
    ensures Decide(s, r) == Passive <==> Follows(s) && s.bestPort != Some(r) && Shadowed(s, r)
    ensures Decide(s, r) == Master <==>
            Follows(s) && s.bestPort != Some(r) && !Shadowed(s, r)
            && (s.ports[r].best == None ==> s.ports[r].state != Listening)
    ensures Decide(s, r) == GrandMaster <==>
            !Follows(s) && (s.ports[r].best == None ==> s.ports[r].state != Listening)
  {
    var best, own := ClockBest(s), s.ports[r].best;
    if best != None && own != None {
      WonByTheWay(s.alg, best.value, own.value);
    }
    NothingIsWorse(s.alg, ClockDefaultDs(s.dds));
    if best != None {
      NothingIsBehind(s.alg, best.value);
    }
    hide Compare, SameSource, ByTheWay;
  }

  lemma NothingIsBehind(alg: Algorithm, d: Dataset)
    ensures Compare(alg, Some(d), None) == A_BETTER
  {
  }

  // On orderly data sets all this is about their keys.
  lemma ShadowedByKey(s: Snapshot, r: nat)
    requires Consistent(s) && r < |s.ports| && Orderly(s.alg, ClockBest(s), s.ports[r].best)
    ensures Shadowed(s, r) <==>
            && ClockBest(s) != None && s.ports[r].best != None
            && RankCmp(s.alg, ClockBest(s), s.ports[r].best) > 0
            && SameSource(s.alg, ClockBest(s).value, s.ports[r].best.value)
            && ByTheWay(ClockBest(s).value, s.ports[r].best.value)
  {
    OrderlyIsRanked(s.alg, ClockBest(s), s.ports[r].best);
  }

  // A port is left LISTENING exactly while it listens and has no foreign master.
  lemma ListeningStays(s: Snapshot, r: nat)
    requires Consistent(s) && r < |s.ports|
    ensures Decide(s, r) == Listening <==> s.ports[r].best == None && s.ports[r].state == Listening
  {
    hide Compare;
  }

  // A local clock that is better than every foreign master heard is the grandmaster on every port that
  // has heard one or has stopped listening for one, whatever its class.
  lemma UnchallengedIsGrandMaster(s: Snapshot)
    requires Consistent(s) && AllPtp(s)
    requires forall q :: 0 <= q < |s.ports| ==> Compare(s.alg, Some(ClockDefaultDs(s.dds)), s.ports[q].best) > 0
    ensures forall r :: 0 <= r < |s.ports| && !(s.ports[r].best == None && s.ports[r].state == Listening) ==>
              Decide(s, r) == GrandMaster
  {
    hide Compare;
    assert ClockBest(s) == None || ClockBest(s) == s.ports[s.bestPort.value].best;
    NothingIsWorse(s.alg, ClockDefaultDs(s.dds));
  }

  lemma NothingIsWorse(alg: Algorithm, d: Dataset)
    ensures Compare(alg, Some(d), None) > 0
  {
  }

  // A primary clock, of class 127 or better, never follows: where a foreign master beats it, or is as
  // good, it is passive, and everywhere else the grandmaster.
  lemma PrimaryNeverFollows(s: Snapshot, r: nat)
    requires Consistent(s) && AllPtp(s) && r < |s.ports| && s.dds.clockQuality.clockClass <= 127
    requires s.ports[r].best == None ==> s.ports[r].state != Listening
    ensures Decide(s, r) == Passive <==> Compare(s.alg, s.ports[r].best, Some(ClockDefaultDs(s.dds))) >= 0
    ensures Decide(s, r) == Passive || Decide(s, r) == GrandMaster
  {
    CompareAntisymmetric(s.alg, s.ports[r].best, Some(ClockDefaultDs(s.dds)));
    hide Compare;
  }

  lemma CompareRange(alg: Algorithm, a: Option<Dataset>, b: Option<Dataset>)
    ensures -2 <= Compare(alg, a, b) <= 2
  {
  }

  // ---- handle_state_decision_event ----

  // The candidates of a port: none on a port that only ever is a master.
  ghost function PortCandidates(p: Port, ms: seq<seq<Announce>>, nows: seq<int>): seq<Option<Dataset>>
    requires |ms| == |nows|
  {
    if p.masterOnly then [] else Candidates(ms, nows, p.localPriority, p.portIdentity)
  }

  // The port before its turn in the first loop, with the records it started with.
  ghost predicate Pending(p: Port, ms: seq<seq<Announce>>, ds: seq<Dataset>)
    reads p, p.foreignMasters
  {
    p.Linked() && ms == Messages(p.foreignMasters) && ds == Datasets(p.foreignMasters)
  }

  // ... and after it.
  ghost predicate Done(alg: Algorithm, p: Port, ms: seq<seq<Announce>>, ds: seq<Dataset>, nows: seq<int>)
    requires |nows| == |ms|
    reads p, p.foreignMasters
  {
    && p.Linked() && |ms| == |ds| == |p.foreignMasters|
    && if p.masterOnly then p.best == null && Pending(p, ms, ds) else p.Scanned(alg, ms, ds, nows)
  }

  lemma DoneWinner(alg: Algorithm, p: Port, ms: seq<seq<Announce>>, ds: seq<Dataset>, nows: seq<int>)
    requires |nows| == |ms| && Done(alg, p, ms, ds, nows)
    ensures p.PortWinner() == Winner(alg, PortCandidates(p, ms, nows))
  {
    hide Leader;
    LeaderOfNone(alg);
    if !p.masterOnly {
      p.BestOfPort(alg, ms, ds, nows);
    }
  }

  // Two ports share no record.
  lemma OwnRecords(p: Port, q: Port)
    requires p != q && p.Linked() && q.Linked()
    ensures forall fc :: fc in p.foreignMasters ==> fc !in q.foreignMasters
  {
  }

  lemma DoneIsLinked(alg: Algorithm, p: Port, ms: seq<seq<Announce>>, ds: seq<Dataset>, nows: seq<int>)
    requires |nows| == |ms| && Done(alg, p, ms, ds, nows)
    ensures p.Linked()
  {
  }

  function PortViews(bests: seq<Option<Dataset>>, states: seq<PortState>, bmcas: seq<Bmca>): (r: seq<PortView>)
    requires |bests| == |states| == |bmcas|
    ensures |r| == |bests|
    ensures forall p :: 0 <= p < |bests| ==> r[p] == PortView(bests[p], states[p], bmcas[p])
  {
    seq(|bests|, p requires 0 <= p < |bests| => PortView(bests[p], states[p], bmcas[p]))
  }

  // The decision snapshot after the selection over these candidates.
  ghost function Outcome(alg: Algorithm, dds: DefaultDS, cands: seq<seq<Option<Dataset>>>, states: seq<PortState>,
                         bmcas: seq<Bmca>): (s: Snapshot)
    requires |cands| == |states| == |bmcas|
    ensures s.bestPort != None ==> s.bestPort.value < |s.ports|
    ensures |s.ports| == |cands|
    ensures ClockBest(s) == Winner(alg, Bests(alg, cands))
  {
    Snapshot(alg, dds, PortViews(Bests(alg, cands), states, bmcas), Leader(alg, Bests(alg, cands)))
  }

  // One event, from the received messages to the recommended states: the best clock is a maximum, the
  // recommendations name one SLAVE or none and do not mix sources, and each is justified by the messages.
  lemma EventOutcome(alg: Algorithm, dds: DefaultDS, cands: seq<seq<Option<Dataset>>>, states: seq<PortState>,
                     bmcas: seq<Bmca>)
    requires |cands| == |states| == |bmcas| && AllPortsOrderly(alg, cands)
    ensures var s := Outcome(alg, dds, cands, states, bmcas);
            && Consistent(s)
            && (forall p, i :: 0 <= p < |cands| && 0 <= i < |cands[p]| ==> Compare(alg, cands[p][i], ClockBest(s)) <= 0)
            && (AllPtp(s) ==> forall p :: 0 <= p < |cands| ==>
                  (Decide(s, p) == Master ==>
                     Follows(s) && forall i :: 0 <= i < |cands[p]| ==> Compare(alg, ClockBest(s), cands[p][i]) >= 0) &&
                  (Decide(s, p) == Slave ==> exists i :: 0 <= i < |cands[p]| && cands[p][i] == ClockBest(s) != None))
            && (AllPtp(s) ==>
                  && |set p | 0 <= p < |cands| && Decide(s, p) == Slave| == (if Follows(s) then 1 else 0)
                  && forall p, q :: 0 <= p < |cands| && 0 <= q < |cands| && Decide(s, p) == GrandMaster ==>
                       Decide(s, q) != Slave && Decide(s, q) != Master)
  {
    var bests := Bests(alg, cands);
    var s := Outcome(alg, dds, cands, states, bmcas);
    GlobalMaximum(alg, cands);
    LeaderNone(alg, bests);
    BestsAreOrderly(alg, cands);
    LeaderIsBest(alg, bests);
    hide Compare, Orderly, Decide, Follows;
    NoCandidates(alg, cands);
    if AllPtp(s) {
      NeverMixed(s);
      forall p | 0 <= p < |cands|
        ensures Decide(s, p) == Master ==>
                  Follows(s) && forall i :: 0 <= i < |cands[p]| ==> Compare(alg, ClockBest(s), cands[p][i]) >= 0
        ensures Decide(s, p) == Slave ==> exists i :: 0 <= i < |cands[p]| && cands[p][i] == ClockBest(s) != None
      {
        OneSlave(s);
        if Decide(s, p) == Master {
          MasterFollows(s, p);
          forall i | 0 <= i < |cands[p]|
            ensures Compare(alg, ClockBest(s), cands[p][i]) >= 0
          {
            CompareAntisymmetric(alg, cands[p][i], ClockBest(s));
          }
        }
      }
    }
  }

  ghost predicate AllConcordant(cands: seq<seq<Option<Dataset>>>) {
    forall p, q, i, j :: 0 <= p < |cands| && 0 <= q < |cands| && 0 <= i < |cands[p]| && 0 <= j < |cands[q]| ==>
      cands[p][i] != None && cands[q][j] != None ==> Concordant(cands[p][i].value, cands[q][j].value)
  }

  // process_announce behind port_ignore: what is too far away or comes from the clock itself changes
  // nothing, and everything else goes to the records of the port.
  method ProcessAnnounce(p: Port, state: PortState, m: Announce, maxStepsRemoved: nat, now: int, ghost latest: int)
    returns (changed: bool)
    requires p.Kept(latest) && latest <= m.host
    modifies p`foreignMasters, p.foreignMasters
    ensures p.Kept(m.host) && p.best == old(p.best)
    ensures var lost := m.source.clockIdentity == p.portIdentity.clockIdentity || m.stepsRemoved >= maxStepsRemoved
                        || state.Initializing? || state.Faulty? || state.Disabled?;
            if lost then
              && !changed && p.foreignMasters == old(p.foreignMasters)
              && forall fc :: fc in p.foreignMasters ==> fc.messages == old(fc.messages)
            else
              forall fc :: fc in old(p.foreignMasters) ==>
                && fc in p.foreignMasters
                && fc.messages == if old(fc.dataset.sender) == m.source then [m] + Pruned(old(fc.messages), now)
                                  else old(fc.messages)
    ensures !changed || exists fc :: fc in old(p.foreignMasters) && old(fc.dataset.sender) == m.source
  {
    hide KeptList, Pruned, Differs;
    p.AllKeptLater(latest, m.host);
    if p.Ignores(m.source) || m.stepsRemoved >= maxStepsRemoved {
      return false;
    }
    match state {
      case Initializing | Faulty | Disabled =>
        changed := false;
      case Listening | PreMaster | Master | GrandMaster =>
        changed := p.AddForeignMaster(m, now, latest);
      case Passive | Uncalibrated | Slave =>
        changed := p.UpdateCurrentMaster(m, now, latest);
    }
  }

  lemma NoCandidates(alg: Algorithm, cands: seq<seq<Option<Dataset>>>)
    requires Leader(alg, Bests(alg, cands)) == None <==> forall p, i :: 0 <= p < |cands| && 0 <= i < |cands[p]| ==>
             cands[p][i] == None
    ensures Leader(alg, Bests(alg, cands)) == None ==>
              forall p, i :: 0 <= p < |cands| && 0 <= i < |cands[p]| ==> Compare(alg, cands[p][i], None) <= 0
  {
  }

  class Clock {
    const alg: Algorithm
    const dds: DefaultDS
    const ports: seq<Port>
    var best: ForeignClock?
    var bestId: ClockIdentity
    ghost const Repr: set<object>

    constructor (alg: Algorithm, dds: DefaultDS, ports: seq<Port>, ghost records: set<object>)
      requires Distinct(ports)
      requires forall p :: p in ports ==> p in records && forall fc :: fc in p.foreignMasters ==> fc in records
      ensures Framed() && best == null && bestId == dds.clockIdentity
      ensures this.alg == alg && this.dds == dds && this.ports == ports && Repr == records
    {
      this.alg := alg;
      this.dds := dds;
      this.ports := ports;
      best := null;
      bestId := dds.clockIdentity;
      Repr := records;
    }

    ghost predicate Framed()
      reads ports
    {
      && this !in Repr
      && (forall p :: p in ports ==> p in Repr && forall fc :: fc in p.foreignMasters ==> fc in Repr)
      && Distinct(ports)
    }

    // The first loop of handle_state_decision_event has reached the port `i`.
    ghost predicate Reached(i: nat, ms: seq<seq<seq<Announce>>>, ds: seq<seq<Dataset>>, nows: seq<seq<int>>)
      requires i <= |ports| == |ms| == |ds| == |nows|
      requires forall p :: 0 <= p < |ports| ==> |nows[p]| == |ms[p]|
      reads ports, Repr
    {
      && Framed()
      && (forall p :: 0 <= p < i ==> Done(alg, ports[p], ms[p], ds[p], nows[p]))
      && (forall p :: i <= p < |ports| ==> Pending(ports[p], ms[p], ds[p]))
    }

    ghost function AllCandidates(ms: seq<seq<seq<Announce>>>, nows: seq<seq<int>>): (r: seq<seq<Option<Dataset>>>)
      requires |ports| == |ms| == |nows|
      requires forall p :: 0 <= p < |ports| ==> |nows[p]| == |ms[p]|
      ensures |r| == |ports|
      ensures forall p :: 0 <= p < |ports| ==> r[p] == PortCandidates(ports[p], ms[p], nows[p])
    {
      seq(|ports|, p requires 0 <= p < |ports| => PortCandidates(ports[p], ms[p], nows[p]))
    }

    // What the ports have heard is in order: without any condition for the algorithm of G.8275, and if
    // the announcements of each grandmaster are concordant for that of IEEE 1588.
    lemma HeardIsOrderly(ms: seq<seq<seq<Announce>>>, nows: seq<seq<int>>, latest: int)
      requires |ports| == |ms| == |nows|
      requires forall p :: 0 <= p < |ports| ==> |nows[p]| == |ms[p]|
      requires forall p :: 0 <= p < |ports| ==> ports[p].Kept(latest) && ms[p] == Messages(ports[p].foreignMasters)
      ensures AllPortsOrderly(alg, AllCandidates(ms, nows)) <==> alg == G8275 || AllConcordant(AllCandidates(ms, nows))
    {
      hide Candidates, Concordant, KeptList;
      var cands := AllCandidates(ms, nows);
      forall p, i | 0 <= p < |ports| && 0 <= i < |cands[p]| && cands[p][i] != None
        ensures Located(cands[p][i].value)
      {
        ports[p].CandidatesAreLocated(ms[p], nows[p], latest);
        assert cands[p][i] in cands[p];
      }
      hide Located;
    }

    // The best clock of an event is a maximum over all that the ports have heard.
    lemma BestOfAllHeard(ms: seq<seq<seq<Announce>>>, nows: seq<seq<int>>, latest: int)
      requires |ports| == |ms| == |nows|
      requires forall p :: 0 <= p < |ports| ==> |nows[p]| == |ms[p]|
      requires forall p :: 0 <= p < |ports| ==> ports[p].Kept(latest) && ms[p] == Messages(ports[p].foreignMasters)
      requires alg == G8275 || AllConcordant(AllCandidates(ms, nows))
      ensures var cands := AllCandidates(ms, nows);
              forall p, i :: 0 <= p < |ports| && 0 <= i < |cands[p]| ==>
                Compare(alg, cands[p][i], Winner(alg, Bests(alg, cands))) <= 0
    {
      hide Compare, Candidates, AllConcordant;
      HeardIsOrderly(ms, nows, latest);
      var cands := AllCandidates(ms, nows);
      GlobalMaximum(alg, cands);
      NoCandidates(alg, cands);
    }

    method ComputeBestAt(i: nat, now: seq<int>, ghost ms: seq<seq<seq<Announce>>>, ghost ds: seq<seq<Dataset>>,
                         ghost nows: seq<seq<int>>) returns (fc: ForeignClock?)
      requires i < |ports| == |ms| == |ds| == |nows|
      requires forall p :: 0 <= p < |ports| ==> |nows[p]| == |ms[p]|
      requires now == nows[i] && Reached(i, ms, ds, nows)
      modifies ports[i], ports[i].foreignMasters
      ensures Reached(i + 1, ms, ds, nows) && fc == ports[i].best
    {
      hide Leader, Compare, Distinct;
      forall p | 0 <= p < |ports| && p != i
        ensures forall fc :: fc in ports[p].foreignMasters ==> fc !in ports[i].foreignMasters
        ensures ports[p] != ports[i]
      {
        assert ports[p] != ports[i] by {
          DistinctAt(ports, p, i);
        }
        OwnRecords(ports[p], ports[i]);
      }
      fc := ports[i].ComputeBest(alg, now);
    }

    // The first loop of handle_state_decision_event.
    method ComputeBests(nows: seq<seq<int>>, ghost ms: seq<seq<seq<Announce>>>, ghost ds: seq<seq<Dataset>>)
      returns (b: ForeignClock?)
      requires |ports| == |ms| == |ds| == |nows|
      requires forall p :: 0 <= p < |ports| ==> |nows[p]| == |ms[p]|
      requires Reached(0, ms, ds, nows)
      modifies ports, Repr
      ensures Reached(|ports|, ms, ds, nows)
      ensures var k := Leader(alg, Bests(alg, AllCandidates(ms, nows)));
              b == if k == None then null else ports[k.value].best
    {
      hide Leader, Compare, Candidates, Done, Pending, Winner;
      ghost var bests := Bests(alg, AllCandidates(ms, nows));
      b := null;
      LeaderOfNone(alg);
      assert bests[..0] == [];
      var i := 0;
      while i < |ports|
        invariant 0 <= i <= |ports| && Reached(i, ms, ds, nows)
        invariant var k := Leader(alg, bests[..i]); b == if k == None then null else ports[k.value].best
      {
        ghost var lead := Leader(alg, bests[..i]);
        if lead != None {
          DistinctAt(ports, lead.value, i);
        }
        var fc := ComputeBestAt(i, nows[i], ms, ds, nows);
        LeaderAfter(alg, bests, i);
        WinnerAt(i, i + 1, ms, ds, nows);
        if lead != None {
          WinnerAt(lead.value, i + 1, ms, ds, nows);
          assert bests[..i][lead.value] == bests[lead.value];
        }
        if fc != null {
          if b == null || Compare(alg, Some(fc.dataset), Some(b.dataset)) > 0 {
            b := fc;
          }
        }
        i := i + 1;
      }
      assert bests[..i] == bests;
    }

    lemma WinnerAt(p: nat, i: nat, ms: seq<seq<seq<Announce>>>, ds: seq<seq<Dataset>>, nows: seq<seq<int>>)
      requires p < i <= |ports| == |ms| == |ds| == |nows|
      requires forall p :: 0 <= p < |ports| ==> |nows[p]| == |ms[p]|
      requires Reached(i, ms, ds, nows)
      ensures Bests(alg, AllCandidates(ms, nows))[p] == ports[p].PortWinner()
    {
      hide Done, Pending, Winner, Distinct;
      DoneWinner(alg, ports[p], ms[p], ds[p], nows[p]);
    }

    // clock_best_port, as the port's place in the list.
    method BestPort(ghost k: Option<nat>) returns (r: Option<nat>)
      requires Distinct(ports)
      requires best == null <==> k == None
      requires best != null ==> k.value < |ports| && best.port == ports[k.value]
      ensures r == k
    {
      if best == null {
        return None;
      }
      var i := 0;
      while best.port != ports[i]
        invariant 0 <= i <= k.value
        decreases |ports| - i
      {
        i := i + 1;
      }
      return Some(i);
    }

    // The ports as bmc_state_decision sees them; `states` and `bmcas` are what port_state and
    // port_bmca return when it asks.
    method Views(states: seq<PortState>, bmcas: seq<Bmca>, ghost bests: seq<Option<Dataset>>) returns (r: seq<PortView>)
      requires |states| == |bmcas| == |bests| == |ports|
      requires forall p :: 0 <= p < |ports| ==> ports[p].PortWinner() == bests[p]
      ensures r == PortViews(bests, states, bmcas)
    {
      r := [];
      for i := 0 to |ports|
        invariant |r| == i
        invariant forall p :: 0 <= p < i ==> r[p] == PortView(bests[p], states[p], bmcas[p])
      {
        var b := ports[i].best;
        assert ports[i].PortWinner() == bests[i];
        r := r + [PortView(if b == null then None else Some(b.dataset), states[i], bmcas[i])];
      }
      assert r == PortViews(bests, states, bmcas);
    }

    // handle_state_decision_event: what is recommended to each port, and whether the best clock is new.
    method HandleStateDecisionEvent(nows: seq<seq<int>>, states: seq<PortState>, bmcas: seq<Bmca>,
                                    ghost ms: seq<seq<seq<Announce>>>, ghost ds: seq<seq<Dataset>>)
      returns (recs: seq<PortState>, freshBest: bool)
      requires |ports| == |ms| == |ds| == |nows| == |states| == |bmcas|
      requires forall p :: 0 <= p < |ports| ==> |nows[p]| == |ms[p]|
      requires Reached(0, ms, ds, nows)
      modifies this, ports, Repr
      ensures Reached(|ports|, ms, ds, nows)
      ensures var s := Outcome(alg, dds, AllCandidates(ms, nows), states, bmcas);
              && |recs| == |ports|
              && (forall p :: 0 <= p < |ports| ==> recs[p] == Decide(s, p))
              && best == (if s.bestPort == None then null else ports[s.bestPort.value].best)
              && (best != null ==> Some(best.dataset) == ClockBest(s))
              && bestId == (if ClockBest(s) == None then dds.clockIdentity else ClockBest(s).value.identity)
              && (freshBest <==> bestId != old(bestId))
    {
      hide Leader, Compare, Done, Pending, Winner, Decide;
      ghost var s := Outcome(alg, dds, AllCandidates(ms, nows), states, bmcas);
      freshBest := SelectBest(nows, ms, ds);
      var bestPort := BestPort(s.bestPort);
      var views := Views(states, bmcas, Bests(alg, AllCandidates(ms, nows)));
      recs := Recommend(Snapshot(alg, dds, views, bestPort));
    }

    // The second loop, without the dispatch of the events.
    method Recommend(s: Snapshot) returns (recs: seq<PortState>)
      requires s.bestPort != None ==> s.bestPort.value < |s.ports|
      ensures |recs| == |s.ports| && forall p :: 0 <= p < |s.ports| ==> recs[p] == Decide(s, p)
    {
      recs := [];
      for i := 0 to |s.ports|
        invariant |recs| == i
        invariant forall p :: 0 <= p < i ==> recs[p] == Decide(s, p)
      {
        recs := recs + [Decide(s, i)];
      }
    }

    // The first loop and the assignments after it.
    method SelectBest(nows: seq<seq<int>>, ghost ms: seq<seq<seq<Announce>>>, ghost ds: seq<seq<Dataset>>)
      returns (freshBest: bool)
      requires |ports| == |ms| == |ds| == |nows|
      requires forall p :: 0 <= p < |ports| ==> |nows[p]| == |ms[p]|
      requires Reached(0, ms, ds, nows)
      modifies this, ports, Repr
      ensures Reached(|ports|, ms, ds, nows)
      ensures var bests := Bests(alg, AllCandidates(ms, nows));
              var k := Leader(alg, bests);
              && (forall p :: 0 <= p < |ports| ==> ports[p].PortWinner() == bests[p])
              && best == (if k == None then null else ports[k.value].best)
              && (best == null <==> k == None)
              && (best != null ==> best.port == ports[k.value] && Some(best.dataset) == bests[k.value])
              && bestId == (if k == None then dds.clockIdentity else bests[k.value].value.identity)
              && (freshBest <==> bestId != old(bestId))
    {
      hide Leader, Compare, Done, Pending, Winner;
      var b := ComputeBests(nows, ms, ds);
      forall p | 0 <= p < |ports|
        ensures ports[p].PortWinner() == Bests(alg, AllCandidates(ms, nows))[p]
        ensures ports[p].Linked()
      {
        WinnerAt(p, |ports|, ms, ds, nows);
        DoneIsLinked(alg, ports[p], ms[p], ds[p], nows[p]);
      }
      var id := if b != null then b.dataset.identity else dds.clockIdentity;
      freshBest := id != bestId;
      best := b;
      bestId := id;
    }
  }

  lemma DistinctAt<T>(s: seq<T>, i: nat, j: nat)
    requires Distinct(s) && i < |s| && j < |s| && i != j
    ensures s[i] != s[j]
  {
  }
}
