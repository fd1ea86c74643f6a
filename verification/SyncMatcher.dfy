/** The slave-side matcher of two-step Sync and Follow_Up messages, from `port.c`.

  `SyncPort` is the state machine that keeps the latest unmatched message.  What it hands to
  port_synchronize over a whole run is given by `Paired`, which only looks at which neighbours in the
  stream of accepted messages match.
 */
module SyncMatcher {
  import opened Prelude
  import opened DatasetComparison
  import StateDecision

  type PortState = StateDecision.PortState

  datatype Kind = Sync | FollowUp

  // A received message: `ingress` is the hardware time stamp, `software` the socket's, `origin` the
  // time stamp in the body.
  datatype Message = Message(kind: Kind, seqId: UInt16, source: PortIdentity, ingress: int, software: int, origin: int,
                             correction: int, logInterval: int, unicast: bool, oneStep: bool, followUpInfo: bool)

  // What an accepted message, or a flush, adds to the stream.
  datatype Item = Heard(m: Message) | Gap

  // The arguments of port_synchronize.
  datatype Call = Call(seqId: UInt16, ingress: int, origin: int, correction1: int, correction2: int, syncInterval: int)

  predicate OneStep(m: Message) {
    m.kind == Sync && m.oneStep
  }

  // fup_sync_ok
  predicate FupSyncOk(fup: Message, sync: Message) {
    fup.software >= sync.software
  }

  // The earlier message `h` and the later one `m` belong together.
  predicate Matches(h: Message, m: Message) {
    && h.seqId == m.seqId && !OneStep(h) && !OneStep(m)
    && ((h.kind == Sync && m.kind == FollowUp) || (h.kind == FollowUp && m.kind == Sync && FupSyncOk(h, m)))
  }

  function PairCall(sync: Message, fup: Message): Call {
    Call(sync.seqId, sync.ingress, fup.origin, sync.correction, fup.correction, 0)
  }

  function SingleCall(m: Message): Call {
    Call(m.seqId, m.ingress, m.origin, m.correction, 0, m.logInterval)
  }

  // The call for a match: it carries the later message's interval.
  function MatchCall(h: Message, m: Message): Call {
    (if h.kind == Sync then PairCall(h, m) else PairCall(m, h)).(syncInterval := m.logInterval)
  }

  // ---- the stream, without the state machine ----

  // The items at `i` and `i + 1` are a pair: they match, and the first is not used up already.
  predicate Paired(s: seq<Item>, i: nat) {
    && i + 1 < |s| && s[i].Heard? && s[i + 1].Heard? && Matches(s[i].m, s[i + 1].m)
    && !(i > 0 && Paired(s, i - 1))
  }

  // What the item at `i` gives to port_synchronize.
  function CallAt(s: seq<Item>, i: nat): Option<Call>
    requires i < |s|
  {
    if s[i].Gap? then None
    else if OneStep(s[i].m) then Some(SingleCall(s[i].m))
    else if i > 0 && Paired(s, i - 1) then Some(MatchCall(s[i - 1].m, s[i].m))
    else None
  }

  function CallsTo(s: seq<Item>, n: nat): seq<Call>
    requires n <= |s|
  {
    if n == 0 then []
    else CallsTo(s, n - 1) + (if CallAt(s, n - 1) == None then [] else [CallAt(s, n - 1).value])
  }

  // The message waiting for its partner after `n` items.
  function WaitingAfter(s: seq<Item>, n: nat): Option<Message>
    requires n <= |s|
  {
    if n == 0 || s[n - 1].Gap? || CallAt(s, n - 1) != None then None else Some(s[n - 1].m)
  }

  lemma {:induction false} PairedPrefix(s: seq<Item>, r: seq<Item>, i: nat)
    requires s <= r && i + 1 < |s|
    ensures Paired(s, i) == Paired(r, i)
  {
    if i > 0 {
      PairedPrefix(s, r, i - 1);
    }
  }

  lemma {:induction false} CallsPrefix(s: seq<Item>, r: seq<Item>, n: nat)
    requires s <= r && n <= |s|
    ensures CallsTo(s, n) == CallsTo(r, n) && WaitingAfter(s, n) == WaitingAfter(r, n)
  {
    if n > 0 {
      CallsPrefix(s, r, n - 1);
      if n > 1 {
        PairedPrefix(s, r, n - 2);
      }
    }
  }

  // Every call for a pair joins two neighbours in the stream with one sequence number, a Sync that is
  // not one-step and a Follow_Up, and no message is used twice.
  lemma PairsAreDisjoint(s: seq<Item>, i: nat)
    requires Paired(s, i)
    ensures !Paired(s, i + 1)
    ensures s[i].m.seqId == s[i + 1].m.seqId && s[i].m.kind != s[i + 1].m.kind
    ensures CallAt(s, i) == None
    ensures CallAt(s, i + 1) == Some(MatchCall(s[i].m, s[i + 1].m))
  {
  }

  // The call at `i` takes its values from these two messages and from no other, or from a one-step Sync.
  ghost predicate Explained(s: seq<Item>, i: nat, c: Call) {
    && i < |s| && s[i].Heard?
    && if OneStep(s[i].m) then c == SingleCall(s[i].m)
       else
         && i > 0 && s[i - 1].Heard?
         && var sync := if s[i].m.kind == Sync then s[i].m else s[i - 1].m;
            var fup := if s[i].m.kind == Sync then s[i - 1].m else s[i].m;
            && sync.kind == Sync && fup.kind == FollowUp && !sync.oneStep && c.seqId == sync.seqId == fup.seqId
            && c.ingress == sync.ingress && c.origin == fup.origin
            && c.correction1 == sync.correction && c.correction2 == fup.correction
  }

  // The first of the messages that a call at `i` uses.
  ghost function UsedFrom(s: seq<Item>, i: nat): int
    requires i < |s|
  {
    if s[i].Heard? && OneStep(s[i].m) then i else i - 1
  }

  // A call that is not for a one-step Sync is for a pair.
  lemma CallIsPair(s: seq<Item>, i: nat)
    requires i < |s| && CallAt(s, i) != None && !OneStep(s[i].m)
    ensures i > 0 && Paired(s, i - 1) && Explained(s, i, CallAt(s, i).value)
  {
  }

  // Over a whole stream every call is explained by messages of one sequence number that came one after the
  // other, and no two calls use the same message.
  lemma {:induction false} EveryCallIsExplained(s: seq<Item>, n: nat) returns (places: seq<nat>)
    requires n <= |s|
    ensures |places| == |CallsTo(s, n)|
    ensures forall k :: 0 <= k < |places| ==>
              && places[k] < n && CallAt(s, places[k]) == Some(CallsTo(s, n)[k])
              && Explained(s, places[k], CallsTo(s, n)[k])
    ensures forall j, k :: 0 <= j < k < |places| ==> places[j] < UsedFrom(s, places[k])
  {
    places := [];
    if n > 0 {
      places := EveryCallIsExplained(s, n - 1);
      var i := n - 1;
      if CallAt(s, i) != None {
        if !OneStep(s[i].m) {
          CallIsPair(s, i);
          PairsAreDisjoint(s, i - 1);
        }
        places := places + [i];
      }
    }
  }

  // The items come in matching neighbours, in either order each.
  ghost predicate InPairs(s: seq<Item>) {
    && |s| % 2 == 0
    && forall i :: 0 <= i < |s| && i % 2 == 0 ==> s[i].Heard? && s[i + 1].Heard? && Matches(s[i].m, s[i + 1].m)
  }

  lemma {:induction false} PairsAtEvenPlaces(s: seq<Item>, i: nat)
    requires InPairs(s) && i < |s|
    ensures Paired(s, i) <==> i % 2 == 0
  {
    if i > 0 {
      PairsAtEvenPlaces(s, i - 1);
    }
  }

  // A stream that comes in pairs loses none of them.
  lemma {:induction false} NoPairIsLost(s: seq<Item>, k: nat)
    requires InPairs(s) && 2 * k <= |s|
    ensures |CallsTo(s, 2 * k)| == k
    ensures forall j :: 0 <= j < k ==> CallsTo(s, 2 * k)[j] == MatchCall(s[2 * j].m, s[2 * j + 1].m)
    ensures WaitingAfter(s, 2 * k) == None
  {
    if k > 0 {
      NoPairIsLost(s, k - 1);
      PairsAtEvenPlaces(s, 2 * k - 2);
      PairsAreDisjoint(s, 2 * k - 2);
    }
  }

  // When the Syncs of two pairs arrive before their Follow_Ups, both pairs are lost.
  lemma OverlappingPairsAreLost(s1: Message, s2: Message, f1: Message, f2: Message)
    requires Matches(s1, f1) && Matches(s2, f2) && s1.kind == s2.kind == Sync && s1.seqId != s2.seqId
    ensures CallsTo([Heard(s1), Heard(s2), Heard(f1), Heard(f2)], 4) == []
  {
    var s := [Heard(s1), Heard(s2), Heard(f1), Heard(f2)];
    assert !Paired(s, 0) && !Paired(s, 1) && !Paired(s, 2);
    assert CallAt(s, 0) == None && CallAt(s, 1) == None && CallAt(s, 2) == None && CallAt(s, 3) == None;
    assert CallsTo(s, 1) == [] && CallsTo(s, 2) == [] && CallsTo(s, 3) == [];
  }

  // One more item.
  lemma OneMore(s: seq<Item>, x: Item)
    ensures CallsTo(s + [x], |s| + 1) == CallsTo(s, |s|) +
            (if CallAt(s + [x], |s|) == None then [] else [CallAt(s + [x], |s|).value])
    ensures x.Heard? && !OneStep(x.m) ==>
              var h := WaitingAfter(s, |s|);
              CallAt(s + [x], |s|) == if h != None && Matches(h.value, x.m) then Some(MatchCall(h.value, x.m)) else None
    ensures WaitingAfter(s + [x], |s| + 1) ==
            if x.Gap? || CallAt(s + [x], |s|) != None then None else Some(x.m)
  {
    CallsPrefix(s, s + [x], |s|);
    if |s| > 0 {
      assert (s + [x])[|s| - 1] == s[|s| - 1];
    }
  }

  // Sync then Follow_Up, or Follow_Up then Sync, when nothing waits: one call with the same values, and
  // again nothing waits.  Only the interval is that of the message that came last; and a Follow_Up
  // whose software time stamp is older than the Sync's only finds its Sync when it comes second.
  lemma EitherOrder(s: seq<Item>, sync: Message, fup: Message)
    requires WaitingAfter(s, |s|) == None
    requires sync.kind == Sync && fup.kind == FollowUp && sync.seqId == fup.seqId && !OneStep(sync)
    ensures var r := s + [Heard(sync)] + [Heard(fup)];
            && CallsTo(r, |r|) == CallsTo(s, |s|) + [PairCall(sync, fup).(syncInterval := fup.logInterval)]
            && WaitingAfter(r, |r|) == None
    ensures var r := s + [Heard(fup)] + [Heard(sync)];
            if fup.software >= sync.software then
              && CallsTo(r, |r|) == CallsTo(s, |s|) + [PairCall(sync, fup).(syncInterval := sync.logInterval)]
              && WaitingAfter(r, |r|) == None
            else
              CallsTo(r, |r|) == CallsTo(s, |s|) && WaitingAfter(r, |r|) == Some(sync)
  {
    OneMore(s, Heard(sync));
    OneMore(s + [Heard(sync)], Heard(fup));
    OneMore(s, Heard(fup));
    OneMore(s + [Heard(fup)], Heard(sync));
  }

  // ---- the state machine ----

  datatype SyfuState = SfEmpty | SfHaveSync | SfHaveFup
  datatype SyfuEvent = SyncMismatch | SyncMatch | FupMismatch | FupMatch

  class SyncPort {
    const asymmetry: int
    const ignoreSourceId: bool
    const followUpInfo: bool
    var state: PortState
    var parent: PortIdentity
    var logSyncInterval: int
    var syfu: SyfuState
    var lastSyncFup: Option<Message>
    // The accepted messages since the port was made, whom they came from, and the calls made.
    ghost var heard: seq<Item>
    ghost var parents: seq<PortIdentity>
    ghost var calls: seq<Call>

    ghost predicate Shape()
      reads this
    {
      match syfu
      case SfEmpty => true
      case SfHaveSync => lastSyncFup.Some? && lastSyncFup.value.kind == Sync && !OneStep(lastSyncFup.value)
      case SfHaveFup => lastSyncFup.Some? && lastSyncFup.value.kind == FollowUp
    }

    ghost function Held(): Option<Message>
      reads this
    {
      if syfu == SfEmpty then None else lastSyncFup
    }

    ghost predicate Valid()
      reads this
    {
      && Shape()
      && Held() == WaitingAfter(heard, |heard|) && calls == CallsTo(heard, |heard|)
      && |parents| == |heard|
      && (forall i :: 0 <= i < |heard| && heard[i].Heard? && !ignoreSourceId ==> heard[i].m.source == parents[i])
    }

    constructor (asymmetry: int, ignoreSourceId: bool, followUpInfo: bool, parent: PortIdentity, logSyncInterval: int)
      ensures Valid() && heard == [] && this.parent == parent && state == StateDecision.Initializing
      ensures this.asymmetry == asymmetry && this.ignoreSourceId == ignoreSourceId && this.followUpInfo == followUpInfo
    {
      this.asymmetry := asymmetry;
      this.ignoreSourceId := ignoreSourceId;
      this.followUpInfo := followUpInfo;
      this.parent := parent;
      this.logSyncInterval := logSyncInterval;
      state := StateDecision.Initializing;
      syfu := SfEmpty;
      lastSyncFup := None;
      heard, parents, calls := [], [], [];
    }

    // The port follows a master, and `m` comes from it.
    predicate Accepts(m: Message)
      reads this
    {
      && (state == StateDecision.Uncalibrated || state == StateDecision.Slave)
      && (ignoreSourceId || parent == m.source)
    }

    // The clock selects another parent; the port is not told.
    method NewParent(parent: PortIdentity)
      requires Valid()
      modifies this`parent
      ensures Valid() && this.parent == parent
    {
      this.parent := parent;
    }

    // flush_last_sync
    method FlushLastSync()
      requires Shape()
      modifies this`syfu
      ensures Shape() && Held() == None
    {
      if syfu != SfEmpty {
        syfu := SfEmpty;
      }
    }

    // port_e2e_transition and port_p2p_transition, and port_disable
    method Transition(next: PortState)
      requires Valid()
      modifies this`state, this`syfu, this`heard, this`parents, this`calls
      ensures Valid() && state == next
      ensures heard == if next.Faulty? || next.Disabled? || next.Uncalibrated? then old(heard) + [Gap] else old(heard)
      ensures calls == old(calls)
    {
      state := next;
      if next.Faulty? || next.Disabled? || next.Uncalibrated? {
        FlushLastSync();
        Record(Gap, None);
      }
    }

    // The machine has dealt with `x`.
    ghost method Record(x: Item, call: Option<Call>)
      requires Shape() && calls == CallsTo(heard, |heard|) && |parents| == |heard|
      requires call == CallAt(heard + [x], |heard|) && Held() == WaitingAfter(heard + [x], |heard| + 1)
      requires forall i :: 0 <= i < |heard| && heard[i].Heard? && !ignoreSourceId ==> heard[i].m.source == parents[i]
      requires x.Heard? && !ignoreSourceId ==> x.m.source == parent
      modifies this`heard, this`parents, this`calls
      ensures Valid() && heard == old(heard) + [x]
      ensures calls == old(calls) + if call == None then [] else [call.value]
    {
      OneMore(heard, x);
      heard, parents := heard + [x], parents + [parent];
      calls := calls + if call == None then [] else [call.value];
    }

    // port_syfufsm
    method PortSyfuFsm(event: SyfuEvent, m: Message) returns (call: Option<Call>)
      requires Shape() && !OneStep(m)
      requires m.kind == if event.SyncMismatch? || event.SyncMatch? then Sync else FollowUp
      requires event.SyncMatch? ==> syfu == SfHaveFup && lastSyncFup.value.seqId == m.seqId
      requires event.FupMatch? ==> syfu == SfHaveSync && lastSyncFup.value.seqId == m.seqId
      modifies this`syfu, this`lastSyncFup
      ensures Shape()
      ensures event.SyncMismatch? || event.FupMismatch? ==> Held() == Some(m) && call == None
      ensures event.SyncMatch? || event.FupMatch? ==>
                Held() == None && call == Some(MatchCall(old(lastSyncFup.value), m))
    {
      call := None;
      match syfu {
        case SfEmpty =>
          match event {
            case SyncMismatch => syfu, lastSyncFup := SfHaveSync, Some(m);
            case FupMismatch => syfu, lastSyncFup := SfHaveFup, Some(m);
            case _ =>
          }
        case SfHaveSync =>
          match event {
            case SyncMismatch => lastSyncFup := Some(m);
            case FupMismatch => syfu, lastSyncFup := SfHaveFup, Some(m);
            case FupMatch =>
              var syn := lastSyncFup.value;
              call := Some(Call(syn.seqId, syn.ingress, m.origin, syn.correction, m.correction, m.logInterval));
              syfu := SfEmpty;
            case SyncMatch =>
          }
        case SfHaveFup =>
          match event {
            case SyncMismatch => syfu, lastSyncFup := SfHaveSync, Some(m);
            case SyncMatch =>
              var fup := lastSyncFup.value;
              call := Some(Call(fup.seqId, m.ingress, fup.origin, m.correction, fup.correction, m.logInterval));
              syfu := SfEmpty;
            case FupMismatch => lastSyncFup := Some(m);
            case FupMatch =>
          }
      }
    }

    // process_follow_up
    method ProcessFollowUp(m: Message) returns (call: Option<Call>)
      requires Valid() && m.kind == FollowUp
      modifies this`syfu, this`lastSyncFup, this`heard, this`parents, this`calls
      ensures Valid()
      ensures var follows := state == StateDecision.Uncalibrated || state == StateDecision.Slave;
              var trusted := ignoreSourceId || m.source == parent;
              heard == if follows && trusted && (followUpInfo ==> m.followUpInfo) then old(heard) + [Heard(m)]
                       else old(heard)
      ensures calls == old(calls) + if call == None then [] else [call.value]
      ensures call == if heard == old(heard) then None else CallAt(heard, |heard| - 1)
    {
      if !Accepts(m) {
        return None;
      }
      if followUpInfo && !m.followUpInfo {
        return None;
      }
      hide CallsTo, Paired, CallAt, WaitingAfter;
      OneMore(heard, Heard(m));
      var event := if syfu == SfHaveSync && lastSyncFup.value.seqId == m.seqId then FupMatch else FupMismatch;
      call := PortSyfuFsm(event, m);
      Record(Heard(m), call);
    }

    // process_sync
    method ProcessSync(m: Message) returns (call: Option<Call>)
      requires Valid() && m.kind == Sync
      modifies this`syfu, this`lastSyncFup, this`logSyncInterval, this`heard, this`parents, this`calls
      ensures Valid()
      ensures var follows := state == StateDecision.Uncalibrated || state == StateDecision.Slave;
              var trusted := ignoreSourceId || m.source == parent;
              && heard == (if follows && trusted then old(heard) + [Heard(m.(correction := m.correction + asymmetry))]
                           else old(heard))
              && logSyncInterval == (if follows && trusted && !m.unicast then m.logInterval else old(logSyncInterval))
      ensures calls == old(calls) + if call == None then [] else [call.value]
      ensures call == if heard == old(heard) then None else CallAt(heard, |heard| - 1)
    {
      if !Accepts(m) {
        return None;
      }
      if !m.unicast && m.logInterval != logSyncInterval {
        logSyncInterval := m.logInterval;
      }
      var sync := m.(correction := m.correction + asymmetry);
      OneMore(heard, Heard(sync));
      hide CallsTo, Paired, Matches;
      if sync.oneStep {
        call := Some(Call(sync.seqId, sync.ingress, sync.origin, sync.correction, 0, sync.logInterval));
        FlushLastSync();
      } else {
        var event := if syfu == SfHaveFup && FupSyncOk(lastSyncFup.value, sync) && lastSyncFup.value.seqId == sync.seqId
                     then SyncMatch else SyncMismatch;
        call := PortSyfuFsm(event, sync);
      }
      Record(Heard(sync), call);
    }

    // A pair joins messages of two senders exactly when the parent changed between them.
    lemma PairIsFromOneSource(i: nat)
      requires Valid() && !ignoreSourceId && Paired(heard, i)
      ensures heard[i].m.source == heard[i + 1].m.source <==> parents[i] == parents[i + 1]
    {
    }
  }
}
