/** The functions of `tc.c` that work on messages and ports in place: what they send, that they leave
  every stored correction as they found it, and that reference counts stay balanced.
 */
module Forwarding {
  import opened Prelude
  import opened TransparentClock
  import StateDecision

  type PortState = StateDecision.PortState

  // What transport_send is given: the message and the correction it carries at that moment.
  datatype Sent = Sent(msg: Message, correction: int)

  ghost function Messages(list: seq<Txd>): (s: seq<Message>)
    ensures |s| == |list| && forall i :: 0 <= i < |list| ==> s[i] == list[i].msg
  {
    seq(|list|, i requires 0 <= i < |list| => list[i].msg)
  }

  // How many entries of the list point to `m`.
  ghost function Pending(list: seq<Txd>, m: Message): nat {
    multiset(Messages(list))[m]
  }

  lemma PendingAppend(list: seq<Txd>, x: Txd, m: Message)
    ensures Pending(list + [x], m) == Pending(list, m) + if m == x.msg then 1 else 0
  {
    assert Messages(list + [x]) == Messages(list) + [x.msg];
  }

  lemma PendingDrop(list: seq<Txd>, k: nat, m: Message)
    requires k < |list|
    ensures Pending(Drop(list, k), m) == Pending(list, m) - if m == list[k].msg then 1 else 0
  {
    assert Messages(Drop(list, k)) == Drop(Messages(list), k);
  }

  lemma PendingListed(list: seq<Txd>, k: nat)
    requires k < |list|
    ensures Pending(list, list[k].msg) > 0
  {
    assert Messages(list)[k] in multiset(Messages(list));
  }

  class TcPort {
    const number: nat
    const spanningTree: bool
    const domain: nat
    var state: PortState
    var peerDelay: int
    var asymmetry: int
    var transmitted: seq<Txd>
  }

  // tc_blocked
  predicate Blocked(q: TcPort, p: TcPort, mtype: MessageType, domain: nat)
    reads q`state, p`state
  {
    if q == p then true
    else if p.number == 0 then true
    else if !q.spanningTree then false
    else if domain != p.domain then false
    else
      match q.state {
        case Initializing | Faulty | Disabled | Listening | PreMaster | Passive => true
        case Master | GrandMaster => mtype != DelayReq || EgressBlocked(p.state, mtype)
        case Uncalibrated | Slave => EgressBlocked(p.state, mtype)
      }
  }

  predicate EgressBlocked(s: PortState, mtype: MessageType) {
    match s
    case Initializing | Faulty | Disabled | Listening | PreMaster | Passive => true
    case Uncalibrated | Slave => mtype != DelayReq
    case Master | GrandMaster => mtype == DelayReq
  }

  predicate TowardsMaster(p: TcPort)
    reads p`state
  {
    p.state.Uncalibrated? || p.state.Slave?
  }

  predicate TowardsSlaves(p: TcPort)
    reads p`state
  {
    p.state.Master? || p.state.GrandMaster?
  }

  // Nothing goes back to where it came from, or to the port of the local socket.  Without a spanning tree, or into
  // another domain, everything else passes; along the spanning tree of its domain time flows from the port towards
  // the master to the ports towards the slaves, and delay requests only towards the master.
  lemma FlowOfTime(q: TcPort, p: TcPort, mtype: MessageType, domain: nat)
    ensures !Blocked(q, p, mtype, domain) <==>
            && q != p && p.number != 0
            && (q.spanningTree && domain == p.domain ==>
                  if mtype == DelayReq then TowardsMaster(p) && (TowardsMaster(q) || TowardsSlaves(q))
                  else TowardsMaster(q) && TowardsSlaves(p))
  {
  }

  // The correction a released Follow_Up is sent with.
  function FollowUpCorrection(original: int, residence: int, peerDelay: int, asymmetry: int): int {
    original + ToTimeInterval(residence) + ToTimeInterval(peerDelay) + asymmetry
  }

  ghost function Lists(ports: seq<TcPort>): (r: seq<seq<Txd>>)
    reads ports`transmitted
    ensures |r| == |ports| && forall i :: 0 <= i < |ports| ==> r[i] == ports[i].transmitted
  {
    if ports == [] then [] else [ports[0].transmitted] + Lists(ports[1..])
  }

  ghost function PendingIn(lists: seq<seq<Txd>>, m: Message): nat {
    if lists == [] then 0 else Pending(lists[0], m) + PendingIn(lists[1..], m)
  }

  lemma {:induction false} PendingInUpdate(lists: seq<seq<Txd>>, k: nat, list: seq<Txd>, m: Message)
    requires k < |lists|
    ensures PendingIn(lists[k := list], m) - PendingIn(lists, m) == Pending(list, m) - Pending(lists[k], m)
  {
    if k == 0 {
      assert lists[k := list][1..] == lists[1..];
    } else {
      PendingInUpdate(lists[1..], k - 1, list, m);
      assert lists[k := list][1..] == lists[1..][k - 1 := list];
    }
  }

  // Every reference to a message is held by somebody outside or by a pending entry of some port.
  ghost predicate Balanced(ports: seq<TcPort>, live: set<Message>, outside: map<Message, nat>)
    reads ports`transmitted, live`refcnt
  {
    && outside.Keys == live
    && (forall p, k :: p in ports && 0 <= k < |p.transmitted| ==> p.transmitted[k].msg in live)
    && (forall m :: m in live ==> m.refcnt == outside[m] + PendingIn(Lists(ports), m))
  }

  // A message that is pending is never given back to the pool.
  lemma PendingIsHeld(ports: seq<TcPort>, live: set<Message>, outside: map<Message, nat>, p: nat, k: nat)
    requires Balanced(ports, live, outside) && p < |ports| && k < |ports[p].transmitted|
    ensures ports[p].transmitted[k].msg.refcnt >= 1
  {
    var m := ports[p].transmitted[k].msg;
    assert ports[p] in ports;
    PendingListed(ports[p].transmitted, k);
    PendingInUpdate(Lists(ports), p, [], m);
    assert Pending([], m) == 0;
  }

  // Every reference is accounted for by `base` or by an entry of the port's list.
  ghost predicate Counted(p: TcPort, live: set<Message>, base: map<Message, int>)
    reads p`transmitted, live`refcnt
  {
    && base.Keys == live
    && (forall k :: 0 <= k < |p.transmitted| ==> p.transmitted[k].msg in live)
    && (forall m :: m in live ==> m.refcnt == base[m] + Pending(p.transmitted, m))
  }

  // The references that do not come from the list at `k`.
  ghost function Elsewhere(lists: seq<seq<Txd>>, k: nat, outside: map<Message, nat>): (base: map<Message, int>)
    requires k < |lists|
    ensures base.Keys == outside.Keys
  {
    map m | m in outside :: outside[m] + PendingIn(lists, m) - Pending(lists[k], m)
  }

  lemma CountedPort(ports: seq<TcPort>, k: nat, live: set<Message>, outside: map<Message, nat>)
    requires Balanced(ports, live, outside) && k < |ports|
    ensures Counted(ports[k], live, Elsewhere(Lists(ports), k, outside))
  {
    assert ports[k] in ports;
  }

  // A step that accounts for the references from one port keeps the balance.
  lemma StillBalanced(ports: seq<TcPort>, k: nat, live: set<Message>, outside: map<Message, nat>, lists: seq<seq<Txd>>)
    requires |lists| == |ports| && k < |ports| && outside.Keys == live
    requires Counted(ports[k], live, Elsewhere(lists, k, outside))
    requires forall j :: 0 <= j < |ports| && j != k ==> ports[j].transmitted == lists[j]
    requires forall j, i :: 0 <= j < |lists| && 0 <= i < |lists[j]| ==> lists[j][i].msg in live
    ensures Balanced(ports, live, outside)
  {
    assert Lists(ports) == lists[k := ports[k].transmitted];
    forall m | m in live
      ensures m.refcnt == outside[m] + PendingIn(Lists(ports), m)
    {
      PendingInUpdate(lists, k, ports[k].transmitted, m);
    }
  }

  lemma CountedMember(p: TcPort, live: set<Message>, base: map<Message, int>)
    requires Counted(p, live, base)
    ensures forall k :: 0 <= k < |p.transmitted| ==> p.transmitted[k].msg in live
  {
  }

  lemma CompletedOutcome(list: seq<Txd>, ingress: nat, msg: Message, residence: int)
    ensures var k := FindSyFup(list, ingress, msg);
            Completed(list, ingress, msg, residence) ==
            if k == |list| then list + [Txd(msg, residence, ingress)] else Drop(list, k)
  {
  }

  // msg_get
  method MsgGet(m: Message)
    modifies m`refcnt
    ensures m.refcnt == old(m.refcnt) + 1
  {
    m.refcnt := m.refcnt + 1;
  }

  // msg_put, without the recycling of a message nobody refers to any more
  method MsgPut(m: Message)
    modifies m`refcnt
    ensures m.refcnt == old(m.refcnt) - 1
  {
    m.refcnt := m.refcnt - 1;
  }

  // Remember `msg` on the port `p` (the end of tc_complete_request, and of tc_complete_syfup without a match).
  method Stash(p: TcPort, msg: Message, residence: int, ingress: nat, ghost live: set<Message>,
               ghost base: map<Message, int>)
    requires msg in live && Counted(p, live, base)
    modifies p`transmitted, msg`refcnt
    ensures p.transmitted == old(p.transmitted) + [Txd(msg, residence, ingress)]
    ensures Counted(p, live, base)
  {
    MsgGet(msg);
    p.transmitted := p.transmitted + [Txd(msg, residence, ingress)];
    forall m | m in live
      ensures Pending(p.transmitted, m) == Pending(old(p.transmitted), m) + if m == msg then 1 else 0
    {
      PendingAppend(old(p.transmitted), Txd(msg, residence, ingress), m);
    }
  }

  // Remove an entry and give up its reference.
  method Unlink(p: TcPort, k: nat, ghost live: set<Message>, ghost base: map<Message, int>)
    requires k < |p.transmitted| && Counted(p, live, base)
    modifies p`transmitted, p.transmitted[k].msg`refcnt
    ensures p.transmitted == Drop(old(p.transmitted), k)
    ensures Counted(p, live, base)
  {
    var txd := p.transmitted[k];
    p.transmitted := p.transmitted[..k] + p.transmitted[k + 1..];
    MsgPut(txd.msg);
    forall m | m in live
      ensures Pending(p.transmitted, m) == Pending(old(p.transmitted), m) - if m == txd.msg then 1 else 0
    {
      PendingDrop(old(p.transmitted), k, m);
    }
  }

  // Send `msg` with another correction and put the original back.
  method SendCorrected(msg: Message, correction: int) returns (sent: Sent)
    modifies msg`correction
    ensures sent == Sent(msg, correction) && msg.correction == old(msg.correction)
  {
    var c1 := msg.correction;
    msg.correction := correction;
    sent := Sent(msg, msg.correction);
    msg.correction := c1;
  }

  // tc_complete_syfup
  method CompleteSyFup(q: TcPort, p: TcPort, msg: Message, residence: int, ghost live: set<Message>,
                       ghost base: map<Message, int>)
    returns (sent: Option<Sent>)
    requires msg in live && (msg.mtype == Sync || msg.mtype == FollowUp) && Counted(p, live, base)
    modifies p`transmitted, live`refcnt, live`correction
    ensures p.transmitted == Completed(old(p.transmitted), q.number, msg, residence)
    ensures Counted(p, live, base)
    ensures forall m :: m in live ==> m.correction == old(m.correction)
    ensures var o := Outcome(old(p.transmitted), q.number, msg, residence);
            && (o.Held? ==> sent == None)
            && (o.Released? ==>
                  sent == Some(Sent(o.fup, FollowUpCorrection(old(o.fup.correction), o.residence, q.peerDelay,
                                                              q.asymmetry))))
  {
    hide Counted, FollowUpCorrection, Completed, Pending, FindSyFup, MatchSyFup;
    CountedMember(p, live, base);
    CompletedOutcome(p.transmitted, q.number, msg, residence);
    var list := p.transmitted;
    var k := 0;
    var mtch := Mismatch;
    while k < |list|
      invariant 0 <= k <= |list| && mtch == Mismatch
      invariant k <= FindSyFup(list, q.number, msg)
    {
      mtch := MatchSyFup(q.number, msg, list[k]);
      if mtch != Mismatch {
        break;
      }
      k := k + 1;
    }
    if mtch == Mismatch {
      Stash(p, msg, residence, q.number, live, base);
      return None;
    }
    var fup, r := if mtch == SyncFup then msg else list[k].msg,
        if mtch == SyncFup then list[k].residence else residence;
    var s := SendCorrected(fup, FollowUpCorrection(fup.correction, r, q.peerDelay, q.asymmetry));
    Unlink(p, k, live, base);
    return Some(s);
  }

  // tc_complete_response: the answer to a request that went out through `q` goes back through `p`.
  method CompleteResponse(q: TcPort, p: TcPort, resp: Message, ghost live: set<Message>, ghost base: map<Message, int>)
    returns (sent: Option<Sent>)
    requires resp in live && Counted(q, live, base)
    modifies q`transmitted, live`refcnt, live`correction
    ensures q.transmitted == Answered(old(q.transmitted), p.number, resp)
    ensures Counted(q, live, base)
    ensures forall m :: m in live ==> m.correction == old(m.correction)
    ensures var k := FindDelay(old(q.transmitted), p.number, resp);
            sent == if k == |old(q.transmitted)| then None
                    else Some(Sent(resp, old(resp.correction) + ToTimeInterval(old(q.transmitted)[k].residence)))
  {
    hide Counted, ToTimeInterval, Pending;
    CountedMember(q, live, base);
    var list := q.transmitted;
    var k := 0;
    while k < |list| && MatchDelay(p.number, resp, list[k]) != DelayReqResp
      invariant 0 <= k <= FindDelay(list, p.number, resp)
    {
      k := k + 1;
    }
    if k == |list| {
      return None;
    }
    var s := SendCorrected(resp, resp.correction + ToTimeInterval(list[k].residence));
    Unlink(q, k, live, base);
    return Some(s);
  }

  // tc_prune
  method Prune(p: TcPort, now: int, ghost live: set<Message>, ghost base: map<Message, int>)
    requires Counted(p, live, base)
    modifies p`transmitted, live`refcnt, live`correction
    ensures p.transmitted == Pruned(old(p.transmitted), now)
    ensures Counted(p, live, base)
    ensures forall m :: m in live ==> m.correction == old(m.correction)
  {
    while p.transmitted != []
      invariant Pruned(p.transmitted, now) == Pruned(old(p.transmitted), now)
      invariant Counted(p, live, base)
      invariant forall m :: m in live ==> m.correction == old(m.correction)
      decreases |p.transmitted|
    {
      if Current(p.transmitted[0].msg, now) {
        break;
      }
      ghost var list := p.transmitted;
      Unlink(p, 0, live, base);
      assert p.transmitted == list[1..];
    }
  }

  // tc_flush
  method Flush(p: TcPort, ghost live: set<Message>, ghost base: map<Message, int>)
    requires Counted(p, live, base)
    modifies p`transmitted, live`refcnt, live`correction
    ensures p.transmitted == []
    ensures Counted(p, live, base)
    ensures forall m :: m in live ==> m.correction == old(m.correction)
  {
    while p.transmitted != []
      invariant Counted(p, live, base)
      invariant forall m :: m in live ==> m.correction == old(m.correction)
      decreases |p.transmitted|
    {
      Unlink(p, 0, live, base);
    }
  }

  // ---- forwarding to every port ----

  // The residence time of an event message, in the units of the grandmaster.
  function Residence(ingress: int, egress: int, rateRatio: real): int {
    if rateRatio == 1.0 then egress - ingress else TruncReal((egress - ingress) as real * rateRatio)
  }

  // The lists of all ports after a Sync, Follow_Up or delay request from the ingress port `q` has been dealt with.
  ghost function ForwardedLists(lists: seq<seq<Txd>>, blocked: seq<bool>, ingress: nat, msg: Message,
                                residences: seq<int>)
    : (r: seq<seq<Txd>>)
    requires |lists| == |blocked| == |residences|
    ensures |r| == |lists|
    ensures forall i :: 0 <= i < |lists| ==>
              r[i] == if blocked[i] then lists[i] else Completed(lists[i], ingress, msg, residences[i])
  {
    seq(|lists|, i requires 0 <= i < |lists| =>
          if blocked[i] then lists[i] else Completed(lists[i], ingress, msg, residences[i]))
  }

  // What each port sends.
  ghost function Releases(lists: seq<seq<Txd>>, blocked: seq<bool>, ingress: nat, msg: Message, residences: seq<int>)
    : (r: seq<Release>)
    requires |lists| == |blocked| == |residences|
    ensures |r| == |lists|
    ensures forall i :: 0 <= i < |lists| ==>
              r[i] == if blocked[i] then Held else Outcome(lists[i], ingress, msg, residences[i])
  {
    seq(|lists|, i requires 0 <= i < |lists| =>
          if blocked[i] then Held else Outcome(lists[i], ingress, msg, residences[i]))
  }

  // A Sync and its Follow_Up, in either order, through every port: the same Follow_Up leaves every
  // port that is not blocked, each with its own residence time, and nothing stays behind.
  lemma EitherOrderEverywhere(lists: seq<seq<Txd>>, blocked: seq<bool>, ingress: nat, sync: Message, fup: Message,
                              residences: seq<int>, zeros: seq<int>)
    requires |lists| == |blocked| == |residences| == |zeros|
    requires forall i :: 0 <= i < |zeros| ==> zeros[i] == 0
    requires Pair(sync, fup)
    requires forall i :: 0 <= i < |lists| && !blocked[i] ==>
               NothingPending(lists[i], ingress, sync) && NothingPending(lists[i], ingress, fup)
    ensures var s := ForwardedLists(lists, blocked, ingress, sync, residences);
            var f := ForwardedLists(lists, blocked, ingress, fup, zeros);
            && ForwardedLists(s, blocked, ingress, fup, zeros) == lists
            && ForwardedLists(f, blocked, ingress, sync, residences) == lists
            && Releases(s, blocked, ingress, fup, zeros) == Releases(f, blocked, ingress, sync, residences)
            && forall i :: 0 <= i < |lists| ==>
                 Releases(s, blocked, ingress, fup, zeros)[i] == if blocked[i] then Held
                     else Released(fup, residences[i])
  {
    hide Completed, Outcome, NothingPending, Pair;
    forall i | 0 <= i < |lists| && !blocked[i]
      ensures Completed(Completed(lists[i], ingress, sync, residences[i]), ingress, fup, 0) == lists[i]
      ensures Completed(Completed(lists[i], ingress, fup, 0), ingress, sync, residences[i]) == lists[i]
      ensures Outcome(Completed(lists[i], ingress, sync, residences[i]), ingress, fup, 0) ==
              Released(fup, residences[i])
      ensures Outcome(Completed(lists[i], ingress, fup, 0), ingress, sync, residences[i]) ==
              Released(fup, residences[i])
    {
      EitherOrder(lists[i], ingress, sync, fup, residences[i]);
    }
  }

  // Whether a port is blocked is the same question for a Sync and for its Follow_Up.
  lemma BlockedAlike(q: TcPort, p: TcPort, domain: nat)
    ensures Blocked(q, p, Sync, domain) == Blocked(q, p, FollowUp, domain)
  {
  }

  ghost function BlockedPorts(q: TcPort, ports: seq<TcPort>, mtype: MessageType, domain: nat): (r: seq<bool>)
    reads q`state, ports`state
    ensures |r| == |ports| && forall i :: 0 <= i < |ports| ==> r[i] == Blocked(q, ports[i], mtype, domain)
  {
    if ports == [] then [] else [Blocked(q, ports[0], mtype, domain)] + BlockedPorts(q, ports[1..], mtype, domain)
  }

  // Every message carries the correction it has in `corrections`.
  ghost predicate Unaltered(live: set<Message>, corrections: map<Message, int>)
    reads live`correction
  {
    forall m :: m in live ==> m in corrections && m.correction == corrections[m]
  }

  // What transport_send is given for a release on behalf of the ingress port.
  ghost function Sending(r: Release, corrections: map<Message, int>, peerDelay: int, asymmetry: int): Option<Sent> {
    if r.Released? && r.fup in corrections then
      Some(Sent(r.fup, FollowUpCorrection(corrections[r.fup], r.residence, peerDelay, asymmetry)))
    else None
  }

  lemma ReleasedIsLive(list: seq<Txd>, ingress: nat, msg: Message, residence: int, live: set<Message>)
    requires msg in live && forall k :: 0 <= k < |list| ==> list[k].msg in live
    ensures Outcome(list, ingress, msg, residence).Released? ==> Outcome(list, ingress, msg, residence).fup in live
  {
  }

  // A delay request is stored like a Sync whose Follow_Up has not come yet.
  lemma RequestIsHeld(list: seq<Txd>, ingress: nat, req: Message, residence: int)
    requires req.mtype == DelayReq
    ensures Completed(list, ingress, req, residence) == list + [Txd(req, residence, ingress)]
    ensures Outcome(list, ingress, req, residence) == Held
  {
    assert FindSyFup(list, ingress, req) == |list|;
  }

  // tc_complete for all but responses
  method Complete(q: TcPort, p: TcPort, msg: Message, residence: int, ghost live: set<Message>,
                  ghost base: map<Message, int>)
    returns (sent: Option<Sent>)
    requires msg in live && msg.mtype != DelayResp && Counted(p, live, base)
    modifies p`transmitted, live`refcnt, live`correction
    ensures p.transmitted == Completed(old(p.transmitted), q.number, msg, residence)
    ensures Counted(p, live, base)
    ensures forall m :: m in live ==> m.correction == old(m.correction)
    ensures var o := Outcome(old(p.transmitted), q.number, msg, residence);
            && (o.Held? ==> sent == None)
            && (o.Released? ==>
                  sent == Some(Sent(o.fup, FollowUpCorrection(old(o.fup.correction), o.residence, q.peerDelay,
                                                              q.asymmetry))))
  {
    hide Completed, Counted, FollowUpCorrection, Outcome;
    if msg.mtype == DelayReq {
      RequestIsHeld(p.transmitted, q.number, msg, residence);
      Stash(p, msg, residence, q.number, live, base);
      sent := None;
    } else {
      sent := CompleteSyFup(q, p, msg, residence, live, base);
    }
  }

  // ... on one of several ports
  method CompleteAt(q: TcPort, ports: seq<TcPort>, p: TcPort, ghost i: nat, msg: Message, residence: int,
                    ghost live: set<Message>, ghost outside: map<Message, nat>, ghost corrections: map<Message, int>)
    returns (sent: Option<Sent>)
    requires msg in live && msg.mtype != DelayResp
    requires Distinct(ports) && i < |ports| && p == ports[i] && Balanced(ports, live, outside)
    requires Unaltered(live, corrections)
    modifies p`transmitted, live`refcnt, live`correction
    ensures Balanced(ports, live, outside) && Unaltered(live, corrections)
    ensures p.transmitted == Completed(old(p.transmitted), q.number, msg, residence)
    ensures sent == Sending(Outcome(old(p.transmitted), q.number, msg, residence), corrections, q.peerDelay,
                            q.asymmetry)
  {
    hide Completed, PendingIn, Counted, Elsewhere, FollowUpCorrection, Lists;
    ghost var lists := Lists(ports);
    ghost var base := Elsewhere(lists, i, outside);
    assert forall j :: 0 <= j < |ports| ==> ports[j] in ports;
    CountedPort(ports, i, live, outside);
    ReleasedIsLive(p.transmitted, q.number, msg, residence, live);
    sent := Complete(q, p, msg, residence, live, base);
    StillBalanced(ports, i, live, outside, lists);
  }

  // The first `i` ports have been dealt with.
  ghost predicate ForwardedTo(ports: seq<TcPort>, before: seq<seq<Txd>>, after: seq<seq<Txd>>, i: nat)
    requires |ports| == |before| == |after|
    reads ports`transmitted
  {
    forall j :: 0 <= j < |ports| ==> ports[j].transmitted == if j < i then after[j] else before[j]
  }

  // One turn of the loop over the ports.
  method ForwardAt(q: TcPort, ports: seq<TcPort>, i: nat, msg: Message, residence: int, ghost live: set<Message>,
                   ghost outside: map<Message, nat>, ghost corrections: map<Message, int>, ghost before: seq<seq<Txd>>,
                   ghost after: seq<seq<Txd>>)
    returns (sent: Option<Sent>)
    requires msg in live && msg.mtype != DelayResp
    requires Distinct(ports) && i < |ports| && Balanced(ports, live, outside) && Unaltered(live, corrections)
    requires |ports| == |before| == |after| && ForwardedTo(ports, before, after, i)
    requires after[i] == if Blocked(q, ports[i], msg.mtype, msg.domain) then before[i]
                         else Completed(before[i], q.number, msg, residence)
    modifies ports`transmitted, live`refcnt, live`correction
    ensures Balanced(ports, live, outside) && Unaltered(live, corrections)
    ensures ForwardedTo(ports, before, after, i + 1)
    ensures sent == Sending(if Blocked(q, ports[i], msg.mtype, msg.domain) then Held
                            else Outcome(before[i], q.number, msg, residence),
                            corrections, q.peerDelay, q.asymmetry)
  {
    hide Completed, Outcome, Blocked, Balanced, FollowUpCorrection, Sending, Unaltered;
    var p := ports[i];
    if Blocked(q, p, msg.mtype, msg.domain) {
      SendingHeld(corrections, q.peerDelay, q.asymmetry);
      return None;
    }
    sent := CompleteAt(q, ports, p, i, msg, residence, live, outside, corrections);
  }

  // What is sent, port by port, for the releases.
  ghost predicate SentFor(q: TcPort, releases: seq<Release>, corrections: map<Message, int>, sent: seq<Option<Sent>>)
    reads q`peerDelay, q`asymmetry
  {
    && |sent| <= |releases|
    && forall j :: 0 <= j < |sent| ==> sent[j] == Sending(releases[j], corrections, q.peerDelay, q.asymmetry)
  }

  lemma SentForOneMore(q: TcPort, releases: seq<Release>, corrections: map<Message, int>, sent: seq<Option<Sent>>,
                       s: Option<Sent>)
    requires SentFor(q, releases, corrections, sent) && |sent| < |releases|
    requires s == Sending(releases[|sent|], corrections, q.peerDelay, q.asymmetry)
    ensures SentFor(q, releases, corrections, sent + [s])
  {
  }

  // The loop over the ports.
  method ForwardLoop(q: TcPort, ports: seq<TcPort>, msg: Message, residences: seq<int>, ghost live: set<Message>,
                     ghost outside: map<Message, nat>, ghost corrections: map<Message, int>,
                     ghost before: seq<seq<Txd>>, ghost blocked: seq<bool>)
    returns (sent: seq<Option<Sent>>)
    requires msg in live && msg.mtype != DelayResp
    requires Distinct(ports) && |residences| == |ports| == |before| && Balanced(ports, live, outside)
    requires Unaltered(live, corrections)
    requires blocked == BlockedPorts(q, ports, msg.mtype, msg.domain)
    requires ForwardedTo(ports, before, ForwardedLists(before, blocked, q.number, msg, residences), 0)
    modifies ports`transmitted, live`refcnt, live`correction
    ensures Balanced(ports, live, outside) && Unaltered(live, corrections)
    ensures ForwardedTo(ports, before, ForwardedLists(before, blocked, q.number, msg, residences), |ports|)
    ensures |sent| == |ports|
    ensures SentFor(q, Releases(before, blocked, q.number, msg, residences), corrections, sent)
  {
    hide Completed, Outcome, Blocked, Balanced, Sending, Unaltered, ForwardedTo, BlockedPorts, Lists;
    ghost var after := ForwardedLists(before, blocked, q.number, msg, residences);
    ghost var releases := Releases(before, blocked, q.number, msg, residences);
    sent := [];
    assert SentFor(q, releases, corrections, sent);
    hide SentFor;
    var i := 0;
    while i < |ports|
      invariant 0 <= i <= |ports| && |sent| == i
      invariant Balanced(ports, live, outside) && Unaltered(live, corrections)
      invariant ForwardedTo(ports, before, after, i)
      invariant SentFor(q, releases, corrections, sent)
    {
      var s := ForwardAt(q, ports, i, msg, residences[i], live, outside, corrections, before, after);
      SentForOneMore(q, releases, corrections, sent, s);
      sent := sent + [s];
      i := i + 1;
    }
  }

  // tc_complete on every port that is not blocked: tc_fwd_folup, with residence times of zero, and the
  // second half of tc_fwd_event.
  method CompleteAll(q: TcPort, ports: seq<TcPort>, msg: Message, residences: seq<int>, ghost live: set<Message>,
                     ghost outside: map<Message, nat>, ghost corrections: map<Message, int>)
    returns (sent: seq<Option<Sent>>)
    requires msg in live && msg.mtype != DelayResp
    requires Distinct(ports) && |residences| == |ports| && Balanced(ports, live, outside)
    requires Unaltered(live, corrections)
    modifies ports`transmitted, live`refcnt, live`correction
    ensures Balanced(ports, live, outside) && Unaltered(live, corrections)
    ensures var blocked := old(BlockedPorts(q, ports, msg.mtype, msg.domain));
            var lists := old(Lists(ports));
            && Lists(ports) == ForwardedLists(lists, blocked, q.number, msg, residences)
            && |sent| == |ports|
            && SentFor(q, Releases(lists, blocked, q.number, msg, residences), corrections, sent)
  {
    ghost var lists := Lists(ports);
    ghost var blocked := BlockedPorts(q, ports, msg.mtype, msg.domain);
    assert ForwardedTo(ports, lists, ForwardedLists(lists, blocked, q.number, msg, residences), 0);
    hide Completed, Outcome, Blocked, Balanced, Sending, Unaltered, ForwardedTo, BlockedPorts, Lists, SentFor;
    sent := ForwardLoop(q, ports, msg, residences, live, outside, corrections, lists, blocked);
    ForwardedToAll(ports, lists, ForwardedLists(lists, blocked, q.number, msg, residences));
  }

  lemma ForwardedToAll(ports: seq<TcPort>, before: seq<seq<Txd>>, after: seq<seq<Txd>>)
    requires |ports| == |before| == |after| && ForwardedTo(ports, before, after, |ports|)
    ensures Lists(ports) == after
  {
  }

  lemma SendingHeld(corrections: map<Message, int>, peerDelay: int, asymmetry: int)
    ensures Sending(Held, corrections, peerDelay, asymmetry) == None
  {
  }
}
