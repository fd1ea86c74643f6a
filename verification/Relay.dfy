/** The public functions of `tc.c`, over all ports of the clock: a delay request goes out and its response
  finds the way back, and a one-step Sync leaves as a Sync with a Follow_Up.
 */
module Relay {
  import opened Prelude
  import opened TransparentClock
  import opened Forwarding

  // What transport_send is given for an event message.
  datatype Event = Event(msg: Message, correction: int, twoStep: bool)

  // ---- delay requests and responses ----

  ghost function Numbers(ports: seq<TcPort>): (r: seq<nat>)
    ensures |r| == |ports| && forall i :: 0 <= i < |ports| ==> r[i] == ports[i].number
  {
    seq(|ports|, i requires 0 <= i < |ports| => ports[i].number)
  }

  // The residence time with which the list answers towards the port `egress`.
  ghost function AnswerOf(list: seq<Txd>, egress: nat, resp: Message): Option<int> {
    var k := FindDelay(list, egress, resp);
    if k == |list| then None else Some(list[k].residence)
  }

  // The list of the port a response came in through, after the first `n` ports have been offered it.
  ghost function AnsweredTo(list: seq<Txd>, numbers: seq<nat>, blocked: seq<bool>, n: nat, resp: Message): seq<Txd>
    requires n <= |numbers| == |blocked|
  {
    if n == 0 then list
    else
      var r := AnsweredTo(list, numbers, blocked, n - 1, resp);
      if blocked[n - 1] then r else Answered(r, numbers[n - 1], resp)
  }

  // The residence time with which the port at `i` passes the response on.
  ghost function AnswerAt(list: seq<Txd>, numbers: seq<nat>, blocked: seq<bool>, i: nat, resp: Message): Option<int>
    requires i < |numbers| == |blocked|
  {
    if blocked[i] then None else AnswerOf(AnsweredTo(list, numbers, blocked, i, resp), numbers[i], resp)
  }

  // What is sent for it.
  ghost function Answering(answer: Option<int>, resp: Message, correction: int): Option<Sent> {
    if answer == None then None else Some(Sent(resp, correction + ToTimeInterval(answer.value)))
  }

  // Nobody has asked for this response.
  ghost predicate Unasked(list: seq<Txd>, resp: Message) {
    forall i :: 0 <= i < |list| ==> !Answers(resp, list[i].msg)
  }

  lemma NoAnswer(list: seq<Txd>, egress: nat, resp: Message)
    requires Unasked(list, resp)
    ensures AnswerOf(list, egress, resp) == None && Answered(list, egress, resp) == list
  {
  }

  // With one request at the end, the list answers towards the port it came from and towards no other.
  lemma OneAnswer(list: seq<Txd>, req: Message, residence: int, ingress: nat, egress: nat, resp: Message)
    requires Unasked(list, resp) && Answers(resp, req)
    ensures var r := list + [Txd(req, residence, ingress)];
            && AnswerOf(r, egress, resp) == (if egress == ingress then Some(residence) else None)
            && Answered(r, egress, resp) == if egress == ingress then list else r
  {
    var r := list + [Txd(req, residence, ingress)];
    assert forall i :: 0 <= i < |list| ==> r[i] == list[i];
    assert r[|list|] == Txd(req, residence, ingress);
    RequestAndResponse(list, ingress, req, resp, residence);
    assert FindDelay(r, egress, resp) == if egress == ingress then |list| else |r|;
  }

  // The list while the response is offered to one port after the other.
  lemma {:induction false} OnTheWayBack(list: seq<Txd>, numbers: seq<nat>, blocked: seq<bool>, a: nat, n: nat,
                                        req: Message, residence: int, resp: Message)
    requires Distinct(numbers) && a < |numbers| == |blocked| && n <= |numbers| && !blocked[a]
    requires Unasked(list, resp) && Answers(resp, req)
    ensures var r := list + [Txd(req, residence, numbers[a])];
            AnsweredTo(r, numbers, blocked, n, resp) == if a < n then list else r
  {
    hide Answered, Unasked, Answers;
    if n > 0 {
      OnTheWayBack(list, numbers, blocked, a, n - 1, req, residence, resp);
      OneAnswer(list, req, residence, numbers[a], numbers[n - 1], resp);
      NoAnswer(list, numbers[n - 1], resp);
    }
  }

  // A request that came in through the port at `a` goes out through the one at `b`.  Its response, coming
  // in there, leaves through `a` and no other port, with the residence time that the request had at `b`,
  // and leaves the list as it was.
  lemma ResponseFindsTheWayBack(lists: seq<seq<Txd>>, numbers: seq<nat>, out: seq<bool>, back: seq<bool>, a: nat,
                                b: nat, req: Message, residences: seq<int>, resp: Message)
    requires |lists| == |numbers| == |out| == |back| == |residences| && a < |lists| && b < |lists| && Distinct(numbers)
    requires !out[b] && !back[a] && Answers(resp, req) && Unasked(lists[b], resp)
    ensures var r := ForwardedLists(lists, out, numbers[a], req, residences)[b];
            && AnsweredTo(r, numbers, back, |numbers|, resp) == lists[b]
            && forall i :: 0 <= i < |numbers| ==>
                 AnswerAt(r, numbers, back, i, resp) == if i == a then Some(residences[b]) else None
  {
    var list, residence := lists[b], residences[b];
    RequestIsHeld(list, numbers[a], req, residence);
    hide Unasked, Answers, AnswerOf, AnsweredTo, Completed;
    var r := list + [Txd(req, residence, numbers[a])];
    OnTheWayBack(list, numbers, back, a, |numbers|, req, residence, resp);
    forall i | 0 <= i < |numbers|
      ensures AnswerAt(r, numbers, back, i, resp) == if i == a then Some(residence) else None
    {
      OnTheWayBack(list, numbers, back, a, i, req, residence, resp);
      OneAnswer(list, req, residence, numbers[a], numbers[i], resp);
      NoAnswer(list, numbers[i], resp);
    }
  }

  // In the spanning tree of a domain, a response may come back exactly where a request from a port towards
  // the slaves may go.
  lemma WayBackIsOpen(a: TcPort, b: TcPort)
    requires a != b && a.number != 0 && b.number != 0 && a.spanningTree && b.spanningTree && a.domain == b.domain
    ensures !Blocked(b, a, DelayResp, a.domain) <==> !Blocked(a, b, DelayReq, b.domain) && TowardsSlaves(a)
  {
    FlowOfTime(a, b, DelayReq, b.domain);
    FlowOfTime(b, a, DelayResp, a.domain);
    hide Blocked;
  }

  // One turn of the loop over the ports.
  method CompleteResponseAt(q: TcPort, ports: seq<TcPort>, ghost k: nat, p: TcPort, resp: Message,
                            ghost live: set<Message>,
                            ghost outside: map<Message, nat>, ghost corrections: map<Message, int>)
    returns (sent: Option<Sent>)
    requires resp in live && Distinct(ports) && k < |ports| && q == ports[k] && Balanced(ports, live, outside)
    requires Unaltered(live, corrections)
    modifies q`transmitted, live`refcnt, live`correction
    ensures Balanced(ports, live, outside) && Unaltered(live, corrections)
    ensures q.transmitted == Answered(old(q.transmitted), p.number, resp)
    ensures sent == Answering(AnswerOf(old(q.transmitted), p.number, resp), resp, corrections[resp])
  {
    hide PendingIn, Counted, Elsewhere, Answered, ToTimeInterval, Lists;
    ghost var lists := Lists(ports);
    ghost var base := Elsewhere(lists, k, outside);
    assert forall j :: 0 <= j < |ports| ==> ports[j] in ports;
    CountedPort(ports, k, live, outside);
    sent := CompleteResponse(q, p, resp, live, base);
    StillBalanced(ports, k, live, outside, lists);
  }

  // What the first ports have sent for the response.
  ghost predicate AnsweredFor(list: seq<Txd>, numbers: seq<nat>, blocked: seq<bool>, resp: Message, correction: int,
                              sent: seq<Option<Sent>>)
    requires |numbers| == |blocked|
  {
    && |sent| <= |numbers|
    && forall j :: 0 <= j < |sent| ==> sent[j] == Answering(AnswerAt(list, numbers, blocked, j, resp), resp, correction)
  }

  lemma OneMoreAnswered(list: seq<Txd>, numbers: seq<nat>, blocked: seq<bool>, resp: Message, correction: int,
                        sent: seq<Option<Sent>>, s: Option<Sent>)
    requires |numbers| == |blocked| && AnsweredFor(list, numbers, blocked, resp, correction, sent) && |sent| < |numbers|
    requires var r := AnsweredTo(list, numbers, blocked, |sent|, resp);
             s == if blocked[|sent|] then None else Answering(AnswerOf(r, numbers[|sent|], resp), resp, correction)
    ensures AnsweredFor(list, numbers, blocked, resp, correction, sent + [s])
  {
    hide AnsweredTo, AnswerOf;
  }

  lemma FirstTurn(list: seq<Txd>, numbers: seq<nat>, blocked: seq<bool>, resp: Message, correction: int)
    requires |numbers| == |blocked|
    ensures AnsweredTo(list, numbers, blocked, 0, resp) == list
    ensures AnsweredFor(list, numbers, blocked, resp, correction, [])
  {
  }

  lemma OneMoreTurn(list: seq<Txd>, numbers: seq<nat>, blocked: seq<bool>, n: nat, resp: Message)
    requires n < |numbers| == |blocked|
    ensures AnsweredTo(list, numbers, blocked, n + 1, resp) ==
            var r := AnsweredTo(list, numbers, blocked, n, resp);
            if blocked[n] then r else Answered(r, numbers[n], resp)
  {
  }

  // tc_fwd_response: every port that is not blocked is offered the response that came in through `q`.
  method ForwardResponse(q: TcPort, ports: seq<TcPort>, ghost k: nat, resp: Message, ghost live: set<Message>,
                         ghost outside: map<Message, nat>, ghost corrections: map<Message, int>)
    returns (sent: seq<Option<Sent>>)
    requires resp in live && resp.mtype == DelayResp
    requires Distinct(ports) && k < |ports| && q == ports[k] && Balanced(ports, live, outside) &&
             Unaltered(live, corrections)
    modifies q`transmitted, live`refcnt, live`correction
    ensures Balanced(ports, live, outside) && Unaltered(live, corrections)
    ensures var blocked := BlockedPorts(q, ports, DelayResp, resp.domain);
            && q.transmitted == AnsweredTo(old(q.transmitted), Numbers(ports), blocked, |ports|, resp)
            && |sent| == |ports|
            && AnsweredFor(old(q.transmitted), Numbers(ports), blocked, resp, corrections[resp], sent)
  {
    hide Balanced, Answered, AnswerOf, Answering, Blocked, AnsweredTo, BlockedPorts, Numbers;
    ghost var list := q.transmitted;
    ghost var blocked := BlockedPorts(q, ports, DelayResp, resp.domain);
    ghost var numbers := Numbers(ports);
    sent := [];
    AllCarried(live, corrections);
    FirstTurn(list, numbers, blocked, resp, corrections[resp]);
    hide AnsweredFor, Unaltered;
    var i := 0;
    while i < |ports|
      invariant 0 <= i <= |ports| && |sent| == i
      invariant Balanced(ports, live, outside) && Unaltered(live, corrections)
      invariant blocked == BlockedPorts(q, ports, DelayResp, resp.domain)
      invariant q.transmitted == AnsweredTo(list, numbers, blocked, i, resp)
      invariant AnsweredFor(list, numbers, blocked, resp, corrections[resp], sent)
    {
      OneMoreTurn(list, numbers, blocked, i, resp);
      var s := None;
      if !Blocked(q, ports[i], DelayResp, resp.domain) {
        s := CompleteResponseAt(q, ports, k, ports[i], resp, live, outside, corrections);
      }
      OneMoreAnswered(list, numbers, blocked, resp, corrections[resp], sent, s);
      sent := sent + [s];
      i := i + 1;
    }
  }

  // ---- event messages ----

  ghost predicate SentToUnblocked(blocked: seq<bool>, e: Event, events: seq<Option<Event>>) {
    |events| == |blocked| && forall i :: 0 <= i < |events| ==> events[i] == if blocked[i] then None else Some(e)
  }

  // The first loop of tc_fwd_event.
  method SendEvent(q: TcPort, ports: seq<TcPort>, msg: Message) returns (events: seq<Option<Event>>)
    ensures SentToUnblocked(BlockedPorts(q, ports, msg.mtype, msg.domain), Event(msg, msg.correction, msg.twoStep),
                            events)
  {
    hide Blocked;
    ghost var blocked := BlockedPorts(q, ports, msg.mtype, msg.domain);
    events := [];
    var i := 0;
    while i < |ports|
      invariant 0 <= i <= |ports| && |events| == i
      invariant forall j :: 0 <= j < i ==>
                  events[j] == if blocked[j] then None else Some(Event(msg, msg.correction, msg.twoStep))
    {
      var e := if Blocked(q, ports[i], msg.mtype, msg.domain) then None
          else Some(Event(msg, msg.correction, msg.twoStep));
      events := events + [e];
      i := i + 1;
    }
  }

  // The residence times of an event message that came in at `ingress` and left the ports at `egress`.
  function Residences(ingress: int, egress: seq<int>, rateRatio: real): (r: seq<int>)
    ensures |r| == |egress|
  {
    seq(|egress|, i requires 0 <= i < |egress| => Residence(ingress, egress[i], rateRatio))
  }

  // tc_fwd_event
  method ForwardEvent(q: TcPort, ports: seq<TcPort>, msg: Message, ingress: int, egress: seq<int>, rateRatio: real,
                      ghost live: set<Message>, ghost outside: map<Message, nat>, ghost corrections: map<Message, int>)
    returns (events: seq<Option<Event>>, sent: seq<Option<Sent>>)
    requires msg in live && msg.mtype != DelayResp
    requires Distinct(ports) && |egress| == |ports| && Balanced(ports, live, outside) && Unaltered(live, corrections)
    modifies ports`transmitted, live`refcnt, live`correction
    ensures Balanced(ports, live, outside) && Unaltered(live, corrections)
    ensures var blocked := old(BlockedPorts(q, ports, msg.mtype, msg.domain));
            var lists := old(Lists(ports));
            var residences := Residences(ingress, egress, rateRatio);
            && SentToUnblocked(blocked, Event(msg, old(msg.correction), msg.twoStep), events)
            && Lists(ports) == ForwardedLists(lists, blocked, q.number, msg, residences)
            && SentFor(q, Releases(lists, blocked, q.number, msg, residences), corrections, sent) && |sent| == |ports|
  {
    hide Balanced, Unaltered, BlockedPorts, Lists, SentFor, SentToUnblocked, Blocked, Completed, Outcome;
    events := SendEvent(q, ports, msg);
    sent := CompleteAll(q, ports, msg, Residences(ingress, egress, rateRatio), live, outside, corrections);
  }

  // No Sync or Follow_Up like this one waits.
  ghost predicate NothingLike(list: seq<Txd>, ingress: nat, msg: Message) {
    forall i :: 0 <= i < |list| && list[i].ingressPort == ingress ==>
      !(list[i].msg.sequenceId == msg.sequenceId && list[i].msg.source == msg.source
        && (list[i].msg.mtype == Sync || list[i].msg.mtype == FollowUp))
  }

  lemma NothingLikeEither(list: seq<Txd>, ingress: nat, sync: Message, fup: Message)
    requires NothingLike(list, ingress, sync) && Pair(sync, fup)
    ensures NothingPending(list, ingress, sync) && NothingPending(list, ingress, fup)
  {
  }

  // Both messages of a pair through every port, when nothing like them waits.
  ghost function Both(lists: seq<seq<Txd>>, blocked: seq<bool>, ingress: nat, sync: Message, fup: Message,
                      residences: seq<int>)
    : (r: (seq<seq<Txd>>, seq<Release>))
    requires |lists| == |blocked| == |residences|
  {
    var zeros := seq(|lists|, i => 0);
    var s := ForwardedLists(lists, blocked, ingress, sync, residences);
    (ForwardedLists(s, blocked, ingress, fup, zeros), Releases(s, blocked, ingress, fup, zeros))
  }

  lemma BothLeave(lists: seq<seq<Txd>>, blocked: seq<bool>, ingress: nat, sync: Message, fup: Message,
                  residences: seq<int>)
    requires |lists| == |blocked| == |residences| && Pair(sync, fup)
    requires forall i :: 0 <= i < |lists| && !blocked[i] ==> NothingLike(lists[i], ingress, sync)
    ensures var r := Both(lists, blocked, ingress, sync, fup, residences);
            && r.0 == lists && |r.1| == |lists|
            && forall i :: 0 <= i < |lists| ==> r.1[i] == if blocked[i] then Held else Released(fup, residences[i])
  {
    hide NothingLike, NothingPending, Pair, Completed, Outcome;
    forall i | 0 <= i < |lists| && !blocked[i]
      ensures NothingPending(lists[i], ingress, sync) && NothingPending(lists[i], ingress, fup)
    {
      NothingLikeEither(lists[i], ingress, sync, fup);
    }
    EitherOrderEverywhere(lists, blocked, ingress, sync, fup, residences, seq(|lists|, i => 0));
  }

  lemma NotPending(lists: seq<seq<Txd>>, live: set<Message>, m: Message)
    requires m !in live && forall j, i :: 0 <= j < |lists| && 0 <= i < |lists[j]| ==> lists[j][i].msg in live
    ensures PendingIn(lists, m) == 0
  {
    if lists != [] {
      assert forall i :: 0 <= i < |lists[0]| ==> lists[0][i].msg in live;
      assert m !in Messages(lists[0]);
      NotPending(lists[1..], live, m);
    }
  }

  // A message that has just been allocated is held by its owner alone.
  lemma Newcomer(ports: seq<TcPort>, live: set<Message>, outside: map<Message, nat>, m: Message)
    requires Balanced(ports, live, outside) && m !in live && m.refcnt == 1
    ensures Balanced(ports, live + {m}, outside[m := 1])
  {
    hide PendingIn;
    assert forall j :: 0 <= j < |ports| ==> ports[j] in ports;
    NotPending(Lists(ports), live, m);
  }

  lemma OneMoreUnaltered(live: set<Message>, corrections: map<Message, int>, m: Message)
    requires Unaltered(live, corrections) && m !in live && m.correction == 0
    ensures Unaltered(live + {m}, corrections[m := 0])
  {
  }

  lemma AllCarried(live: set<Message>, corrections: map<Message, int>)
    requires Unaltered(live, corrections)
    ensures live <= corrections.Keys
  {
  }

  lemma Forget(live: set<Message>, corrections: map<Message, int>, m: Message)
    requires Unaltered(live + {m}, corrections[m := 0]) && m !in live && live <= corrections.Keys
    ensures Unaltered(live, corrections)
  {
  }

  // The owner of a message gives up its reference.
  method GiveUp(ports: seq<TcPort>, m: Message, ghost live: set<Message>, ghost outside: map<Message, nat>)
    requires m in live && Balanced(ports, live, outside) && outside[m] > 0
    modifies m`refcnt
    ensures Balanced(ports, live, outside[m := outside[m] - 1])
  {
    hide PendingIn;
    MsgPut(m);
  }

  lemma BlockedPortsAlike(q: TcPort, ports: seq<TcPort>, domain: nat)
    ensures BlockedPorts(q, ports, Sync, domain) == BlockedPorts(q, ports, FollowUp, domain)
  {
    forall i | 0 <= i < |ports|
      ensures BlockedPorts(q, ports, Sync, domain)[i] == BlockedPorts(q, ports, FollowUp, domain)[i]
    {
      BlockedAlike(q, ports[i], domain);
    }
    hide BlockedPorts, Blocked;
  }

  ghost predicate NothingLikeOn(lists: seq<seq<Txd>>, blocked: seq<bool>, ingress: nat, sync: Message)
    requires |lists| == |blocked|
  {
    forall i :: 0 <= i < |lists| && !blocked[i] ==> NothingLike(lists[i], ingress, sync)
  }

  // Every port that is not blocked sends the Follow_Up with its own residence time.
  ghost predicate AllFollow(q: TcPort, blocked: seq<bool>, fup: Message, residences: seq<int>, correction: int,
                            fups: seq<Option<Sent>>)
    requires |blocked| == |residences|
    reads q`peerDelay, q`asymmetry
  {
    && |fups| == |blocked|
    && forall i :: 0 <= i < |blocked| ==>
         fups[i] == if blocked[i] then None
                    else Some(Sent(fup, FollowUpCorrection(correction, residences[i], q.peerDelay, q.asymmetry)))
  }

  // What leaves when nothing like the Sync waits anywhere.
  lemma AllReleased(q: TcPort, lists: seq<seq<Txd>>, blocked: seq<bool>, sync: Message, fup: Message,
                    residences: seq<int>, corrections: map<Message, int>, fups: seq<Option<Sent>>)
    requires |lists| == |blocked| == |residences| == |fups| && Pair(sync, fup) && fup in corrections
    requires NothingLikeOn(lists, blocked, q.number, sync)
    requires SentFor(q, Both(lists, blocked, q.number, sync, fup, residences).1, corrections, fups)
    ensures Both(lists, blocked, q.number, sync, fup, residences).0 == lists
    ensures AllFollow(q, blocked, fup, residences, corrections[fup], fups)
  {
    hide NothingLike, Pair, Both, FollowUpCorrection;
    BothLeave(lists, blocked, q.number, sync, fup, residences);
  }

  // The Follow_Up that belongs to a one-step Sync, which becomes a two-step one.
  method OwnFollowUp(ports: seq<TcPort>, msg: Message, host: int, ghost live: set<Message>,
                     ghost outside: map<Message, nat>, ghost corrections: map<Message, int>)
    returns (fup: Message)
    requires msg in live && msg.mtype == Sync && Balanced(ports, live, outside) && Unaltered(live, corrections)
    modifies msg`twoStep
    ensures fresh(fup) && msg.twoStep && Pair(msg, fup)
    ensures fup.origin == msg.origin && fup.domain == msg.domain && fup.host == host
    ensures Balanced(ports, live + {fup}, outside[fup := 1]) && Unaltered(live + {fup}, corrections[fup := 0])
  {
    hide Balanced, Unaltered;
    fup := new Message(FollowUp, msg.sequenceId, msg.source, msg.requesting, msg.domain, msg.origin, host);
    msg.twoStep := true;
    Newcomer(ports, live, outside, fup);
    OneMoreUnaltered(live, corrections, fup);
  }

  // A Sync through every port, and a Follow_Up after it.
  method ForwardBoth(q: TcPort, ports: seq<TcPort>, msg: Message, fup: Message, ingress: int, egress: seq<int>,
                     rateRatio: real,
                     ghost live: set<Message>, ghost outside: map<Message, nat>, ghost corrections: map<Message, int>)
    returns (events: seq<Option<Event>>, sent: seq<Option<Sent>>, fups: seq<Option<Sent>>)
    requires msg in live && fup in live && Pair(msg, fup) && fup.domain == msg.domain
    requires Distinct(ports) && |egress| == |ports| && Balanced(ports, live, outside) && Unaltered(live, corrections)
    modifies ports`transmitted, live`refcnt, live`correction
    ensures Balanced(ports, live, outside) && Unaltered(live, corrections)
    ensures var blocked := old(BlockedPorts(q, ports, Sync, msg.domain));
            var both := Both(old(Lists(ports)), blocked, q.number, msg, fup, Residences(ingress, egress, rateRatio));
            && SentToUnblocked(blocked, Event(msg, old(msg.correction), msg.twoStep), events)
            && Lists(ports) == both.0 && |fups| == |ports| && SentFor(q, both.1, corrections, fups)
  {
    hide Balanced, Unaltered, BlockedPorts, Lists, SentFor, SentToUnblocked, Residences;
    BlockedPortsAlike(q, ports, msg.domain);
    events, sent := ForwardEvent(q, ports, msg, ingress, egress, rateRatio, live, outside, corrections);
    fups := CompleteAll(q, ports, fup, seq(|ports|, i => 0), live, outside, corrections);
  }

  // The one-step branch of tc_fwd_sync: the Sync goes on as a two-step one, and a Follow_Up of its own is
  // sent after it, which carries the origin time stamp of the Sync, and residence and path for a correction.
  method ForwardOneStep(q: TcPort, ports: seq<TcPort>, msg: Message, host: int, ingress: int, egress: seq<int>,
                        rateRatio: real, ghost live: set<Message>, ghost outside: map<Message, nat>,
                        ghost corrections: map<Message, int>)
    returns (fup: Message, events: seq<Option<Event>>, fups: seq<Option<Sent>>)
    requires msg in live && msg.mtype == Sync && !msg.twoStep
    requires Distinct(ports) && |egress| == |ports| && Balanced(ports, live, outside) && Unaltered(live, corrections)
    modifies ports`transmitted, live`refcnt, live`correction, msg`twoStep
    ensures fresh(fup) && Pair(msg, fup) && fup.origin == msg.origin && fup.domain == msg.domain && fup.host == host
    ensures Balanced(ports, live + {fup}, outside[fup := 0]) && Unaltered(live, corrections)
    ensures var blocked := old(BlockedPorts(q, ports, Sync, msg.domain));
            var lists := old(Lists(ports));
            var residences := Residences(ingress, egress, rateRatio);
            && SentToUnblocked(blocked, Event(msg, old(msg.correction), true), events)
            && Lists(ports) == Both(lists, blocked, q.number, msg, fup, residences).0
            && (NothingLikeOn(lists, blocked, q.number, msg) ==>
                  Lists(ports) == lists && AllFollow(q, blocked, fup, residences, 0, fups))
  {
    hide Balanced, Unaltered, BlockedPorts, Lists, SentFor, SentToUnblocked, Pair, Both, NothingLikeOn, AllFollow,
         Residences;
    AllCarried(live, corrections);
    ghost var lists, blocked := Lists(ports), BlockedPorts(q, ports, Sync, msg.domain);
    ghost var residences := Residences(ingress, egress, rateRatio);
    fup := OwnFollowUp(ports, msg, host, live, outside, corrections);
    ghost var all, os, cs := live + {fup}, outside[fup := 1], corrections[fup := 0];
    var sent;
    events, sent, fups := ForwardBoth(q, ports, msg, fup, ingress, egress, rateRatio, all, os, cs);
    GiveUp(ports, fup, all, os);
    assert os[fup := 0] == outside[fup := 0];
    Forget(live, corrections, fup);
    if NothingLikeOn(lists, blocked, q.number, msg) {
      AllReleased(q, lists, blocked, msg, fup, residences, cs, fups);
    }
  }
}
