/** Forwarding in a transparent clock, from `tc.c`: the lists of transmitted messages that wait for
  their counterpart, the corrections of the messages sent, and the reference counts.
 */
module TransparentClock {
  import opened Prelude
  import DatasetComparison

  type PortIdentity = DatasetComparison.PortIdentity

  datatype MessageType = Sync | FollowUp | DelayReq | DelayResp

  const NSEC2SEC: int := 1_000_000_000

  // `host` is the CLOCK_MONOTONIC reading the tc_fwd functions stamp the message with, in nanoseconds;
  // `origin` is the time stamp in the body of a Sync or Follow_Up.
  class Message {
    const mtype: MessageType
    const sequenceId: nat
    const source: PortIdentity
    const requesting: PortIdentity
    const domain: nat
    const origin: nat
    const host: int
    var twoStep: bool
    var correction: int
    var refcnt: int

    // msg_allocate: the one reference is that of the caller.
    constructor (mtype: MessageType, sequenceId: nat, source: PortIdentity, requesting: PortIdentity, domain: nat,
                 origin: nat, host: int)
      ensures this.mtype == mtype && this.sequenceId == sequenceId && this.source == source
      ensures this.requesting == requesting && this.domain == domain && this.host == host && this.origin == origin
      ensures correction == 0 && refcnt == 1
    {
      this.mtype := mtype;
      this.sequenceId := sequenceId;
      this.source := source;
      this.requesting := requesting;
      this.domain := domain;
      this.origin := origin;
      this.host := host;
      correction, twoStep, refcnt := 0, false, 1;
    }
  }

  // An entry of tc_transmitted.
  datatype Txd = Txd(msg: Message, residence: int, ingressPort: nat)

  // tmv_to_TimeInterval: nanoseconds to the 48.16 bit wire format, saturating.
  function ToTimeInterval(ns: int): int {
    if ns < -0x8000_0000_0000 then -0x8000_0000_0000 * 0x1_0000
    else if ns > 0x7fff_ffff_ffff then 0x7fff_ffff_ffff * 0x1_0000
    else ns * 0x1_0000
  }

  datatype Match = Mismatch | SyncFup | FupSync | DelayReqResp

  // tc_match_syfup
  function MatchSyFup(ingress: nat, msg: Message, txd: Txd): Match {
    if ingress != txd.ingressPort then Mismatch
    else if msg.sequenceId != txd.msg.sequenceId then Mismatch
    else if msg.source != txd.msg.source then Mismatch
    else if txd.msg.mtype == Sync && msg.mtype == FollowUp then SyncFup
    else if txd.msg.mtype == FollowUp && msg.mtype == Sync then FupSync
    else Mismatch
  }

  // tc_match_delay
  function MatchDelay(ingress: nat, resp: Message, txd: Txd): Match {
    if ingress != txd.ingressPort then Mismatch
    else if txd.msg.sequenceId != resp.sequenceId then Mismatch
    else if txd.msg.source != resp.requesting then Mismatch
    else if txd.msg.mtype == DelayReq && resp.mtype == DelayResp then DelayReqResp
    else Mismatch
  }

  function FindSyFup(list: seq<Txd>, ingress: nat, msg: Message): (k: nat)
    ensures k <= |list|
    ensures k < |list| ==> MatchSyFup(ingress, msg, list[k]) != Mismatch
    ensures forall i :: 0 <= i < k ==> MatchSyFup(ingress, msg, list[i]) == Mismatch
  {
    if list == [] || MatchSyFup(ingress, msg, list[0]) != Mismatch then 0
    else 1 + FindSyFup(list[1..], ingress, msg)
  }

  function FindDelay(list: seq<Txd>, ingress: nat, resp: Message): (k: nat)
    ensures k <= |list|
    ensures k < |list| ==> MatchDelay(ingress, resp, list[k]) == DelayReqResp
    ensures forall i :: 0 <= i < k ==> MatchDelay(ingress, resp, list[i]) != DelayReqResp
  {
    if list == [] || MatchDelay(ingress, resp, list[0]) == DelayReqResp then 0
    else 1 + FindDelay(list[1..], ingress, resp)
  }

  function Drop<T>(s: seq<T>, k: nat): (r: seq<T>)
    requires k < |s|
    ensures |r| == |s| - 1
    ensures multiset(s) == multiset(r) + multiset{s[k]}
  {
    assert s == s[..k] + [s[k]] + s[k + 1..];
    s[..k] + s[k + 1..]
  }

  // The list after tc_complete_syfup ...
  function Completed(list: seq<Txd>, ingress: nat, msg: Message, residence: int): seq<Txd> {
    var k := FindSyFup(list, ingress, msg);
    if k == |list| then list + [Txd(msg, residence, ingress)] else Drop(list, k)
  }

  // ... and what it sends: which Follow_Up, for which residence time.
  datatype Release = Held | Released(fup: Message, residence: int)

  function Outcome(list: seq<Txd>, ingress: nat, msg: Message, residence: int): Release {
    var k := FindSyFup(list, ingress, msg);
    if k == |list| then Held
    else if MatchSyFup(ingress, msg, list[k]) == SyncFup then Released(msg, list[k].residence)
    else Released(list[k].msg, residence)
  }

  ghost predicate Pair(sync: Message, fup: Message) {
    && sync.mtype == Sync && fup.mtype == FollowUp
    && sync.sequenceId == fup.sequenceId && sync.source == fup.source
  }

  // What a match means: the same ingress port, and a Sync with its Follow_Up.
  lemma MatchMeansPair(ingress: nat, msg: Message, txd: Txd)
    ensures MatchSyFup(ingress, msg, txd) == SyncFup <==> ingress == txd.ingressPort && Pair(txd.msg, msg)
    ensures MatchSyFup(ingress, msg, txd) == FupSync <==> ingress == txd.ingressPort && Pair(msg, txd.msg)
    ensures MatchSyFup(ingress, msg, txd) != DelayReqResp
  {
  }

  // A Follow_Up only leaves when its Sync has been seen on the same port, with that one's residence time.
  lemma ReleaseIsForPair(list: seq<Txd>, ingress: nat, msg: Message, residence: int)
    ensures var o := Outcome(list, ingress, msg, residence);
            if o.Released? then
              exists k :: 0 <= k < |list| && list[k].ingressPort == ingress &&
                if msg == o.fup && Pair(list[k].msg, msg) then o.residence == list[k].residence
                else o.fup == list[k].msg && Pair(msg, o.fup) && o.residence == residence
            else
              forall k :: 0 <= k < |list| && list[k].ingressPort == ingress ==>
                !Pair(list[k].msg, msg) && !Pair(msg, list[k].msg)
  {
    var k := FindSyFup(list, ingress, msg);
    if k < |list| {
      MatchMeansPair(ingress, msg, list[k]);
    } else {
      forall i | 0 <= i < |list|
        ensures list[i].ingressPort == ingress ==> !Pair(list[i].msg, msg) && !Pair(msg, list[i].msg)
      {
        MatchMeansPair(ingress, msg, list[i]);
      }
    }
  }

  ghost predicate Answers(resp: Message, req: Message) {
    && req.mtype == DelayReq && resp.mtype == DelayResp
    && resp.sequenceId == req.sequenceId && resp.requesting == req.source
  }

  ghost predicate NothingAsked(list: seq<Txd>, egress: nat, resp: Message) {
    forall i :: 0 <= i < |list| && list[i].ingressPort == egress ==> !Answers(resp, list[i].msg)
  }

  // A delay request that came in through one port, and its response on the way back to that port: the
  // response finds the residence time of its request, and the list is as it was before.
  lemma RequestAndResponse(list: seq<Txd>, port: nat, req: Message, resp: Message, residence: int)
    requires Answers(resp, req) && NothingAsked(list, port, resp)
    ensures var r := list + [Txd(req, residence, port)];
            var k := FindDelay(r, port, resp);
            k < |r| && r[k].residence == residence && Drop(r, k) == list
    ensures FindDelay(list, port, resp) == |list|
  {
    var r := list + [Txd(req, residence, port)];
    assert forall i :: 0 <= i < |list| ==> r[i] == list[i];
    assert r[|list|] == Txd(req, residence, port);
    assert FindDelay(r, port, resp) == |list|;
    assert Drop(r, |list|) == list;
  }

  ghost predicate NothingPending(list: seq<Txd>, ingress: nat, msg: Message) {
    forall i :: 0 <= i < |list| ==> MatchSyFup(ingress, msg, list[i]) == Mismatch
  }

  lemma FindLast(list: seq<Txd>, x: Txd, ingress: nat, msg: Message)
    requires NothingPending(list, ingress, msg)
    ensures FindSyFup(list, ingress, msg) == |list|
    ensures FindSyFup(list + [x], ingress, msg) == if MatchSyFup(ingress, msg, x) == Mismatch then |list| + 1
            else |list|
  {
    var k := FindSyFup(list + [x], ingress, msg);
    assert forall i :: 0 <= i < |list| ==> (list + [x])[i] == list[i];
    assert (list + [x])[|list|] == x;
  }

  // Whichever of the two arrives first, the same Follow_Up leaves, with the residence time of the
  // Sync, and the list is as it was before.
  lemma EitherOrder(list: seq<Txd>, ingress: nat, sync: Message, fup: Message, residence: int)
    requires Pair(sync, fup)
    requires NothingPending(list, ingress, sync) && NothingPending(list, ingress, fup)
    ensures Outcome(list, ingress, sync, residence) == Held == Outcome(list, ingress, fup, 0)
    ensures Outcome(Completed(list, ingress, sync, residence), ingress, fup, 0) == Released(fup, residence)
    ensures Outcome(Completed(list, ingress, fup, 0), ingress, sync, residence) == Released(fup, residence)
    ensures Completed(Completed(list, ingress, sync, residence), ingress, fup, 0) == list
    ensures Completed(Completed(list, ingress, fup, 0), ingress, sync, residence) == list
  {
    var s, f := Txd(sync, residence, ingress), Txd(fup, 0, ingress);
    FindLast(list, s, ingress, fup);
    FindLast(list, f, ingress, sync);
    assert Drop(list + [s], |list|) == list;
    assert Drop(list + [f], |list|) == list;
  }

  // No two entries of the list belong together.
  ghost predicate NoPairs(list: seq<Txd>) {
    forall i, j :: 0 <= i < |list| && 0 <= j < |list| ==>
        MatchSyFup(list[i].ingressPort, list[i].msg, list[j]) == Mismatch
  }

  lemma MatchIsSymmetric(x: Txd, y: Txd)
    ensures MatchSyFup(x.ingressPort, x.msg, y) == Mismatch <==> MatchSyFup(y.ingressPort, y.msg, x) == Mismatch
  {
  }

  lemma DropKeepsNoPairs(list: seq<Txd>, k: nat)
    requires NoPairs(list) && k < |list|
    ensures NoPairs(Drop(list, k))
  {
    var r := Drop(list, k);
    assert forall i :: 0 <= i < |r| ==> r[i] == list[if i < k then i else i + 1];
  }

  lemma CompletedKeepsNoPairs(list: seq<Txd>, ingress: nat, msg: Message, residence: int)
    requires NoPairs(list)
    ensures NoPairs(Completed(list, ingress, msg, residence))
  {
    var k := FindSyFup(list, ingress, msg);
    if k < |list| {
      DropKeepsNoPairs(list, k);
    } else {
      var x := Txd(msg, residence, ingress);
      var r := list + [x];
      forall i, j | 0 <= i < |r| && 0 <= j < |r|
        ensures MatchSyFup(r[i].ingressPort, r[i].msg, r[j]) == Mismatch
      {
        if i < |list| && j == |list| {
          MatchIsSymmetric(list[i], x);
        }
      }
    }
  }

  // tc_current
  predicate Current(m: Message, now: int) {
    now - m.host < NSEC2SEC
  }

  // tc_prune
  function Pruned(list: seq<Txd>, now: int): (r: seq<Txd>) {
    if list == [] || Current(list[0].msg, now) then list else Pruned(list[1..], now)
  }

  // What it is for: to remove the entries whose message is too old.
  function Fresh(list: seq<Txd>, now: int): (r: seq<Txd>) {
    if list == [] then []
    else if Current(list[0].msg, now) then [list[0]] + Fresh(list[1..], now)
    else Fresh(list[1..], now)
  }

  ghost predicate Ordered(list: seq<Txd>) {
    forall i, j :: 0 <= i < j < |list| ==> list[i].msg.host <= list[j].msg.host
  }

  lemma {:induction false} AllFresh(list: seq<Txd>, now: int)
    requires forall i :: 0 <= i < |list| ==> Current(list[i].msg, now)
    ensures Fresh(list, now) == list
  {
    if list != [] {
      AllFresh(list[1..], now);
    }
  }

  // On a list in order of time, stopping at the first current entry loses nothing.
  lemma {:induction false} PrunedIsFresh(list: seq<Txd>, now: int)
    requires Ordered(list)
    ensures Pruned(list, now) == Fresh(list, now)
  {
    if list != [] {
      if Current(list[0].msg, now) {
        AllFresh(list, now);
      } else {
        PrunedIsFresh(list[1..], now);
      }
    }
  }

  // ---- every run ----

  // What happens to the list of one port.  `Request` and `Syfu` append or release, `Response` is a
  // Delay_Resp on its way back through the port.
  datatype Op =
    | Syfu(ingress: nat, msg: Message, residence: int)
    | Request(ingress: nat, msg: Message, residence: int)
    | Response(egress: nat, msg: Message)
    | Prune(now: int)
    | Flush

  function Answered(list: seq<Txd>, egress: nat, resp: Message): seq<Txd> {
    var k := FindDelay(list, egress, resp);
    if k == |list| then list else Drop(list, k)
  }

  function Apply(list: seq<Txd>, op: Op): seq<Txd> {
    match op
    case Syfu(ingress, msg, residence) => Completed(list, ingress, msg, residence)
    case Request(ingress, msg, residence) => list + [Txd(msg, residence, ingress)]
    case Response(egress, msg) => Answered(list, egress, msg)
    case Prune(now) => Pruned(list, now)
    case Flush => []
  }

  function Run(ops: seq<Op>): seq<Txd> {
    if ops == [] then [] else Apply(Run(ops[..|ops| - 1]), ops[|ops| - 1])
  }

  // The types tc_complete dispatches on, and a clock that does not run backwards.
  ghost predicate Proper(ops: seq<Op>) {
    && (forall i :: 0 <= i < |ops| ==>
          (ops[i].Syfu? ==> ops[i].msg.mtype == Sync || ops[i].msg.mtype == FollowUp) &&
          (ops[i].Request? ==> ops[i].msg.mtype == DelayReq))
    && (forall i, j :: 0 <= i < j < |ops| && Stamped(ops[i]) && Stamped(ops[j]) ==> ops[i].msg.host <= ops[j].msg.host)
  }

  predicate Stamped(op: Op) {
    op.Syfu? || op.Request?
  }

  // No entry is younger than every message forwarded.
  ghost predicate NotAfter(list: seq<Txd>, host: int) {
    forall i :: 0 <= i < |list| ==> list[i].msg.host <= host
  }

  lemma {:induction false} PrunedIsSuffix(list: seq<Txd>, now: int)
    ensures exists k :: 0 <= k <= |list| && Pruned(list, now) == list[k..]
  {
    if list == [] || Current(list[0].msg, now) {
      assert Pruned(list, now) == list[0..];
    } else {
      PrunedIsSuffix(list[1..], now);
      var k :| 0 <= k <= |list| - 1 && Pruned(list[1..], now) == list[1..][k..];
      assert list[1..][k..] == list[k + 1..];
    }
  }

  lemma DropKeepsOrder(list: seq<Txd>, k: nat, host: int)
    requires Ordered(list) && NotAfter(list, host) && k < |list|
    ensures Ordered(Drop(list, k)) && NotAfter(Drop(list, k), host)
  {
    var r := Drop(list, k);
    assert forall i :: 0 <= i < |r| ==> r[i] == list[if i < k then i else i + 1];
  }

  lemma AppendKeepsOrder(list: seq<Txd>, x: Txd, host: int)
    requires Ordered(list) && NotAfter(list, host) && host <= x.msg.host
    ensures Ordered(list + [x]) && NotAfter(list + [x], x.msg.host)
  {
  }

  lemma RequestKeepsNoPairs(list: seq<Txd>, x: Txd)
    requires NoPairs(list) && x.msg.mtype == DelayReq
    ensures NoPairs(list + [x])
  {
  }

  lemma StepKeeps(list: seq<Txd>, op: Op, host: int, later: int)
    requires NoPairs(list) && Ordered(list) && NotAfter(list, host) && host <= later
    requires op.Request? ==> op.msg.mtype == DelayReq
    requires Stamped(op) ==> op.msg.host == later
    ensures NoPairs(Apply(list, op)) && Ordered(Apply(list, op)) && NotAfter(Apply(list, op), later)
  {
    match op
    case Syfu(ingress, msg, residence) =>
      CompletedKeepsNoPairs(list, ingress, msg, residence);
      var k := FindSyFup(list, ingress, msg);
      if k < |list| {
        DropKeepsOrder(list, k, host);
      } else {
        AppendKeepsOrder(list, Txd(msg, residence, ingress), host);
      }
    case Request(ingress, msg, residence) =>
      AppendKeepsOrder(list, Txd(msg, residence, ingress), host);
      RequestKeepsNoPairs(list, Txd(msg, residence, ingress));
    case Response(egress, msg) =>
      var k := FindDelay(list, egress, msg);
      if k < |list| {
        DropKeepsNoPairs(list, k);
        DropKeepsOrder(list, k, host);
      }
    case Prune(now) =>
      PrunedIsSuffix(list, now);
    case Flush =>
  }

  // The latest stamp of a run, or anything early enough.
  function LastStamp(ops: seq<Op>): int {
    if ops == [] then 0
    else if Stamped(ops[|ops| - 1]) then ops[|ops| - 1].msg.host
    else LastStamp(ops[..|ops| - 1])
  }

  ghost predicate NoneStamped(ops: seq<Op>) {
    forall i :: 0 <= i < |ops| ==> !Stamped(ops[i])
  }

  lemma {:induction false} LastStampIsLatest(ops: seq<Op>)
    requires Proper(ops)
    ensures forall i :: 0 <= i < |ops| && Stamped(ops[i]) ==> ops[i].msg.host <= LastStamp(ops)
    ensures !NoneStamped(ops) ==> exists i :: 0 <= i < |ops| && Stamped(ops[i]) && ops[i].msg.host == LastStamp(ops)
  {
    if ops != [] {
      var n := |ops| - 1;
      if !Stamped(ops[n]) {
        LastStampIsLatest(ops[..n]);
        if !NoneStamped(ops) {
          var i :| 0 <= i < |ops| && Stamped(ops[i]);
          assert ops[..n][i] == ops[i];
        }
      }
    }
  }

  lemma {:induction false} NothingStored(ops: seq<Op>)
    requires NoneStamped(ops)
    ensures Run(ops) == []
  {
    if ops != [] {
      NothingStored(ops[..|ops| - 1]);
    }
  }

  // In every run the list holds no matching Sync and Follow_Up, and it is in order of time.
  lemma {:induction false} EveryRun(ops: seq<Op>)
    requires Proper(ops)
    ensures NoPairs(Run(ops)) && Ordered(Run(ops)) && NotAfter(Run(ops), LastStamp(ops))
  {
    if ops != [] {
      var n := |ops| - 1;
      EveryRun(ops[..n]);
      LastStampIsLatest(ops[..n]);
      if NoneStamped(ops[..n]) {
        NothingStored(ops[..n]);
        StepKeeps([], ops[n], LastStamp(ops), LastStamp(ops));
      } else {
        var i :| 0 <= i < n && Stamped(ops[..n][i]) && ops[..n][i].msg.host == LastStamp(ops[..n]);
        assert ops[i] == ops[..n][i];
        StepKeeps(Run(ops[..n]), ops[n], LastStamp(ops[..n]), LastStamp(ops));
      }
    }
  }

  lemma {:induction false} FreshIsYoung(list: seq<Txd>, now: int, x: Txd)
    ensures x in Fresh(list, now) <==> x in list && now - x.msg.host < 1_000_000_000
  {
    if list != [] {
      FreshIsYoung(list[1..], now, x);
      assert x in list <==> x == list[0] || x in list[1..];
    }
  }

  // So pruning removes exactly the entries that are a second old or older, in every run.
  lemma PruneIsExact(ops: seq<Op>, now: int)
    requires Proper(ops)
    ensures Run(ops + [Prune(now)]) == Fresh(Run(ops), now)
    ensures forall x :: x in Run(ops + [Prune(now)]) <==> x in Run(ops) && now - x.msg.host < 1_000_000_000
  {
    EveryRun(ops);
    PrunedIsFresh(Run(ops), now);
    assert (ops + [Prune(now)])[..|ops|] == ops;
    forall x
      ensures x in Fresh(Run(ops), now) <==> x in Run(ops) && now - x.msg.host < 1_000_000_000
    {
      FreshIsYoung(Run(ops), now, x);
    }
  }
}
