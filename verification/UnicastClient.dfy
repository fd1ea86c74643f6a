/** The requesting side of unicast negotiation, `unicast_client.c` and `unicast_fsm.c`
  (IEEE 1588-2008 section 16.1).

  What happens to a record of the master table is kept in its log; `Run` says what the record is after
  a log, and the properties are about every log.
 */
module UnicastClient {
  import opened Prelude
  import opened DatasetComparison
  import Contracts

  type MessageType = Contracts.MessageType
  type Address = Contracts.Address
  type Transport = Contracts.Transport

  datatype State = Wait | HaveAnn | NeedSydy | HaveSydy
  datatype FsmEvent = GrantAnn | Selected | GrantSydy | Unselected | Cancel

  // unicast_fsm
  function UnicastFsm(s: State, e: FsmEvent): State {
    match s
    case Wait => if e == GrantAnn then HaveAnn else Wait
    case HaveAnn => if e == Selected then NeedSydy else if e == Cancel then Wait else HaveAnn
    case NeedSydy =>
      (match e
       case GrantSydy => HaveSydy
       case Unselected => HaveAnn
       case Cancel => Wait
       case _ => NeedSydy)
    case HaveSydy =>
      (match e
       case Unselected => HaveAnn
       case Cancel => Wait
       case _ => HaveSydy)
  }

  // E2E_SYDY_MASK and P2P_SYDY_MASK
  function SydyMask(p2p: bool): set<MessageType> {
    if p2p then {Contracts.Announce, Contracts.Sync} else {Contracts.Announce, Contracts.Sync, Contracts.DelayResp}
  }

  // ---- one record, over a log ----

  datatype Record = Record(identity: PortIdentity, state: State, granted: set<MessageType>, renewalTmo: int)

  // `tmo` is the renewal time computed for the grant, unless the clock could not be read.
  datatype Event = Granted(mtype: MessageType, from: PortIdentity, tmo: Option<nat>)
    | Rejected(mtype: MessageType)
    | Cancelled(mtype: MessageType)
    | Selection(chosen: bool)
    | Renewed

  // Whether a grant in this state moves the renewal time.
  predicate SetsRenewal(s: State, mtype: MessageType) {
    match s
    case Wait => mtype == Contracts.Announce
    case HaveAnn => false
    case NeedSydy => mtype == Contracts.DelayResp || mtype == Contracts.Sync
    case HaveSydy => mtype == Contracts.Announce || mtype == Contracts.DelayResp || mtype == Contracts.Sync
  }

  // unicast_client_set_renewal
  function Earlier(current: int, tmo: int): int {
    if current == 0 || tmo < current then tmo else current
  }

  function StateAfterGrant(s: State, mtype: MessageType, granted: set<MessageType>, mask: set<MessageType>): State {
    if s == Wait && mtype == Contracts.Announce then UnicastFsm(s, GrantAnn)
    else if s == NeedSydy && (mtype == Contracts.DelayResp || mtype == Contracts.Sync) && mask <= granted then
      UnicastFsm(s, GrantSydy)
    else s
  }

  function Apply(r: Record, e: Event, mask: set<MessageType>): Record {
    match e
    case Granted(mtype, from, tmo) =>
      var granted := r.granted + {mtype};
      Record(if r.state == Wait && mtype == Contracts.Announce then from else r.identity,
             StateAfterGrant(r.state, mtype, granted, mask), granted,
             if SetsRenewal(r.state, mtype) && tmo != None then Earlier(r.renewalTmo, tmo.value) else r.renewalTmo)
    case Rejected(mtype) => r.(state := if mtype == Contracts.PdelayResp then r.state else Wait)
    case Cancelled(mtype) => r.(state := UnicastFsm(r.state, Cancel), granted := r.granted - {mtype})
    case Selection(chosen) => r.(state := UnicastFsm(r.state, if chosen then Selected else Unselected))
    case Renewed => r.(renewalTmo := 0)
  }

  function Run(first: PortIdentity, log: seq<Event>, mask: set<MessageType>): Record {
    if log == [] then Record(first, Wait, {}, 0)
    else Apply(Run(first, log[..|log| - 1], mask), log[|log| - 1], mask)
  }

  // In every run: who delivers Sync and Delay_Resp has been granted everything that takes, and who is
  // past waiting has been granted Announce.
  lemma {:induction false} GrantedIsEnough(first: PortIdentity, log: seq<Event>, mask: set<MessageType>)
    ensures var r := Run(first, log, mask);
            && (r.state == HaveSydy ==> mask <= r.granted)
            && (r.state != Wait ==> Contracts.Announce in r.granted)
  {
    if log != [] {
      GrantedIsEnough(first, log[..|log| - 1], mask);
    }
  }

  ghost predicate StillGranted(log: seq<Event>, m: MessageType, i: nat) {
    i < |log| && log[i].Granted? && log[i].mtype == m && forall j :: i < j < |log| ==> log[j] != Cancelled(m)
  }

  // A message type is granted exactly when it was granted once and not cancelled since.
  lemma {:induction false} GrantedIsNotCancelled(first: PortIdentity, log: seq<Event>, mask: set<MessageType>,
                                                 m: MessageType)
    ensures m in Run(first, log, mask).granted <==> exists i :: StillGranted(log, m, i)
  {
    if log != [] {
      var n := |log| - 1;
      var p, e := log[..n], log[n];
      GrantedIsNotCancelled(first, p, mask, m);
      forall i: nat
        ensures StillGranted(log, m, i) <==> if i < n then StillGranted(p, m, i) && e != Cancelled(m)
                                             else i == n && e.Granted? && e.mtype == m
      {
        StillGrantedAfter(log, m, i);
      }
      if e.Granted? && e.mtype == m {
        assert StillGranted(log, m, n);
      }
      if i: nat :| StillGranted(p, m, i) && e != Cancelled(m) {
        assert StillGranted(log, m, i);
      }
      hide StillGranted;
    }
  }

  lemma StillGrantedAfter(log: seq<Event>, m: MessageType, i: nat)
    requires log != []
    ensures var n := |log| - 1;
            var p, e := log[..n], log[n];
            StillGranted(log, m, i) <==> if i < n then StillGranted(p, m, i) && e != Cancelled(m)
                                         else i == n && e.Granted? && e.mtype == m
  {
    var n := |log| - 1;
    var p := log[..n];
    if i < n && StillGranted(p, m, i) && log[n] != Cancelled(m) {
      forall j | i < j < |log|
        ensures log[j] != Cancelled(m)
      {
        assert j < n ==> log[j] == p[j];
      }
    }
    if i < n && StillGranted(log, m, i) {
      assert forall j :: i < j < n ==> p[j] == log[j];
    }
  }

  // What ends the use of a master as the source of time.
  predicate Ends(e: Event) {
    e.Cancelled? || (e.Rejected? && e.mtype != Contracts.PdelayResp) || e == Selection(false)
  }

  ghost predicate ChosenAt(first: PortIdentity, log: seq<Event>, mask: set<MessageType>, i: nat)
    requires i < |log|
  {
    && log[i] == Selection(true) && Run(first, log[..i], mask).state != Wait
    && forall j :: i < j < |log| ==> !Ends(log[j])
  }

  // Sync is asked for and delivered by exactly the masters that were selected after they granted Announce,
  // with no cancellation, rejection or other selection since.
  lemma {:induction false} SydyIsSelected(first: PortIdentity, log: seq<Event>, mask: set<MessageType>)
    ensures var s := Run(first, log, mask).state;
            (s == NeedSydy || s == HaveSydy) <==> exists i :: 0 <= i < |log| && ChosenAt(first, log, mask, i)
  {
    if log != [] {
      var n := |log| - 1;
      var p, e := log[..n], log[n];
      SydyIsSelected(first, p, mask);
      assert log == p + [e];
      forall i | 0 <= i < n
        ensures ChosenAt(first, log, mask, i) <==> ChosenAt(first, p, mask, i) && !Ends(e)
      {
        assert log[..i] == p[..i];
        if ChosenAt(first, log, mask, i) {
          assert forall j :: i < j < n ==> log[j] == p[j];
          assert !Ends(log[n]);
        }
      }
      assert ChosenAt(first, log, mask, n) <==> e == Selection(true) && Run(first, p, mask).state != Wait;
    }
  }

  // What sends a master back to waiting.
  predicate Stops(e: Event) {
    e.Cancelled? || (e.Rejected? && e.mtype != Contracts.PdelayResp)
  }

  ghost predicate AnnouncesFrom(log: seq<Event>, i: nat) {
    i < |log| && log[i].Granted? && log[i].mtype == Contracts.Announce && forall j :: i < j < |log| ==> !Stops(log[j])
  }

  // The master has granted Announce, with no cancellation or rejection since.
  ghost predicate Announces(log: seq<Event>) {
    exists i: nat :: AnnouncesFrom(log, i)
  }

  lemma AnnouncesAfter(log: seq<Event>, e: Event)
    ensures Announces(log + [e]) <==> (e.Granted? && e.mtype == Contracts.Announce) || (Announces(log) && !Stops(e))
  {
    var next := log + [e];
    if e.Granted? && e.mtype == Contracts.Announce {
      assert AnnouncesFrom(next, |log|);
    }
    if Announces(log) && !Stops(e) {
      var i: nat :| AnnouncesFrom(log, i);
      assert AnnouncesFrom(next, i);
    }
    if Announces(next) {
      var i: nat :| AnnouncesFrom(next, i);
      if i < |log| {
        assert forall j :: i < j < |log| ==> log[j] == next[j];
        assert AnnouncesFrom(log, i) && !Stops(next[|log|]);
      }
    }
  }

  // A master is asked for Announce until it announces.
  lemma {:induction false} WaitIsSilent(first: PortIdentity, log: seq<Event>, mask: set<MessageType>)
    ensures Run(first, log, mask).state != Wait <==> Announces(log)
  {
    if log != [] {
      var p, e := log[..|log| - 1], log[|log| - 1];
      WaitIsSilent(first, p, mask);
      assert log == p + [e];
      AnnouncesAfter(p, e);
      hide Announces;
    }
  }

  // The grant at `k`, after the selection at `i`, completes what the master has to deliver.
  ghost predicate CompleteAt(first: PortIdentity, log: seq<Event>, mask: set<MessageType>, i: nat, k: nat)
    requires i < |log|
  {
    && ChosenAt(first, log, mask, i)
    && i < k < |log| && log[k].Granted? && (log[k].mtype == Contracts.Sync || log[k].mtype == Contracts.DelayResp)
    && mask <= Run(first, log[..k + 1], mask).granted
  }

  ghost predicate Delivers(first: PortIdentity, log: seq<Event>, mask: set<MessageType>) {
    exists i: nat, k: nat :: i < |log| && CompleteAt(first, log, mask, i, k)
  }

  ghost predicate Chosen(first: PortIdentity, log: seq<Event>, mask: set<MessageType>) {
    exists i :: 0 <= i < |log| && ChosenAt(first, log, mask, i)
  }

  lemma ChosenLater(first: PortIdentity, p: seq<Event>, e: Event, mask: set<MessageType>, i: nat)
    requires i < |p|
    ensures ChosenAt(first, p + [e], mask, i) <==> ChosenAt(first, p, mask, i) && !Ends(e)
  {
    var log := p + [e];
    assert log[..i] == p[..i];
    if ChosenAt(first, log, mask, i) {
      assert forall j :: i < j < |p| ==> log[j] == p[j];
      assert !Ends(log[|p|]);
    }
  }

  lemma CompleteLater(first: PortIdentity, p: seq<Event>, e: Event, mask: set<MessageType>, i: nat, k: nat)
    requires i < |p|
    ensures CompleteAt(first, p + [e], mask, i, k) <==>
            if k < |p| then CompleteAt(first, p, mask, i, k) && !Ends(e)
            else
              && ChosenAt(first, p, mask, i) && k == |p| && !Ends(e) && e.Granted?
              && (e.mtype == Contracts.Sync || e.mtype == Contracts.DelayResp)
              && mask <= Run(first, p + [e], mask).granted
  {
    var log := p + [e];
    ChosenLater(first, p, e, mask, i);
    hide ChosenAt, Run;
    if k < |p| {
      assert log[..k + 1] == p[..k + 1];
    } else if k == |p| {
      assert log[..k + 1] == log;
    }
  }

  lemma DeliversAfter(first: PortIdentity, p: seq<Event>, e: Event, mask: set<MessageType>)
    ensures Delivers(first, p + [e], mask) <==>
            && !Ends(e)
            && (Delivers(first, p, mask) ||
                (Chosen(first, p, mask) && e.Granted? &&
                 (e.mtype == Contracts.Sync || e.mtype == Contracts.DelayResp) &&
                 mask <= Run(first, p + [e], mask).granted))
  {
    hide ChosenAt, CompleteAt, Run, Ends;
    var log := p + [e];
    forall i: nat, k: nat | i < |p|
      ensures CompleteAt(first, log, mask, i, k) <==>
              if k < |p| then CompleteAt(first, p, mask, i, k) && !Ends(e)
              else
                && ChosenAt(first, p, mask, i) && k == |p| && !Ends(e) && e.Granted?
                && (e.mtype == Contracts.Sync || e.mtype == Contracts.DelayResp)
                && mask <= Run(first, log, mask).granted
    {
      CompleteLater(first, p, e, mask, i, k);
    }
    forall k: nat
      ensures !CompleteAt(first, log, mask, |p|, k)
    {
      NothingBehind(first, log, mask, k);
    }
    forall i: nat, k: nat | i < |p| && CompleteAt(first, p, mask, i, k)
      ensures k < |p|
    {
      CompleteBefore(first, p, mask, i, k);
    }
    if !Ends(e) && Chosen(first, p, mask) && e.Granted? &&
       (e.mtype == Contracts.Sync || e.mtype == Contracts.DelayResp) &&
       mask <= Run(first, log, mask).granted {
      var i :| 0 <= i < |p| && ChosenAt(first, p, mask, i);
      assert CompleteAt(first, log, mask, i, |p|);
    }
  }

  lemma NothingBehind(first: PortIdentity, log: seq<Event>, mask: set<MessageType>, k: nat)
    requires log != []
    ensures !CompleteAt(first, log, mask, |log| - 1, k)
  {
  }

  lemma CompleteBefore(first: PortIdentity, log: seq<Event>, mask: set<MessageType>, i: nat, k: nat)
    requires i < |log| && CompleteAt(first, log, mask, i, k)
    ensures k < |log|
  {
  }

  // A master delivers from the grant on that completes its mask after its selection, for as long as nothing ends
  // it: selected again, it goes on delivering.
  lemma {:induction false} HaveSydyDelivers(first: PortIdentity, log: seq<Event>, mask: set<MessageType>)
    ensures Run(first, log, mask).state == HaveSydy <==> Delivers(first, log, mask)
  {
    if log != [] {
      var p, e := log[..|log| - 1], log[|log| - 1];
      assert log == p + [e];
      HaveSydyDelivers(first, p, mask);
      SydyIsSelected(first, p, mask);
      DeliversAfter(first, p, e, mask);
      hide Delivers, ChosenAt;
    }
  }

  // The renewal times computed since the last renewal, by the grants that set it.
  function RenewalTimes(first: PortIdentity, log: seq<Event>, mask: set<MessageType>): seq<nat> {
    if log == [] then []
    else
      var p, e := log[..|log| - 1], log[|log| - 1];
      if e == Renewed then []
      else if e.Granted? && e.tmo != None && SetsRenewal(Run(first, p, mask).state, e.mtype) then
        RenewalTimes(first, p, mask) + [e.tmo.value]
      else RenewalTimes(first, p, mask)
  }

  // Which grants set it: Announce before the master announces and while it delivers, Sync and Delay_Resp while it
  // is the selected one.
  lemma RenewingGrants(first: PortIdentity, log: seq<Event>, mask: set<MessageType>, m: MessageType, from: PortIdentity,
                       tmo: nat)
    ensures RenewalTimes(first, log + [Granted(m, from, Some(tmo))], mask) == RenewalTimes(first, log, mask) +
            if (m == Contracts.Announce && (!Announces(log) || Delivers(first, log, mask))) ||
               ((m == Contracts.Sync || m == Contracts.DelayResp) && Chosen(first, log, mask)) then [tmo]
            else []
  {
    var next := log + [Granted(m, from, Some(tmo))];
    assert next[..|log|] == log;
    WaitIsSilent(first, log, mask);
    HaveSydyDelivers(first, log, mask);
    SydyIsSelected(first, log, mask);
    hide Announces, Delivers, Run, ChosenAt;
  }

  // The grant at `i` made the master announce.
  ghost predicate IntroducedAt(log: seq<Event>, i: nat) {
    i < |log| && log[i].Granted? && log[i].mtype == Contracts.Announce && !Announces(log[..i])
  }

  // A record has the identity of the port that last made the master announce, and that from the start until then.
  lemma {:induction false} IdentityIsIntroduced(first: PortIdentity, log: seq<Event>, mask: set<MessageType>)
    ensures var identity := Run(first, log, mask).identity;
            && ((forall i :: 0 <= i < |log| ==> !IntroducedAt(log, i)) ==> identity == first)
            && (forall i: nat :: IntroducedAt(log, i) && (forall j :: i < j < |log| ==> !IntroducedAt(log, j)) ==>
                  identity == log[i].from)
  {
    if log != [] {
      var n := |log| - 1;
      var p, e := log[..n], log[n];
      IdentityIsIntroduced(first, p, mask);
      WaitIsSilent(first, p, mask);
      forall i | 0 <= i < n
        ensures IntroducedAt(log, i) <==> IntroducedAt(p, i)
      {
        assert log[..i] == p[..i];
      }
      assert IntroducedAt(log, n) <==> e.Granted? && e.mtype == Contracts.Announce && !Announces(p);
      hide Announces;
    }
  }

  ghost predicate IsLeast(x: int, s: seq<nat>) {
    x in s && forall i :: 0 <= i < |s| ==> x <= s[i]
  }

  // The renewal time is the least of them; when it is not zero, this fails exactly if one of them was
  // zero, which reads as "not set".
  lemma {:induction false} RenewalIsLeast(first: PortIdentity, log: seq<Event>, mask: set<MessageType>)
    ensures var tmo, times := Run(first, log, mask).renewalTmo, RenewalTimes(first, log, mask);
            && (times == [] ==> tmo == 0)
            && (times != [] ==> tmo in times)
            && (tmo != 0 ==> (IsLeast(tmo, times) <==> 0 !in times))
            && (0 !in times && times != [] ==> tmo > 0)
  {
    if log != [] {
      RenewalIsLeast(first, log[..|log| - 1], mask);
      var p, e := log[..|log| - 1], log[|log| - 1];
      var r, times := Run(first, p, mask), RenewalTimes(first, p, mask);
      if e.Granted? && e.tmo != None && SetsRenewal(r.state, e.mtype) {
        LeastOfMore(r.renewalTmo, times, e.tmo.value);
      }
    }
  }

  lemma LeastOfMore(cur: int, times: seq<nat>, t: nat)
    requires times == [] ==> cur == 0
    requires times != [] ==> cur in times
    requires cur != 0 ==> (IsLeast(cur, times) <==> 0 !in times)
    requires 0 !in times && times != [] ==> cur > 0
    ensures var next, more := Earlier(cur, t), times + [t];
            && next in more && (next != 0 ==> (IsLeast(next, more) <==> 0 !in more)) && (0 !in more ==> next > 0)
  {
    var more := times + [t];
    assert t in more && more[|times|] == t;
    assert forall x :: x in more <==> x in times || x == t;
    if 0 in times {
      var i :| 0 <= i < |times| && times[i] == 0;
      assert more[i] == 0;
    } else {
      assert forall i :: 0 <= i < |more| ==> more[i] == if i < |times| then times[i] else t;
    }
  }

  // A zero that gets lost: two grants, the first computed as zero.
  lemma ZeroIsLost(first: PortIdentity, p: PortIdentity)
    ensures var log := [Granted(Contracts.Announce, p, Some(0)), Selection(true), Granted(Contracts.Sync, p, Some(5))];
            Run(first, log, SydyMask(false)).renewalTmo == 5 && RenewalTimes(first, log, SydyMask(false)) == [0, 5]
  {
    var log := [Granted(Contracts.Announce, p, Some(0)), Selection(true), Granted(Contracts.Sync, p, Some(5))];
    var mask := SydyMask(false);
    assert log[..2] == [Granted(Contracts.Announce, p, Some(0)), Selection(true)];
    assert log[..2][..1] == [Granted(Contracts.Announce, p, Some(0))];
    assert Run(first, log[..2][..1], mask) == Record(p, HaveAnn, {Contracts.Announce}, 0);
    assert Run(first, log[..2], mask) == Record(p, NeedSydy, {Contracts.Announce}, 0);
    assert RenewalTimes(first, log[..2][..1], mask) == [0];
  }

  // ---- what is asked for ----

  // The message types a request message asks for; `due` tells whether it is time to renew.
  function Asked(s: State, p2p: bool, due: bool): seq<MessageType> {
    match s
    case Wait => [Contracts.Announce]
    case HaveAnn => if due then [Contracts.Announce] else []
    case NeedSydy => if p2p then [Contracts.Sync] else [Contracts.Sync, Contracts.DelayResp]
    case HaveSydy =>
      if !due then []
      else if p2p then [Contracts.Announce, Contracts.Sync]
      else [Contracts.Announce, Contracts.Sync, Contracts.DelayResp]
  }

  // The types in `asked`, one each, in some order (the second is a repetition when there is only one).
  ghost predicate InSomeOrder(a: MessageType, b: MessageType, asked: seq<MessageType>)
    requires 1 <= |asked| <= 2
  {
    (a == asked[0] && b == asked[|asked| - 1]) || (b == asked[0] && a == asked[|asked| - 1])
  }

  // What is asked for, when all of it is granted in any order, leads to the next state: Announce to a
  // master that can be selected, and the others to one that delivers.
  lemma AskedIsWhatIsNeeded(first: PortIdentity, log: seq<Event>, p2p: bool, from: PortIdentity, tmo: Option<nat>,
                            a: MessageType, b: MessageType)
    ensures var mask := SydyMask(p2p);
            var r := Run(first, log, mask);
            && (forall m :: m in mask <==> m in Asked(HaveSydy, p2p, true))
            && (r.state == Wait ==>
                  Apply(r, Granted(Asked(Wait, p2p, true)[0], from, tmo), mask).state == HaveAnn)
            && (r.state == NeedSydy && InSomeOrder(a, b, Asked(NeedSydy, p2p, true)) ==>
                  Apply(Apply(r, Granted(a, from, tmo), mask), Granted(b, from, tmo), mask).state == HaveSydy)
  {
    var mask := SydyMask(p2p);
    var r := Run(first, log, mask);
    GrantedIsEnough(first, log, mask);
    if r.state == NeedSydy && InSomeOrder(a, b, Asked(NeedSydy, p2p, true)) {
      assert mask <= r.granted + {a} + {b};
    }
  }

  // ---- the records and the port ----

  class Master {
    const address: Address
    const ttype: Transport
    const mask: set<MessageType>
    var identity: PortIdentity
    var state: State
    var granted: set<MessageType>
    var renewalTmo: int
    ghost const first: PortIdentity
    ghost var log: seq<Event>

    ghost predicate Valid()
      reads this
    {
      Run(first, log, mask) == Record(identity, state, granted, renewalTmo)
    }

    constructor (address: Address, ttype: Transport, mask: set<MessageType>, identity: PortIdentity)
      ensures Valid() && log == [] && this.mask == mask && this.address == address && this.ttype == ttype
    {
      this.address, this.ttype, this.mask := address, ttype, mask;
      this.identity, first := identity, identity;
      state, granted, renewalTmo, log := Wait, {}, 0, [];
    }

    ghost method Note(e: Event)
      requires Apply(Run(first, log, mask), e, mask) == Record(identity, state, granted, renewalTmo)
      modifies this`log
      ensures Valid() && log == old(log) + [e]
    {
      log := log + [e];
      assert log[..|log| - 1] == old(log);
    }

    // unicast_client_set_renewal; `now` is the clock reading, None when it fails.
    method SetRenewal(now: Option<nat>, duration: nat)
      modifies this`renewalTmo
      ensures renewalTmo == if now == None then old(renewalTmo)
              else Earlier(old(renewalTmo), now.value + 3 * duration / 4)
    {
      if now == None {
        return;
      }
      var tmo := now.value + 3 * duration / 4;
      if renewalTmo == 0 || tmo < renewalTmo {
        renewalTmo := tmo;
      }
    }

    // The grant, once it is known to be for this record.
    method Grant(mtype: MessageType, from: PortIdentity, duration: nat, now: Option<nat>)
      requires Valid()
      modifies this
      ensures Valid()
      ensures log == old(log) + [Granted(mtype, from, RenewalTime(now, duration))]
    {
      granted := granted + {mtype};
      var s := state;
      match s {
        case Wait =>
          if mtype == Contracts.Announce {
            state := UnicastFsm(state, GrantAnn);
            identity := from;
            SetRenewal(now, duration);
          }
        case HaveAnn =>
        case NeedSydy =>
          if mtype == Contracts.DelayResp || mtype == Contracts.Sync {
            if granted * mask == mask {
              state := UnicastFsm(state, GrantSydy);
            }
            SetRenewal(now, duration);
          }
        case HaveSydy =>
          if mtype == Contracts.Announce || mtype == Contracts.DelayResp || mtype == Contracts.Sync {
            SetRenewal(now, duration);
          }
      }
      Note(Granted(mtype, from, RenewalTime(now, duration)));
    }

    method Reject(mtype: MessageType)
      requires Valid()
      modifies this
      ensures Valid() && log == old(log) + [Rejected(mtype)]
    {
      if mtype != Contracts.PdelayResp {
        state := Wait;
      }
      Note(Rejected(mtype));
    }

    method CancelGrant(mtype: MessageType)
      requires Valid()
      modifies this
      ensures Valid() && log == old(log) + [Cancelled(mtype)]
    {
      state := UnicastFsm(state, Cancel);
      granted := granted - {mtype};
      Note(Cancelled(mtype));
    }

    // The turn of the loop in unicast_client_state_changed
    method Select(parent: PortIdentity)
      requires Valid()
      modifies this
      ensures Valid() && log == old(log) + [Selection(old(identity) == parent)]
    {
      var chosen := identity == parent;
      state := UnicastFsm(state, if chosen then Selected else Unselected);
      Note(Selection(chosen));
    }

    // unicast_client_renew, up to the message: is it time?
    method Renew(now: nat) returns (due: bool)
      requires Valid()
      modifies this
      ensures Valid() && due == (now >= old(renewalTmo)) && state == old(state)
      ensures log == if due then old(log) + [Renewed] else old(log)
    {
      if now < renewalTmo {
        return false;
      }
      renewalTmo := 0;
      Note(Renewed);
      return true;
    }
  }

  function RenewalTime(now: Option<nat>, duration: nat): Option<nat> {
    if now == None then None else Some(now.value + 3 * duration / 4)
  }

  class Port {
    const p2p: bool
    const transport: Transport
    const masters: seq<Master>
    const peer: Option<Master>
    var logMinDelayReqInterval: int
    var logPdelayReqInterval: int
    var syncInterval: int

    ghost predicate Valid()
      reads masters, if peer == None then {} else {peer.value}
    {
      && Distinct(masters)
      && (peer != None ==> peer.value !in masters)
      && forall i :: 0 <= i < |masters| ==> masters[i].Valid() && masters[i].mask == SydyMask(p2p)
    }

    // The record of an address, or the length of the table (unicast_client_ok).
    function Find(addr: Address, n: nat): (k: nat)
      requires n <= |masters|
      ensures n <= k <= |masters|
      ensures k < |masters| ==> Contracts.AddrEq(transport, masters[k].address, addr)
      ensures forall i :: n <= i < k ==> !Contracts.AddrEq(transport, masters[i].address, addr)
      decreases |masters| - n
    {
      if n == |masters| || Contracts.AddrEq(transport, masters[n].address, addr) then n else Find(addr, n + 1)
    }

    // unicast_client_grant; the peer's record is not part of the table.
    method Grant(addr: Address, from: PortIdentity, mtype: MessageType, duration: nat, logPeriod: int, now: Option<nat>)
      requires Valid()
      modifies this`logMinDelayReqInterval, this`logPdelayReqInterval, this`syncInterval, masters
      modifies if peer == None then {} else {peer.value}
      ensures Valid()
      ensures var k := Find(addr, 0);
              forall i :: 0 <= i < |masters| ==>
                masters[i].log ==
                if i != k then old(masters[i].log)
                else if duration == 0 then old(masters[i].log) + [Rejected(mtype)]
                else if p2p && (mtype == Contracts.DelayResp || mtype == Contracts.PdelayResp) then old(masters[i].log)
                else old(masters[i].log) + [Granted(mtype, from, RenewalTime(now, duration))]
      ensures peer != None ==>
        var p := peer.value;
        if Find(addr, 0) < |masters| && duration > 0 && p2p && mtype == Contracts.PdelayResp then
          && p.identity == from
          && p.renewalTmo == (if now == None then old(p.renewalTmo)
                              else Earlier(old(p.renewalTmo), now.value + 3 * duration / 4))
        else p.identity == old(p.identity) && p.renewalTmo == old(p.renewalTmo)
      ensures var k := Find(addr, 0);
              var granted := k < |masters| && duration > 0;
              && logPdelayReqInterval == (if granted && p2p && mtype == Contracts.PdelayResp then logPeriod
                                          else old(logPdelayReqInterval))
              && logMinDelayReqInterval == (if granted && !p2p && mtype == Contracts.DelayResp &&
                                               old(masters[k].state) == NeedSydy then logPeriod
                                            else old(logMinDelayReqInterval))
              && syncInterval == (if granted && mtype == Contracts.Sync &&
                                  old(masters[k].state) == NeedSydy then logPeriod
                                  else old(syncInterval))
    {
      var k := Find(addr, 0);
      if k == |masters| {
        return;
      }
      var master := masters[k];
      if duration == 0 {
        master.Reject(mtype);
        return;
      }
      if p2p && mtype == Contracts.DelayResp {
        return;
      }
      if p2p && mtype == Contracts.PdelayResp {
        if peer != None {
          peer.value.identity := from;
          peer.value.SetRenewal(now, duration);
        }
        logPdelayReqInterval := logPeriod;
        return;
      }
      if master.state == NeedSydy {
        if mtype == Contracts.DelayResp {
          logMinDelayReqInterval := logPeriod;
        } else if mtype == Contracts.Sync {
          syncInterval := logPeriod;
        }
      }
      master.Grant(mtype, from, duration, now);
    }

    // unicast_client_cancel: whether an acknowledgement is sent.
    method Cancel(addr: Address, mtype: MessageType, maintainGrant: bool) returns (acknowledged: bool)
      requires Valid()
      modifies masters
      ensures Valid()
      ensures var k := Find(addr, 0);
              && (acknowledged <==>
                    k < |masters| && !maintainGrant &&
                    (mtype == Contracts.Announce || mtype == Contracts.Sync || mtype == Contracts.DelayResp))
              && forall i :: 0 <= i < |masters| ==>
                   masters[i].log == old(masters[i].log) + if acknowledged && i == k then [Cancelled(mtype)] else []
    {
      var k := Find(addr, 0);
      if k == |masters| {
        return false;
      }
      if mtype != Contracts.Announce && mtype != Contracts.Sync && mtype != Contracts.DelayResp {
        return false;
      }
      if maintainGrant {
        return false;
      }
      masters[k].CancelGrant(mtype);
      return true;
    }

    // unicast_client_state_changed
    method StateChanged(parent: PortIdentity)
      requires Valid()
      modifies masters
      ensures Valid()
      ensures forall i :: 0 <= i < |masters| ==>
        masters[i].log == old(masters[i].log) + [Selection(old(masters[i].identity) == parent)]
    {
      var i := 0;
      while i < |masters|
        invariant 0 <= i <= |masters| && Valid()
        invariant forall j :: 0 <= j < i ==>
          masters[j].log == old(masters[j].log) + [Selection(old(masters[j].identity) == parent)]
        invariant forall j :: i <= j < |masters| ==>
          masters[j].log == old(masters[j].log) && masters[j].identity == old(masters[j].identity)
      {
        masters[i].Select(parent);
        i := i + 1;
      }
    }

    // What the timer notes for a master in this state
    ghost function Renewals(s: State, due: bool): seq<Event> {
      if due && (s == HaveAnn || s == HaveSydy) then [Renewed] else []
    }

    // One master of the loop in unicast_client_timer
    method Ask(master: Master, now: nat) returns (types: seq<MessageType>)
      requires master.Valid()
      modifies master
      ensures master.Valid()
      ensures types == Asked(old(master.state), p2p, now >= old(master.renewalTmo))
      ensures master.log == old(master.log) + Renewals(old(master.state), now >= old(master.renewalTmo))
    {
      var s := master.state;
      match s {
        case Wait => return [Contracts.Announce];
        case HaveAnn =>
          var due := master.Renew(now);
          return if due then [Contracts.Announce] else [];
        case NeedSydy => return if p2p then [Contracts.Sync] else [Contracts.Sync, Contracts.DelayResp];
        case HaveSydy =>
          var due := master.Renew(now);
          if !due {
            return [];
          }
          return if p2p then [Contracts.Announce, Contracts.Sync]
                 else [Contracts.Announce, Contracts.Sync, Contracts.DelayResp];
      }
    }

    // unicast_client_peer_renew
    method AskPeer(now: nat) returns (types: seq<MessageType>)
      modifies if peer == None then {} else {peer.value}
      ensures peer == None ==> types == []
      ensures peer != None ==>
        && types == (if now >= old(peer.value.renewalTmo) then [Contracts.PdelayResp] else [])
        && peer.value.renewalTmo == if now >= old(peer.value.renewalTmo) then 0 else old(peer.value.renewalTmo)
    {
      if peer == None {
        return [];
      }
      if now < peer.value.renewalTmo {
        return [];
      }
      peer.value.renewalTmo := 0;
      return [Contracts.PdelayResp];
    }

    // How often the peer is asked in the turns of the first `n` masters: not before one of them, of the port's
    // transport, finds its renewal time reached, and from then on in the turn of each.
    function PeerRequests(n: nat, tmo: int, nows: seq<nat>): nat
      requires n <= |masters| == |nows|
    {
      if n == 0 then 0
      else
        var k := PeerRequests(n - 1, tmo, nows);
        if masters[n - 1].ttype == transport && (k > 0 || nows[n - 1] >= tmo) then k + 1 else k
    }

    // So it is asked for each master from the first one on that finds the renewal time reached.
    lemma {:induction false} PeerIsAskedPerMaster(n: nat, tmo: int, nows: seq<nat>)
      requires n <= |masters| == |nows|
      ensures var k := PeerRequests(n, tmo, nows);
              && (k == 0 <==> forall i :: 0 <= i < n && masters[i].ttype == transport ==> nows[i] < tmo)
              && (k > 0 ==>
                    exists i :: 0 <= i < n && nows[i] >= tmo && masters[i].ttype == transport && k == Matching(i, n)
                      && forall j :: 0 <= j < i && masters[j].ttype == transport ==> nows[j] < tmo)
    {
      if n > 0 {
        PeerIsAskedPerMaster(n - 1, tmo, nows);
        var k := PeerRequests(n - 1, tmo, nows);
        if k > 0 {
          var i :| 0 <= i < n - 1 && nows[i] >= tmo && masters[i].ttype == transport && k == Matching(i, n - 1)
                   && forall j :: 0 <= j < i && masters[j].ttype == transport ==> nows[j] < tmo;
          assert PeerRequests(n, tmo, nows) == Matching(i, n);
        } else if PeerRequests(n, tmo, nows) > 0 {
          assert Matching(n - 1, n) == 1;
        }
      }
    }

    // How many of the masters from `i` to before `n` are of the port's transport.
    function Matching(i: nat, n: nat): nat
      requires i <= n <= |masters|
    {
      if n == i then 0 else Matching(i, n - 1) + if masters[n - 1].ttype == transport then 1 else 0
    }

    // One turn of the loop in unicast_client_timer
    method Turn(master: Master, now: nat, peerNow: nat) returns (types: seq<MessageType>, n: nat)
      requires master.Valid() && peer != Some(master)
      modifies master
      modifies if peer == None then {} else {peer.value}
      ensures master.Valid()
      ensures types == if master.ttype != transport then []
                       else Asked(old(master.state), p2p, now >= old(master.renewalTmo))
      ensures master.log == old(master.log) +
                if master.ttype != transport then [] else Renewals(old(master.state), now >= old(master.renewalTmo))
      ensures n == if master.ttype == transport && p2p && peer != None &&
              peerNow >= old(peer.value.renewalTmo) then 1 else 0
      ensures peer != None ==> peer.value.renewalTmo == if n > 0 then 0 else old(peer.value.renewalTmo)
    {
      hide Run, Asked;
      if master.ttype != transport {
        return [], 0;
      }
      types := Ask(master, now);
      if !p2p {
        return types, 0;
      }
      var p := AskPeer(peerNow);
      n := |p|;
    }

    // unicast_client_timer.  Each request reads the clock for itself: `nows` for the masters, `peerNows` for
    // the peer.
    method Timer(nows: seq<nat>, peerNows: seq<nat>) returns (asked: seq<seq<MessageType>>, peerAsked: nat)
      requires Valid() && |nows| == |peerNows| == |masters|
      modifies masters
      modifies if peer == None then {} else {peer.value}
      ensures Valid() && |asked| == |masters|
      ensures forall i :: 0 <= i < |masters| ==>
        asked[i] == if masters[i].ttype != transport then []
                    else Asked(old(masters[i].state), p2p, nows[i] >= old(masters[i].renewalTmo))
      ensures forall i :: 0 <= i < |masters| ==>
        masters[i].log == old(masters[i].log) +
          if masters[i].ttype != transport then []
          else Renewals(old(masters[i].state), nows[i] >= old(masters[i].renewalTmo))
      ensures peerAsked ==
              if p2p && peer != None then PeerRequests(|masters|, old(peer.value.renewalTmo), peerNows) else 0
    {
      hide Run, Asked, Renewals;
      asked, peerAsked := [], 0;
      var i := 0;
      while i < |masters|
        invariant 0 <= i <= |masters| && |asked| == i && Valid()
        invariant forall j :: i <= j < |masters| ==>
          && masters[j].state == old(masters[j].state) && masters[j].renewalTmo == old(masters[j].renewalTmo)
          && masters[j].log == old(masters[j].log)
        invariant forall j :: 0 <= j < i ==>
          masters[j].log == old(masters[j].log) +
            if masters[j].ttype != transport then []
            else Renewals(old(masters[j].state), nows[j] >= old(masters[j].renewalTmo))
        invariant forall j :: 0 <= j < i ==>
          asked[j] == if masters[j].ttype != transport then []
                      else Asked(old(masters[j].state), p2p, nows[j] >= old(masters[j].renewalTmo))
        invariant peerAsked == if p2p && peer != None then PeerRequests(i, old(peer.value.renewalTmo), peerNows) else 0
        invariant peer != None ==>
          peer.value.renewalTmo == if peerAsked > 0 then 0 else old(peer.value.renewalTmo)
      {
        var types, n := Turn(masters[i], nows[i], peerNows[i]);
        asked, peerAsked := asked + [types], peerAsked + n;
        i := i + 1;
      }
    }
  }
}
