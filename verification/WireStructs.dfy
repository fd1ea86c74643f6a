/** The packed structures of `msg.h`, `tlv.h`, `ds.h` and `ddt.h`, member by member, and the proof that the
  positions and sizes in `Tlv` and `Codec` are those of the members that need conversion.
 */
module WireStructs {
  import opened Prelude
  import opened ByteOrder
  import opened Tlv
  import opened Codec

  // A member that is left alone, a number, or a ScaledNs.
  datatype Member = Bytes(n: nat) | Number(width: nat) | ScaledNs

  // The members of a structure, from the first to the last.  `Suffix` is the member of no size behind which TLVs
  // follow.
  datatype Struct = End | Suffix | Is(m: Member, rest: Struct)

  function MemberSize(m: Member): nat {
    match m
    case Bytes(n) => n
    case Number(width) => width
    case ScaledNs => 12
  }

  function SizeOf(s: Struct): nat {
    match s
    case End | Suffix => 0
    case Is(m, rest) => MemberSize(m) + SizeOf(rest)
  }

  // What is to be converted in a packed structure at `base`.
  function FieldsOf(s: Struct, base: nat): seq<Field> {
    match s
    case End | Suffix => []
    case Is(Bytes(n), rest) => FieldsOf(rest, base + n)
    case Is(Number(width), rest) => [Swap(base, width)] + FieldsOf(rest, base + width)
    case Is(ScaledNs, rest) => [Scaled(base)] + FieldsOf(rest, base + 12)
  }

  predicate EndsInSuffix(s: Struct) {
    match s
    case End => false
    case Suffix => true
    case Is(_, rest) => EndsInSuffix(rest)
  }

  function Octets(n: nat, rest: Struct): Struct { Is(Bytes(n), rest) }
  function UInt16(rest: Struct): Struct { Is(Number(2), rest) }
  function UInt32(rest: Struct): Struct { Is(Number(4), rest) }
  function Int64(rest: Struct): Struct { Is(Number(8), rest) }
  function ClockIdentity(rest: Struct): Struct { Is(Bytes(8), rest) }
  function PortIdentity(rest: Struct): Struct { ClockIdentity(UInt16(rest)) }
  function ClockQuality(rest: Struct): Struct { Octets(1, Octets(1, UInt16(rest))) }
  function WireTimestamp(rest: Struct): Struct { UInt16(UInt32(UInt32(rest))) }

  // struct defaultDS
  function DefaultDs(): Struct {
    Octets(1, Octets(1, UInt16(Octets(1, ClockQuality(Octets(1, ClockIdentity(Octets(1, Octets(1, End)))))))))
  }

  // struct currentDS
  function CurrentDs(rest: Struct): Struct { UInt16(Int64(Int64(rest))) }

  // struct parentDS
  function ParentDs(rest: Struct): Struct {
    PortIdentity(Octets(1, Octets(1, UInt16(UInt32(Octets(1, ClockQuality(Octets(1, ClockIdentity(rest)))))))))
  }

  // struct timePropertiesDS
  function TimePropertiesDs(rest: Struct): Struct { UInt16(Octets(1, Octets(1, rest))) }

  // struct portDS
  function PortDs(): Struct { PortIdentity(Octets(1, Octets(1, Int64(Octets(6, End))))) }

  // struct time_status_np
  function TimeStatusNp(): Struct {
    Int64(Int64(UInt32(UInt32(UInt16(Is(ScaledNs, UInt32(ClockIdentity(End))))))))
  }

  // struct grandmaster_settings_np
  function GrandmasterSettingsNp(): Struct { ClockQuality(UInt16(Octets(1, Octets(1, End)))) }

  // struct port_ds_np
  function PortDsNp(): Struct { UInt32(UInt32(End)) }

  // struct subscribe_events_np
  function SubscribeEventsNp(): Struct { UInt16(Octets(64, End)) }

  // struct nsm_resp_tlv_foot
  function ResponseFoot(): Struct { ParentDs(CurrentDs(TimePropertiesDs(WireTimestamp(End)))) }

  // struct slave_delay_timing_record
  function DelayTimingRecord(): Struct { UInt16(WireTimestamp(Int64(WireTimestamp(End)))) }

  // struct slave_rx_sync_timing_record
  function RxSyncTimingRecord(): Struct { UInt16(WireTimestamp(Int64(UInt32(WireTimestamp(End))))) }

  // struct follow_up_info_tlv from its identifiers on
  function FollowUpInfo(): Struct { Octets(3, Octets(3, UInt32(UInt16(Is(ScaledNs, UInt32(End)))))) }

  // struct request_unicast_xmit_tlv and grant_unicast_xmit_tlv from their message types on
  function UnicastRequest(): Struct { Octets(1, Octets(1, UInt32(End))) }
  function UnicastGrant(): Struct { Octets(1, Octets(1, UInt32(Octets(1, Octets(1, End))))) }

  // struct ptp_header
  function Header(body: Struct): Struct {
    Octets(1, Octets(1, UInt16(Octets(1, Octets(1, Octets(2, Int64(Octets(4,
    PortIdentity(UInt16(Octets(1, Octets(1, body))))))))))))
  }

  // The bodies behind it.  A time stamp that is copied out on receipt is not converted in place.
  function AnnounceBody(): Struct {
    Octets(10, UInt16(Octets(1, Octets(1, ClockQuality(Octets(1, ClockIdentity(UInt16(Octets(1, Suffix)))))))))
  }
  function SignalingBody(): Struct { PortIdentity(Suffix) }
  function ManagementBody(): Struct { PortIdentity(Octets(4, Suffix)) }
  function ResponseBody(last: Struct): Struct { Octets(10, PortIdentity(last)) }
  function OriginBody(last: Struct): Struct { Octets(10, last) }
  function PdelayReqBody(): Struct { Octets(10, Octets(10, End)) }

  // How the members of a structure add up.
  lemma SizesAdd()
    ensures SizeOf(End) == 0 && SizeOf(Suffix) == 0
    ensures forall n: nat, rest :: SizeOf(Octets(n, rest)) == n + SizeOf(rest)
    ensures forall rest :: SizeOf(UInt16(rest)) == 2 + SizeOf(rest)
    ensures forall rest :: SizeOf(UInt32(rest)) == 4 + SizeOf(rest)
    ensures forall rest :: SizeOf(Int64(rest)) == 8 + SizeOf(rest)
    ensures forall rest :: SizeOf(ClockIdentity(rest)) == 8 + SizeOf(rest)
    ensures forall rest :: SizeOf(Is(ScaledNs, rest)) == 12 + SizeOf(rest)
  {
  }

  lemma FieldsAdd()
    ensures forall base: nat :: FieldsOf(End, base) == [] && FieldsOf(Suffix, base) == []
    ensures forall n: nat, rest, base: nat :: FieldsOf(Octets(n, rest), base) == FieldsOf(rest, base + n)
    ensures forall rest, base: nat :: FieldsOf(UInt16(rest), base) == [Swap(base, 2)] + FieldsOf(rest, base + 2)
    ensures forall rest, base: nat :: FieldsOf(UInt32(rest), base) == [Swap(base, 4)] + FieldsOf(rest, base + 4)
    ensures forall rest, base: nat :: FieldsOf(Int64(rest), base) == [Swap(base, 8)] + FieldsOf(rest, base + 8)
    ensures forall rest, base: nat :: FieldsOf(ClockIdentity(rest), base) == FieldsOf(rest, base + 8)
    ensures forall rest, base: nat :: FieldsOf(Is(ScaledNs, rest), base) == [Scaled(base)] + FieldsOf(rest, base + 12)
  {
  }

  // The table says what the structure does.
  ghost predicate Follows(table: (nat, seq<Field>), s: Struct, base: nat) {
    table.0 == SizeOf(s) && table.1 == FieldsOf(s, base)
  }

  // The management data sets of fixed size: an identifier of two bytes comes before the data.
  lemma ManagementTables()
    ensures Follows(MgtFixed(DEFAULT_DATA_SET).value, DefaultDs(), 2)
    ensures Follows(MgtFixed(CURRENT_DATA_SET).value, CurrentDs(End), 2)
    ensures Follows(MgtFixed(PARENT_DATA_SET).value, ParentDs(End), 2)
    ensures Follows(MgtFixed(TIME_PROPERTIES_DATA_SET).value, TimePropertiesDs(End), 2)
    ensures Follows(MgtFixed(PORT_DATA_SET).value, PortDs(), 2)
  {
    SizesAdd();
    FieldsAdd();
    hide FieldsOf, SizeOf, Octets, UInt16, UInt32, Int64, ClockIdentity;
  }

  // ... and those that are not part of the standard.
  lemma OwnManagementTables()
    ensures Follows(MgtFixed(TIME_STATUS_NP).value, TimeStatusNp(), 2)
    ensures Follows(MgtFixed(GRANDMASTER_SETTINGS_NP).value, GrandmasterSettingsNp(), 2)
    ensures Follows(MgtFixed(PORT_DATA_SET_NP).value, PortDsNp(), 2)
    ensures Follows(MgtFixed(SUBSCRIBE_EVENTS_NP).value, SubscribeEventsNp(), 2)
  {
    SizesAdd();
    FieldsAdd();
    hide FieldsOf, SizeOf, Octets, UInt16, UInt32, Int64, ClockIdentity;
  }

  // The records of slave timing data.
  lemma RecordTables(ttype: nat)
    ensures Follows(SlaveRecord(ttype), if ttype == SLAVE_RX_SYNC_TIMING_DATA then RxSyncTimingRecord()
                    else DelayTimingRecord(), 0)
  {
    SizesAdd();
    FieldsAdd();
    hide FieldsOf, SizeOf, Octets, UInt16, UInt32, Int64, ClockIdentity;
  }

  // The monitoring response, the follow-up information and the unicast negotiation.
  lemma TlvTables()
    ensures Follows((FOOT_SIZE, FootFields()), ResponseFoot(), 0)
    ensures Follows((28, FollowUpInfoFields()), FollowUpInfo(), 0)
    ensures Follows((6, UnicastFields(REQUEST_UNICAST_TRANSMISSION)), UnicastRequest(), 0)
    ensures Follows((8, UnicastFields(GRANT_UNICAST_TRANSMISSION)), UnicastGrant(), 0)
  {
    SizesAdd();
    FieldsAdd();
    hide FieldsOf, SizeOf, Octets, UInt16, UInt32, Int64, ClockIdentity;
  }

  function Body(mtype: nat): Struct {
    if mtype == ANNOUNCE then AnnounceBody()
    else if mtype == SIGNALING then SignalingBody()
    else if mtype == MANAGEMENT_MESSAGE then ManagementBody()
    else if mtype == PDELAY_RESP then ResponseBody(End)
    else if mtype == DELAY_RESP || mtype == PDELAY_RESP_FOLLOW_UP then ResponseBody(Suffix)
    else if mtype == PDELAY_REQ then PdelayReqBody()
    else if mtype == SYNC then OriginBody(End)
    else OriginBody(Suffix)
  }

  lemma HeaderTable(body: Struct)
    ensures SizeOf(Header(body)) == HEADER_SIZE + SizeOf(body)
    ensures FieldsOf(Header(body), 0) == HeaderFields() + FieldsOf(body, HEADER_SIZE)
  {
    SizesAdd();
    FieldsAdd();
    hide FieldsOf, SizeOf, Octets, UInt16, UInt32, Int64, ClockIdentity;
  }

  lemma BodyTables(mtype: nat)
    requires PduLength(mtype) != None
    ensures PduLength(mtype).value == HEADER_SIZE + SizeOf(Body(mtype)) &&
            BodyFields(mtype) == FieldsOf(Body(mtype), HEADER_SIZE)
    ensures TimestampFields(mtype) == if SendsTimestamp(mtype) then FieldsOf(WireTimestamp(End), HEADER_SIZE) else []
  {
    SizesAdd();
    FieldsAdd();
    hide FieldsOf, SizeOf, Octets, UInt16, UInt32, Int64, ClockIdentity;
  }

  // Header and body of every message type, and the time stamp at the start of a body.
  lemma MessageTables(mtype: nat)
    requires PduLength(mtype) != None
    ensures Follows((PduLength(mtype).value, HeaderFields() + BodyFields(mtype)), Header(Body(mtype)), 0)
    ensures TimestampFields(mtype) == if SendsTimestamp(mtype) then FieldsOf(WireTimestamp(End), HEADER_SIZE) else []
  {
    hide FieldsOf, SizeOf, Header, HeaderFields, Body, BodyFields, TimestampFields;
    HeaderTable(Body(mtype));
    BodyTables(mtype);
  }

  // ---- which messages have their TLVs parsed ----

  lemma SuffixAdds()
    ensures !EndsInSuffix(End) && EndsInSuffix(Suffix)
    ensures forall n: nat, rest :: EndsInSuffix(Octets(n, rest)) == EndsInSuffix(rest)
    ensures forall rest :: EndsInSuffix(UInt16(rest)) == EndsInSuffix(rest)
    ensures forall rest :: EndsInSuffix(ClockIdentity(rest)) == EndsInSuffix(rest)
  {
  }

  lemma SuffixTable(mtype: nat)
    requires PduLength(mtype) != None
    ensures HasSuffix(mtype) <==> EndsInSuffix(Body(mtype))
  {
    SuffixAdds();
    hide EndsInSuffix, Octets, UInt16, ClockIdentity;
  }

  // The bytes behind the fixed part of a message.
  function Behind(b: seq<Octet>, mtype: nat): (r: seq<Octet>) {
    var n := HEADER_SIZE + SizeOf(Body(mtype));
    if n <= |b| then b[n..] else []
  }

  // A message whose structure ends in a suffix has every TLV behind it in host order under a descriptor of its
  // own, and no other descriptor; behind every other structure nothing is looked at.
  lemma SuffixIsParsed(b: seq<Octet>)
    requires |b| < 0x1_0000 && HostMessage(b).Ok?
    ensures var mtype, m := MessageType(b), HostMessage(b).value;
            var sent, host := Behind(b, mtype), Behind(m.bytes, mtype);
            && |m.bytes| == |b| >= HEADER_SIZE + SizeOf(Body(mtype)) && |host| == |sent|
            && if EndsInSuffix(Body(mtype)) then
                 && |m.extras| + 1 == |Marks(sent, 0)|
                 && forall k :: 0 <= k < |m.extras| ==> TlvIsParsed(sent, host, Marks(sent, 0)[k], m.extras[k])
               else
                 m.extras == [] && host == sent
  {
    var mtype, m := MessageType(b), HostMessage(b).value;
    BodyTables(mtype);
    SuffixTable(mtype);
    hide Body, SizeOf, EndsInSuffix, HasSuffix, Marks, HostSuffix, HostPdu, PduLength;
    var sent, host := Behind(b, mtype), Behind(m.bytes, mtype);
    if HasSuffix(mtype) {
      assert host == HostSuffix(sent).value.0;
      assert sent[0..] == sent;
      TlvsCoverSuffix(sent, 0);
      hide HostMessage, Behind, TlvIsParsed;
      forall k | 0 <= k < |m.extras|
        ensures TlvIsParsed(sent, host, Marks(sent, 0)[k], m.extras[k])
      {
        AllInHostOrder(sent, 0, k);
        ParsedAt(sent, host, Marks(sent, 0)[k], m.extras[k]);
      }
    }
  }

  ghost predicate TlvIsParsed(sent: seq<Octet>, host: seq<Octet>, p: nat, x: Extra)
    requires |host| == |sent|
  {
    p + TLV_SIZE <= |sent| && TlvEnd(sent, p) <= |sent| && InHostOrder(sent, host, p, x)
  }

  lemma ParsedAt(sent: seq<Octet>, host: seq<Octet>, p: nat, x: Extra)
    requires |host| == |sent| < 0x1_0000 && HostAt(sent, 0, host, p, x)
    ensures TlvIsParsed(sent, host, p, x)
  {
    hide InHostOrder, HostTlv, Turned, Net16;
    TlvInHostOrder(sent, host, p, x);
  }

  // A datagram is accepted exactly if it holds a header of this version, a known type, the whole structure of that
  // type, and, where the structure ends in a suffix, TLVs that cover what is behind it; a wrong version is told apart.
  lemma AcceptedIff(b: seq<Octet>)
    requires |b| < 0x1_0000
    ensures HostMessage(b).Ok? <==>
            && |b| >= HEADER_SIZE && b[1] % 16 == 2
            && b[0] % 16 in {SYNC, DELAY_REQ, PDELAY_REQ, PDELAY_RESP, FOLLOW_UP, DELAY_RESP, PDELAY_RESP_FOLLOW_UP,
                             ANNOUNCE, SIGNALING, MANAGEMENT_MESSAGE}
            && |b| >= HEADER_SIZE + SizeOf(Body(b[0] % 16))
            && (EndsInSuffix(Body(b[0] % 16)) ==>
                  Covered(Behind(b, b[0] % 16), Marks(Behind(b, b[0] % 16), 0)))
    ensures HostMessage(b) == Err(EPROTO) <==> |b| >= HEADER_SIZE && b[1] % 16 != 2
  {
    if |b| >= HEADER_SIZE {
      var mtype := b[0] % 16;
      KnownTypes(mtype);
      if PduLength(mtype) != None {
        BodyTables(mtype);
        SuffixTable(mtype);
        hide Body, SizeOf, EndsInSuffix, HasSuffix, Marks, HostSuffix, HostPdu, PduLength, Covered;
        var sent := Behind(b, mtype);
        assert sent[0..] == sent;
        SuffixAcceptedIff(sent, 0);
      }
    }
  }

  lemma KnownTypes(mtype: nat)
    ensures PduLength(mtype) != None <==>
            mtype in {SYNC, DELAY_REQ, PDELAY_REQ, PDELAY_RESP, FOLLOW_UP, DELAY_RESP, PDELAY_RESP_FOLLOW_UP, ANNOUNCE,
                      SIGNALING, MANAGEMENT_MESSAGE}
  {
  }

  // ---- which values are accepted, and what is converted in them ----

  function UnicastEmpty(): Struct { Octets(1, Octets(1, End)) }

  // The value of a unicast negotiation TLV.
  function UnicastStruct(ttype: nat): Struct {
    if ttype == REQUEST_UNICAST_TRANSMISSION then UnicastRequest()
    else if ttype == GRANT_UNICAST_TRANSMISSION then UnicastGrant()
    else UnicastEmpty()
  }

  // What each of the negotiation TLVs is accepted for: its structure fits, and the upper half of its first byte
  // is one of the four message types that can be negotiated.
  lemma UnicastTlvs(ttype: nat, v: seq<Octet>)
    requires ttype in {REQUEST_UNICAST_TRANSMISSION, GRANT_UNICAST_TRANSMISSION, CANCEL_UNICAST_TRANSMISSION,
                       ACKNOWLEDGE_CANCEL_UNICAST_TRANSMISSION}
    ensures ReceiveLayout(ttype, v) != None <==>
            |v| >= SizeOf(UnicastStruct(ttype)) && v[0] / 16 in {SYNC, PDELAY_RESP, DELAY_RESP, ANNOUNCE}
    ensures ReceiveLayout(ttype, v) != None ==>
              Fields(ReceiveLayout(ttype, v).value) == FieldsOf(UnicastStruct(ttype), 0)
  {
    SizesAdd();
    FieldsAdd();
    PlainFields(Plain(UnicastFields(ttype)));
    hide FieldsOf, SizeOf, Octets, UInt16, UInt32, Int64, ClockIdentity, Fields;
  }

  // The data set of a management identifier, where it has a fixed size.
  function DataSet(id: nat): Option<Struct> {
    if id == DEFAULT_DATA_SET then Some(DefaultDs())
    else if id == CURRENT_DATA_SET then Some(CurrentDs(End))
    else if id == PARENT_DATA_SET then Some(ParentDs(End))
    else if id == TIME_PROPERTIES_DATA_SET then Some(TimePropertiesDs(End))
    else if id == PORT_DATA_SET then Some(PortDs())
    else if id == TIME_STATUS_NP then Some(TimeStatusNp())
    else if id == GRANDMASTER_SETTINGS_NP then Some(GrandmasterSettingsNp())
    else if id == PORT_DATA_SET_NP then Some(PortDsNp())
    else if id == SUBSCRIBE_EVENTS_NP then Some(SubscribeEventsNp())
    else None
  }

  lemma DataSetTable(id: nat)
    requires DataSet(id) != None
    ensures MgtFixed(id) == Some((SizeOf(DataSet(id).value), FieldsOf(DataSet(id).value, 2)))
    ensures id != CLOCK_DESCRIPTION && id != USER_DESCRIPTION && id != PORT_PROPERTIES_NP && id != PORT_STATS_NP
  {
    ManagementTables();
    OwnManagementTables();
    hide FieldsOf, SizeOf, DefaultDs, CurrentDs, ParentDs, TimePropertiesDs, PortDs, TimeStatusNp,
         GrandmasterSettingsNp, PortDsNp, SubscribeEventsNp;
  }

  // A management TLV with such an identifier is accepted with no data, or with exactly its data set, whose members
  // are converted behind the identifier.
  lemma ManagementTlvs(v: seq<Octet>)
    requires |v| >= 2 && DataSet(Net16(v, 0)) != None
    ensures var s := DataSet(Net16(v, 0)).value;
            && (ReceiveLayout(MANAGEMENT, v) != None <==> |v| == 2 || |v| == 2 + SizeOf(s))
            && (ReceiveLayout(MANAGEMENT, v) != None && |v| > 2 ==>
                  Fields(ReceiveLayout(MANAGEMENT, v).value) == [Swap(0, 2)] + FieldsOf(s, 2))
  {
    var id := Net16(v, 0);
    DataSetTable(id);
    hide DataSet, SizeOf, FieldsOf, MgtFixed, Describe, Net16;
    PlainFields(Plain([Swap(0, 2)] + MgtFixed(id).value.1));
    hide Fields;
  }

  // A command is accepted with no data alone.
  lemma CommandTlvs(v: seq<Octet>)
    requires |v| >= 2
    requires Net16(v, 0) in {SAVE_IN_NON_VOLATILE_STORAGE, RESET_NON_VOLATILE_STORAGE, INITIALIZE, FAULT_LOG_RESET,
                             ENABLE_PORT, DISABLE_PORT}
    ensures ReceiveLayout(MANAGEMENT, v) == if |v| == 2 then Some(Plain([Swap(0, 2)])) else None
  {
    hide Net16, Describe;
  }

  lemma IdentityTable()
    ensures SizeOf(ClockIdentity(End)) == 8 && SizeOf(PortIdentity(End)) == PORT_IDENTITY
    ensures FieldsOf(PortIdentity(End), 0) == [Swap(8, 2)]
  {
    SizesAdd();
    FieldsAdd();
    hide FieldsOf, SizeOf, Octets, UInt16, UInt32, Int64, ClockIdentity;
  }

  // A path trace is accepted with any whole number of clock identities.
  lemma PathTraceTlvs(v: seq<Octet>)
    requires |v| < 0x1_0000 && |v| % 2 == 0
    ensures ReceiveLayout(PATH_TRACE, v) != None <==> |v| % SizeOf(ClockIdentity(End)) == 0
  {
    IdentityTable();
    ArrayIsExact(WORD, |v|, 0, 8);
    hide ArrayInvalid, SizeOf, ClockIdentity;
  }

  function TimingRecord(ttype: nat): Struct {
    if ttype == SLAVE_RX_SYNC_TIMING_DATA then RxSyncTimingRecord() else DelayTimingRecord()
  }

  // Slave timing data is accepted with any whole number of records behind the port identity, and all of them are
  // converted.
  lemma SlaveDataTlvs(ttype: nat, v: seq<Octet>)
    requires |v| < 0x1_0000 && |v| % 2 == 0 && IsSlaveData(ttype)
    ensures SizeOf(TimingRecord(ttype)) > 0
    ensures ReceiveLayout(ttype, v) != None <==>
            |v| >= SizeOf(PortIdentity(End)) && (|v| - SizeOf(PortIdentity(End))) % SizeOf(TimingRecord(ttype)) == 0
    ensures ReceiveLayout(ttype, v) != None ==>
              var l := ReceiveLayout(ttype, v).value;
              && SizeOf(PortIdentity(End)) + l.count * SizeOf(TimingRecord(ttype)) == |v|
              && l.head == FieldsOf(PortIdentity(End), 0)
              && l.size == SizeOf(TimingRecord(ttype)) && l.record == FieldsOf(TimingRecord(ttype), 0)
  {
    IdentityTable();
    RecordTables(ttype);
    ArrayIsExact(WORD, |v|, PORT_IDENTITY, SlaveRecord(ttype).0);
    hide ArrayInvalid, ArrayCount, SlaveRecord, RxSyncTimingRecord, DelayTimingRecord, SizeOf, FieldsOf, PortIdentity;
  }

  // The transport of a monitoring response decides how long the address of the parent is.
  predicate AddressFits(networkProtocol: nat, length: nat) {
    (networkProtocol, length) in {(1, 4), (2, 16), (3, 6)}
  }

  // struct nsm_resp_tlv_head from its port state on
  function ResponseHead(): Struct { Octets(1, Octets(1, UInt16(UInt16(End)))) }

  lemma {:induction false} FieldsShift(s: Struct, base: nat, d: nat)
    ensures FieldsOf(s, base + d) == Shift(FieldsOf(s, base), d)
  {
    match s
    case End | Suffix =>
    case Is(m, rest) =>
      FieldsShift(rest, base + MemberSize(m), d);
      var x := if m.Number? then Swap(base, m.width) else Scaled(base);
      if !m.Bytes? {
        assert FieldsOf(s, base) == [x] + FieldsOf(rest, base + MemberSize(m));
        assert ([x] + FieldsOf(rest, base + MemberSize(m)))[1..] == FieldsOf(rest, base + MemberSize(m));
      }
  }

  lemma ResponseHeadTable()
    ensures SizeOf(ResponseHead()) == 6 && FieldsOf(ResponseHead(), 0) == [Swap(2, 2), Swap(4, 2)]
  {
    SizesAdd();
    FieldsAdd();
    hide FieldsOf, SizeOf, Octets, UInt16;
  }

  // A monitoring response is accepted if it holds its head, an address as long as its transport says, and its foot,
  // and nothing else; head and foot are converted, and the descriptor notes where the foot is.
  lemma ResponseTlvs(v: seq<Octet>)
    ensures ReceiveLayout(PTPMON_RESP, v) != None <==>
            && |v| >= SizeOf(ResponseHead()) >= 6 && AddressFits(Net16(v, 2), Net16(v, 4))
            && |v| == SizeOf(ResponseHead()) + Net16(v, 4) + SizeOf(ResponseFoot())
    ensures ReceiveLayout(PTPMON_RESP, v) != None ==>
              var l, foot := ReceiveLayout(PTPMON_RESP, v).value, SizeOf(ResponseHead()) + Net16(v, 4);
              && Fields(l) == FieldsOf(ResponseHead(), 0) + FieldsOf(ResponseFoot(), foot)
              && l.extra == Foot(foot)
  {
    hide FieldsOf, SizeOf, ResponseHead, ResponseFoot, Fields, Net16, Shift, FootFields;
    ResponseHeadTable();
    TlvTables();
    if ReceiveLayout(PTPMON_RESP, v) != None {
      var foot := 6 + Net16(v, 4);
      FieldsShift(ResponseFoot(), 0, foot);
      PlainFields(ReceiveLayout(PTPMON_RESP, v).value);
    }
  }

  // struct management_error_status from its error on
  function ErrorStatus(): Struct { UInt16(UInt16(Octets(4, End))) }

  // An error status is accepted if its structure fits.
  lemma ErrorStatusTlvs(v: seq<Octet>)
    ensures ReceiveLayout(MANAGEMENT_ERROR_STATUS, v) != None <==> |v| >= SizeOf(ErrorStatus())
    ensures ReceiveLayout(MANAGEMENT_ERROR_STATUS, v) != None ==>
              Fields(ReceiveLayout(MANAGEMENT_ERROR_STATUS, v).value) == FieldsOf(ErrorStatus(), 0)
  {
    SizesAdd();
    FieldsAdd();
    PlainFields(Plain([Swap(0, 2), Swap(2, 2)]));
    hide FieldsOf, SizeOf, Octets, UInt16, Fields;
  }

  // struct msg_interval_req_tlv from its identifiers on
  function IntervalRequest(): Struct {
    Octets(3, Octets(3, Octets(1, Octets(1, Octets(1, Octets(1, Octets(2, End)))))))
  }

  // The identifiers of an organization and of its extension.
  function FollowUpId(): seq<Octet> { [0x00, 0x80, 0xC2, 0x00, 0x00, 0x01] }
  function IntervalRequestId(): seq<Octet> { [0x00, 0x80, 0xC2, 0x00, 0x00, 0x02] }

  // Of the extensions only two are known, and these must have the size of their structures; the numbers of the
  // follow-up information are converted, and nothing in any other.
  lemma ExtensionTlvs(v: seq<Octet>)
    ensures ReceiveLayout(ORGANIZATION_EXTENSION, v) != None <==>
            && |v| >= 6
            && (v[..6] == FollowUpId() ==> |v| == SizeOf(FollowUpInfo()))
            && (v[..6] == IntervalRequestId() ==> |v| == SizeOf(IntervalRequest()))
    ensures ReceiveLayout(ORGANIZATION_EXTENSION, v) != None ==>
              Fields(ReceiveLayout(ORGANIZATION_EXTENSION, v).value) ==
              if v[..6] == FollowUpId() then FieldsOf(FollowUpInfo(), 0) else []
  {
    TlvTables();
    SizesAdd();
    PlainFields(Plain(FollowUpInfoFields()));
    PlainFields(Plain([]));
    hide FieldsOf, SizeOf, Octets, Fields, FollowUpInfo, FollowUpInfoFields;
    if |v| >= 6 {
      ExtensionId(v);
    }
  }

  lemma ExtensionId(v: seq<Octet>)
    requires |v| >= 6
    ensures Ieee8021(v) && v[5] == 1 <==> v[..6] == FollowUpId()
    ensures Ieee8021(v) && v[5] == 2 <==> v[..6] == IntervalRequestId()
  {
    assert v[..6] == v[..3] + [v[3], v[4], v[5]];
  }

  // struct PortStats: a counter for each message type received and sent
  function PortStats(): Struct { Octets(16 * 8, Octets(16 * 8, End)) }

  // Port statistics are accepted if the value is exactly their structure.
  lemma PortStatsTlvs(v: seq<Octet>)
    requires |v| > 2 && |v| % 2 == 0 && Net16(v, 0) == PORT_STATS_NP
    ensures ReceiveLayout(MANAGEMENT, v) != None <==> |v| == 2 + SizeOf(PortIdentity(PortStats()))
    ensures ReceiveLayout(MANAGEMENT, v) != None ==>
              Fields(ReceiveLayout(MANAGEMENT, v).value) == [Swap(0, 2)] + FieldsOf(PortIdentity(PortStats()), 2)
  {
    SizesAdd();
    FieldsAdd();
    hide FieldsOf, SizeOf, Octets, UInt16, ClockIdentity, Net16;
    PlainFields(Plain([Swap(0, 2), Swap(10, 2)]));
    hide Fields;
  }
}
