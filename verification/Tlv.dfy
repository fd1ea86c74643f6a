/** The sub-fields that `tlv.c` converts in each kind of TLV, on receipt and before sending.

  A layout lists them, relative to the first byte of the value.  On receipt it is found from the value
  as it came from the network, or the TLV is refused; before sending it is found from the value in host
  order and from what the receipt noted in the descriptor.
 */
module Tlv {
  import opened Prelude
  import opened ByteOrder

  const MANAGEMENT := 0x0001
  const MANAGEMENT_ERROR_STATUS := 0x0002
  const ORGANIZATION_EXTENSION := 0x0003
  const REQUEST_UNICAST_TRANSMISSION := 0x0004
  const GRANT_UNICAST_TRANSMISSION := 0x0005
  const CANCEL_UNICAST_TRANSMISSION := 0x0006
  const ACKNOWLEDGE_CANCEL_UNICAST_TRANSMISSION := 0x0007
  const PATH_TRACE := 0x0008
  const PTPMON_RESP := 0x21FF
  const SLAVE_DELAY_TIMING_DATA_NP := 0x7F00
  const SLAVE_RX_SYNC_TIMING_DATA := 0x8004

  const CLOCK_DESCRIPTION := 0x0001
  const USER_DESCRIPTION := 0x0002
  const SAVE_IN_NON_VOLATILE_STORAGE := 0x0003
  const RESET_NON_VOLATILE_STORAGE := 0x0004
  const INITIALIZE := 0x0005
  const FAULT_LOG_RESET := 0x0007
  const DEFAULT_DATA_SET := 0x2000
  const CURRENT_DATA_SET := 0x2001
  const PARENT_DATA_SET := 0x2002
  const TIME_PROPERTIES_DATA_SET := 0x2003
  const PORT_DATA_SET := 0x2004
  const ENABLE_PORT := 0x200D
  const DISABLE_PORT := 0x200E
  const TIME_STATUS_NP := 0xC000
  const GRANDMASTER_SETTINGS_NP := 0xC001
  const PORT_DATA_SET_NP := 0xC002
  const SUBSCRIBE_EVENTS_NP := 0xC003
  const PORT_PROPERTIES_NP := 0xC004
  const PORT_STATS_NP := 0xC005

  const TRANSPORT_ADDR_LEN := 16
  const OUI_LEN := 3
  const PROFILE_ID_LEN := 6

  // The pointers kept in the descriptor: where two parts of a clock description start, and the
  // monitoring response's second part.
  datatype Extra = NoExtra | Description(physical: nat, protocol: nat) | Foot(off: nat)

  // `count` records of `size` bytes follow the source port identity.
  datatype Layout = Layout(head: seq<Field>, count: nat, record: seq<Field>, size: nat, extra: Extra)

  const PORT_IDENTITY := 10

  function Plain(fields: seq<Field>): Layout {
    Layout(fields, 0, [], 0, NoExtra)
  }

  function RecordFields(n: nat, record: seq<Field>, size: nat, base: nat): seq<Field> {
    if n == 0 then [] else Shift(record, base) + RecordFields(n - 1, record, size, base + size)
  }

  function Fields(l: Layout): seq<Field> {
    l.head + RecordFields(l.count, l.record, l.size, PORT_IDENTITY)
  }

  // ---- arrays of records ----

  // tlv_array_count; `word` is the number of values of size_t, whose subtraction wraps.
  function ArrayCount(word: nat, length: nat, base: nat, item: nat): nat
    requires word > 0 && item > 0
  {
    (length - base) % word / item
  }

  // tlv_array_invalid
  predicate ArrayInvalid(word: nat, length: nat, base: nat, item: nat)
    requires word > 0 && item > 0
  {
    length != (base + ArrayCount(word, length, base, item) * item) % word
  }

  const WORD := 0x1_0000_0000_0000_0000

  // The wrapped subtraction never lets a TLV pass that is too short: what passes is what holds a whole
  // number of items, with 32-bit words as with 64-bit ones.
  lemma ArrayIsExact(word: nat, length: nat, base: nat, item: nat)
    requires word == WORD || word == 0x1_0000_0000
    requires (base == 0 && item == 8) || (base == PORT_IDENTITY && (item == 30 || item == 34))
    requires length < 0x1_0000 && length % 2 == 0
    ensures !ArrayInvalid(word, length, base, item) <==> length >= base && (length - base) % item == 0
    ensures !ArrayInvalid(word, length, base, item) ==>
              base + ArrayCount(word, length, base, item) * item == length
  {
    if length >= base {
      LongEnough(word, length, base, item);
    } else {
      TooShort(word, base - length, item);
      var x := word - (base - length);
      assert (length - base) % word == x;
      assert base + x / item * item == word + (length - x % item);
    }
  }

  lemma LongEnough(word: nat, length: nat, base: nat, item: nat)
    requires base <= length < 0x1_0000 <= word && 0 < item
    ensures !ArrayInvalid(word, length, base, item) <==> (length - base) % item == 0
    ensures !ArrayInvalid(word, length, base, item) ==>
              base + ArrayCount(word, length, base, item) * item == length
  {
    var x := length - base;
    assert x % word == x;
    assert x / item * item <= x;
    assert (base + x / item * item) % word == base + x / item * item;
  }

  lemma TooShort(word: nat, k: nat, item: nat)
    requires word == WORD || word == 0x1_0000_0000
    requires k == 2 || k == 4 || k == 6 || k == 8 || k == 10
    requires item == 30 || item == 34
    ensures (word - k) % item != 0
  {
  }

  // ---- management ----

  // The data length and the fields of the data sets of fixed size.
  function MgtFixed(id: nat): Option<(nat, seq<Field>)> {
    if id == DEFAULT_DATA_SET then Some((20, [Swap(4, 2), Swap(9, 2)]))
    else if id == CURRENT_DATA_SET then Some((18, [Swap(2, 2), Swap(4, 8), Swap(12, 8)]))
    else if id == PARENT_DATA_SET then Some((32, [Swap(10, 2), Swap(14, 2), Swap(16, 4), Swap(23, 2)]))
    else if id == TIME_PROPERTIES_DATA_SET then Some((4, [Swap(2, 2)]))
    else if id == PORT_DATA_SET then Some((26, [Swap(10, 2), Swap(14, 8)]))
    else if id == TIME_STATUS_NP then
      Some((50, [Swap(2, 8), Swap(10, 8), Swap(18, 4), Swap(22, 4), Swap(26, 2), Scaled(28), Swap(40, 4)]))
    else if id == GRANDMASTER_SETTINGS_NP then Some((8, [Swap(4, 2), Swap(6, 2)]))
    else if id == PORT_DATA_SET_NP then Some((8, [Swap(2, 4), Swap(6, 4)]))
    else if id == SUBSCRIBE_EVENTS_NP then Some((66, [Swap(2, 2)]))
    else if id == SAVE_IN_NON_VOLATILE_STORAGE || id == RESET_NON_VOLATILE_STORAGE || id == INITIALIZE ||
            id == FAULT_LOG_RESET || id == ENABLE_PORT || id == DISABLE_PORT then Some((0, []))
    else None
  }

  // The end of a text that starts at `p` with its length.
  function Text(v: seq<Octet>, p: nat): (r: Option<nat>)
    ensures r != None ==> p < r.value <= |v|
  {
    if p + 1 > |v| || p + 1 + v[p] > |v| then None else Some(p + 1 + v[p])
  }

  // A clock description in the value from 2 on: its two inner positions and its end.
  function Describe(v: seq<Octet>): (r: Option<(nat, nat, nat)>)
    ensures r != None ==> 5 <= r.value.0 && r.value.0 + 2 <= r.value.1 && r.value.1 + 4 <= r.value.2 <= |v|
  {
    if 4 > |v| then None
    else
      var physical := Text(v, 4);
      if physical == None || physical.value + 2 > |v| || Net16(v, physical.value) > TRANSPORT_ADDR_LEN then None
      else
        var protocol := physical.value + 2 + Net16(v, physical.value);
        if protocol + 4 > |v| || Net16(v, protocol + 2) > TRANSPORT_ADDR_LEN then None
        else
          var manufacturer := protocol + 4 + Net16(v, protocol + 2);
          if manufacturer + OUI_LEN + 1 > |v| then None
          else
            var revision := Text(v, manufacturer + OUI_LEN + 1);
            var user := if revision == None then None else Text(v, revision.value);
            var profile := if user == None then None else Text(v, user.value);
            if profile == None || profile.value + PROFILE_ID_LEN > |v| then None
            else Some((physical.value, protocol, profile.value + PROFILE_ID_LEN))
  }

  function DescriptionFields(physical: nat, protocol: nat): seq<Field> {
    [Swap(2, 2), Swap(physical, 2), Swap(protocol, 2), Swap(protocol + 2, 2)]
  }

  // The value ends where the data does, up to one byte of padding.
  predicate Padded(v: seq<Octet>, end: nat) {
    |v| == if end % 2 == 1 then end + 1 else end
  }

  // mgt_post_recv
  function MgtLayout(id: nat, v: seq<Octet>): Option<Layout>
    requires |v| > 2
  {
    if id == CLOCK_DESCRIPTION then
      var d := Describe(v);
      if d == None || !Padded(v, d.value.2) then None
      else Some(Layout([Swap(0, 2)] + DescriptionFields(d.value.0, d.value.1), 0, [], 0,
                       Description(d.value.0, d.value.1)))
    else if id == USER_DESCRIPTION then
      if !Padded(v, 3 + v[2] as int) then None else Some(Plain([Swap(0, 2)]))
    else if id == PORT_PROPERTIES_NP then
      if |v| - 2 < 13 || !Padded(v, 15 + v[14] as int) then None else Some(Plain([Swap(0, 2), Swap(10, 2)]))
    else if id == PORT_STATS_NP then
      if |v| - 2 < 266 || !Padded(v, 268) then None else Some(Plain([Swap(0, 2), Swap(10, 2)]))
    else
      var fixed := MgtFixed(id);
      if fixed == None then Some(Plain([Swap(0, 2)]))
      else if |v| - 2 != fixed.value.0 then None
      else Some(Plain([Swap(0, 2)] + fixed.value.1))
  }

  // mgt_pre_send
  function MgtSendFields(id: nat, extra: Extra): seq<Field> {
    if id == CLOCK_DESCRIPTION then
      if extra.Description? then DescriptionFields(extra.physical, extra.protocol) else []
    else if id == PORT_PROPERTIES_NP || id == PORT_STATS_NP then [Swap(10, 2)]
    else
      var fixed := MgtFixed(id);
      if fixed == None then [] else fixed.value.1
  }

  // ---- monitoring response ----

  const FOOT_SIZE := 64

  function FootFields(): seq<Field> {
    [Swap(8, 2), Swap(12, 2), Swap(14, 4), Swap(21, 2), Swap(32, 2), Swap(34, 8), Swap(42, 8), Swap(50, 2),
     Swap(54, 2), Swap(56, 4), Swap(60, 4)]
  }

  function AddressLength(networkProtocol: nat): Option<nat> {
    match networkProtocol
    case 1 => Some(4)
    case 2 => Some(16)
    case 3 => Some(6)
    case _ => None
  }

  function ResponseFields(foot: nat): seq<Field> {
    [Swap(2, 2), Swap(4, 2)] + Shift(FootFields(), foot)
  }

  // nsm_resp_post_recv
  function ResponseLayout(v: seq<Octet>): Option<Layout> {
    if |v| < 6 + FOOT_SIZE then None
    else
      var expected := AddressLength(Net16(v, 2));
      if expected != Some(Net16(v, 4)) || |v| != 6 + FOOT_SIZE + Net16(v, 4) then None
      else Some(Layout(ResponseFields(6 + Net16(v, 4)), 0, [], 0, Foot(6 + Net16(v, 4))))
  }

  // ---- the others ----

  // An IEEE 802.1 extension, with the subtype in the last byte.
  predicate Ieee8021(v: seq<Octet>)
    requires |v| >= 6
  {
    v[..3] == [0x00, 0x80, 0xC2] && v[3] == 0 && v[4] == 0
  }

  function FollowUpInfoFields(): seq<Field> {
    [Swap(6, 4), Swap(10, 2), Scaled(12), Swap(24, 4)]
  }

  // org_post_recv
  function OrgLayout(v: seq<Octet>): Option<Layout> {
    if |v| < 6 then None
    else if !Ieee8021(v) then Some(Plain([]))
    else if v[5] == 1 then if |v| != 28 then None else Some(Plain(FollowUpInfoFields()))
    else if v[5] == 2 && |v| != 12 then None
    else Some(Plain([]))
  }

  // unicast_message_type_valid
  predicate Negotiable(messageType: Octet) {
    var t := messageType / 16;
    t == 0xB || t == 0x0 || t == 0x9 || t == 0x3
  }

  // unicast_negotiation_post_recv
  function UnicastLayout(ttype: nat, v: seq<Octet>): Option<Layout> {
    var size := if ttype == REQUEST_UNICAST_TRANSMISSION then 6
                else if ttype == GRANT_UNICAST_TRANSMISSION then 8
                else 2;
    if |v| < size || !Negotiable(v[0]) then None
    else Some(Plain(UnicastFields(ttype)))
  }

  function UnicastFields(ttype: nat): seq<Field> {
    if ttype == REQUEST_UNICAST_TRANSMISSION || ttype == GRANT_UNICAST_TRANSMISSION then [Swap(2, 4)] else []
  }

  predicate IsUnicast(ttype: nat) {
    REQUEST_UNICAST_TRANSMISSION <= ttype <= ACKNOWLEDGE_CANCEL_UNICAST_TRANSMISSION
  }

  // The records of the two kinds of slave timing data.
  function SlaveRecord(ttype: nat): (r: (nat, seq<Field>))
    ensures r.0 == 30 || r.0 == 34
  {
    if ttype == SLAVE_RX_SYNC_TIMING_DATA then
      (34, [Swap(0, 2), Swap(2, 2), Swap(4, 4), Swap(8, 4), Swap(12, 8), Swap(20, 4), Swap(24, 2), Swap(26, 4),
            Swap(30, 4)])
    else
      (30, [Swap(0, 2), Swap(2, 2), Swap(4, 4), Swap(8, 4), Swap(12, 8), Swap(20, 2), Swap(22, 4), Swap(26, 4)])
  }

  predicate IsSlaveData(ttype: nat) {
    ttype == SLAVE_RX_SYNC_TIMING_DATA || ttype == SLAVE_DELAY_TIMING_DATA_NP
  }

  function SlaveLayout(ttype: nat, length: nat): Layout {
    var record := SlaveRecord(ttype);
    Layout([Swap(8, 2)], ArrayCount(WORD, length, PORT_IDENTITY, record.0), record.1, record.0, NoExtra)
  }

  // tlv_post_recv, on the value as received; None is EBADMSG.
  function ReceiveLayout(ttype: nat, v: seq<Octet>): Option<Layout> {
    if ttype == MANAGEMENT then
      if |v| < 2 then None
      else if |v| > 2 then MgtLayout(Net16(v, 0), v)
      else Some(Plain([Swap(0, 2)]))
    else if ttype == MANAGEMENT_ERROR_STATUS then
      if |v| < 8 then None else Some(Plain([Swap(0, 2), Swap(2, 2)]))
    else if ttype == ORGANIZATION_EXTENSION then OrgLayout(v)
    else if IsUnicast(ttype) then UnicastLayout(ttype, v)
    else if ttype == PATH_TRACE then
      if ArrayInvalid(WORD, |v|, 0, 8) then None else Some(Plain([]))
    else if ttype == PTPMON_RESP then ResponseLayout(v)
    else if IsSlaveData(ttype) then
      if ArrayInvalid(WORD, |v|, PORT_IDENTITY, SlaveRecord(ttype).0) then None else Some(SlaveLayout(ttype, |v|))
    else Some(Plain([]))
  }

  // tlv_pre_send, on the value in host order
  function SendLayout(ttype: nat, h: seq<Octet>, extra: Extra): Layout {
    if ttype == MANAGEMENT then
      Layout([Swap(0, 2)] + (if |h| > 2 then MgtSendFields(Host16(h, 0), extra) else []), 0, [], 0, extra)
    else if ttype == MANAGEMENT_ERROR_STATUS then Plain([Swap(0, 2), Swap(2, 2)])
    else if ttype == ORGANIZATION_EXTENSION then
      if |h| >= 6 && Ieee8021(h) && h[5] == 1 then Plain(FollowUpInfoFields()) else Plain([])
    else if IsUnicast(ttype) then Plain(UnicastFields(ttype))
    else if ttype == PTPMON_RESP && extra.Foot? then Layout(ResponseFields(extra.off), 0, [], 0, extra)
    else if IsSlaveData(ttype) then SlaveLayout(ttype, |h|)
    else Plain([])
  }

  // ---- what the two have to do with each other ----

  lemma FootIsOrdered()
    ensures Ordered(FootFields(), 0, FOOT_SIZE)
  {
    var parent := [Swap(8, 2), Swap(12, 2), Swap(14, 4), Swap(21, 2)];
    var current := [Swap(32, 2), Swap(34, 8), Swap(42, 8), Swap(50, 2)];
    OrderedFour(Swap(8, 2), Swap(12, 2), Swap(14, 4), Swap(21, 2), 0, 24);
    OrderedFour(Swap(32, 2), Swap(34, 8), Swap(42, 8), Swap(50, 2), 24, 54);
    OrderedConcat(parent, current, 0, 24, 54);
    OrderedConcat(parent + current, [Swap(54, 2), Swap(56, 4), Swap(60, 4)], 0, 54, 64);
  }

  lemma RecordIsOrdered(ttype: nat)
    ensures Ordered(SlaveRecord(ttype).1, 0, SlaveRecord(ttype).0)
  {
    var origin := [Swap(0, 2), Swap(2, 2), Swap(4, 4), Swap(8, 4)];
    OrderedFour(Swap(0, 2), Swap(2, 2), Swap(4, 4), Swap(8, 4), 0, 12);
    if ttype == SLAVE_RX_SYNC_TIMING_DATA {
      var rest := [Swap(12, 8), Swap(20, 4), Swap(24, 2), Swap(26, 4)];
      OrderedFour(Swap(12, 8), Swap(20, 4), Swap(24, 2), Swap(26, 4), 12, 30);
      OrderedConcat(origin, rest, 0, 12, 30);
      OrderedConcat(origin + rest, [Swap(30, 4)], 0, 30, 34);
    } else {
      OrderedFour(Swap(12, 8), Swap(20, 2), Swap(22, 4), Swap(26, 4), 12, 30);
      OrderedConcat(origin, [Swap(12, 8), Swap(20, 2), Swap(22, 4), Swap(26, 4)], 0, 12, 30);
    }
  }

  lemma {:induction false} RecordsAreOrdered(n: nat, record: seq<Field>, size: nat, base: nat)
    requires Ordered(record, 0, size)
    ensures Ordered(RecordFields(n, record, size, base), base, base + n * size)
  {
    if n > 0 {
      OrderedShift(record, 0, size, base);
      RecordsAreOrdered(n - 1, record, size, base + size);
      assert (n - 1) * size + size == n * size;
      OrderedConcat(Shift(record, base), RecordFields(n - 1, record, size, base + size), base, base + size,
                    base + n * size);
    }
  }

  lemma FixedIsOrdered(id: nat)
    requires MgtFixed(id) != None
    ensures Ordered(MgtFixed(id).value.1, 2, 2 + MgtFixed(id).value.0)
  {
    if id == TIME_STATUS_NP {
      OrderedFour(Swap(22, 4), Swap(26, 2), Scaled(28), Swap(40, 4), 22, 52);
      OrderedConcat([Swap(2, 8), Swap(10, 8), Swap(18, 4)], [Swap(22, 4), Swap(26, 2), Scaled(28), Swap(40, 4)], 2, 22,
                    52);
    } else if id == PARENT_DATA_SET {
      OrderedFour(Swap(10, 2), Swap(14, 2), Swap(16, 4), Swap(23, 2), 2, 34);
    }
  }

  // The fields a received TLV is converted in lie inside its value, one after the other.
  lemma ReceiveIsOrdered(ttype: nat, v: seq<Octet>)
    requires |v| < 0x1_0000 && |v| % 2 == 0 && ReceiveLayout(ttype, v) != None
    ensures Ordered(Fields(ReceiveLayout(ttype, v).value), 0, |v|)
  {
    hide Ordered, Fields, MgtLayout, OrgLayout, ResponseLayout, SlaveLayout, UnicastFields, ArrayInvalid, SlaveRecord;
    if IsSlaveData(ttype) {
      SlaveIsOrdered(ttype, v);
    } else {
      var l := ReceiveLayout(ttype, v).value;
      if ttype == MANAGEMENT && |v| > 2 {
        MgtIsOrdered(Net16(v, 0), v);
      } else if ttype == ORGANIZATION_EXTENSION {
        OrgIsOrdered(v);
      } else if ttype == PTPMON_RESP {
        ResponseIsOrdered(v);
      } else {
        SmallIsOrdered(ttype, |v|);
      }
    }
  }

  lemma SmallIsOrdered(ttype: nat, n: nat)
    ensures n >= 2 ==> Ordered(Fields(Plain([Swap(0, 2)])), 0, n)
    ensures n >= 8 ==> Ordered(Fields(Plain([Swap(0, 2), Swap(2, 2)])), 0, n)
    ensures n >= 6 || !(ttype == REQUEST_UNICAST_TRANSMISSION || ttype == GRANT_UNICAST_TRANSMISSION) ==>
              Ordered(Fields(Plain(UnicastFields(ttype))), 0, n)
    ensures Ordered(Fields(Plain([])), 0, n)
  {
    PlainFields(Plain([Swap(0, 2)]));
    PlainFields(Plain([Swap(0, 2), Swap(2, 2)]));
    PlainFields(Plain(UnicastFields(ttype)));
    PlainFields(Plain([]));
    hide Fields;
    if n >= 8 {
      OrderedTwo(Swap(0, 2), Swap(2, 2), 0, n);
    }
  }

  lemma PlainFields(l: Layout)
    requires l.count == 0
    ensures Fields(l) == l.head
  {
  }

  lemma SlaveIsOrdered(ttype: nat, v: seq<Octet>)
    requires IsSlaveData(ttype) && !ArrayInvalid(WORD, |v|, PORT_IDENTITY, SlaveRecord(ttype).0)
    requires |v| < 0x1_0000 && |v| % 2 == 0
    ensures Ordered(Fields(SlaveLayout(ttype, |v|)), 0, |v|)
  {
    hide SlaveRecord, ArrayCount, ArrayInvalid, Shift;
    var l := SlaveLayout(ttype, |v|);
    ArrayIsExact(WORD, |v|, PORT_IDENTITY, l.size);
    RecordIsOrdered(ttype);
    RecordsAreOrdered(l.count, l.record, l.size, PORT_IDENTITY);
    OrderedConcat(l.head, RecordFields(l.count, l.record, l.size, PORT_IDENTITY), 0, PORT_IDENTITY, |v|);
  }

  lemma OrgIsOrdered(v: seq<Octet>)
    requires OrgLayout(v) != None
    ensures Ordered(Fields(OrgLayout(v).value), 0, |v|)
  {
    PlainFields(OrgLayout(v).value);
    hide Fields;
    if |v| == 28 {
      OrderedFour(Swap(6, 4), Swap(10, 2), Scaled(12), Swap(24, 4), 0, |v|);
    }
  }

  lemma ResponseIsOrdered(v: seq<Octet>)
    requires ResponseLayout(v) != None
    ensures Ordered(Fields(ResponseLayout(v).value), 0, |v|)
  {
    hide Fields, ResponseFields, Ordered;
    PlainFields(ResponseLayout(v).value);
    ResponseFieldsOrdered(6 + Net16(v, 4));
  }

  lemma ResponseFieldsOrdered(foot: nat)
    requires foot >= 6
    ensures Ordered(ResponseFields(foot), 0, foot + FOOT_SIZE)
  {
    hide FootFields, Ordered, Shift;
    var fs := FootFields();
    FootIsOrdered();
    OrderedShift(fs, 0, FOOT_SIZE, foot);
    OrderedTwo(Swap(2, 2), Swap(4, 2), 0, foot);
    OrderedConcat([Swap(2, 2), Swap(4, 2)], Shift(fs, foot), 0, foot, foot + FOOT_SIZE);
  }

  lemma MgtIsOrdered(id: nat, v: seq<Octet>)
    requires |v| > 2 && MgtLayout(id, v) != None
    ensures Ordered(Fields(MgtLayout(id, v).value), 0, |v|)
  {
    hide Describe, MgtFixed, Fields, Ordered;
    PlainFields(MgtLayout(id, v).value);
    OrderedOne(Swap(0, 2), 0, 2);
    OrderedOne(Swap(0, 2), 0, |v|);
    if id == CLOCK_DESCRIPTION {
      var d := Describe(v).value;
      OrderedFour(Swap(2, 2), Swap(d.0, 2), Swap(d.1, 2), Swap(d.1 + 2, 2), 2, |v|);
      OrderedConcat([Swap(0, 2)], DescriptionFields(d.0, d.1), 0, 2, |v|);
    } else if id == PORT_PROPERTIES_NP || id == PORT_STATS_NP {
      OrderedTwo(Swap(0, 2), Swap(10, 2), 0, |v|);
    } else if id != USER_DESCRIPTION && MgtFixed(id) != None {
      FixedIsOrdered(id);
      OrderedConcat([Swap(0, 2)], MgtFixed(id).value.1, 0, 2, |v|);
    }
  }

  // The parts of a layout fit a value of `n` bytes.
  predicate Within(l: Layout, n: nat) {
    if l.count == 0 then Ordered(l.head, 0, n)
    else Ordered(l.head, 0, PORT_IDENTITY) && Ordered(l.record, 0, l.size) && PORT_IDENTITY + l.count * l.size <= n
  }

  lemma WithinIsOrdered(l: Layout, n: nat)
    requires Within(l, n)
    ensures Ordered(Fields(l), 0, n)
  {
    hide Ordered;
    if l.count == 0 {
      PlainFields(l);
    } else {
      RecordsAreOrdered(l.count, l.record, l.size, PORT_IDENTITY);
      OrderedWithin(RecordFields(l.count, l.record, l.size, PORT_IDENTITY), PORT_IDENTITY,
                    PORT_IDENTITY + l.count * l.size, PORT_IDENTITY, n);
      OrderedConcat(l.head, RecordFields(l.count, l.record, l.size, PORT_IDENTITY), 0, PORT_IDENTITY, n);
    }
  }

  lemma ReceiveIsWithin(ttype: nat, v: seq<Octet>)
    requires |v| < 0x1_0000 && |v| % 2 == 0 && ReceiveLayout(ttype, v) != None
    ensures Within(ReceiveLayout(ttype, v).value, |v|)
  {
    hide Ordered, Fields, MgtLayout, OrgLayout, ResponseLayout, ArrayInvalid, SlaveRecord, ArrayCount;
    var l := ReceiveLayout(ttype, v).value;
    ReceiveIsOrdered(ttype, v);
    if IsSlaveData(ttype) {
      ArrayIsExact(WORD, |v|, PORT_IDENTITY, l.size);
      RecordIsOrdered(ttype);
      OrderedOne(Swap(8, 2), 0, PORT_IDENTITY);
      OrderedOne(Swap(8, 2), 0, |v|);
    } else {
      NoRecords(ttype, v);
      PlainFields(l);
    }
  }

  lemma NoRecords(ttype: nat, v: seq<Octet>)
    requires !IsSlaveData(ttype) && ReceiveLayout(ttype, v) != None
    ensures ReceiveLayout(ttype, v).value.count == 0
  {
  }

  // Before sending, exactly the fields that were converted on receipt are found again.
  lemma SendUndoesReceive(ttype: nat, v: seq<Octet>)
    requires |v| < 0x1_0000 && |v| % 2 == 0 && ReceiveLayout(ttype, v) != None
    ensures var l := ReceiveLayout(ttype, v).value;
            Fit(Fields(l), |v|) && SendLayout(ttype, Converted(v, Fields(l)), l.extra) == l
  {
    hide Ordered, ByteAt, Fields, MgtLayout, OrgLayout, MgtSendFields, Ieee8021, FootFields, SlaveLayout, ArrayInvalid,
         SlaveRecord, AddressLength;
    ReceiveIsOrdered(ttype, v);
    OrderedFit(Fields(ReceiveLayout(ttype, v).value), 0, |v|);
    if ttype == MANAGEMENT {
      MgtSendUndoes(v);
    } else if ttype == ORGANIZATION_EXTENSION {
      OrgSendUndoes(v);
    }
  }

  lemma MgtSendUndoes(v: seq<Octet>)
    requires ReceiveLayout(MANAGEMENT, v) != None && Fit(Fields(ReceiveLayout(MANAGEMENT, v).value), |v|)
    ensures var l := ReceiveLayout(MANAGEMENT, v).value;
            SendLayout(MANAGEMENT, Converted(v, Fields(l)), l.extra) == l
  {
    var l := ReceiveLayout(MANAGEMENT, v).value;
    PlainFields(l);
    assert l.head[0] == Swap(0, 2);
    var h := Converted(v, Fields(l));
    assert h[0] == v[1] && h[1] == v[0];
    hide Describe, MgtFixed, ByteAt, Fields;
    assert SendLayout(MANAGEMENT, h, l.extra).head == l.head;
  }

  lemma OrgSendUndoes(v: seq<Octet>)
    requires OrgLayout(v) != None && Fit(Fields(OrgLayout(v).value), |v|)
    ensures var l := OrgLayout(v).value;
            SendLayout(ORGANIZATION_EXTENSION, Converted(v, Fields(l)), l.extra) == l
  {
    var l := OrgLayout(v).value;
    PlainFields(l);
    var h := Converted(v, l.head);
    forall i | 0 <= i < 6
      ensures h[i] == v[i]
    {
      Outside(v, l.head, i);
    }
    assert h[..3] == v[..3];
  }
}
