/** What the values of the TLVs with texts and addresses in them are images of, and which values are accepted.

  A part of variable size says its length before its bytes.  The functions here put such parts together; that
  `mgt_post_recv` walks over them without a step too short or too far is proved against what they build.
 */
module TlvImages {
  import opened Prelude
  import opened ByteOrder
  import opened Tlv
  import opened WireStructs

  function Word(n: nat): seq<Octet>
    requires n < 0x1_0000
  {
    [n / 0x100, n % 0x100]
  }

  // struct PTPText
  function WithText(text: seq<Octet>, rest: seq<Octet>): seq<Octet>
    requires |text| < 0x100
  {
    [|text|] + text + rest
  }

  // struct PhysicalAddress, and struct PortAddress behind its protocol
  function WithAddress(address: seq<Octet>, rest: seq<Octet>): seq<Octet>
    requires |address| <= 16
  {
    Word(|address|) + address + rest
  }

  // struct mgmt_clock_description
  datatype ClockDescription = ClockDescription(
    clockType: seq<Octet>, physicalLayer: seq<Octet>, physicalAddress: seq<Octet>, networkProtocol: seq<Octet>,
    protocolAddress: seq<Octet>, manufacturer: seq<Octet>, product: seq<Octet>, revision: seq<Octet>,
    user: seq<Octet>, profile: seq<Octet>)

  predicate Fits(d: ClockDescription) {
    && |d.clockType| == 2 && |d.networkProtocol| == 2 && |d.manufacturer| == 3 + 1
    && |d.profile| == 6
    && |d.physicalAddress| <= 16 && |d.protocolAddress| <= 16
    && |d.physicalLayer| < 0x100 && |d.product| < 0x100 && |d.revision| < 0x100 && |d.user| < 0x100
  }

  function Texts(d: ClockDescription, pad: seq<Octet>): seq<Octet>
    requires Fits(d)
  {
    WithText(d.product, WithText(d.revision, WithText(d.user, d.profile + pad)))
  }

  function Addresses(d: ClockDescription, pad: seq<Octet>): seq<Octet>
    requires Fits(d)
  {
    WithAddress(d.physicalAddress, d.networkProtocol + WithAddress(d.protocolAddress, d.manufacturer + Texts(d, pad)))
  }

  // The value of a management TLV with a clock description, and what is behind the description.
  function Image(d: ClockDescription, pad: seq<Octet>): seq<Octet>
    requires Fits(d)
  {
    Word(CLOCK_DESCRIPTION) + (d.clockType + WithText(d.physicalLayer, Addresses(d, pad)))
  }

  // ---- one part at a time ----

  lemma PartIsPassed(v: seq<Octet>, p: nat, part: seq<Octet>, rest: seq<Octet>)
    requires p <= |v| && v[p..] == part + rest
    ensures p + |part| <= |v| && v[p + |part|..] == rest
  {
    assert |v[p..]| == |part| + |rest|;
    assert v[p + |part|..] == v[p..][|part|..];
  }

  lemma TextIsPassed(v: seq<Octet>, p: nat, text: seq<Octet>, rest: seq<Octet>)
    requires p <= |v| && |text| < 0x100 && v[p..] == WithText(text, rest)
    ensures Text(v, p) == Some(p + 1 + |text|) && v[p + 1 + |text|..] == rest
  {
    PartIsPassed(v, p, [|text|] + text, rest);
    assert v[p] == v[p..][0] == |text|;
  }

  lemma AddressIsPassed(v: seq<Octet>, p: nat, address: seq<Octet>, rest: seq<Octet>)
    requires p <= |v| && |address| <= TRANSPORT_ADDR_LEN && v[p..] == WithAddress(address, rest)
    ensures p + 2 + |address| <= |v| && Net16(v, p) == |address| && v[p + 2 + |address|..] == rest
  {
    PartIsPassed(v, p, Word(|address|) + address, rest);
    assert v[p] == v[p..][0] && v[p + 1] == v[p..][1];
  }

  lemma PartIsThere(v: seq<Octet>, p: nat, q: nat)
    requires p <= q <= |v|
    ensures v[p..] == v[p..q] + v[q..]
  {
  }

  lemma TextIsThere(v: seq<Octet>, p: nat)
    requires Text(v, p) != None
    ensures var q := Text(v, p).value; |v[p + 1..q]| < 0x100 && v[p..] == WithText(v[p + 1..q], v[q..])
  {
  }

  lemma AddressIsThere(v: seq<Octet>, p: nat, q: nat)
    requires p + 2 <= q <= |v| && q == p + 2 + Net16(v, p) && Net16(v, p) <= TRANSPORT_ADDR_LEN
    ensures v[p..] == WithAddress(v[p + 2..q], v[q..])
  {
    assert v[p] == 0 && v[p + 1] == q - p - 2;
  }

  lemma WordIsThere(v: seq<Octet>)
    requires |v| >= 2
    ensures Net16(v, 0) < 0x1_0000 && v == Word(Net16(v, 0)) + v[2..]
  {
  }

  // ---- clock descriptions ----

  lemma AddressesArePassed(v: seq<Octet>, p: nat, d: ClockDescription, pad: seq<Octet>)
    requires Fits(d) && p <= |v| && v[p..] == Addresses(d, pad)
    ensures var protocol := p + 2 + |d.physicalAddress|;
            var end := protocol + 4 + |d.protocolAddress|;
            && end <= |v|
            && Net16(v, p) == |d.physicalAddress| && Net16(v, protocol + 2) == |d.protocolAddress|
            && v[end..] == d.manufacturer + Texts(d, pad)
  {
    hide Texts, WithAddress, Net16;
    var protocol := p + 2 + |d.physicalAddress|;
    var address := WithAddress(d.protocolAddress, d.manufacturer + Texts(d, pad));
    AddressIsPassed(v, p, d.physicalAddress, d.networkProtocol + address);
    PartIsPassed(v, protocol, d.networkProtocol, address);
    AddressIsPassed(v, protocol + 2, d.protocolAddress, d.manufacturer + Texts(d, pad));
  }

  lemma TextsArePassed(v: seq<Octet>, p: nat, d: ClockDescription, pad: seq<Octet>)
    requires Fits(d) && p <= |v| && v[p..] == Texts(d, pad)
    ensures var revision := p + 1 + |d.product|;
            var user := revision + 1 + |d.revision|;
            var profile := user + 1 + |d.user|;
            && Text(v, p) == Some(revision) && Text(v, revision) == Some(user) && Text(v, user) == Some(profile)
            && profile + PROFILE_ID_LEN + |pad| == |v|
  {
    hide WithText, Text;
    var revision := p + 1 + |d.product|;
    var user := revision + 1 + |d.revision|;
    TextIsPassed(v, p, d.product, WithText(d.revision, WithText(d.user, d.profile + pad)));
    TextIsPassed(v, revision, d.revision, WithText(d.user, d.profile + pad));
    TextIsPassed(v, user, d.user, d.profile + pad);
  }

  // Where the parts of a description start in a value, and that the walk over it goes that way.
  datatype Places = Places(physical: nat, protocol: nat, manufacturer: nat, revision: nat, user: nat, profile: nat)

  predicate Walked(v: seq<Octet>, at: Places) {
    && |v| >= 4 && Text(v, 4) == Some(at.physical)
    && at.physical + 2 <= |v| && Net16(v, at.physical) <= TRANSPORT_ADDR_LEN
    && at.protocol == at.physical + 2 + Net16(v, at.physical)
    && at.protocol + 4 <= |v| && Net16(v, at.protocol + 2) <= TRANSPORT_ADDR_LEN
    && at.manufacturer == at.protocol + 4 + Net16(v, at.protocol + 2)
    && at.manufacturer + OUI_LEN + 1 <= |v| && Text(v, at.manufacturer + OUI_LEN + 1) == Some(at.revision)
    && Text(v, at.revision) == Some(at.user) && Text(v, at.user) == Some(at.profile)
    && at.profile + PROFILE_ID_LEN <= |v|
  }

  lemma WalkDescribes(v: seq<Octet>, at: Places)
    requires Walked(v, at)
    ensures Describe(v) == Some((at.physical, at.protocol, at.profile + PROFILE_ID_LEN))
  {
    hide Text, Net16;
  }

  function PlacesOf(v: seq<Octet>): (at: Places)
    requires Describe(v) != None
    ensures Walked(v, at) && Describe(v) == Some((at.physical, at.protocol, at.profile + PROFILE_ID_LEN))
  {
    var physical := Describe(v).value.0;
    var protocol := Describe(v).value.1;
    var manufacturer := protocol + 4 + Net16(v, protocol + 2);
    var revision := Text(v, manufacturer + OUI_LEN + 1).value;
    var user := Text(v, revision).value;
    Places(physical, protocol, manufacturer, revision, user, Text(v, user).value)
  }

  // Where they start in an image: behind the sizes of those before them.
  function PlacesIn(d: ClockDescription): Places {
    var physical := 5 + |d.physicalLayer|;
    var protocol := physical + 2 + |d.physicalAddress|;
    var manufacturer := protocol + 4 + |d.protocolAddress|;
    var revision := manufacturer + OUI_LEN + 1 + 1 + |d.product|;
    var user := revision + 1 + |d.revision|;
    Places(physical, protocol, manufacturer, revision, user, user + 1 + |d.user|)
  }

  lemma ImageIsWalked(v: seq<Octet>, d: ClockDescription, pad: seq<Octet>)
    requires Fits(d) && |v| > 2 && v[2..] == d.clockType + WithText(d.physicalLayer, Addresses(d, pad))
    ensures Walked(v, PlacesIn(d)) && PlacesIn(d).profile + PROFILE_ID_LEN + |pad| == |v|
  {
    hide Texts, Addresses, WithText, Text, Net16;
    var physical := 5 + |d.physicalLayer|;
    var manufacturer := physical + 6 + |d.physicalAddress| + |d.protocolAddress|;
    PartIsPassed(v, 2, d.clockType, WithText(d.physicalLayer, Addresses(d, pad)));
    TextIsPassed(v, 4, d.physicalLayer, Addresses(d, pad));
    AddressesArePassed(v, physical, d, pad);
    PartIsPassed(v, manufacturer, d.manufacturer, Texts(d, pad));
    TextsArePassed(v, manufacturer + OUI_LEN + 1, d, pad);
  }

  lemma ImageIsDescribed(d: ClockDescription, pad: seq<Octet>)
    requires Fits(d)
    ensures var v := Image(d, pad);
            var physical := 5 + |d.physicalLayer|;
            && |v| > 2 && Net16(v, 0) == CLOCK_DESCRIPTION
            && Describe(v) == Some((physical, physical + 2 + |d.physicalAddress|, |v| - |pad|))
  {
    hide Texts, Addresses, WithText, Text, Describe, Walked;
    var v := Image(d, pad);
    assert Net16(v, 0) == CLOCK_DESCRIPTION && v[2..] == d.clockType + WithText(d.physicalLayer, Addresses(d, pad));
    ImageIsWalked(v, d, pad);
    WalkDescribes(v, PlacesIn(d));
  }

  // The description that is found in a value.
  function Described(v: seq<Octet>, at: Places): (d: ClockDescription)
    requires Walked(v, at)
    ensures Fits(d)
  {
    var product := at.manufacturer + OUI_LEN + 1;
    ClockDescription(v[2..4], v[5..at.physical], v[at.physical + 2..at.protocol], v[at.protocol..at.protocol + 2],
                     v[at.protocol + 4..at.manufacturer], v[at.manufacturer..product], v[product + 1..at.revision],
                     v[at.revision + 1..at.user], v[at.user + 1..at.profile],
                     v[at.profile..at.profile + PROFILE_ID_LEN])
  }

  lemma TextsAreThere(v: seq<Octet>, at: Places)
    requires Walked(v, at)
    ensures v[at.manufacturer + OUI_LEN + 1..] == Texts(Described(v, at), v[at.profile + PROFILE_ID_LEN..])
  {
    hide WithText, Net16, Text;
    TextIsThere(v, at.manufacturer + OUI_LEN + 1);
    TextIsThere(v, at.revision);
    TextIsThere(v, at.user);
    PartIsThere(v, at.profile, at.profile + PROFILE_ID_LEN);
  }

  lemma AddressesAreThere(v: seq<Octet>, at: Places)
    requires Walked(v, at)
    ensures v[at.physical..] == Addresses(Described(v, at), v[at.profile + PROFILE_ID_LEN..])
  {
    hide WithAddress, Texts, Net16, Text;
    TextsAreThere(v, at);
    PartIsThere(v, at.manufacturer, at.manufacturer + OUI_LEN + 1);
    AddressIsThere(v, at.protocol + 2, at.manufacturer);
    PartIsThere(v, at.protocol, at.protocol + 2);
    AddressIsThere(v, at.physical, at.protocol);
  }

  // A value that is walked over is the image of what is found in it.
  lemma DescribedIsImage(v: seq<Octet>, at: Places)
    requires |v| > 2 && Net16(v, 0) == CLOCK_DESCRIPTION && Walked(v, at)
    ensures v == Image(Described(v, at), v[at.profile + PROFILE_ID_LEN..])
  {
    hide WithText, Addresses, Net16, Text;
    AddressesAreThere(v, at);
    TextIsThere(v, 4);
    PartIsThere(v, 2, 4);
    WordIsThere(v);
  }

  // A value ends where its last part does, up to a byte that makes its length even.
  lemma PaddedIff(v: seq<Octet>, end: nat)
    requires |v| % 2 == 0 && end <= |v|
    ensures Padded(v, end) <==> |v| - end <= 1
  {
  }

  // A clock description is accepted exactly if the value is the image of one, with at most a byte behind it.
  lemma ClockDescriptions(v: seq<Octet>)
    requires |v| > 2 && |v| % 2 == 0 && Net16(v, 0) == CLOCK_DESCRIPTION
    ensures ReceiveLayout(MANAGEMENT, v) != None <==>
            exists d, pad :: Fits(d) && |pad| <= 1 && v == Image(d, pad)
  {
    hide Image, Net16, Describe, Described, Walked;
    if ReceiveLayout(MANAGEMENT, v) != None {
      var at := PlacesOf(v);
      DescribedIsImage(v, at);
      var end := Describe(v).value.2;
      PaddedIff(v, end);
      assert Fits(Described(v, at)) && |v[end..]| <= 1 && v == Image(Described(v, at), v[end..]);
    }
    forall d, pad | Fits(d) && |pad| <= 1 && v == Image(d, pad)
      ensures ReceiveLayout(MANAGEMENT, v) != None
    {
      ImageIsDescribed(d, pad);
      PaddedIff(v, |v| - |pad|);
    }
  }

  // The numbers in it are converted where the parts before them end, and the descriptor notes where the two
  // addresses start.
  lemma ClockDescriptionFields(d: ClockDescription, pad: seq<Octet>)
    requires Fits(d) && |pad| <= 1 && |Image(d, pad)| % 2 == 0
    ensures var physical := 5 + |d.physicalLayer|;
            var protocol := physical + 2 + |d.physicalAddress|;
            var l := ReceiveLayout(MANAGEMENT, Image(d, pad));
            && l != None && l.value.extra == Description(physical, protocol)
            && Fields(l.value) ==
               [Swap(0, 2), Swap(2, 2), Swap(physical, 2), Swap(protocol, 2), Swap(protocol + 2, 2)]
  {
    hide Image, Net16, Describe, Fields;
    var v := Image(d, pad);
    ImageIsDescribed(d, pad);
    PaddedIff(v, |v| - |pad|);
    PlainFields(ReceiveLayout(MANAGEMENT, v).value);
  }

  // ---- the other texts ----

  // A user description is accepted exactly if the value holds one text and at most a byte behind it.
  lemma UserDescriptions(v: seq<Octet>)
    requires |v| > 2 && |v| % 2 == 0 && Net16(v, 0) == USER_DESCRIPTION
    ensures ReceiveLayout(MANAGEMENT, v) != None <==>
            exists text: seq<Octet>, pad :: |text| < 0x100 && |pad| <= 1 && v[2..] == WithText(text, pad)
  {
    if ReceiveLayout(MANAGEMENT, v) != None {
      OneText(v, 2);
    }
    forall text: seq<Octet>, pad | |text| < 0x100 && |pad| <= 1 && v[2..] == WithText(text, pad)
      ensures ReceiveLayout(MANAGEMENT, v) != None
    {
      TextIsPassed(v, 2, text, pad);
    }
  }

  // struct port_properties_np up to its text, behind the management identifier
  function PropertiesHead(): Struct { WireStructs.UInt16(PortIdentity(Octets(1, Octets(1, End)))) }

  lemma PropertiesTable()
    ensures SizeOf(PropertiesHead()) == 14 && FieldsOf(PropertiesHead(), 0) == [Swap(0, 2), Swap(10, 2)]
  {
    SizesAdd();
    FieldsAdd();
    hide FieldsOf, SizeOf, Octets, WireStructs.UInt16, ClockIdentity;
  }

  // The properties of a port are accepted exactly if the value holds its identity, two bytes and one text, and at
  // most a byte behind it.
  lemma PortProperties(v: seq<Octet>)
    requires |v| > 2 && |v| % 2 == 0 && Net16(v, 0) == PORT_PROPERTIES_NP
    ensures ReceiveLayout(MANAGEMENT, v) != None <==>
            |v| >= SizeOf(PropertiesHead()) &&
            exists text: seq<Octet>, pad ::
              |text| < 0x100 && |pad| <= 1 && v[SizeOf(PropertiesHead())..] == WithText(text, pad)
    ensures ReceiveLayout(MANAGEMENT, v) != None ==>
              Fields(ReceiveLayout(MANAGEMENT, v).value) == FieldsOf(PropertiesHead(), 0)
  {
    hide FieldsOf, SizeOf, PropertiesHead, Net16, Fields;
    PropertiesTable();
    PlainFields(Plain([Swap(0, 2), Swap(10, 2)]));
    if ReceiveLayout(MANAGEMENT, v) != None {
      OneText(v, 14);
    }
    if |v| >= 14 {
      forall text: seq<Octet>, pad | |text| < 0x100 && |pad| <= 1 && v[14..] == WithText(text, pad)
        ensures ReceiveLayout(MANAGEMENT, v) != None
      {
        TextIsPassed(v, 14, text, pad);
      }
    }
  }

  lemma OneText(v: seq<Octet>, p: nat)
    requires p < |v| && |v| % 2 == 0 && Padded(v, p + 1 + v[p])
    ensures exists text: seq<Octet>, pad :: |text| < 0x100 && |pad| <= 1 && v[p..] == WithText(text, pad)
  {
    var q := p + 1 + v[p];
    TextIsThere(v, p);
    assert |v[p + 1..q]| < 0x100 && |v[q..]| <= 1 && v[p..] == WithText(v[p + 1..q], v[q..]);
  }
}
