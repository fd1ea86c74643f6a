/** The data set comparison algorithms of `bmc.c` and `telecom.c`
  (IEEE 1588-2008 section 9.3.4, ITU-T G.8275), and the orders they define.
 */
module DatasetComparison {
  import opened Prelude

  type ClockIdentity = s: seq<Octet> | |s| == 8 witness [0, 0, 0, 0, 0, 0, 0, 0]

  datatype PortIdentity = PortIdentity(clockIdentity: ClockIdentity, portNumber: UInt16)

  datatype ClockQuality = ClockQuality(clockClass: Octet, clockAccuracy: Octet, offsetScaledLogVariance: UInt16)

  datatype Dataset = Dataset(priority1: Octet, identity: ClockIdentity, quality: ClockQuality, priority2: Octet,
                             localPriority: Octet, stepsRemoved: UInt16, sender: PortIdentity, receiver: PortIdentity)

  const A_BETTER_TOPO := 2
  const A_BETTER := 1
  const B_BETTER := -1
  const B_BETTER_TOPO := -2

  function Sign(x: int): int {
    if x > 0 then 1 else if x < 0 then -1 else 0
  }

  // memcmp of two buffers of the same length
  function MemCmp(a: seq<Octet>, b: seq<Octet>): int
    requires |a| == |b|
  {
    if a == [] then 0
    else if a[0] != b[0] then a[0] - b[0]
    else MemCmp(a[1..], b[1..])
  }

  // A port identity in memory: the port number in the byte order of a little-endian host.
  function Image(p: PortIdentity): (s: seq<Octet>)
    ensures |s| == 10
  {
    p.clockIdentity + [p.portNumber % 0x100, p.portNumber / 0x100]
  }

  function PortCmp(a: PortIdentity, b: PortIdentity): int {
    MemCmp(Image(a), Image(b))
  }

  function Dscmp2(a: Dataset, b: Dataset): int {
    var A, B := a.stepsRemoved, b.stepsRemoved;
    if A + 1 < B then A_BETTER
    else if B + 1 < A then B_BETTER
    else if A < B then
      var diff := PortCmp(b.receiver, b.sender);
      if diff < 0 then A_BETTER
      else if diff > 0 then A_BETTER_TOPO
      else 0
    else if A > B then
      var diff := PortCmp(a.receiver, a.sender);
      if diff < 0 then B_BETTER
      else if diff > 0 then B_BETTER_TOPO
      else 0
    else
      var diff := PortCmp(a.sender, b.sender);
      if diff < 0 then A_BETTER_TOPO
      else if diff > 0 then B_BETTER_TOPO
      else if a.receiver.portNumber < b.receiver.portNumber then A_BETTER_TOPO
      else if a.receiver.portNumber > b.receiver.portNumber then B_BETTER_TOPO
      else 0
  }

  // `None` is the null pointer.
  function Dscmp(pa: Option<Dataset>, pb: Option<Dataset>): int {
    if pa == pb then 0
    else if pb == None then A_BETTER
    else if pa == None then B_BETTER
    else
      var a, b := pa.value, pb.value;
      var diff := MemCmp(a.identity, b.identity);
      if diff == 0 then Dscmp2(a, b)
      else if a.priority1 < b.priority1 then A_BETTER
      else if a.priority1 > b.priority1 then B_BETTER
      else if a.quality.clockClass < b.quality.clockClass then A_BETTER
      else if a.quality.clockClass > b.quality.clockClass then B_BETTER
      else if a.quality.clockAccuracy < b.quality.clockAccuracy then A_BETTER
      else if a.quality.clockAccuracy > b.quality.clockAccuracy then B_BETTER
      else if a.quality.offsetScaledLogVariance < b.quality.offsetScaledLogVariance then A_BETTER
      else if a.quality.offsetScaledLogVariance > b.quality.offsetScaledLogVariance then B_BETTER
      else if a.priority2 < b.priority2 then A_BETTER
      else if a.priority2 > b.priority2 then B_BETTER
      else if diff < 0 then A_BETTER else B_BETTER
  }

  function TelecomDscmp(pa: Option<Dataset>, pb: Option<Dataset>): int {
    if pa == pb then 0
    else if pb == None then A_BETTER
    else if pa == None then B_BETTER
    else
      var a, b := pa.value, pb.value;
      if a.quality.clockClass < b.quality.clockClass then A_BETTER
      else if a.quality.clockClass > b.quality.clockClass then B_BETTER
      else if a.quality.clockAccuracy < b.quality.clockAccuracy then A_BETTER
      else if a.quality.clockAccuracy > b.quality.clockAccuracy then B_BETTER
      else if a.quality.offsetScaledLogVariance < b.quality.offsetScaledLogVariance then A_BETTER
      else if a.quality.offsetScaledLogVariance > b.quality.offsetScaledLogVariance then B_BETTER
      else if a.priority2 < b.priority2 then A_BETTER
      else if a.priority2 > b.priority2 then B_BETTER
      else if a.localPriority < b.localPriority then A_BETTER
      else if a.localPriority > b.localPriority then B_BETTER
      else if a.quality.clockClass <= 127 then Dscmp2(a, b)
      else
        var diff := MemCmp(a.identity, b.identity);
        if diff == 0 then Dscmp2(a, b)
        else if diff < 0 then A_BETTER else B_BETTER
  }

  // ---- a reference order: lexicographic comparison of one key per data set, smaller is better ----

  function LexCmp(a: seq<int>, b: seq<int>): int
    requires |a| == |b|
  {
    if a == [] then 0
    else if a[0] < b[0] then 1
    else if a[0] > b[0] then -1
    else LexCmp(a[1..], b[1..])
  }

  lemma {:induction false} LexAntisymmetric(a: seq<int>, b: seq<int>)
    requires |a| == |b|
    ensures LexCmp(a, b) == -LexCmp(b, a)
    ensures -1 <= LexCmp(a, b) <= 1
    ensures LexCmp(a, b) == 0 <==> a == b
  {
    if a != [] {
      LexAntisymmetric(a[1..], b[1..]);
      assert a == [a[0]] + a[1..] && b == [b[0]] + b[1..];
    }
  }

  lemma {:induction false} LexTransitive(a: seq<int>, b: seq<int>, c: seq<int>)
    requires |a| == |b| == |c|
    requires LexCmp(a, b) >= 0 && LexCmp(b, c) >= 0
    ensures LexCmp(a, c) >= 0
    ensures LexCmp(a, b) > 0 || LexCmp(b, c) > 0 ==> LexCmp(a, c) > 0
  {
    if a != [] && a[0] == b[0] == c[0] {
      LexTransitive(a[1..], b[1..], c[1..]);
    }
  }

  lemma {:induction false} LexConcat(a: seq<int>, b: seq<int>, c: seq<int>, d: seq<int>)
    requires |a| == |b| && |c| == |d|
    ensures LexCmp(a + c, b + d) == if LexCmp(a, b) != 0 then LexCmp(a, b) else LexCmp(c, d)
  {
    if a == [] {
      assert a + c == c && b + d == d;
    } else {
      LexConcat(a[1..], b[1..], c, d);
      assert (a + c)[1..] == a[1..] + c && (b + d)[1..] == b[1..] + d;
    }
  }

  function Ints(s: seq<Octet>): (r: seq<int>)
    ensures |r| == |s| && forall i :: 0 <= i < |s| ==> r[i] == s[i]
  {
    seq(|s|, i requires 0 <= i < |s| => s[i])
  }

  lemma {:induction false} MemCmpIsLex(a: seq<Octet>, b: seq<Octet>)
    requires |a| == |b|
    ensures Sign(MemCmp(a, b)) == -LexCmp(Ints(a), Ints(b))
    ensures MemCmp(a, b) == 0 <==> a == b
  {
    if a != [] {
      MemCmpIsLex(a[1..], b[1..]);
      assert Ints(a)[1..] == Ints(a[1..]) && Ints(b)[1..] == Ints(b[1..]);
      assert a == [a[0]] + a[1..] && b == [b[0]] + b[1..];
    }
  }

  lemma ImageInjective(p: PortIdentity, q: PortIdentity)
    ensures Image(p) == Image(q) <==> p == q
  {
    if Image(p) == Image(q) {
      assert Image(p)[..8] == p.clockIdentity && Image(q)[..8] == q.clockIdentity;
      assert Image(p)[8] == p.portNumber % 0x100 && Image(p)[9] == p.portNumber / 0x100;
      assert Image(q)[8] == q.portNumber % 0x100 && Image(q)[9] == q.portNumber / 0x100;
    }
  }

  // What dscmp2 ranks by: the distance, then where the message came from.
  function TopologyKey(d: Dataset): (k: seq<int>)
    ensures |k| == 12
  {
    [d.stepsRemoved] + Ints(Image(d.sender)) + [d.receiver.portNumber]
  }

  function AttributeKey(d: Dataset): (k: seq<int>)
    ensures |k| == 5
  {
    [d.priority1, d.quality.clockClass, d.quality.clockAccuracy, d.quality.offsetScaledLogVariance, d.priority2]
  }

  function Key(d: Dataset): (k: seq<int>)
    ensures |k| == 25
  {
    AttributeKey(d) + Ints(d.identity) + TopologyKey(d)
  }

  function TelecomAttributeKey(d: Dataset): (k: seq<int>)
    ensures |k| == 5
  {
    [d.quality.clockClass, d.quality.clockAccuracy, d.quality.offsetScaledLogVariance, d.priority2, d.localPriority]
  }

  // Grandmasters of class 127 or better are not told apart by identity.
  function TelecomKey(d: Dataset): (k: seq<int>)
    ensures |k| == 25
  {
    TelecomAttributeKey(d) +
    (if d.quality.clockClass <= 127 then [0, 0, 0, 0, 0, 0, 0, 0] else Ints(d.identity)) +
    TopologyKey(d)
  }

  // The data set did not come from the port that received it.  It does not matter for a data set at
  // distance zero, such as the local clock's own, whose sender and receiver are equal.
  predicate Located(d: Dataset) {
    d.stepsRemoved == 0 || d.sender != d.receiver
  }

  // Where two data sets of one grandmaster differ in what they announce of it, the better announcement
  // came the better way: dscmp looks at the way alone.
  predicate Concordant(a: Dataset, b: Dataset) {
    a.identity == b.identity ==>
      || LexCmp(AttributeKey(a), AttributeKey(b)) == 0
      || LexCmp(AttributeKey(a), AttributeKey(b)) == LexCmp(TopologyKey(a), TopologyKey(b))
  }

  // Announcements of one grandmaster that say the same of it are concordant, and so are those of two.
  lemma AgreementIsConcordant(a: Dataset, b: Dataset)
    requires a.identity == b.identity ==>
               a.priority1 == b.priority1 && a.quality == b.quality && a.priority2 == b.priority2
    ensures Concordant(a, b)
  {
    LexAntisymmetric(AttributeKey(a), AttributeKey(b));
  }

  // dscmp2 is antisymmetric, and without condition.
  lemma Dscmp2Antisymmetric(a: Dataset, b: Dataset)
    ensures Dscmp2(a, b) == -Dscmp2(b, a)
  {
    MemCmpIsLex(Image(a.sender), Image(b.sender));
    MemCmpIsLex(Image(b.sender), Image(a.sender));
    LexAntisymmetric(Ints(Image(a.sender)), Ints(Image(b.sender)));
  }

  lemma DscmpAntisymmetric(a: Option<Dataset>, b: Option<Dataset>)
    ensures Dscmp(a, b) == -Dscmp(b, a)
  {
    if a != None && b != None {
      Dscmp2Antisymmetric(a.value, b.value);
      MemCmpIsLex(a.value.identity, b.value.identity);
      MemCmpIsLex(b.value.identity, a.value.identity);
      LexAntisymmetric(Ints(a.value.identity), Ints(b.value.identity));
    }
  }

  lemma TelecomAntisymmetric(a: Option<Dataset>, b: Option<Dataset>)
    ensures TelecomDscmp(a, b) == -TelecomDscmp(b, a)
  {
    if a != None && b != None {
      Dscmp2Antisymmetric(a.value, b.value);
      MemCmpIsLex(a.value.identity, b.value.identity);
      MemCmpIsLex(b.value.identity, a.value.identity);
      LexAntisymmetric(Ints(a.value.identity), Ints(b.value.identity));
    }
  }

  lemma LexOne(x: int, y: int)
    ensures LexCmp([x], [y]) == if x < y then 1 else if x > y then -1 else 0
  {
  }

  // For exactly the pairs whose farther member is located, dscmp2 ranks by the key.
  lemma Dscmp2IsKeyOrder(a: Dataset, b: Dataset)
    ensures Sign(Dscmp2(a, b)) == LexCmp(TopologyKey(a), TopologyKey(b)) <==>
            ((a.stepsRemoved == b.stepsRemoved + 1 ==> Located(a)) &&
             (b.stepsRemoved == a.stepsRemoved + 1 ==> Located(b)))
  {
    var sa, sb := Image(a.sender), Image(b.sender);
    MemCmpIsLex(sa, sb);
    MemCmpIsLex(Image(b.receiver), sb);
    MemCmpIsLex(Image(a.receiver), sa);
    ImageInjective(a.receiver, a.sender);
    ImageInjective(b.receiver, b.sender);
    LexConcat([a.stepsRemoved] + Ints(sa), [b.stepsRemoved] + Ints(sb), [a.receiver.portNumber],
              [b.receiver.portNumber]);
    LexConcat([a.stepsRemoved], [b.stepsRemoved], Ints(sa), Ints(sb));
    LexOne(a.stepsRemoved, b.stepsRemoved);
    LexOne(a.receiver.portNumber, b.receiver.portNumber);
  }

  // The nearer of two data sets, or the one with the smaller sender, won by nothing but the way it came: from the
  // same distance, or one step nearer than one that was received on a port behind its sender.
  ghost predicate ByTheWay(x: Dataset, y: Dataset) {
    || x.stepsRemoved == y.stepsRemoved
    || (x.stepsRemoved + 1 == y.stepsRemoved && LexCmp(Ints(Image(y.sender)), Ints(Image(y.receiver))) > 0)
  }

  // When dscmp2 says so.
  lemma Dscmp2ByTheWay(x: Dataset, y: Dataset)
    ensures Dscmp2(x, y) == A_BETTER_TOPO <==> Dscmp2(x, y) > 0 && ByTheWay(x, y)
    ensures -2 <= Dscmp2(x, y) <= 2
  {
    MemCmpIsLex(Image(y.receiver), Image(y.sender));
    LexAntisymmetric(Ints(Image(y.receiver)), Ints(Image(y.sender)));
  }

  function KeyCmp(a: Option<Dataset>, b: Option<Dataset>): int {
    if a == None then (if b == None then 0 else -1)
    else if b == None then 1
    else LexCmp(Key(a.value), Key(b.value))
  }

  function TelecomKeyCmp(a: Option<Dataset>, b: Option<Dataset>): int {
    if a == None then (if b == None then 0 else -1)
    else if b == None then 1
    else LexCmp(TelecomKey(a.value), TelecomKey(b.value))
  }

  lemma FiveOrdered(a: seq<int>, b: seq<int>)
    requires |a| == |b| == 5
    ensures LexCmp(a, b) ==
            if a[0] < b[0] then 1 else if a[0] > b[0] then -1
            else if a[1] < b[1] then 1 else if a[1] > b[1] then -1
            else if a[2] < b[2] then 1 else if a[2] > b[2] then -1
            else if a[3] < b[3] then 1 else if a[3] > b[3] then -1
            else if a[4] < b[4] then 1 else if a[4] > b[4] then -1
            else 0
  {
    assert LexCmp(a[1..], b[1..]) ==
           if a[1] < b[1] then 1 else if a[1] > b[1] then -1 else LexCmp(a[2..], b[2..]) by {
      assert a[1..][1..] == a[2..] && b[1..][1..] == b[2..];
    }
    assert LexCmp(a[2..], b[2..]) ==
           if a[2] < b[2] then 1 else if a[2] > b[2] then -1 else LexCmp(a[3..], b[3..]) by {
      assert a[2..][1..] == a[3..] && b[2..][1..] == b[3..];
    }
    assert LexCmp(a[3..], b[3..]) ==
           if a[3] < b[3] then 1 else if a[3] > b[3] then -1 else LexCmp(a[4..], b[4..]) by {
      assert a[3..][1..] == a[4..] && b[3..][1..] == b[4..];
    }
    assert a[4..] == [a[4]] && b[4..] == [b[4]];
    LexOne(a[4], b[4]);
  }

  lemma ThreePartKey(a1: seq<int>, b1: seq<int>, a2: seq<int>, b2: seq<int>, a3: seq<int>, b3: seq<int>)
    requires |a1| == |b1| && |a2| == |b2| && |a3| == |b3|
    ensures LexCmp(a1 + a2 + a3, b1 + b2 + b3) ==
            if LexCmp(a1, b1) != 0 then LexCmp(a1, b1)
            else if LexCmp(a2, b2) != 0 then LexCmp(a2, b2)
            else LexCmp(a3, b3)
  {
    LexConcat(a1 + a2, b1 + b2, a3, b3);
    LexConcat(a1, b1, a2, b2);
  }

  // dscmp ranks located data sets by the key for exactly the concordant pairs.
  lemma DscmpIsKeyOrder(a: Option<Dataset>, b: Option<Dataset>)
    requires a != None && b != None ==> Located(a.value) && Located(b.value)
    ensures Sign(Dscmp(a, b)) == KeyCmp(a, b) <==> (a != None && b != None ==> Concordant(a.value, b.value))
  {
    if a != None && b != None {
      var x, y := a.value, b.value;
      LexAntisymmetric(Key(x), Key(x));
      LexAntisymmetric(AttributeKey(x), AttributeKey(x));
      MemCmpIsLex(x.identity, y.identity);
      LexAntisymmetric(Ints(x.identity), Ints(y.identity));
      FiveOrdered(AttributeKey(x), AttributeKey(y));
      ThreePartKey(AttributeKey(x), AttributeKey(y), Ints(x.identity), Ints(y.identity), TopologyKey(x),
                   TopologyKey(y));
      Dscmp2IsKeyOrder(x, y);
      assert x.identity != y.identity ==> LexCmp(Ints(x.identity), Ints(y.identity)) != 0;
    }
  }

  // telecom_dscmp needs no agreement between the announcements of one grandmaster.
  lemma TelecomIsKeyOrder(a: Option<Dataset>, b: Option<Dataset>)
    requires a != None && b != None ==> Located(a.value) && Located(b.value)
    ensures Sign(TelecomDscmp(a, b)) == TelecomKeyCmp(a, b)
  {
    if a != None && b != None {
      var x, y := a.value, b.value;
      LexAntisymmetric(TelecomKey(x), TelecomKey(x));
      MemCmpIsLex(x.identity, y.identity);
      LexAntisymmetric(Ints(x.identity), Ints(y.identity));
      FiveOrdered(TelecomAttributeKey(x), TelecomAttributeKey(y));
      var zero := [0, 0, 0, 0, 0, 0, 0, 0];
      var ix := if x.quality.clockClass <= 127 then zero else Ints(x.identity);
      var iy := if y.quality.clockClass <= 127 then zero else Ints(y.identity);
      LexAntisymmetric(zero, zero);
      ThreePartKey(TelecomAttributeKey(x), TelecomAttributeKey(y), ix, iy, TopologyKey(x), TopologyKey(y));
      Dscmp2IsKeyOrder(x, y);
    }
  }

  // ---- the algorithm a clock is configured with ----

  datatype Algorithm = Ieee1588 | G8275

  function Compare(alg: Algorithm, a: Option<Dataset>, b: Option<Dataset>): int {
    match alg
    case Ieee1588 => Dscmp(a, b)
    case G8275 => TelecomDscmp(a, b)
  }

  // What a comparison needs of its arguments to be an order.
  predicate Orderly(alg: Algorithm, a: Option<Dataset>, b: Option<Dataset>) {
    && (a != None ==> Located(a.value))
    && (b != None ==> Located(b.value))
    && (alg == Ieee1588 && a != None && b != None ==> Concordant(a.value, b.value))
  }

  lemma CompareAntisymmetric(alg: Algorithm, a: Option<Dataset>, b: Option<Dataset>)
    ensures Compare(alg, a, b) == -Compare(alg, b, a)
  {
    match alg
    case Ieee1588 => DscmpAntisymmetric(a, b);
    case G8275 => TelecomAntisymmetric(a, b);
  }

  // The two data sets speak of one source of time, so that only the way to it can decide.
  ghost predicate SameSource(alg: Algorithm, x: Dataset, y: Dataset) {
    match alg
    case Ieee1588 => x.identity == y.identity
    case G8275 =>
      TelecomAttributeKey(x) == TelecomAttributeKey(y) && (x.quality.clockClass <= 127 || x.identity == y.identity)
  }

  // A comparison is won by topology exactly if it is won by the way to one and the same source; every other
  // one that is won is won by attributes.
  lemma WonByTheWay(alg: Algorithm, x: Dataset, y: Dataset)
    ensures var c := Compare(alg, Some(x), Some(y));
            && (c == A_BETTER_TOPO <==> c > 0 && SameSource(alg, x, y) && ByTheWay(x, y))
            && (c == A_BETTER <==> c > 0 && !(SameSource(alg, x, y) && ByTheWay(x, y)))
            && -2 <= c <= 2
  {
    Dscmp2ByTheWay(x, y);
    MemCmpIsLex(x.identity, y.identity);
    FiveOrdered(TelecomAttributeKey(x), TelecomAttributeKey(y));
    LexAntisymmetric(TelecomAttributeKey(x), TelecomAttributeKey(y));
    hide Dscmp2, ByTheWay;
    if x == y {
      NotByItself(x);
    }
  }

  lemma NotByItself(x: Dataset)
    ensures Dscmp2(x, x) == 0
  {
    MemCmpIsLex(Image(x.sender), Image(x.sender));
  }

  // What the sign of a comparison is on orderly data sets.
  function RankCmp(alg: Algorithm, a: Option<Dataset>, b: Option<Dataset>): int {
    if alg == Ieee1588 then KeyCmp(a, b) else TelecomKeyCmp(a, b)
  }

  lemma OrderlyIsRanked(alg: Algorithm, a: Option<Dataset>, b: Option<Dataset>)
    requires Orderly(alg, a, b)
    ensures Sign(Compare(alg, a, b)) == RankCmp(alg, a, b)
  {
    match alg
    case Ieee1588 => DscmpIsKeyOrder(a, b);
    case G8275 => TelecomIsKeyOrder(a, b);
  }

  // On orderly arguments the comparison is a total preorder.
  lemma CompareTransitive(alg: Algorithm, a: Option<Dataset>, b: Option<Dataset>, c: Option<Dataset>)
    requires Orderly(alg, a, b) && Orderly(alg, b, c) && Orderly(alg, a, c)
    requires Compare(alg, a, b) >= 0 && Compare(alg, b, c) >= 0
    ensures Compare(alg, a, c) >= 0
    ensures Compare(alg, a, b) > 0 || Compare(alg, b, c) > 0 ==> Compare(alg, a, c) > 0
  {
    match alg
    case Ieee1588 =>
      DscmpIsKeyOrder(a, b);
      DscmpIsKeyOrder(b, c);
      DscmpIsKeyOrder(a, c);
      if a != None && b != None && c != None {
        LexTransitive(Key(a.value), Key(b.value), Key(c.value));
      }
    case G8275 =>
      TelecomIsKeyOrder(a, b);
      TelecomIsKeyOrder(b, c);
      TelecomIsKeyOrder(a, c);
      if a != None && b != None && c != None {
        LexTransitive(TelecomKey(a.value), TelecomKey(b.value), TelecomKey(c.value));
      }
  }

  // No order without location: around every data set that is not located there are two located,
  // concordant ones that it ties with although one of them is better.
  lemma OrderNeedsLocation(alg: Algorithm, d: Dataset)
    ensures Located(d) <==>
            forall x, y ::
              Orderly(alg, Some(x), Some(y)) && (alg == Ieee1588 ==> Concordant(x, d) && Concordant(d, y)) &&
              Compare(alg, Some(x), Some(d)) >= 0 && Compare(alg, Some(d), Some(y)) >= 0 ==>
              Compare(alg, Some(x), Some(y)) >= 0
  {
    if Located(d) {
      forall x, y | Orderly(alg, Some(x), Some(y)) && (alg == Ieee1588 ==> Concordant(x, d) && Concordant(d, y)) &&
                    Compare(alg, Some(x), Some(d)) >= 0 && Compare(alg, Some(d), Some(y)) >= 0
        ensures Compare(alg, Some(x), Some(y)) >= 0
      {
        CompareTransitive(alg, Some(x), Some(d), Some(y));
      }
    } else {
      var low: ClockIdentity, high: ClockIdentity := [0, 0, 0, 0, 0, 0, 0, 0], [1, 0, 0, 0, 0, 0, 0, 0];
      var x := d.(stepsRemoved := d.stepsRemoved - 1, sender := PortIdentity(high, 0),
                  receiver := PortIdentity(low, 1));
      var y := d.(stepsRemoved := d.stepsRemoved - 1, sender := PortIdentity(low, 0), receiver := PortIdentity(low, 1));
      TiesWithUnlocated(alg, d, x);
      TiesWithUnlocated(alg, d, y);
      CompareAntisymmetric(alg, Some(d), Some(x));
      assert Image(x.sender)[0] == 1 && Image(y.sender)[0] == 0;
      assert MemCmp(Image(x.sender), Image(y.sender)) > 0;
      SameRank(alg, x, y);
      AgreementIsConcordant(x, y);
      AgreementIsConcordant(x, d);
      AgreementIsConcordant(d, y);
    }
  }

  lemma SameRank(alg: Algorithm, x: Dataset, y: Dataset)
    requires x.identity == y.identity && x.priority1 == y.priority1 && x.quality == y.quality
    requires x.priority2 == y.priority2 && x.localPriority == y.localPriority
    ensures Compare(alg, Some(x), Some(y)) == Dscmp2(x, y)
  {
    MemCmpIsLex(x.identity, y.identity);
    MemCmpIsLex(Image(x.sender), Image(y.sender));
  }

  lemma TiesWithUnlocated(alg: Algorithm, d: Dataset, x: Dataset)
    requires !Located(d)
    requires x.identity == d.identity && x.priority1 == d.priority1 && x.quality == d.quality
    requires x.priority2 == d.priority2 && x.localPriority == d.localPriority
    requires x.stepsRemoved == d.stepsRemoved - 1
    ensures Compare(alg, Some(x), Some(d)) == 0
  {
    SameRank(alg, x, d);
    MemCmpIsLex(Image(d.receiver), Image(d.sender));
  }

  // Through `b` nothing else follows about `a` and `c` than what dscmp says of them.
  predicate Transits(a: Dataset, b: Dataset, c: Dataset) {
    var x, y, z := Some(a), Some(b), Some(c);
    Dscmp(x, y) >= 0 && Dscmp(y, z) >= 0 ==>
      Dscmp(x, z) >= 0 && (Dscmp(x, y) > 0 || Dscmp(y, z) > 0 ==> Dscmp(x, z) > 0)
  }

  // Located data sets that are not concordant are in order with each other, but some third one breaks it;
  // concordant ones no concordant third one ever does.
  lemma OrderNeedsConcord(a: Dataset, c: Dataset)
    requires Located(a) && Located(c)
    ensures Concordant(a, c) <==>
            forall b :: Located(b) && Concordant(a, b) && Concordant(b, c) ==> Transits(a, b, c) && Transits(c, b, a)
  {
    ConcordIsMutual(a, c);
    if Concordant(a, c) {
      forall b | Located(b) && Concordant(a, b) && Concordant(b, c)
        ensures Transits(a, b, c) && Transits(c, b, a)
      {
        ConcordIsMutual(a, b);
        ConcordIsMutual(b, c);
        hide Concordant;
        ConcordantTransits(a, b, c);
        ConcordantTransits(c, b, a);
      }
    } else {
      LexAntisymmetric(AttributeKey(a), AttributeKey(c));
      if LexCmp(AttributeKey(a), AttributeKey(c)) > 0 {
        var b := Breaker(a, c);
      } else {
        var b := Breaker(c, a);
        ConcordIsMutual(b, c);
        ConcordIsMutual(a, b);
      }
    }
  }

  lemma ConcordantTransits(a: Dataset, b: Dataset, c: Dataset)
    requires Located(a) && Located(b) && Located(c) && Concordant(a, b) && Concordant(b, c) && Concordant(a, c)
    ensures Transits(a, b, c)
  {
    hide Dscmp, Concordant;
    if Dscmp(Some(a), Some(b)) >= 0 && Dscmp(Some(b), Some(c)) >= 0 {
      CompareTransitive(Ieee1588, Some(a), Some(b), Some(c));
    }
  }

  lemma ConcordIsMutual(a: Dataset, b: Dataset)
    ensures Concordant(a, b) <==> Concordant(b, a)
  {
    LexAntisymmetric(AttributeKey(a), AttributeKey(b));
    LexAntisymmetric(TopologyKey(a), TopologyKey(b));
  }

  // A data set of another grandmaster, between the two announcements: worse than the better one, better than
  // the other.
  lemma Breaker(a: Dataset, c: Dataset) returns (b: Dataset)
    requires Located(a) && Located(c) && !Concordant(a, c) && LexCmp(AttributeKey(a), AttributeKey(c)) > 0
    ensures Located(b) && Concordant(a, b) && Concordant(b, c) && !Transits(a, b, c)
  {
    var zero: ClockIdentity, one: ClockIdentity := [0, 0, 0, 0, 0, 0, 0, 0], [1, 0, 0, 0, 0, 0, 0, 0];
    assert zero[0] != one[0];
    var other := if a.identity == zero then one else zero;
    MemCmpIsLex(a.identity, other);
    MemCmpIsLex(other, a.identity);
    LexAntisymmetric(Ints(a.identity), Ints(other));
    b := (if MemCmp(a.identity, other) < 0 then a else c).(identity := other, stepsRemoved := 0);
    assert AttributeKey(b) == AttributeKey(if MemCmp(a.identity, other) < 0 then a else c);
    hide Dscmp, AttributeKey, TopologyKey, LexCmp, MemCmp;
    Between(a, b, c);
    WayDecides(a, c);
  }

  lemma Between(a: Dataset, b: Dataset, c: Dataset)
    requires a.identity == c.identity != b.identity && LexCmp(AttributeKey(a), AttributeKey(c)) > 0
    requires if MemCmp(a.identity, b.identity) < 0 then AttributeKey(b) == AttributeKey(a)
             else AttributeKey(b) == AttributeKey(c) && MemCmp(b.identity, c.identity) < 0
    ensures Dscmp(Some(a), Some(b)) > 0 && Dscmp(Some(b), Some(c)) > 0
  {
    hide Dscmp, AttributeKey, LexCmp, MemCmp;
    KeyOfOther(a, b);
    KeyOfOther(b, c);
  }

  // Between two grandmasters dscmp decides by the attributes, and by the identities when they are equal.
  lemma KeyOfOther(a: Dataset, b: Dataset)
    requires a.identity != b.identity
    ensures var k := LexCmp(AttributeKey(a), AttributeKey(b));
            Sign(Dscmp(Some(a), Some(b))) == if k != 0 then k else if MemCmp(a.identity, b.identity) < 0 then 1 else -1
    ensures AttributeKey(a) == AttributeKey(b) ==> LexCmp(AttributeKey(a), AttributeKey(b)) == 0
  {
    MemCmpIsLex(a.identity, b.identity);
    FiveOrdered(AttributeKey(a), AttributeKey(b));
    LexAntisymmetric(AttributeKey(a), AttributeKey(b));
  }

  // Within one grandmaster it decides by the way.
  lemma WayDecides(a: Dataset, b: Dataset)
    requires a.identity == b.identity && Located(a) && Located(b)
    ensures Sign(Dscmp(Some(a), Some(b))) == LexCmp(TopologyKey(a), TopologyKey(b))
    ensures -1 <= LexCmp(TopologyKey(a), TopologyKey(b)) <= 1
    ensures -1 <= LexCmp(AttributeKey(a), AttributeKey(b)) <= 1
  {
    MemCmpIsLex(a.identity, b.identity);
    LexAntisymmetric(TopologyKey(a), TopologyKey(b));
    LexAntisymmetric(AttributeKey(a), AttributeKey(b));
    Dscmp2IsKeyOrder(a, b);
  }

  // Three located data sets, two of one grandmaster, in a cycle.
  lemma DisagreementCycle()
    ensures exists a, b, c ::
              Located(a) && Located(b) && Located(c) &&
              Dscmp(Some(a), Some(b)) > 0 && Dscmp(Some(b), Some(c)) > 0 && Dscmp(Some(c), Some(a)) > 0
  {
    var one: ClockIdentity, two: ClockIdentity := [1, 0, 0, 0, 0, 0, 0, 0], [2, 0, 0, 0, 0, 0, 0, 0];
    var q := ClockQuality(248, 0xfe, 0xffff);
    var near, far := PortIdentity(one, 1), PortIdentity(two, 1);
    var a := Dataset(1, one, q, 128, 128, 5, near, far);
    var b := Dataset(2, two, q, 128, 128, 0, near, far);
    var c := Dataset(3, one, q, 128, 128, 0, near, far);
    assert MemCmp(one, two) < 0 && MemCmp(two, one) > 0;
    MemCmpIsLex(one, one);
    assert one[0] != two[0];
    assert near.clockIdentity != far.clockIdentity;
    assert Dscmp(Some(a), Some(b)) == A_BETTER && Dscmp(Some(b), Some(c)) == A_BETTER;
    assert Dscmp(Some(c), Some(a)) == Dscmp2(c, a) == A_BETTER;
  }

  // The local clock's own data set (clock_default_ds).
  datatype DefaultDS = DefaultDS(priority1: Octet, clockIdentity: ClockIdentity, clockQuality: ClockQuality,
                                 priority2: Octet, localPriority: Octet)

  function ClockDefaultDs(dds: DefaultDS): (d: Dataset)
    ensures d.sender == d.receiver && Located(d)
  {
    Dataset(dds.priority1, dds.clockIdentity, dds.clockQuality, dds.priority2, dds.localPriority, 0,
            PortIdentity(dds.clockIdentity, 0), PortIdentity(dds.clockIdentity, 0))
  }
}
