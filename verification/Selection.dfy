/** Which foreign master wins: the scans of `port_compute_best` and `handle_state_decision_event`
  as a function of the candidate data sets, and why the winner is the best of all of them.
 */
module Selection {
  import opened Prelude
  import opened DatasetComparison

  // The index the scan holds after looking at all of `cands`; `None` entries are skipped.
  function Leader(alg: Algorithm, cands: seq<Option<Dataset>>): (k: Option<nat>)
    ensures k != None ==> k.value < |cands| && cands[k.value] != None
  {
    if cands == [] then None
    else
      var n := |cands| - 1;
      var lead := Leader(alg, cands[..n]);
      if cands[n] == None then lead
      else if lead == None || Compare(alg, cands[n], cands[lead.value]) > 0 then Some(n)
      else lead
  }

  function Winner(alg: Algorithm, cands: seq<Option<Dataset>>): Option<Dataset> {
    var k := Leader(alg, cands);
    if k == None then None else cands[k.value]
  }

  ghost predicate AllOrderly(alg: Algorithm, cands: seq<Option<Dataset>>) {
    forall i, j :: 0 <= i < |cands| && 0 <= j < |cands| ==> Orderly(alg, cands[i], cands[j])
  }

  // The winner is beaten by nobody, and it beats everybody before it.
  lemma {:induction false} LeaderIsBest(alg: Algorithm, cands: seq<Option<Dataset>>)
    requires AllOrderly(alg, cands)
    ensures Leader(alg, cands) == None <==> forall i :: 0 <= i < |cands| ==> cands[i] == None
    ensures Leader(alg, cands) != None ==>
      var k := Leader(alg, cands).value;
      && (forall i :: 0 <= i < |cands| ==> Compare(alg, cands[i], cands[k]) <= 0)
      && (forall i :: 0 <= i < k ==> Compare(alg, cands[i], cands[k]) < 0)
  {
    if cands != [] {
      var n := |cands| - 1;
      LeaderIsBest(alg, cands[..n]);
      var lead, k := Leader(alg, cands[..n]), Leader(alg, cands);
      if k != None {
        forall i | 0 <= i < |cands|
          ensures Compare(alg, cands[i], cands[k.value]) <= 0
          ensures i < k.value ==> Compare(alg, cands[i], cands[k.value]) < 0
        {
          LeaderStep(alg, cands, n, lead, k.value, i);
        }
      }
      assert cands[n] == None || k != None;
      assert forall i :: 0 <= i < n ==> cands[..n][i] == cands[i];
    }
  }

  lemma {:induction false} LeaderNone(alg: Algorithm, cands: seq<Option<Dataset>>)
    ensures Leader(alg, cands) == None <==> forall i :: 0 <= i < |cands| ==> cands[i] == None
  {
    if cands != [] {
      LeaderNone(alg, cands[..|cands| - 1]);
      assert forall i :: 0 <= i < |cands| - 1 ==> cands[..|cands| - 1][i] == cands[i];
    }
  }

  lemma LeaderStep(alg: Algorithm, cands: seq<Option<Dataset>>, n: nat, lead: Option<nat>, k: nat, i: nat)
    requires AllOrderly(alg, cands) && n + 1 == |cands| && i < |cands|
    requires lead == Leader(alg, cands[..n]) && Leader(alg, cands) == Some(k)
    requires lead == None ==> forall j :: 0 <= j < n ==> cands[..n][j] == None
    requires lead != None ==> forall j :: 0 <= j < n ==> Compare(alg, cands[..n][j], cands[..n][lead.value]) <= 0
    requires lead != None ==> forall j :: 0 <= j < lead.value ==>
             Compare(alg, cands[..n][j], cands[..n][lead.value]) < 0
    ensures Compare(alg, cands[i], cands[k]) <= 0
    ensures i < k ==> Compare(alg, cands[i], cands[k]) < 0
  {
    hide Compare, Orderly;
    var c := cands;
    NoneLoses(alg, c[i], c[k]);
    if i < n {
      assert c[..n][i] == c[i];
    }
    if k == n {
      if i < n && lead != None {
        Beaten(alg, c[i], c[lead.value], c[n]);
      }
    } else {
      assert lead == Some(k);
      CompareAntisymmetric(alg, c[n], c[k]);
    }
  }

  lemma NoneLoses(alg: Algorithm, a: Option<Dataset>, b: Option<Dataset>)
    ensures Compare(alg, a, a) == 0
    ensures a == None ==> Compare(alg, a, b) <= 0
    ensures a == None && b != None ==> Compare(alg, a, b) < 0
  {
  }

  lemma Beaten(alg: Algorithm, a: Option<Dataset>, b: Option<Dataset>, c: Option<Dataset>)
    requires Orderly(alg, c, b) && Orderly(alg, b, a) && Orderly(alg, c, a)
    requires Compare(alg, a, b) <= 0 && Compare(alg, c, b) > 0
    ensures Compare(alg, a, c) < 0
  {
    CompareAntisymmetric(alg, a, b);
    CompareAntisymmetric(alg, a, c);
    CompareTransitive(alg, c, b, a);
  }

  // The scan clears the messages of the candidate at `i`.
  predicate Cleared(alg: Algorithm, cands: seq<Option<Dataset>>, i: nat)
    requires i < |cands|
  {
    var lead := Leader(alg, cands[..i]);
    cands[i] != None && lead != None && Compare(alg, cands[i], cands[lead.value]) <= 0
  }

  // Cleared are exactly the candidates that an earlier one equals or beats.
  lemma ClearedAreLosers(alg: Algorithm, cands: seq<Option<Dataset>>, i: nat)
    requires AllOrderly(alg, cands) && i < |cands| && cands[i] != None
    ensures Cleared(alg, cands, i) <==>
            exists j :: 0 <= j < i && cands[j] != None && Compare(alg, cands[j], cands[i]) >= 0
    ensures Leader(alg, cands) == Some(i) ==> !Cleared(alg, cands, i)
  {
    LeaderIsBest(alg, cands[..i]);
    LeaderIsBest(alg, cands);
    var lead := Leader(alg, cands[..i]);
    if lead != None {
      CompareAntisymmetric(alg, cands[i], cands[lead.value]);
      forall j | 0 <= j < i && cands[j] != None && Compare(alg, cands[j], cands[i]) >= 0
        ensures Cleared(alg, cands, i)
      {
        assert cands[..i][j] == cands[j];
        CompareAntisymmetric(alg, cands[j], cands[lead.value]);
        CompareTransitive(alg, cands[lead.value], cands[j], cands[i]);
      }
    } else {
      assert forall j :: 0 <= j < i ==> cands[..i][j] == cands[j];
    }
  }

  // ---- the outer scan ----

  function Bests(alg: Algorithm, ports: seq<seq<Option<Dataset>>>): (r: seq<Option<Dataset>>)
    ensures |r| == |ports|
    ensures forall p :: 0 <= p < |ports| ==> r[p] == Winner(alg, ports[p])
  {
    seq(|ports|, p requires 0 <= p < |ports| => Winner(alg, ports[p]))
  }

  ghost predicate AllPortsOrderly(alg: Algorithm, ports: seq<seq<Option<Dataset>>>) {
    forall p, q, i, j :: 0 <= p < |ports| && 0 <= q < |ports| && 0 <= i < |ports[p]| && 0 <= j < |ports[q]| ==>
      Orderly(alg, ports[p][i], ports[q][j])
  }

  // The two nested scans find a maximum over every candidate of every port.
  lemma GlobalMaximum(alg: Algorithm, ports: seq<seq<Option<Dataset>>>)
    requires AllPortsOrderly(alg, ports)
    ensures Leader(alg, Bests(alg, ports)) == None <==>
            forall p, i :: 0 <= p < |ports| && 0 <= i < |ports[p]| ==> ports[p][i] == None
    ensures Leader(alg, Bests(alg, ports)) != None ==>
      var best := Winner(alg, Bests(alg, ports));
      && best != None
      && forall p, i :: 0 <= p < |ports| && 0 <= i < |ports[p]| ==> Compare(alg, ports[p][i], best) <= 0
  {
    var bests := Bests(alg, ports);
    forall p | 0 <= p < |ports|
      ensures AllOrderly(alg, ports[p])
      ensures bests[p] == None <==> forall i :: 0 <= i < |ports[p]| ==> ports[p][i] == None
      ensures forall i :: 0 <= i < |ports[p]| ==> Compare(alg, ports[p][i], bests[p]) <= 0
    {
      LeaderIsBest(alg, ports[p]);
    }
    BestsAreOrderly(alg, ports);
    LeaderIsBest(alg, bests);
    var k := Leader(alg, bests);
    if k != None {
      forall p, i | 0 <= p < |ports| && 0 <= i < |ports[p]|
        ensures Compare(alg, ports[p][i], bests[k.value]) <= 0
      {
        BestIsOrderlyWith(alg, ports, k.value, p, i);
        BestIsOrderlyWith(alg, ports, p, p, i);
        NotBetter(alg, ports[p][i], bests[p], bests[k.value]);
      }
    }
  }

  lemma NotBetter(alg: Algorithm, a: Option<Dataset>, b: Option<Dataset>, c: Option<Dataset>)
    requires Orderly(alg, c, b) && Orderly(alg, b, a) && Orderly(alg, c, a)
    requires Compare(alg, a, b) <= 0 && Compare(alg, b, c) <= 0
    ensures Compare(alg, a, c) <= 0
  {
    CompareAntisymmetric(alg, a, b);
    CompareAntisymmetric(alg, b, c);
    CompareAntisymmetric(alg, a, c);
    CompareTransitive(alg, c, b, a);
  }

  lemma BestIsOrderlyWith(alg: Algorithm, ports: seq<seq<Option<Dataset>>>, q: nat, p: nat, i: nat)
    requires AllPortsOrderly(alg, ports) && p < |ports| && q < |ports| && i < |ports[p]|
    ensures Orderly(alg, Bests(alg, ports)[q], ports[p][i])
  {
    var k := Leader(alg, ports[q]);
    if k != None {
      assert Orderly(alg, ports[q][k.value], ports[p][i]);
    } else {
      assert Orderly(alg, ports[p][i], ports[p][i]);
    }
  }

  lemma BestsAreOrderly(alg: Algorithm, ports: seq<seq<Option<Dataset>>>)
    requires AllPortsOrderly(alg, ports)
    ensures AllOrderly(alg, Bests(alg, ports))
  {
    var bests := Bests(alg, ports);
    forall p, q | 0 <= p < |bests| && 0 <= q < |bests|
      ensures Orderly(alg, bests[p], bests[q])
    {
      var i, j := Leader(alg, ports[p]), Leader(alg, ports[q]);
      if j != None {
        BestIsOrderlyWith(alg, ports, p, q, j.value);
      } else if i != None {
        BestIsOrderlyWith(alg, ports, q, p, i.value);
      }
    }
  }
}
