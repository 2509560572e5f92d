/**
 * The thresholds that turn a percentage into a label: the receptor status of
 * ER and PR (breast) and the ordered bands of PD-L1, FEV1 and DLCO (lung).
 */
module Categorizers {

  /** `category` applies to values at or above `atLeast`. */
  datatype Band = Band(atLeast: real, category: string)

  /** An `if v >= c1 ... elif v >= c2 ... else` chain: bands are tried in
      order, `otherwise` applies below the last one. Earlier bands are the
      better categories. */
  datatype Banding = Banding(bands: seq<Band>, otherwise: string)

  /** Position of the first band whose threshold `x` reaches, or the number
      of bands when none does (the `else` branch). */
  function BandIndex(bands: seq<Band>, x: real): (k: nat)
    ensures k <= |bands|
    ensures k < |bands| ==> x >= bands[k].atLeast
    ensures forall j :: 0 <= j < k ==> x < bands[j].atLeast
  {
    if bands == [] then 0
    else if x >= bands[0].atLeast then 0
    else 1 + BandIndex(bands[1..], x)
  }

  function Categorize(b: Banding, x: real): (category: string) {
    var k := BandIndex(b.bands, x);
    if k < |b.bands| then b.bands[k].category else b.otherwise
  }

  /** A larger value never lands in a later (worse) band. */
  lemma BandIndexMonotone(bands: seq<Band>, x: real, y: real)
    requires x <= y
    ensures BandIndex(bands, y) <= BandIndex(bands, x)
  {
  }

  const Pdl1High := "High (\U{2265}50%)"
  const Pdl1Low := "Low (1-49%)"
  const Pdl1Negative := "Negative (<1%)"

  const Pdl1Banding := Banding([Band(50.0, Pdl1High), Band(1.0, Pdl1Low)], Pdl1Negative)

  const Fev1Banding := Banding([Band(80.0, "Normal"),
                                Band(60.0, "Mild obstruction"),
                                Band(40.0, "Moderate obstruction")],
                               "Severe obstruction")

  const DlcoBanding := Banding([Band(75.0, "Normal"),
                                Band(60.0, "Mild reduction"),
                                Band(40.0, "Moderate reduction")],
                               "Severe reduction")

  /** ER/PR status from a percentage: strictly above 10 is positive. */
  function ReceptorStatus(x: real): (status: string)
    ensures status == "Positive" <==> x > 10.0
    ensures status == "Negative" <==> x <= 10.0
  {
    if x > 10.0 then "Positive" else "Negative"
  }

  /** The PD-L1 table gives the three tiers at 50 and 1, each including its
      lower bound; negative values fall in the lowest tier. */
  lemma Pdl1Tiers(x: real)
    ensures x >= 50.0 ==> Categorize(Pdl1Banding, x) == Pdl1High
    ensures 1.0 <= x < 50.0 ==> Categorize(Pdl1Banding, x) == Pdl1Low
    ensures x < 1.0 ==> Categorize(Pdl1Banding, x) == Pdl1Negative
  {
    var bs := Pdl1Banding.bands;
    assert bs[1..] == [bs[1]];
    assert bs[1..][1..] == [];
  }

  lemma Pdl1Boundaries()
    ensures Categorize(Pdl1Banding, 50.0) == Pdl1High
    ensures Categorize(Pdl1Banding, 49.999) == Pdl1Low
    ensures Categorize(Pdl1Banding, 1.0) == Pdl1Low
    ensures Categorize(Pdl1Banding, 0.999) == Pdl1Negative
  {
    Pdl1Tiers(50.0);
    Pdl1Tiers(49.999);
    Pdl1Tiers(1.0);
    Pdl1Tiers(0.999);
  }

  /** The FEV1 table: four tiers with lower bounds 80, 60 and 40. */
  lemma Fev1Tiers(x: real)
    ensures x >= 80.0 ==> Categorize(Fev1Banding, x) == "Normal"
    ensures 60.0 <= x < 80.0 ==> Categorize(Fev1Banding, x) == "Mild obstruction"
    ensures 40.0 <= x < 60.0 ==> Categorize(Fev1Banding, x) == "Moderate obstruction"
    ensures x < 40.0 ==> Categorize(Fev1Banding, x) == "Severe obstruction"
  {
    var bs := Fev1Banding.bands;
    assert bs[1..] == [bs[1], bs[2]];
    assert bs[1..][1..] == [bs[2]];
    assert bs[1..][1..][1..] == [];
  }

  lemma Fev1Boundaries()
    ensures Categorize(Fev1Banding, 80.0) == "Normal"
    ensures Categorize(Fev1Banding, 79.9) == "Mild obstruction"
    ensures Categorize(Fev1Banding, 60.0) == "Mild obstruction"
    ensures Categorize(Fev1Banding, 59.9) == "Moderate obstruction"
    ensures Categorize(Fev1Banding, 40.0) == "Moderate obstruction"
    ensures Categorize(Fev1Banding, 39.9) == "Severe obstruction"
  {
    Fev1Tiers(80.0);
    Fev1Tiers(79.9);
    Fev1Tiers(60.0);
    Fev1Tiers(59.9);
    Fev1Tiers(40.0);
    Fev1Tiers(39.9);
  }

  /** The DLCO table: four tiers with lower bounds 75, 60 and 40. */
  lemma DlcoTiers(x: real)
    ensures x >= 75.0 ==> Categorize(DlcoBanding, x) == "Normal"
    ensures 60.0 <= x < 75.0 ==> Categorize(DlcoBanding, x) == "Mild reduction"
    ensures 40.0 <= x < 60.0 ==> Categorize(DlcoBanding, x) == "Moderate reduction"
    ensures x < 40.0 ==> Categorize(DlcoBanding, x) == "Severe reduction"
  {
    var bs := DlcoBanding.bands;
    assert bs[1..] == [bs[1], bs[2]];
    assert bs[1..][1..] == [bs[2]];
    assert bs[1..][1..][1..] == [];
  }

  /** A better FEV1 value never gets a worse category. */
  lemma Fev1Monotone(x: real, y: real)
    requires x <= y
    ensures BandIndex(Fev1Banding.bands, y) <= BandIndex(Fev1Banding.bands, x)
  {
    BandIndexMonotone(Fev1Banding.bands, x, y);
  }

  /** A better DLCO value never gets a worse category. */
  lemma DlcoMonotone(x: real, y: real)
    requires x <= y
    ensures BandIndex(DlcoBanding.bands, y) <= BandIndex(DlcoBanding.bands, x)
  {
    BandIndexMonotone(DlcoBanding.bands, x, y);
  }
}
