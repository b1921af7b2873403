/** The market statistics of app.js (buildMarketStats): averages over the
    comps with fixed fallbacks for an empty list, a vacancy rate clamped from
    below, and a net absorption that grows with the number of comps. */
module MarketStats {
  import opened JsNumbers
  import opened Assets
  import opened Comps

  datatype Stats = Stats(vacancyRate: real, netAbsorption: int, avgAskingRent: real)

  function Rent(c: Comp): real {
    c.askRent
  }

  function Year(c: Comp): real {
    c.yearBuilt as real
  }

  /** comps.reduce((sum, c) => sum + f(c), 0): a left fold from 0. */
  function SumOf(comps: seq<Comp>, f: Comp -> real): real {
    if comps == [] then 0.0 else SumOf(comps[..|comps| - 1], f) + f(comps[|comps| - 1])
  }

  /** The average of f over comps, or fallback when there are none. */
  function MeanOr(comps: seq<Comp>, f: Comp -> real, fallback: real): real {
    if |comps| > 0 then SumOf(comps, f) / |comps| as real else fallback
  }

  /** Math.max of two numbers: the larger one. */
  function Max(a: real, b: real): (m: real)
    ensures m >= a && m >= b
    ensures m == a || m == b
  {
    if a >= b then a else b
  }

  /** The vacancy rate for a baseline and the average distance and year. */
  function VacancyRate(vacancyBase: real, avgDist: real, avgYear: real): (v: real)
    ensures v >= 0.02
    ensures v >= vacancyBase + (avgDist - 2.5) * 0.007 - (avgYear - 2000.0) * 0.0003
    ensures v == 0.02 || v == vacancyBase + (avgDist - 2.5) * 0.007 - (avgYear - 2000.0) * 0.0003
  {
    Max(0.02, vacancyBase + (avgDist - 2.5) * 0.007 - (avgYear - 2000.0) * 0.0003)
  }

  function NetAbsorption(count: nat, absorptionFactor: real): int {
    Round((120000 + count * 4600) as real * absorptionFactor)
  }

  /** buildMarketStats. The vacancy rate is never below 2%; with no comps the
      averages fall back to the profile's rent, a year of 2000 and a distance
      of 2.8 miles, so the vacancy rate is the baseline plus 0.21 points. */
  function BuildMarketStats(comps: seq<Comp>, t: AssetType): (s: Stats)
    ensures s.vacancyRate >= 0.02
    ensures comps == [] ==>
      s.avgAskingRent == ProfileOf(t).rentBase && s.vacancyRate == ProfileOf(t).vacancyBase + 0.0021
  {
    var profile := ProfileOf(t);
    var avgRent := MeanOr(comps, Rent, profile.rentBase);
    var avgYear := MeanOr(comps, Year, 2000.0);
    var avgDist := MeanOr(comps, Distance, 2.8);
    Stats(VacancyRate(profile.vacancyBase, avgDist, avgYear),
          NetAbsorption(|comps|, profile.absorptionFactor),
          avgRent)
  }

  /** A left fold of values in [lo, hi] lies in [n * lo, n * hi]. */
  lemma {:induction false} SumBounds(comps: seq<Comp>, f: Comp -> real, lo: real, hi: real)
    requires forall c :: c in comps ==> lo <= f(c) <= hi
    ensures |comps| as real * lo <= SumOf(comps, f) <= |comps| as real * hi
  {
    if comps != [] {
      var init, last := comps[..|comps| - 1], comps[|comps| - 1];
      assert forall c :: c in init ==> c in comps;
      SumBounds(init, f, lo, hi);
      assert last in comps;
      StepBounds(|init| as real, SumOf(init, f), f(last), lo, hi);
    }
  }

  lemma StepBounds(n: real, sum: real, x: real, lo: real, hi: real)
    requires n * lo <= sum <= n * hi && lo <= x <= hi
    ensures (n + 1.0) * lo <= sum + x <= (n + 1.0) * hi
  {
  }

  lemma QuotientBounds(s: real, n: real, lo: real, hi: real)
    requires n > 0.0 && n * lo <= s <= n * hi
    ensures lo <= s / n <= hi
  {
    assert s / n * n == s;
  }

  /** An average of values in [lo, hi] lies in [lo, hi]. */
  lemma MeanBounds(comps: seq<Comp>, f: Comp -> real, fallback: real, lo: real, hi: real)
    requires comps != []
    requires forall c :: c in comps ==> lo <= f(c) <= hi
    ensures lo <= MeanOr(comps, f, fallback) <= hi
  {
    SumBounds(comps, f, lo, hi);
    QuotientBounds(SumOf(comps, f), |comps| as real, lo, hi);
  }

  /** The net absorption depends on the comps only through their number. */
  lemma AbsorptionDependsOnlyOnCount(a: seq<Comp>, b: seq<Comp>, t: AssetType)
    requires |a| == |b|
    ensures BuildMarketStats(a, t).netAbsorption == BuildMarketStats(b, t).netAbsorption
  {
  }

  /** More comps never mean less absorption: each adds 4,600 SF scaled by a
      positive factor. */
  lemma AbsorptionMonotone(a: seq<Comp>, b: seq<Comp>, t: AssetType)
    requires |a| <= |b|
    ensures BuildMarketStats(a, t).netAbsorption <= BuildMarketStats(b, t).netAbsorption
  {
    var k := ProfileOf(t).absorptionFactor;
    var x, y := (120000 + |a| * 4600) as real, (120000 + |b| * 4600) as real;
    assert x * k <= y * k;
    RoundMonotonic(x * k, y * k);
  }

  /** With no comps, absorption is the base 120,000 SF scaled by the
      profile's factor. */
  lemma AbsorptionOfNoComps(t: AssetType)
    ensures BuildMarketStats([], t).netAbsorption == Round(120000.0 * ProfileOf(t).absorptionFactor)
  {
  }

  /** On the output of buildComps the statistics stay in the ranges the comps
      are drawn from: the average rent is within the profile's 75%-125% band
      (up to the cent rounding of each rent), and, since every comp is within
      5 miles and built in 1970 or later, the vacancy rate is at most the
      baseline plus 2.65 points. */
  lemma StatsOfBuiltComps(num: Seed.Numerics, subject: Subject, t: AssetType, subjectSF: real, filters: Filters, raw: seq<Point>)
    ensures var comps := BuildComps(num, subject, t, subjectSF, filters, raw);
      var s := BuildMarketStats(comps, t);
      && 0.02 <= s.vacancyRate <= ProfileOf(t).vacancyBase + 0.0265
      && 0.75 * ProfileOf(t).rentBase - 0.005 <= s.avgAskingRent <= 1.25 * ProfileOf(t).rentBase + 0.005
  {
    var comps := BuildComps(num, subject, t, subjectSF, filters, raw);
    var base := ProfileOf(t).vacancyBase;
    var rb := ProfileOf(t).rentBase;
    if comps != [] {
      forall c | c in comps
        ensures c.distance <= 5.0 && 1970.0 <= Year(c) <= 2025.0
        ensures 0.75 * rb - 0.005 <= Rent(c) <= 1.25 * rb + 0.005
      {
        var i :| 0 <= i < |comps| && comps[i] == c;
        MakeCompFields(num, subject, t, c.id, raw[c.id]);
      }
      MeanBounds(comps, Year, 2000.0, 1970.0, 2025.0);
      MeanBounds(comps, Rent, rb, 0.75 * rb - 0.005, 1.25 * rb + 0.005);
      DistanceMeanAtMost(comps, 5.0);
    }
  }

  /** The least value of f over a non-empty list, a proof helper: it is the
      value of one of the comps and no comp's value is below it. */
  function LeastOf(comps: seq<Comp>, f: Comp -> real): (m: real)
    requires comps != []
    ensures forall c :: c in comps ==> m <= f(c)
    ensures exists c :: c in comps && m == f(c)
  {
    if |comps| == 1 then f(comps[0])
    else
      var rest := LeastOf(comps[1..], f);
      assert forall c :: c in comps ==> c == comps[0] || c in comps[1..];
      if f(comps[0]) <= rest then f(comps[0]) else rest
  }

  lemma DistanceMeanAtMost(comps: seq<Comp>, hi: real)
    requires comps != []
    requires forall c :: c in comps ==> c.distance <= hi
    ensures MeanOr(comps, Distance, 2.8) <= hi
  {
    MeanBounds(comps, Distance, 2.8, LeastOf(comps, Distance), hi);
  }
}
