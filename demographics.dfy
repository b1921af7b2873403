/** The synthetic demographics of app.js (generateDemographics): four rings
    around the subject, each drawing its figures from its own noise value. */
module Demographics {
  import opened JsNumbers
  import opened Seed
  import opened Assets
  import opened Comps

  /** A radius profile: its display label and its radius in miles. */
  datatype Ring = Ring(caption: string, miles: real)

  datatype Row = Row(ring: string, populationDensity: int, medianIncome: int, averageIncome: int, households: int)

  /** The four rings, in display order. */
  const RadiusProfiles: seq<Ring> := [
    Ring("2-mile radius", 2.0),
    Ring("5-mile radius", 5.0),
    Ring("10-mile radius", 10.0),
    Ring("20-minute drive-time proxy", 11.7)
  ]

  /** The rings grow outward: 2, 5 and 10 miles, then the 11.7-mile proxy
      for a 20-minute drive, with four different labels. */
  lemma RadiusProfilesOutward()
    ensures |RadiusProfiles| == 4
    ensures forall i :: 0 <= i < |RadiusProfiles| ==> 2.0 <= RadiusProfiles[i].miles <= 11.7
    ensures forall i, j :: 0 <= i < j < |RadiusProfiles| ==>
      RadiusProfiles[i].miles < RadiusProfiles[j].miles && RadiusProfiles[i].caption != RadiusProfiles[j].caption
  {
  }

  /** Math.PI, the double nearest to pi, as its shortest decimal. */
  const Pi: real := 3.141592653589793

  /** hashCode(`${lat.toFixed(4)}|${lng.toFixed(4)}|${assetType}`). */
  function BaseSeed(num: Numerics, subject: Subject, t: AssetType): (seed: int)
    ensures 0 <= seed <= TwoTo31
  {
    HashCodeOf(ToFixed(subject.lat, 4, num.numberToString) + "|" + ToFixed(subject.lng, 4, num.numberToString) + "|" + Name(t))
  }

  /** Math.round(2800 + noise * 4200 - miles * 45): within 4,200 of
      2,800 - 45 per mile. */
  function PopulationDensity(miles: real, noise: Unit01): (d: int)
    ensures 2800.0 - 45.0 * miles - 0.5 < d as real <= 7000.0 - 45.0 * miles + 0.5
  {
    Round(2800.0 + noise * 4200.0 - miles * 45.0)
  }

  /** Math.round(62000 + noise * 70000 + miles * 1500): within 70,000 of
      62,000 + 1,500 per mile. */
  function MedianIncome(miles: real, noise: Unit01): (m: int)
    ensures 62000.0 + 1500.0 * miles - 0.5 < m as real <= 132000.0 + 1500.0 * miles + 0.5
  {
    Round(62000.0 + noise * 70000.0 + miles * 1500.0)
  }

  /** Math.round(median * (1.18 + noise * 0.14)): for a median of at least
      62,000, at least the median plus 18% of 62,000 and at most 1.32 times
      the median. */
  function AverageIncome(median: int, noise: Unit01): (a: int)
    ensures median >= 62000 ==> median + 11160 <= a <= Round(median as real * 1.32)
  {
    var x := median as real * (1.18 + noise * 0.14);
    if median >= 62000 then
      IncomeRatio(median, noise, x);
      RoundOfInteger(median + 11160);
      RoundMonotonic((median + 11160) as real, x);
      RoundMonotonic(x, median as real * 1.32);
      Round(x)
    else Round(x)
  }

  /** Math.round(area * (density / 2.35)) with area = pi * miles^2: never
      negative when the density is not. */
  function Households(miles: real, density: int): (h: int)
    ensures density >= 0 ==> h >= 0
  {
    var area := Pi * miles * miles;
    var x := area * (density as real / 2.35);
    if density >= 0 then
      SquareNonNegative(miles);
      ProductNonNegative(Pi, miles * miles);
      assert area == Pi * (miles * miles);
      assert area >= 0.0 && density as real / 2.35 >= 0.0;
      ProductNonNegative(area, density as real / 2.35);
      RoundMonotonic(0.0, x);
      Round(x)
    else Round(x)
  }

  /** The figures of one ring for its noise value: labelled as the ring,
      with an average income at least 11,160 above the median for any ring,
      and no negative household count within 62 miles. */
  function RowFor(ring: Ring, noise: Unit01): (row: Row)
    ensures row.ring == ring.caption
    ensures ring.miles >= 0.0 ==> row.medianIncome + 11160 <= row.averageIncome
    ensures ring.miles <= 62.0 ==> row.households >= 0
  {
    var popDensity := PopulationDensity(ring.miles, noise);
    var medianIncome := MedianIncome(ring.miles, noise);
    Row(ring.caption, popDensity, medianIncome, AverageIncome(medianIncome, noise), Households(ring.miles, popDensity))
  }

  /** radiusProfiles.map((ring, i) => ...): one row per ring, in order, row
      i drawing its noise from the seed baseSeed + 11 * i. */
  function RingRows(rings: seq<Ring>, seeded: int -> Unit01, baseSeed: int): (rows: seq<Row>)
    ensures |rows| == |rings|
    ensures forall i :: 0 <= i < |rows| ==> rows[i] == RowFor(rings[i], seeded(baseSeed + i * 11))
  {
    seq(|rings|, i requires 0 <= i < |rings| => RowFor(rings[i], seeded(baseSeed + i * 11)))
  }

  /** generateDemographics: exactly four rows, labelled as the rings are and
      in their order. */
  function GenerateDemographics(num: Numerics, subject: Subject, t: AssetType): (rows: seq<Row>)
    ensures |rows| == 4
    ensures rows[0].ring == "2-mile radius" && rows[1].ring == "5-mile radius"
    ensures rows[2].ring == "10-mile radius" && rows[3].ring == "20-minute drive-time proxy"
  {
    RingRows(RadiusProfiles, num.seeded, BaseSeed(num, subject, t))
  }

  /** Each row reads one noise value, and no two rows read the same seed, so
      two generators that agree on row i's seed agree on row i. */
  lemma RowReadsOwnSeed(num1: Numerics, num2: Numerics, subject: Subject, t: AssetType, i: nat)
    requires i < 4
    requires BaseSeed(num1, subject, t) == BaseSeed(num2, subject, t)
    requires num1.seeded(BaseSeed(num1, subject, t) + i * 11) == num2.seeded(BaseSeed(num2, subject, t) + i * 11)
    ensures GenerateDemographics(num1, subject, t)[i] == GenerateDemographics(num2, subject, t)[i]
  {
    RowUsesItsSeed(num1, subject, t, i);
    RowUsesItsSeed(num2, subject, t, i);
  }

  /** Row i of generateDemographics is ring i's figures for the noise of the
      base seed plus 11 * i. */
  lemma RowUsesItsSeed(num: Numerics, subject: Subject, t: AssetType, i: nat)
    requires i < 4
    ensures GenerateDemographics(num, subject, t)[i] == RowFor(RadiusProfiles[i], num.seeded(BaseSeed(num, subject, t) + i * 11))
  {
  }

  /** The rows depend on the location only through its coordinates printed
      to four decimals. */
  lemma RowsFollowPrintedLocation(num: Numerics, s1: Subject, s2: Subject, t: AssetType)
    requires ToFixed(s1.lat, 4, num.numberToString) == ToFixed(s2.lat, 4, num.numberToString)
    requires ToFixed(s1.lng, 4, num.numberToString) == ToFixed(s2.lng, 4, num.numberToString)
    ensures GenerateDemographics(num, s1, t) == GenerateDemographics(num, s2, t)
  {
    assert BaseSeed(num, s1, t) == BaseSeed(num, s2, t);
  }

  lemma ProductNonNegative(a: real, b: real)
    requires a >= 0.0 && b >= 0.0
    ensures a * b >= 0.0
  {
  }

  lemma SquareNonNegative(a: real)
    ensures a * a >= 0.0
  {
    if a < 0.0 {
      assert a * a == (-a) * (-a);
      ProductNonNegative(-a, -a);
    } else {
      ProductNonNegative(a, a);
    }
  }

  lemma IncomeRatio(m: int, noise: real, x: real)
    requires m >= 62000 && 0.0 <= noise < 1.0
    requires x == m as real * (1.18 + noise * 0.14)
    ensures (m + 11160) as real <= x <= m as real * 1.32
  {
    var mn := m as real * noise;
    assert x == m as real * 1.18 + mn * 0.14;
    assert 0.0 <= mn <= m as real;
  }

  /** Every generated row keeps to its ring's ranges: density within 4,200 of
      2,800 - 45 per mile, an average income at least 11,160 above the
      median, and a non-negative household count. */
  lemma DemographicsRanges(num: Numerics, subject: Subject, t: AssetType, i: nat)
    requires i < 4
    ensures var row := GenerateDemographics(num, subject, t)[i];
      var miles := RadiusProfiles[i].miles;
      && 2800.0 - 45.0 * miles - 0.5 < row.populationDensity as real <= 7000.0 - 45.0 * miles + 0.5
      && 62000.0 + 1500.0 * miles - 0.5 < row.medianIncome as real <= 132000.0 + 1500.0 * miles + 0.5
      && row.medianIncome + 11160 <= row.averageIncome
      && row.households >= 0
  {
    var miles := RadiusProfiles[i].miles;
    assert 2.0 <= miles <= 11.7;
  }
}
