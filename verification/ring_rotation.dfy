/**
 The value-to-rotation mapping: the clockwise rotation, in whole degrees, that
 brings a label's segment to 12 o'clock.
 */
module RingRotation {
  import opened Decimal
  import opened GameTypes
  import opened RingConfig
  import opened Arith

  function SegmentCount(t: RingType): nat {
    match t
    case Decade => 9
    case Year => 10
    case Month => 12
  }

  /** Degrees per segment. Every ring's count divides 360, so integers suffice. */
  function SegmentWidth(t: RingType): (w: int)
    ensures w > 0 && w * SegmentCount(t) == 360
    ensures t == Decade ==> w == 40
    ensures t == Year ==> w == 36
    ensures t == Month ==> w == 30
  {
    360 / SegmentCount(t)
  }

  /** The ordered labels of a ring; the year list depends on the decade alone. */
  function Segments(t: RingType, correctDecade: string): (segs: seq<string>)
    ensures |segs| == SegmentCount(t)
    ensures 360 % |segs| == 0 && 360 / |segs| == SegmentWidth(t)
  {
    match t
    case Decade => Decades
    case Year => YearsForDecade(correctDecade)
    case Month => Months
  }

  /** The first position at or after `from` holding `x`, or -1. */
  function IndexFrom(xs: seq<string>, x: string, from: nat): (i: int)
    requires from <= |xs|
    ensures i == -1 || from <= i < |xs|
    ensures i == -1 ==> forall j :: from <= j < |xs| ==> xs[j] != x
    ensures i >= 0 ==> xs[i] == x && forall j :: from <= j < i ==> xs[j] != x
    decreases |xs| - from
  {
    if from == |xs| then -1
    else if xs[from] == x then from
    else IndexFrom(xs, x, from + 1)
  }

  /** `Array.prototype.indexOf`: the first position holding `x`, or -1. */
  function IndexOf(xs: seq<string>, x: string): (i: int)
    ensures -1 <= i < |xs|
    ensures i == -1 <==> x !in xs
    ensures 0 <= i ==> xs[i] == x && x !in xs[..i]
  {
    IndexFrom(xs, x, 0)
  }

  /** In a list without repeats, `indexOf` finds each entry at its own position. */
  lemma IndexOfDistinct(xs: seq<string>, i: int)
    requires forall a, b :: 0 <= a < b < |xs| ==> xs[a] != xs[b]
    requires 0 <= i < |xs|
    ensures IndexOf(xs, xs[i]) == i
  {
  }

  /** Turning segment i of an n-segment ring to the top stays within one clockwise turn. */
  lemma AlignedRotation(n: int, w: int, i: int)
    requires n > 0 && w > 0 && n * w == 360 && 0 <= i < n
    ensures -360 < -(i * w) <= 0
    ensures (-(i * w)) % w == 0 && (i * w) / w == i
  {
    PartialTurn(n, w, i);
    MultipleDiv(i, w);
    MultipleDiv(-i, w);
    assert -i * w == -(i * w);
  }

  /**
   `indexOf` then scale, over any segment list whose length divides 360: minus the
   index times the segment width, or 0 when the label is missing.
   */
  function RotationIn(segs: seq<string>, answer: string): (r: int)
    requires |segs| > 0 && 360 % |segs| == 0
    ensures -360 < r <= 0
    ensures r % (360 / |segs|) == 0
    ensures answer !in segs ==> r == 0
  {
    var i := IndexOf(segs, answer);
    WidthTimesCount(|segs|);
    if i == -1 then 0
    else
      AlignedRotation(|segs|, 360 / |segs|, i);
      -(i * (360 / |segs|))
  }

  /**
   Decoding the rotation (minus it, over the segment width) gives the first
   position holding the label, so the label is what ends up at the top.
   */
  lemma RotationInDecodes(segs: seq<string>, answer: string)
    requires |segs| > 0 && 360 % |segs| == 0
    requires answer in segs
    ensures var k := -RotationIn(segs, answer) / (360 / |segs|);
      0 <= k < |segs| && segs[k] == answer && answer !in segs[..k]
  {
    var i := IndexOf(segs, answer);
    var w := 360 / |segs|;
    WidthTimesCount(|segs|);
    AlignedRotation(|segs|, w, i);
    assert -RotationIn(segs, answer) / w == i;
  }

  /** `calculateRotationToAlignAnswer`: the rotation for a label of the given ring. */
  function RotationToAlign(t: RingType, answer: string, correctDecade: string): (r: int)
    ensures -360 < r <= 0
    ensures r % SegmentWidth(t) == 0
    ensures answer !in Segments(t, correctDecade) ==> r == 0
  {
    RotationIn(Segments(t, correctDecade), answer)
  }

  /** A label on the ring is turned back by its index times the ring's segment width. */
  lemma RotationOfListedLabel(t: RingType, answer: string, correctDecade: string)
    requires answer in Segments(t, correctDecade)
    ensures RotationToAlign(t, answer, correctDecade) == -(IndexOf(Segments(t, correctDecade), answer) * SegmentWidth(t))
  {
    var segs := Segments(t, correctDecade);
    assert 360 / |segs| == SegmentWidth(t);
  }

  /** Decade i sits at -(40 i). */
  lemma DecadeRotations()
    ensures forall i, d :: 0 <= i < |Decades| ==> RotationToAlign(Decade, Decades[i], d) == -40 * i
  {
    DecadesAscendByTen();
    forall i, d | 0 <= i < |Decades|
      ensures RotationToAlign(Decade, Decades[i], d) == -40 * i
    {
      IndexOfDistinct(Decades, i);
    }
  }

  /** Year i of a well-formed decade sits at -(36 i) when that decade is the context. */
  lemma YearRotations(d: string)
    requires DecadeLabel(d)
    ensures forall i :: 0 <= i < 10 ==> RotationToAlign(Year, YearsForDecade(d)[i], d) == -36 * i
  {
    YearsOfDecadeLabel(d);
    forall i | 0 <= i < 10
      ensures RotationToAlign(Year, YearsForDecade(d)[i], d) == -36 * i
    {
      IndexOfDistinct(YearsForDecade(d), i);
    }
  }

  /** Month i sits at -(30 i). */
  lemma MonthRotations()
    ensures forall i, d :: 0 <= i < |Months| ==> RotationToAlign(Month, Months[i], d) == -30 * i
  {
    MonthsAreTheTwelveMonths();
    forall i, d | 0 <= i < |Months|
      ensures RotationToAlign(Month, Months[i], d) == -30 * i
    {
      IndexOfDistinct(Months, i);
    }
  }

  /** Worked decade values. */
  lemma DecadeRotationExamples()
    ensures RotationToAlign(Decade, "1940s", "1940s") == 0
    ensures RotationToAlign(Decade, "1950s", "1950s") == -40
    ensures RotationToAlign(Decade, "1990s", "1990s") == -200
  {
    DecadeRotations();
    assert Decades[0] == "1940s" && Decades[1] == "1950s" && Decades[5] == "1990s";
  }

  /** A decade missing from the ring gives 0, the same as the first decade. */
  lemma MissingDecadeRotation()
    ensures RotationToAlign(Decade, "2030s", "2030s") == 0
  {
    assert "2030s" !in Decades;
  }

  /** Year 5 of a decade given by its four-digit start. */
  lemma FifthYear(decade: string, start: string, year: string, startValue: nat)
    requires |decade| == 5 && decade[..4] == start && |start| == 4 && |year| == 4
    requires IsDigit(start[0]) && IsDigit(start[1]) && IsDigit(start[2]) && start[0] != '0' && start[3] == '0'
    requires IsDigit(year[0]) && year[0] != '0' && IsDigit(year[1]) && IsDigit(year[2]) && IsDigit(year[3])
    requires startValue == 1000 * DigitValue(start[0]) + 100 * DigitValue(start[1]) + 10 * DigitValue(start[2])
    requires 1000 * DigitValue(year[0]) + 100 * DigitValue(year[1]) + 10 * DigitValue(year[2]) + DigitValue(year[3]) == startValue + 5
    ensures DecadeLabel(decade)
    ensures YearsForDecade(decade)[5] == year
  {
    FourDigitNumeral(start, startValue);
    FourDigitNumeral(year, startValue + 5);
    NatToStringOfValue(year);
  }

  /** 1995 is the sixth year of the 1990s. */
  lemma YearRotationExample1995()
    ensures RotationToAlign(Year, "1995", "1990s") == -180
  {
    FifthYear("1990s", "1990", "1995", 1990);
    YearRotations("1990s");
  }

  /** 1985 is the sixth year of the 1980s: the list comes from the context decade. */
  lemma YearRotationExample1985()
    ensures RotationToAlign(Year, "1985", "1980s") == -180
  {
    FifthYear("1980s", "1980", "1985", 1980);
    YearRotations("1980s");
  }

  /** 2000 is not a year of the 1990s, so it gets the fallback 0. */
  lemma YearRotationExampleMissing()
    ensures RotationToAlign(Year, "2000", "1990s") == 0
  {
    FifthYear("1990s", "1990", "1995", 1990);
    YearsOfDecadeLabel("1990s");
    forall i | 0 <= i < 10
      ensures YearsForDecade("1990s")[i] != "2000"
    {
      assert YearsForDecade("1990s")[i][0] == '1';
    }
  }

  /**
   When `parseInt` cannot read the context decade, every year label is "NaN", so
   any answer gets rotation 0: the one matching "NaN" at index 0, the rest by the
   missing-label fallback.
   */
  lemma UnreadableDecadeAlignsYearAtZero(answer: string, correctDecade: string)
    requires !NumericDecade(correctDecade)
    ensures RotationToAlign(Year, answer, correctDecade) == 0
  {
    var segs := Segments(Year, correctDecade);
    if answer in segs {
      assert segs[0] == "NaN" == answer;
      assert IndexOf(segs, answer) == 0;
    }
  }

  /** Worked month values. */
  lemma MonthRotationExamples()
    ensures RotationToAlign(Month, "Aug", "1990s") == -210
    ensures RotationToAlign(Month, "Dec", "1990s") == -330
  {
    MonthRotations();
    assert Months[7] == "Aug" && Months[11] == "Dec";
  }

  /** A label that is not a month gives 0. */
  lemma MissingMonthRotation()
    ensures RotationToAlign(Month, "InvalidMonth", "1990s") == 0
  {
    assert "InvalidMonth" !in Months;
  }
}
