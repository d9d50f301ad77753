/**
 The segment labels of the three rings: nine decades, the ten years of a
 decade, and twelve months.
 */
module RingConfig {
  import opened Decimal
  import Wrappers

  const Decades: seq<string> :=
    ["1940s", "1950s", "1960s", "1970s", "1980s", "1990s", "2000s", "2010s", "2020s"]

  const Months: seq<string> :=
    ["Jan", "Feb", "Mar", "Apr", "May", "Jun", "Jul", "Aug", "Sep", "Oct", "Nov", "Dec"]

  function Min(a: int, b: int): int {
    if a <= b then a else b
  }

  /** `slice(0, 4)`: the first four characters, or the whole label when it is shorter. */
  function FirstFour(s: string): string {
    s[..Min(4, |s|)]
  }

  /** A decade label whose first four characters `parseInt` reads as a number rather than `NaN`. */
  predicate NumericDecade(decade: string) {
    ParseInt(FirstFour(decade)).Some?
  }

  /** `parseInt(decade.slice(0, 4))`: the first year of the decade a label names. */
  function DecadeStart(decade: string): (start: nat)
    requires NumericDecade(decade)
    ensures start < 10000
    ensures |decade| >= 4 && AllDigits(decade[..4]) ==> start == ValueOf(decade[..4])
    ensures |decade| >= 4 && HexPrefixed(decade) && AllHexDigits(decade[2..4]) ==> start == HexValueOf(decade[2..4])
  {
    ParseIntOfFirstFour(decade);
    ParseInt(FirstFour(decade)).value
  }

  /** What `parseInt` makes of four decimal digits, or of "0x" and two hexadecimal digits. */
  lemma ParseIntOfFirstFour(decade: string)
    requires NumericDecade(decade)
    ensures ParseInt(FirstFour(decade)).value < 10000
    ensures |decade| >= 4 && AllDigits(decade[..4]) ==> ParseInt(FirstFour(decade)).value == ValueOf(decade[..4])
    ensures |decade| >= 4 && HexPrefixed(decade) && AllHexDigits(decade[2..4]) ==>
      ParseInt(FirstFour(decade)).value == HexValueOf(decade[2..4])
  {
    var p := FirstFour(decade);
    ParseIntOfShort(p);
    if |decade| >= 4 && AllDigits(p) {
      ParseIntReadsDecimal(p, []);
      assert p + [] == p;
    }
    if |decade| >= 4 && HexPrefixed(decade) && AllHexDigits(decade[2..4]) {
      assert p == ['0', decade[1]] + decade[2..4] + [];
      ParseIntReadsHex(decade[1], decade[2..4], []);
    }
  }

  /**
   The ten year labels of a decade, in order, starting at the decade's first year.
   For a decade `parseInt` cannot read, every sum is `NaN` and prints as "NaN".
   */
  function YearsForDecade(decade: string): (years: seq<string>)
    ensures |years| == 10
    ensures NumericDecade(decade) ==>
      forall i :: 0 <= i < 10 ==> Canonical(years[i]) && ValueOf(years[i]) == DecadeStart(decade) + i
    ensures !NumericDecade(decade) ==> forall i :: 0 <= i < 10 ==> years[i] == "NaN"
  {
    if !NumericDecade(decade) then seq(10, i => "NaN")
    else
      var start := DecadeStart(decade);
      var years := seq(10, i requires 0 <= i < 10 => NatToString(start + i));
      assert forall i :: 0 <= i < 10 ==> Canonical(years[i]) && ValueOf(years[i]) == start + i by {
        forall i | 0 <= i < 10
          ensures Canonical(years[i]) && ValueOf(years[i]) == start + i
        {
          assert years[i] == NatToString(start + i);
          ValueOfNatToString(start + i);
        }
      }
      years
  }

  /**
   A well-formed decade label: four digits, the first not zero and the last zero,
   possibly followed by more characters (the "s" of "1990s").
   */
  predicate DecadeLabel(d: string) {
    |d| >= 4 && AllDigits(d[..4]) && d[0] != '0' && d[3] == '0'
  }

  /** Every listed decade is well formed; they run from 1940 upwards in steps of ten. */
  lemma DecadesAscendByTen()
    ensures |Decades| == 9
    ensures forall i :: 0 <= i < |Decades| ==> DecadeLabel(Decades[i]) && NumericDecade(Decades[i])
    ensures DecadeStart(Decades[0]) == 1940
    ensures forall i :: 0 <= i < |Decades| - 1 ==>
      DecadeStart(Decades[i + 1]) == DecadeStart(Decades[i]) + 10
    ensures forall i, j :: 0 <= i < j < |Decades| ==> Decades[i] != Decades[j]
  {
    forall i | 0 <= i < |Decades|
      ensures DecadeLabel(Decades[i]) && NumericDecade(Decades[i]) && DecadeStart(Decades[i]) == 1940 + 10 * i
    {
      DecadeAt(i);
    }
    forall i, j | 0 <= i < j < |Decades|
      ensures Decades[i] != Decades[j]
    {
      DecadeAt(i);
      DecadeAt(j);
    }
  }

  /** Listed decade i is well formed and starts at 1940 + 10 i. */
  lemma DecadeAt(i: int)
    requires 0 <= i < |Decades|
    ensures DecadeLabel(Decades[i]) && NumericDecade(Decades[i]) && DecadeStart(Decades[i]) == 1940 + 10 * i
  {
    DecadeLabelIsNumeric(Decades[i]);
    var d := Decades[i];
    var p := d[..4];
    assert p == [d[0], d[1], d[2], d[3]];
    ValueOfFourDigits(d[0], d[1], d[2], d[3]);
  }

  /** The months in calendar order, each listed once. */
  lemma MonthsAreTheTwelveMonths()
    ensures |Months| == 12
    ensures Months[0] == "Jan" && Months[7] == "Aug" && Months[11] == "Dec"
    ensures forall i, j :: 0 <= i < j < |Months| ==> Months[i] != Months[j]
  {
  }

  /**
   The years of a well-formed decade share its first three digits and differ in the
   last one, so each is listed once and `indexOf` finds a unique position.
   */
  lemma YearsOfDecadeLabel(d: string)
    requires DecadeLabel(d)
    ensures forall i :: 0 <= i < 10 ==> YearsForDecade(d)[i] == d[..3] + [DigitChar(i)]
    ensures forall i, j :: 0 <= i < j < 10 ==> YearsForDecade(d)[i] != YearsForDecade(d)[j]
  {
    forall i | 0 <= i < 10
      ensures YearsForDecade(d)[i] == d[..3] + [DigitChar(i)]
    {
      YearOfDecadeLabel(d, i);
    }
    forall i, j | 0 <= i < j < 10
      ensures YearsForDecade(d)[i] != YearsForDecade(d)[j]
    {
      assert YearsForDecade(d)[i][3] == DigitChar(i);
      assert YearsForDecade(d)[j][3] == DigitChar(j);
    }
  }

  /** Year i of a well-formed decade is the decade's first three digits followed by digit i. */
  lemma YearOfDecadeLabel(d: string, i: int)
    requires DecadeLabel(d) && 0 <= i < 10
    ensures YearsForDecade(d)[i] == d[..3] + [DigitChar(i)]
  {
    var p := d[..3];
    DecadeLabelPrefix(d);
    NatToStringOfValue(p);
    AppendDigit(ValueOf(p), i);
  }

  /** A well-formed decade starts at ten times the canonical numeral of its first three digits. */
  lemma DecadeLabelPrefix(d: string)
    requires DecadeLabel(d)
    ensures Canonical(d[..3]) && ValueOf(d[..3]) >= 1
    ensures NumericDecade(d) && DecadeStart(d) == 10 * ValueOf(d[..3])
  {
    var p := d[..3];
    assert d[..4] == p + [d[3]];
    assert Canonical(p) by {
      assert forall i :: 0 <= i < 3 ==> p[i] == d[..4][i];
    }
    ValueOfSnoc(p, d[3]);
    ValueOfAtLeastFirstDigit(p);
    DecadeLabelIsNumeric(d);
  }

  /** A well-formed decade starts on a multiple of ten. */
  lemma DecadeStartIsRound(d: string)
    requires DecadeLabel(d)
    ensures DecadeStart(d) % 10 == 0
  {
    var p := d[..3];
    assert d[..4] == p + [d[3]];
    ValueOfSnoc(p, d[3]);
  }

  /** Year i of a decade parses back to the decade's start plus i. */
  lemma ParseYearOfDecade(d: string, i: int)
    requires NumericDecade(d) && 0 <= i < 10
    ensures ParseInt(YearsForDecade(d)[i]) == Wrappers.Some(DecadeStart(d) + i)
  {
    ParseIntOfCanonical(YearsForDecade(d)[i]);
  }

  /** A well-formed decade label is one `parseInt` reads as a number. */
  lemma DecadeLabelIsNumeric(d: string)
    requires DecadeLabel(d)
    ensures NumericDecade(d)
  {
    assert FirstFour(d) == d[..4];
  }
}
