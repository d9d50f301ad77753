/**
 The fixtures the game's tests start from, and worked runs of the reducer on
 them, including the places where the reducer's behaviour is easy to misread.
 */
module Scenarios {
  import opened Decimal
  import opened GameTypes
  import opened RingConfig
  import opened GameReducer
  import opened InitialState
  import opened Reachability
  import opened RingRotation
  import Wrappers

  /** The development puzzle: 15 August 1995. */
  const MockGame: DailyGame :=
    var headlines := [
      "/assets/headlines/1995-08/1995-08_1.mp3",
      "/assets/headlines/1995-08/1995-08_2.mp3",
      "/assets/headlines/1995-08/1995-08_3.mp3"];
    assert |headlines| == 3;
    DailyGame("1995-08-15", Answer("1990s", "1995", "Aug"), headlines, "Radio 4")

  /**
   The development puzzle's answer is on the dial: each label is one of its ring's
   segments, aligned by the rotations -200, -180 and -210.
   */
  lemma MockGameIsOnTheDial()
    ensures MockGame.answer.decade in Decades && RotationToAlign(Decade, MockGame.answer.decade, "1990s") == -200
    ensures MockGame.answer.year in YearsForDecade(MockGame.answer.decade)
    ensures RotationToAlign(Year, MockGame.answer.year, MockGame.answer.decade) == -180
    ensures MockGame.answer.month in Months && RotationToAlign(Month, MockGame.answer.month, "1990s") == -210
  {
    assert Decades[5] == "1990s" && Months[7] == "Aug";
    DecadeRotationExamples();
    FifthYear("1990s", "1990", "1995", 1990);
    YearRotationExample1995();
    MonthRotationExamples();
  }

  /** A ring state with the test defaults: unlocked, uncoloured, no flash, no guesses. */
  function TestRing(selectedValue: string): (rs: RingState)
    ensures rs == FreshRing(selectedValue)
  {
    RingState(false, None, selectedValue, false, [])
  }

  /**
   The base test state with its two headline counters overridden: nothing
   solved or guessed, the decade ring current, not started. It is within the
   headline budget exactly when the counters are.
   */
  function MockState(headlinesHeard: int, currentHeadlineIndex: int): (s: GameState)
    ensures s.headlinesHeard == headlinesHeard && s.currentHeadlineIndex == currentHeadlineIndex
    ensures s.currentRing == Decade && s.gameStatus == NotStarted
    ensures forall t :: !s.ringStates.Get(t).isLocked && s.ringStates.Get(t).incorrectGuesses == []
    ensures HeadlineBudget(s) <==>
      0 <= headlinesHeard <= 3 && headlinesHeard <= currentHeadlineIndex + 1 && 0 <= currentHeadlineIndex &&
      (headlinesHeard == 3 ==> currentHeadlineIndex == 2)
  {
    GameState(
      "2025-01-01",
      Answer("1990s", "1995", "Jul-Sep"),
      ["/audio1.mp3", "/audio2.mp3", "/audio3.mp3"],
      "Radio 4",
      Decade, headlinesHeard, currentHeadlineIndex,
      Rings(TestRing("1940s"), TestRing("1940"), TestRing("Jan-Mar")),
      NotStarted)
  }

  /** The decade already solved with the given medal after one headline; the year ring is current. */
  function StateWithDecadeLocked(color: RingColor): (s: GameState)
    ensures s.ringStates.decade.isLocked && s.ringStates.decade.color == color
    ensures !s.ringStates.year.isLocked && !s.ringStates.month.isLocked
    ensures Wrappers.Some(s.currentRing) == NextRing(Decade) && s.gameStatus == Playing
    ensures HeadlineBudget(s) && s.headlinesHeard == 1
  {
    MockState(1, 0).(
      currentRing := Year,
      ringStates := Rings(TestRing("1990s").(isLocked := true, color := color), TestRing("1940"), TestRing("Jan-Mar")),
      gameStatus := Playing)
  }

  /**
   Decade and year already solved after two headlines; the month ring is current
   and the locked year lies in the locked decade. The headline index is left at
   the first headline, so this fixture breaks the headline budget: no run of the
   reducer from a state within the budget reaches it.
   */
  function StateWithYearLocked(decadeColor: RingColor, yearColor: RingColor): (s: GameState)
    ensures s.ringStates.decade.isLocked && s.ringStates.decade.color == decadeColor
    ensures s.ringStates.year.isLocked && s.ringStates.year.color == yearColor
    ensures !s.ringStates.month.isLocked
    ensures s.ringStates.year.selectedValue in YearsForDecade(s.ringStates.decade.selectedValue)
    ensures Wrappers.Some(s.currentRing) == NextRing(Year) && s.gameStatus == Playing
    ensures !HeadlineBudget(s) && s.headlinesHeard == 2
  {
    FifthYear("1990s", "1990", "1995", 1990);
    MockState(2, 0).(
      currentRing := Month,
      ringStates := Rings(
        TestRing("1990s").(isLocked := true, color := decadeColor),
        TestRing("1995").(isLocked := true, color := yearColor),
        TestRing("Jan")),
      gameStatus := Playing)
  }

  /** All three headlines heard and two wrong decades tried: the next miss loses. */
  function StateWithThreeHeadlinesHeard(): (s: GameState)
    ensures HeadlineBudget(s) && s.headlinesHeard == 3
    ensures forall g :: Step(s, SubmitGuess(Decade, g, false)).gameStatus == Lost
    ensures s.ringStates.decade.incorrectGuesses == ["1950s", "1960s"] && !s.ringStates.decade.isLocked
  {
    MockState(3, 2).(
      ringStates := Rings(TestRing("1940s").(incorrectGuesses := ["1950s", "1960s"]), TestRing("1940"), TestRing("Jan-Mar")),
      gameStatus := Playing)
  }

  /** The medal for a correct decade depends only on how many headlines were heard. */
  lemma CorrectDecadeMedals()
    ensures Step(MockState(1, 0), SubmitGuess(Decade, "1990s", true)).ringStates.decade.color == Gold
    ensures Step(MockState(2, 1), SubmitGuess(Decade, "1990s", true)).ringStates.decade.color == Silver
    ensures Step(MockState(3, 2), SubmitGuess(Decade, "1990s", true)).ringStates.decade.color == Bronze
    ensures Step(MockState(0, 0), SubmitGuess(Decade, "1990s", true)).ringStates.decade.color == None
    ensures Step(MockState(1, 0), SubmitGuess(Decade, "1990s", true)).currentRing == Year
  {
  }

  /** Solving the month after the other two wins, and keeps the earlier medals. */
  lemma MonthSolvesTheGame()
    ensures var r := Step(StateWithYearLocked(Gold, Silver), SubmitGuess(Month, "Jul-Sep", true));
      && r.gameStatus == Won && r.currentRing == Month
      && r.ringStates.decade.color == Gold && r.ringStates.year.color == Silver && r.ringStates.month.color == Silver
      && r.ringStates.month.isLocked
  {
  }

  /** A correct year guess moves play to the month ring. */
  lemma YearLeadsToMonth()
    ensures var r := Step(StateWithDecadeLocked(Gold), SubmitGuess(Year, "1995", true));
      && r.currentRing == Month && r.ringStates.year.isLocked && r.ringStates.year.color == Gold
      && r.gameStatus == Playing
  {
  }

  /**
   A wrong guess records the guess and moves to the next headline, but does not
   count a headline as heard: only playing it does.
   */
  lemma WrongGuessDoesNotCountHeadline()
    ensures var r := Step(MockState(1, 0), SubmitGuess(Decade, "1980s", false));
      && r.headlinesHeard == 1 && r.currentHeadlineIndex == 1
      && r.ringStates.decade.incorrectGuesses == ["1980s"] && r.ringStates.decade.showIncorrectFlash
      && r.gameStatus == NotStarted
  {
  }

  /** A wrong guess after the third headline loses and reveals the answer. */
  lemma ThirdMissLoses()
    ensures var r := Step(StateWithThreeHeadlinesHeard(), SubmitGuess(Decade, "1970s", false));
      && r.gameStatus == Lost && r.headlinesHeard == 3
      && r.ringStates.decade.incorrectGuesses == ["1950s", "1960s", "1970s"]
      && r.ringStates.decade.selectedValue == "1990s" && r.ringStates.year.selectedValue == "1995"
      && r.ringStates.month.selectedValue == "Jul-Sep"
      && r.ringStates.decade.color == Red && r.ringStates.year.color == Red && r.ringStates.month.color == Red
      && r.ringStates.decade.isLocked && r.ringStates.year.isLocked && r.ringStates.month.isLocked
  {
  }

  /** A loss keeps the medal already earned and turns only the unsolved rings red. */
  lemma LossKeepsEarnedMedal()
    ensures var r := Step(StateWithDecadeLocked(Gold).(headlinesHeard := 3, currentHeadlineIndex := 2), SubmitGuess(Year, "1985", false));
      && r.gameStatus == Lost
      && r.ringStates.decade.color == Gold && r.ringStates.year.color == Red && r.ringStates.month.color == Red
      && r.ringStates.decade.isLocked && r.ringStates.year.isLocked && r.ringStates.month.isLocked
      && r.ringStates.year.incorrectGuesses == ["1985"]
  {
  }

  /** A new day: play the first headline, then solve the decade with a gold medal. */
  lemma FirstHeadlineSolvesDecade()
    ensures var r := Run(CreateInitialState(MockGame), [PlayHeadline, SubmitGuess(Decade, "1990s", true)]);
      && r.headlinesHeard == 1 && r.gameStatus == Playing && r.currentRing == Year
      && r.ringStates.decade.isLocked && r.ringStates.decade.color == Gold
  {
    var acts := [PlayHeadline, SubmitGuess(Decade, "1990s", true)];
    var s0 := CreateInitialState(MockGame);
    var s1 := Step(s0, PlayHeadline);
    assert s1.headlinesHeard == 1 && s1.gameStatus == Playing && s1.currentRing == Decade;
    assert Run(s0, acts) == Run(s1, acts[1..]);
    assert acts[1..][1..] == [];
    assert Run(s0, acts) == CorrectGuess(s1, Decade, "1990s");
  }

  /** Replaying the current headline does not count it twice. */
  lemma ReplayDoesNotCount()
    ensures var r := Step(Step(MockState(0, 0), PlayHeadline), PlayHeadline);
      r.headlinesHeard == 1 && r.gameStatus == Playing
  {
  }

  /** Skipping ahead stops at the third headline. */
  lemma SkipStopsAtLastHeadline()
    ensures Step(Step(Step(MockState(0, 0), NextHeadline), NextHeadline), NextHeadline).currentHeadlineIndex == 2
  {
  }

  /**
   Guessing wrongly without listening never loses, and pushes the headline
   index past the last headline: the reducer itself does not keep the index
   within 0..2.
   */
  lemma BlindGuessesPassLastHeadline()
    ensures var acts := [SubmitGuess(Decade, "1950s", false), SubmitGuess(Decade, "1960s", false), SubmitGuess(Decade, "1970s", false)];
      var r := Run(CreateInitialState(MockGame), acts);
      && r.currentHeadlineIndex == 3 && r.headlinesHeard == 0 && r.gameStatus == NotStarted
  {
    var acts := [SubmitGuess(Decade, "1950s", false), SubmitGuess(Decade, "1960s", false), SubmitGuess(Decade, "1970s", false)];
    var s0 := CreateInitialState(MockGame);
    assert Run(s0, acts) == Run(Step(s0, acts[0]), acts[1..]);
    assert acts[1..][1..] == [acts[2]];
  }

  /** The reducer does not protect a finished game: a late wrong guess turns a win into a loss. */
  lemma WonGameCanStillBeLost()
    ensures Step(MockState(3, 2).(gameStatus := Won), SubmitGuess(Month, "Jan", false)).gameStatus == Lost
  {
  }

  /** The year the decade-to-year rewrite writes, read off from the numbers involved. */
  lemma ShiftedYearIs(decade: string, year: string, result: string)
    requires NumericDecade(decade) && ParseInt(year).Some? && Canonical(result)
    requires ValueOf(result) == DecadeStart(decade) + ParseInt(year).value % 10
    ensures ShiftedYear(decade, year) == result
  {
    NatToStringOfValue(result);
  }

  /**
   Turning the decade ring carries the year's last digit into the new decade:
   1945 becomes 1995 when the decade turns to the 1990s.
   */
  lemma DecadeTurnCarriesYear()
    ensures Step(MockState(0, 0).(ringStates := Rings(TestRing("1940s"), TestRing("1945"), TestRing("Jan"))),
                 SetRingValue(Decade, "1990s")).ringStates.year.selectedValue == "1995"
  {
    assert "1990s"[..4] == "1990";
    FourDigitNumeral("1990", 1990);
    FourDigitNumeral("1945", 1945);
    FourDigitNumeral("1995", 1995);
    ShiftedYearIs("1990s", "1945", "1995");
  }

  /** A locked year is left alone when the decade is turned. */
  lemma LockedYearIgnoresDecadeTurn()
    ensures Step(StateWithYearLocked(Gold, Silver).(ringStates := StateWithYearLocked(Gold, Silver).ringStates.(decade := TestRing("1990s"))),
                 SetRingValue(Decade, "1980s")).ringStates.year.selectedValue == "1995"
  {
  }

  /**
   A correct decade guess rewrites the year even when the year ring is locked,
   unlike turning the decade ring: 1995 becomes 1985 on a correct 1980s guess.
   */
  lemma CorrectDecadeRewritesLockedYear()
    ensures Step(StateWithYearLocked(Gold, Silver).(ringStates := StateWithYearLocked(Gold, Silver).ringStates.(decade := TestRing("1980s"))),
                 SubmitGuess(Decade, "1980s", true)).ringStates.year.selectedValue == "1985"
  {
    var s := StateWithYearLocked(Gold, Silver).(ringStates := StateWithYearLocked(Gold, Silver).ringStates.(decade := TestRing("1980s")));
    assert s.ringStates.year.selectedValue == "1995";
    CorrectDecadeRewritesYear(s, "1980s");
    EightiesShiftYear();
  }

  /** A correct decade guess rewrites the year through ShiftedYear, locked or not. */
  lemma CorrectDecadeRewritesYear(s: GameState, value: string)
    ensures Step(s, SubmitGuess(Decade, value, true)).ringStates.year.selectedValue ==
      ShiftedYear(value, s.ringStates.year.selectedValue)
  {
    assert Step(s, SubmitGuess(Decade, value, true)) == CorrectGuess(s, Decade, value);
  }

  /** The 1980s move year 1995 to 1985. */
  lemma EightiesShiftYear()
    ensures ShiftedYear("1980s", "1995") == "1985"
  {
    assert "1980s"[..4] == "1980";
    FourDigitNumeral("1980", 1980);
    FourDigitNumeral("1995", 1995);
    FourDigitNumeral("1985", 1985);
    ShiftedYearIs("1980s", "1995", "1985");
  }

  /** Turning the decade to a label that does not start with a digit writes "NaN" into the year. */
  lemma NonNumericDecadeWritesNaN()
    ensures Step(MockState(0, 0), SetRingValue(Decade, "abc")).ringStates.year.selectedValue == "NaN"
  {
    assert FirstFour("abc") == "abc";
  }

  /**
   A decade label that begins "0x" is read in base 16: turning the decade to
   "0x10s" makes 1945 into 16 + 5 = 21.
   */
  lemma HexDecadeIsReadInBase16()
    ensures Step(MockState(0, 0).(ringStates := Rings(TestRing("1940s"), TestRing("1945"), TestRing("Jan"))),
                 SetRingValue(Decade, "0x10s")).ringStates.year.selectedValue == "21"
  {
    var s := MockState(0, 0).(ringStates := Rings(TestRing("1940s"), TestRing("1945"), TestRing("Jan")));
    DecadeTurnRewritesYear(s, "0x10s");
    HexDecadeShiftsYear();
  }

  /** The hexadecimal decade "0x10s" starts at 16, so year 1945 moves to 21. */
  lemma HexDecadeShiftsYear()
    ensures ShiftedYear("0x10s", "1945") == "21"
  {
    assert "0x10s"[..4] == "0x10" && "0x10s"[2..4] == "10";
    ParseIntHexExamples();
    FourDigitNumeral("1945", 1945);
    ParseIntReadsDecimal("1945", []);
    assert "1945" + [] == "1945";
    assert "21" == "2" + "1";
    ShiftedYearIs("0x10s", "1945", "21");
  }

  /** Turning an unlocked decade ring rewrites an unlocked year through ShiftedYear. */
  lemma DecadeTurnRewritesYear(s: GameState, value: string)
    requires !s.ringStates.decade.isLocked && !s.ringStates.year.isLocked
    ensures Step(s, SetRingValue(Decade, value)).ringStates.year.selectedValue ==
      ShiftedYear(value, s.ringStates.year.selectedValue)
  {
  }

  /** A year label that begins "0X" is read in base 16 too: "0X1F" is 31 and keeps its last digit 1. */
  lemma HexYearKeepsItsLastDigit()
    ensures ShiftedYear("1990s", "0X1F") == "1991"
  {
    assert "1990s"[..4] == "1990";
    FourDigitNumeral("1990", 1990);
    FourDigitNumeral("1991", 1991);
    ParseIntHexExamples();
    ShiftedYearIs("1990s", "0X1F", "1991");
  }
}
