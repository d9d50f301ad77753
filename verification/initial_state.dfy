/** The state a day's puzzle starts from. */
module InitialState {
  import opened Decimal
  import opened GameTypes
  import opened RingConfig
  import opened RingRotation
  import opened GameReducer
  import Wrappers

  /** An untouched ring showing a given label. */
  function FreshRing(selectedValue: string): (rs: RingState)
    ensures !rs.isLocked && rs.color == None && !rs.showIncorrectFlash
    ensures rs.incorrectGuesses == [] && rs.selectedValue == selectedValue
  {
    RingState(false, None, selectedValue, false, [])
  }

  /**
   `createInitialState`: the day's puzzle with the decade ring current, nothing
   heard, the game not started, and every ring unlocked on its first segment.
   The station is not copied from the puzzle and starts empty.
   */
  function CreateInitialState(g: DailyGame): (s: GameState)
    ensures s.dailyGameId == g.id && s.correctAnswer == g.answer && s.audioFiles == g.headlines
    ensures s.radioStation == ""
    ensures s.currentRing == Decade && RingOrder(s.currentRing) == 0
    ensures s.headlinesHeard == 0 && s.currentHeadlineIndex == 0
    ensures s.gameStatus == NotStarted
    ensures forall t :: s.ringStates.Get(t) == FreshRing(s.ringStates.Get(t).selectedValue)
    ensures s.ringStates.decade.selectedValue == Decades[0]
    ensures s.ringStates.month.selectedValue == Months[0]
  {
    GameState(
      g.id, g.answer, g.headlines, "",
      Decade, 0, 0,
      Rings(FreshRing("1940s"), FreshRing("1940"), FreshRing("Jan")),
      NotStarted)
  }

  /**
   Each ring starts on its first segment: the initial year is the first year of
   the initial decade, and every initial label is aligned by a rotation of 0.
   */
  lemma InitialSelectionsAtTop(g: DailyGame)
    ensures var s := CreateInitialState(g);
      && s.ringStates.year.selectedValue == YearsForDecade(s.ringStates.decade.selectedValue)[0]
      && forall t :: RotationToAlign(t, s.ringStates.Get(t).selectedValue, s.ringStates.decade.selectedValue) == 0
  {
    var s := CreateInitialState(g);
    DecadesAscendByTen();
    YearsOfDecadeLabel("1940s");
    assert "1940s"[..3] == "194";
    assert YearsForDecade("1940s")[0] == "1940";
    forall t
      ensures RotationToAlign(t, s.ringStates.Get(t).selectedValue, "1940s") == 0
    {
      match t
      case Decade => IndexOfDistinct(Decades, 0);
      case Year => IndexOfDistinct(YearsForDecade("1940s"), 0);
      case Month => MonthsAreTheTwelveMonths(); IndexOfDistinct(Months, 0);
    }
  }

  /**
   A ring as the initializer literally builds it: the guess list is a field
   that may be absent.
   */
  datatype RawRing = RawRing(
    isLocked: bool,
    color: RingColor,
    selectedValue: string,
    showIncorrectFlash: bool,
    incorrectGuesses: Wrappers.Option<seq<string>>)

  /** The initializer's ring literal, which sets no guess list. */
  function InitialRingAsWritten(selectedValue: string): (rr: RawRing)
    ensures rr.incorrectGuesses.None?
    ensures !rr.isLocked && rr.color == None && !rr.showIncorrectFlash && rr.selectedValue == selectedValue
  {
    RawRing(false, None, selectedValue, false, Wrappers.None)
  }

  /**
   The wrong-guess branch's `[...incorrectGuesses, guessedValue]`: the extended
   list, or nothing when spreading an absent list throws.
   */
  function AppendGuessAsWritten(rr: RawRing, guessedValue: string): (r: Wrappers.Option<seq<string>>)
    ensures r.None? <==> rr.incorrectGuesses.None?
    ensures r.Some? ==> r.value == rr.incorrectGuesses.value + [guessedValue]
  {
    match rr.incorrectGuesses
    case None => Wrappers.None
    case Some(guesses) => Wrappers.Some(guesses + [guessedValue])
  }

  /** As written, the first wrong guess on any ring of a new day throws. */
  lemma FirstWrongGuessThrowsAsWritten(t: RingType, guessedValue: string)
    ensures var labels := Answer("1940s", "1940", "Jan");
      AppendGuessAsWritten(InitialRingAsWritten(labels.Get(t)), guessedValue).None?
  {
  }

  /**
   With an empty guess list in the initial state, the first wrong guess on any
   ring is recorded as that ring's only wrong guess, and play goes on.
   */
  lemma FirstWrongGuessRecorded(g: DailyGame, t: RingType, guessedValue: string)
    ensures var r := Step(CreateInitialState(g), SubmitGuess(t, guessedValue, false));
      && r.ringStates.Get(t).incorrectGuesses == [guessedValue]
      && r.gameStatus == NotStarted && r.currentHeadlineIndex == 1
  {
  }
}
