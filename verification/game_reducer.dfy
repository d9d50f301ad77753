/**
 The game's state machine: one pure step from a state and an action to the next
 state. Every action produces a new record; the input is never modified.
 */
module GameReducer {
  import opened Decimal
  import opened GameTypes
  import opened RingConfig
  import Wrappers

  /**
   The actions the reducer understands, plus `Unrecognized` for any other tag
   (such as the retired rotation actions), which the reducer ignores.
   */
  datatype Action =
    | SetRingValue(ringType: RingType, value: string)
    | SubmitGuess(ringType: RingType, guessedValue: string, isCorrect: bool)
    | LockRing(ringType: RingType, color: RingColor)
    | ClearIncorrectFlash(ringType: RingType)
    | PlayHeadline
    | NextHeadline
    | WinGame
    | LoseGame
    | ResetGame(newState: GameState)
    | Unrecognized(tag: string)

  /** `getColorForHeadlines`: the medal for solving a ring after this many headlines. */
  function ColorForHeadlines(headlinesHeard: int): (c: RingColor)
    ensures c == Gold <==> headlinesHeard == 1
    ensures c == Silver <==> headlinesHeard == 2
    ensures c == Bronze <==> headlinesHeard == 3
    ensures c == None <==> !(1 <= headlinesHeard <= 3)
  {
    if headlinesHeard == 1 then Gold
    else if headlinesHeard == 2 then Silver
    else if headlinesHeard == 3 then Bronze
    else None
  }

  /** How good a medal is: Gold 3, Silver 2, Bronze 1, anything else 0. */
  function MedalRank(c: RingColor): nat {
    match c
    case Gold => 3
    case Silver => 2
    case Bronze => 1
    case _ => 0
  }

  /** Solving after fewer headlines earns a strictly better medal, and never the loss colour. */
  lemma FewerHeadlinesBetterMedal(a: int, b: int)
    requires 1 <= a < b <= 3
    ensures MedalRank(ColorForHeadlines(a)) > MedalRank(ColorForHeadlines(b)) > 0
    ensures ColorForHeadlines(a) != Red && ColorForHeadlines(b) != Red
  {
  }

  /** `getNextRing`: the ring after this one, or nothing after the month ring. */
  function NextRing(t: RingType): (r: Wrappers.Option<RingType>)
    ensures r.None? <==> RingOrder(t) == 2
    ensures r.Some? ==> RingOrder(r.value) == RingOrder(t) + 1
  {
    match t
    case Decade => Wrappers.Some(Year)
    case Year => Wrappers.Some(Month)
    case Month => Wrappers.None
  }

  /** Following NextRing from the decade visits the rings in the order the enumeration lists them. */
  lemma NextRingFollowsEnumeration()
    ensures forall i :: 0 <= i < |AllRingTypes| - 1 ==> NextRing(AllRingTypes[i]) == Wrappers.Some(AllRingTypes[i + 1])
    ensures NextRing(AllRingTypes[|AllRingTypes| - 1]).None?
  {
  }

  /**
   The year the decade-to-year rewrite writes: the new decade's first year (its
   first four characters, parsed) plus the last digit of the current year, both
   read with `parseInt`.
   */
  function SyncYear(decadeLabel: string, yearLabel: string): (y: string)
    requires NumericDecade(decadeLabel) && ParseInt(yearLabel).Some?
    ensures Canonical(y)
    ensures ValueOf(y) == DecadeStart(decadeLabel) + ParseInt(yearLabel).value % 10
  {
    var start := DecadeStart(decadeLabel);
    var offset := ParseInt(yearLabel).value % 10;
    ValueOfNatToString(start + offset);
    NatToString(start + offset)
  }

  /** The rewritten year is the entry of the new decade's year list at the old year's last digit. */
  lemma SyncYearIsInDecade(decadeLabel: string, yearLabel: string)
    requires NumericDecade(decadeLabel) && ParseInt(yearLabel).Some?
    ensures SyncYear(decadeLabel, yearLabel) == YearsForDecade(decadeLabel)[ParseInt(yearLabel).value % 10]
    ensures SyncYear(decadeLabel, yearLabel) in YearsForDecade(decadeLabel)
  {
    var i := ParseInt(yearLabel).value % 10;
    assert YearsForDecade(decadeLabel)[i] == NatToString(DecadeStart(decadeLabel) + i);
  }

  /**
   Moving between well-formed decades keeps the year's position: the year at
   index i of one decade's list becomes the year at index i of the other's.
   */
  lemma SyncYearKeepsOffset(oldDecade: string, newDecade: string, i: int)
    requires DecadeLabel(oldDecade) && DecadeLabel(newDecade) && 0 <= i < 10
    ensures NumericDecade(newDecade) && ParseInt(YearsForDecade(oldDecade)[i]).Some?
    ensures SyncYear(newDecade, YearsForDecade(oldDecade)[i]) == YearsForDecade(newDecade)[i]
  {
    DecadeLabelIsNumeric(oldDecade);
    DecadeLabelIsNumeric(newDecade);
    var y := YearsForDecade(oldDecade)[i];
    ParseYearOfDecade(oldDecade, i);
    DecadeStartIsRound(oldDecade);
    assert ParseInt(y).value % 10 == i;
    SyncYearIsInDecade(newDecade, y);
  }

  /**
   What the reducer writes into the year ring after a decade change. JavaScript's
   `parseInt` yields `NaN` on a label it cannot read, and `NaN` propagates through
   the sum and prints as "NaN".
   */
  function ShiftedYear(decadeLabel: string, yearLabel: string): (y: string)
    ensures StartsWithDigit(y) <==> NumericDecade(decadeLabel) && ParseInt(yearLabel).Some?
    ensures StartsWithDigit(y) ==>
      Canonical(y) && ValueOf(y) == DecadeStart(decadeLabel) + ParseInt(yearLabel).value % 10
    ensures !StartsWithDigit(y) ==> y == "NaN"
  {
    if NumericDecade(decadeLabel) && ParseInt(yearLabel).Some? then SyncYear(decadeLabel, yearLabel)
    else "NaN"
  }

  /** Only the ring record may differ: every scalar field and the puzzle are kept. */
  predicate OnlyRingsChanged(s: GameState, r: GameState) {
    r == s.(ringStates := r.ringStates)
  }

  /** `SET_RING_VALUE`: turn an unlocked ring to a value. */
  function SetValue(s: GameState, t: RingType, value: string): (r: GameState)
    ensures s.ringStates.Get(t).isLocked ==> r == s
    ensures OnlyRingsChanged(s, r)
    ensures !s.ringStates.Get(t).isLocked ==> r.ringStates.Get(t).selectedValue == value
    ensures forall u :: r.ringStates.Get(u) == s.ringStates.Get(u).(selectedValue := r.ringStates.Get(u).selectedValue)
    ensures forall u :: u != t && !(t == Decade && u == Year) ==> r.ringStates.Get(u) == s.ringStates.Get(u)
    ensures t == Decade && !s.ringStates.Get(t).isLocked ==>
      r.ringStates.year.selectedValue ==
        if s.ringStates.year.isLocked then s.ringStates.year.selectedValue
        else ShiftedYear(value, s.ringStates.year.selectedValue)
  {
    var rings := s.ringStates;
    if rings.Get(t).isLocked then s
    else
      var turned := rings.Set(t, rings.Get(t).(selectedValue := value));
      var synced :=
        if t == Decade && !rings.year.isLocked
        then turned.(year := turned.year.(selectedValue := ShiftedYear(value, rings.year.selectedValue)))
        else turned;
      s.(ringStates := synced)
  }

  /** A correct `SUBMIT_GUESS`: lock the ring with its medal and move on, or win after the month. */
  function CorrectGuess(s: GameState, t: RingType, guessedValue: string): (r: GameState)
    ensures r.ringStates.Get(t).isLocked
    ensures r.ringStates.Get(t).color == ColorForHeadlines(s.headlinesHeard)
    ensures forall u :: u != t ==> r.ringStates.Get(u).isLocked == s.ringStates.Get(u).isLocked
    ensures forall u :: u != t ==> r.ringStates.Get(u).color == s.ringStates.Get(u).color
    ensures forall u :: r.ringStates.Get(u).incorrectGuesses == s.ringStates.Get(u).incorrectGuesses
    ensures forall u :: r.ringStates.Get(u).showIncorrectFlash == s.ringStates.Get(u).showIncorrectFlash
    ensures forall u :: u != Year ==> r.ringStates.Get(u).selectedValue == s.ringStates.Get(u).selectedValue
    ensures r.ringStates.year.selectedValue ==
      if t == Decade then ShiftedYear(guessedValue, s.ringStates.year.selectedValue)
      else s.ringStates.year.selectedValue
    ensures t != Month ==> RingOrder(r.currentRing) == RingOrder(t) + 1 && r.gameStatus == s.gameStatus
    ensures t == Month ==> r.currentRing == Month && r.gameStatus == Won
    ensures r == s.(ringStates := r.ringStates, currentRing := r.currentRing, gameStatus := r.gameStatus)
  {
    var rings := s.ringStates;
    var locked := rings.Set(t, rings.Get(t).(isLocked := true, color := ColorForHeadlines(s.headlinesHeard)));
    var next := NextRing(t);
    var synced :=
      if t == Decade && next == Wrappers.Some(Year)
      then locked.(year := locked.year.(selectedValue := ShiftedYear(guessedValue, rings.year.selectedValue)))
      else locked;
    s.(ringStates := synced,
       currentRing := if next.Some? then next.value else t,
       gameStatus := if next.Some? then s.gameStatus else Won)
  }

  /** A ring that has just been guessed wrongly: the guess appended and the flash on. */
  function RecordMiss(rs: RingState, guessedValue: string): (m: RingState)
    ensures |m.incorrectGuesses| == |rs.incorrectGuesses| + 1
    ensures m.incorrectGuesses[..|rs.incorrectGuesses|] == rs.incorrectGuesses
    ensures m.incorrectGuesses[|rs.incorrectGuesses|] == guessedValue
    ensures m.showIncorrectFlash
    ensures m.isLocked == rs.isLocked && m.color == rs.color && m.selectedValue == rs.selectedValue
  {
    rs.(showIncorrectFlash := true, incorrectGuesses := rs.incorrectGuesses + [guessedValue])
  }

  /** A wrong `SUBMIT_GUESS` with headlines left: record the miss and move to the next headline. */
  function Strike(s: GameState, t: RingType, guessedValue: string): (r: GameState)
    ensures r.ringStates.Get(t) == RecordMiss(s.ringStates.Get(t), guessedValue)
    ensures forall u :: u != t ==> r.ringStates.Get(u) == s.ringStates.Get(u)
    ensures r.currentHeadlineIndex == s.currentHeadlineIndex + 1
    ensures r.headlinesHeard == s.headlinesHeard && r.currentRing == s.currentRing
    ensures r.gameStatus == s.gameStatus
    ensures r == s.(ringStates := r.ringStates, currentHeadlineIndex := r.currentHeadlineIndex)
  {
    s.(ringStates := s.ringStates.Set(t, RecordMiss(s.ringStates.Get(t), guessedValue)),
       currentHeadlineIndex := s.currentHeadlineIndex + 1)
  }

  /** On a loss every ring is locked and shows the answer; an unsolved ring turns red. */
  function RevealOnLoss(rs: RingState, answer: string): (v: RingState)
    ensures v.isLocked && v.selectedValue == answer
    ensures rs.color == None ==> v.color == Red
    ensures rs.color != None ==> v.color == rs.color
    ensures v.showIncorrectFlash == rs.showIncorrectFlash && v.incorrectGuesses == rs.incorrectGuesses
  {
    rs.(isLocked := true, selectedValue := answer, color := if rs.color == None then Red else rs.color)
  }

  /** A wrong `SUBMIT_GUESS` after all three headlines: the game is lost and the answer revealed. */
  function Loss(s: GameState, t: RingType, guessedValue: string): (r: GameState)
    ensures r.gameStatus == Lost
    ensures forall u :: r.ringStates.Get(u).isLocked
    ensures forall u :: r.ringStates.Get(u).selectedValue == s.correctAnswer.Get(u)
    ensures forall u :: s.ringStates.Get(u).color in {Gold, Silver, Bronze} ==> r.ringStates.Get(u).color == s.ringStates.Get(u).color
    ensures forall u :: s.ringStates.Get(u).color == None ==> r.ringStates.Get(u).color == Red
    ensures r.ringStates.Get(t) == RecordMiss(RevealOnLoss(s.ringStates.Get(t), s.correctAnswer.Get(t)), guessedValue)
    ensures forall u :: u != t ==> r.ringStates.Get(u) == RevealOnLoss(s.ringStates.Get(u), s.correctAnswer.Get(u))
    ensures r == s.(ringStates := r.ringStates, gameStatus := Lost)
  {
    var answer := s.correctAnswer;
    var revealed := Rings(
      RevealOnLoss(s.ringStates.decade, answer.decade),
      RevealOnLoss(s.ringStates.year, answer.year),
      RevealOnLoss(s.ringStates.month, answer.month));
    s.(ringStates := revealed.Set(t, RecordMiss(revealed.Get(t), guessedValue)), gameStatus := Lost)
  }

  /** `LOCK_RING`: lock a ring with the given colour, whatever its state. */
  function Lock(s: GameState, t: RingType, color: RingColor): (r: GameState)
    ensures r.ringStates.Get(t).isLocked && r.ringStates.Get(t).color == color
    ensures r.ringStates.Get(t).selectedValue == s.ringStates.Get(t).selectedValue
    ensures r.ringStates.Get(t).incorrectGuesses == s.ringStates.Get(t).incorrectGuesses
    ensures r.ringStates.Get(t).showIncorrectFlash == s.ringStates.Get(t).showIncorrectFlash
    ensures forall u :: u != t ==> r.ringStates.Get(u) == s.ringStates.Get(u)
    ensures OnlyRingsChanged(s, r)
  {
    s.(ringStates := s.ringStates.Set(t, s.ringStates.Get(t).(isLocked := true, color := color)))
  }

  /** `CLEAR_INCORRECT_FLASH`: switch off a ring's wrong-guess flash. */
  function ClearFlash(s: GameState, t: RingType): (r: GameState)
    ensures !r.ringStates.Get(t).showIncorrectFlash
    ensures r.ringStates.Get(t) == s.ringStates.Get(t).(showIncorrectFlash := false)
    ensures forall u :: u != t ==> r.ringStates.Get(u) == s.ringStates.Get(u)
    ensures OnlyRingsChanged(s, r)
  {
    s.(ringStates := s.ringStates.Set(t, s.ringStates.Get(t).(showIncorrectFlash := false)))
  }

  /** `PLAY_HEADLINE`: count the headline the first time it is played, and start the game. */
  function Play(s: GameState): (r: GameState)
    ensures r.headlinesHeard == s.headlinesHeard + 1 <==> s.headlinesHeard == s.currentHeadlineIndex
    ensures s.headlinesHeard != s.currentHeadlineIndex ==> r.headlinesHeard == s.headlinesHeard
    ensures s.gameStatus == NotStarted ==> r.gameStatus == Playing
    ensures s.gameStatus != NotStarted ==> r.gameStatus == s.gameStatus
    ensures r == s.(headlinesHeard := r.headlinesHeard, gameStatus := r.gameStatus)
  {
    s.(headlinesHeard := if s.headlinesHeard == s.currentHeadlineIndex then s.headlinesHeard + 1 else s.headlinesHeard,
       gameStatus := if s.gameStatus == NotStarted then Playing else s.gameStatus)
  }

  /** `NEXT_HEADLINE`: advance the index, but never past the third headline. */
  function Advance(s: GameState): (r: GameState)
    ensures r.currentHeadlineIndex <= 2
    ensures s.currentHeadlineIndex < 2 ==> r.currentHeadlineIndex == s.currentHeadlineIndex + 1
    ensures s.currentHeadlineIndex >= 2 ==> r.currentHeadlineIndex == 2
    ensures s.currentHeadlineIndex <= 2 ==> r.currentHeadlineIndex >= s.currentHeadlineIndex
    ensures r == s.(currentHeadlineIndex := r.currentHeadlineIndex)
  {
    s.(currentHeadlineIndex := if s.currentHeadlineIndex + 1 <= 2 then s.currentHeadlineIndex + 1 else 2)
  }

  /** `gameReducer`: the next state for an action. */
  function Step(s: GameState, a: Action): (r: GameState)
    ensures a.ResetGame? ==> r == a.newState
    ensures a.Unrecognized? ==> r == s
    ensures a.WinGame? ==> r == s.(gameStatus := Won)
    ensures a.LoseGame? ==> r == s.(gameStatus := Lost)
    ensures !a.ResetGame? ==> forall t :: s.ringStates.Get(t).isLocked ==> r.ringStates.Get(t).isLocked
    ensures !a.ResetGame? ==> forall t :: s.ringStates.Get(t).incorrectGuesses <= r.ringStates.Get(t).incorrectGuesses
    ensures !a.ResetGame? && !a.PlayHeadline? ==> r.headlinesHeard == s.headlinesHeard
    ensures !a.ResetGame? ==>
      r.dailyGameId == s.dailyGameId && r.correctAnswer == s.correctAnswer &&
      r.audioFiles == s.audioFiles && r.radioStation == s.radioStation
  {
    match a
    case SetRingValue(t, value) => SetValue(s, t, value)
    case SubmitGuess(t, guessedValue, isCorrect) =>
      if isCorrect then CorrectGuess(s, t, guessedValue)
      else if s.headlinesHeard >= 3 then Loss(s, t, guessedValue)
      else Strike(s, t, guessedValue)
    case LockRing(t, color) => Lock(s, t, color)
    case ClearIncorrectFlash(t) => ClearFlash(s, t)
    case PlayHeadline => Play(s)
    case NextHeadline => Advance(s)
    case WinGame => s.(gameStatus := Won)
    case LoseGame => s.(gameStatus := Lost)
    case ResetGame(newState) => newState
    case Unrecognized(_) => s
  }

  /** Locking a ring twice with the same colour, or clearing its flash twice, is doing it once. */
  lemma LockAndClearIdempotent(s: GameState, t: RingType, color: RingColor)
    ensures Step(Step(s, LockRing(t, color)), LockRing(t, color)) == Step(s, LockRing(t, color))
    ensures Step(Step(s, ClearIncorrectFlash(t)), ClearIncorrectFlash(t)) == Step(s, ClearIncorrectFlash(t))
  {
    var l := Step(s, LockRing(t, color));
    RingsExtensional(Step(l, LockRing(t, color)).ringStates, l.ringStates);
    var c := Step(s, ClearIncorrectFlash(t));
    RingsExtensional(Step(c, ClearIncorrectFlash(t)).ringStates, c.ringStates);
  }

  /** Once a ring is solved, turning it changes nothing. */
  lemma SolvedRingIgnoresTurning(s: GameState, t: RingType, guessedValue: string, value: string)
    ensures var solved := Step(s, SubmitGuess(t, guessedValue, true));
      Step(solved, SetRingValue(t, value)) == solved
  {
  }

  /** Clearing the flash after a wrong guess keeps the recorded guess. */
  lemma ClearFlashKeepsMiss(s: GameState, t: RingType, guessedValue: string)
    requires s.headlinesHeard < 3
    ensures var r := Step(Step(s, SubmitGuess(t, guessedValue, false)), ClearIncorrectFlash(t));
      && r.ringStates.Get(t) == s.ringStates.Get(t).(showIncorrectFlash := false,
           incorrectGuesses := s.ringStates.Get(t).incorrectGuesses + [guessedValue])
      && r.currentHeadlineIndex == s.currentHeadlineIndex + 1
  {
  }
}
