# Headlines dial game: a Dafny model of its core

Headlines is a daily guessing game. The player hears up to three archive radio
headlines and turns three concentric rings (decade, year, month) until the
date of the broadcast sits at 12 o'clock. A ring solved after one, two or
three headlines earns a gold, silver or bronze medal. A wrong guess after all
three headlines loses the game, and the answer is revealed in red.

This project models the game's core as pure Dafny functions and proves what
they promise:

- **`GameTypes`** (`game_types.dfy`): the state shape. It holds the ring kinds,
  the game status, the ring colours, one ring's state, the whole game state and
  a day's puzzle.
- **`RingConfig`** (`ring_config.dfy`): the segment labels. There are nine
  decades, the ten years of a decade (derived from the decade label) and twelve
  months.
- **`Decimal`** (`decimal.dfy`): what `parseInt` and `toString` do to the
  labels. `ParseInt` reads a hexadecimal run after a `0x` or `0X` prefix and
  otherwise the longest run of decimal digits at the front; with no digit to
  read it gives `NaN`. `NatToString` writes the canonical numeral. Their round
  trips are proved.
- **`RingRotation`** (`ring_rotation.dfy`): `calculateRotationToAlignAnswer`.
  It gives the clockwise rotation that brings a label to the top.
- **`DragGeometry`** (`drag_geometry.dfy`): the pure angle logic of the drag
  hook. It covers JavaScript's `%` on reals, `Math.round`, the segment at the
  top, snapping, and the drag-end handler.
- **`DialConventions`** (`dial_conventions.dfy`): how `RingRotation` and
  `DragGeometry` fit together on the same ring.
- **`DialDimensions`** (`dial_dimensions.dfy`): the dial's fixed geometry and
  the layout it is designed to have.
- **`InitialState`** (`initial_state.dfy`): `createInitialState`.
- **`GameReducer`** (`game_reducer.dfy`): `gameReducer`, one total `Step` over
  every action. It is split into one function per branch, each with a
  field-by-field contract.
- **`Reachability`** (`reachability.dfy`): runs of actions and the invariants
  they keep. These are the headline budget, lock monotonicity, the append-only
  guess history and a fixed puzzle.
- **`Scenarios`** (`scenarios.dfy`): the test fixtures and the development
  puzzle, with worked runs of the reducer on them.
- **`Wrappers`** and **`Arith`**: an `Option` type and small arithmetic facts.

Where the repository's tests or comments and its code differ, the model follows
the code:

- A wrong guess does not increment `headlinesHeard`. Only `PLAY_HEADLINE`
  counts a headline (`gameReducer.ts:150-164`), although
  `gameReducer.test.ts:361-375` expects the count to rise.
  `Scenarios.WrongGuessDoesNotCountHeadline` states what the code does.
- Wrong guesses made before any headline is played never lose the game.
  They push `currentHeadlineIndex` past 2, although `types/game.ts:46` says
  the index is 0, 1 or 2. Nothing then keeps `headlinesHeard` at or above the
  index. `Scenarios.BlindGuessesPassLastHeadline` shows all of this.
- `snapToSegment` does bring its result into [0, 360)
  (`useRingRotation.ts:34-36`). Multi-turn angles are not kept.
- The drag hook dispatches `ROTATE_RING`, but the reducer has no case for it,
  so the action falls through to `default` and the state is unchanged. The
  model uses `Unrecognized(tag)` for every such action.
- A correct decade guess rewrites the year label even when the year ring is
  locked (`gameReducer.ts:76-89`). Turning the decade ring checks that lock
  (`gameReducer.ts:36`).
- The reducer does not guard a finished game: a late wrong guess turns a win
  into a loss.
- The test fixture with decade and year solved (`testHelpers.ts:72-94`) has two
  headlines heard with the headline index still at 0. The reducer never
  reaches that state from a new day; `Scenarios.StateWithYearLocked` states it.

## Model

| member | source | states |
|---|---|---|
| GameTypes.EnumerationsAreExact | src/types/game.ts:2-22 | each of the ring kinds, statuses and colours is listed exactly once, and the listings are complete |
| GameTypes.RingsExtensional | src/types/game.ts:48-52 | the ring record holds exactly one state per ring kind: two records that agree on every kind are equal |
| RingConfig.DecadeStart | src/data/ringConfig.ts:16 | the decade's first year is parseInt of its first four characters: their decimal value when they are four digits, the base-16 value of the two after a "0x" prefix, and always below 10000 |
| RingConfig.ParseIntOfFirstFour | src/data/ringConfig.ts:16 | parseInt of a label's first four characters is below 10000, is their decimal value when they are digits, and their hexadecimal value after "0x" or "0X" |
| RingConfig.DecadeLabelIsNumeric | src/data/ringConfig.ts:4-16 | a well-formed decade label is one parseInt reads as a number |
| RingConfig.YearsForDecade | src/data/ringConfig.ts:15-18 | ten labels: for a readable decade canonical numerals, the i-th worth the decade's first year plus i; for an unreadable one ten "NaN" |
| RingConfig.DecadesAscendByTen | src/data/ringConfig.ts:4-14 | nine well-formed decade labels, distinct, from 1940 upwards in steps of ten |
| RingConfig.MonthsAreTheTwelveMonths | src/data/ringConfig.ts:19-32 | twelve distinct months in calendar order, Jan first, Aug eighth and Dec last |
| RingConfig.YearsOfDecadeLabel | src/data/ringConfig.ts:15-18 | the years of a well-formed decade are its first three digits followed by 0..9, all distinct |
| RingConfig.DecadeStartIsRound | src/data/ringConfig.ts:16 | a well-formed decade starts on a multiple of ten |
| RingConfig.ParseYearOfDecade | src/data/ringConfig.ts:15-18 | parseInt of year i of a readable decade gives back the decade's start plus i |
| RingRotation.FifthYear | src/data/ringConfig.ts:15-18 | the sixth year label of a decade given by its four digits is its start plus five, written out |
| Decimal.ParseLeadingInt | src/data/ringConfig.ts:16 | the decimal reading of a label that starts with a digit is the value of its leading digit run, and of the whole label when it is all digits |
| Decimal.ParseInt | src/context/gameReducer.ts:37-40 | parseInt gives a number exactly when a hexadecimal digit follows a "0x" or "0X" prefix, or, without that prefix, when the label starts with a decimal digit; otherwise NaN |
| Decimal.ParseIntReadsDecimal | src/data/ringConfig.ts:16 | parseInt reads a decimal run and stops at the first non-digit, as in "1990s", unless the label starts "0x" |
| Decimal.ParseIntReadsHex | src/context/gameReducer.ts:37 | after "0x" or "0X" parseInt reads the hexadecimal run in base 16 and stops after it |
| Decimal.ParseIntOfCanonical | src/context/gameReducer.ts:40 | parseInt of a canonical numeral is its value |
| Decimal.ParseIntOfNatToString | src/data/ringConfig.ts:16-17 | reading a printed number back with parseInt gives the number |
| Decimal.ParseIntHexExamples | src/context/gameReducer.ts:37 | "0x10" reads as 16 and "0X1F" as 31 |
| Decimal.ParseIntNaNExamples | src/context/gameReducer.ts:37-40 | "0xzz", "0x", "abc" and "NaN" read as NaN |
| Decimal.ParseIntLeadingZeros | src/context/gameReducer.ts:40 | "007" reads as 7: leading zeros without an x stay decimal |
| Decimal.ParseIntOfShort | src/context/gameReducer.ts:37 | parseInt of at most four characters is below 10000, so the sums the reducer prints never need an exponent |
| Decimal.NatToString | src/data/ringConfig.ts:17 | toString of a number is a canonical numeral, one character long exactly when the number is below ten |
| Decimal.ValueOfNatToString | src/data/ringConfig.ts:17 | reading back the written numeral gives the number |
| Decimal.NatToStringOfValue | src/data/ringConfig.ts:17 | writing out the value of a canonical numeral gives the numeral back |
| RingRotation.SegmentWidth | src/utils/ringRotation.ts:26 | each ring's segment angle is a whole number of degrees whose segments make exactly one turn: 40, 36 and 30 |
| RingRotation.Segments | src/utils/ringRotation.ts:16-21 | the segment list of each ring has the ring's segment count, which divides 360 into the ring's width |
| RingRotation.IndexOf | src/utils/ringRotation.ts:23 | -1 exactly when the label is absent, otherwise the first position holding it |
| RingRotation.IndexOfDistinct | src/utils/ringRotation.ts:23 | in a list without repeats each entry is found at its own position |
| RingRotation.AlignedRotation | src/utils/ringRotation.ts:26-29 | turning back by a segment index stays within one clockwise turn and is a whole number of segments |
| RingRotation.RotationIn | src/utils/ringRotation.ts:23-29 | the rotation lies in (-360, 0], is a multiple of the segment width, and is 0 for a missing label |
| RingRotation.RotationInDecodes | src/utils/ringRotation.ts:23-29 | minus the rotation over the segment width is the first position of the label, so that label is the one aligned |
| RingRotation.RotationToAlign | src/utils/ringRotation.ts:11-30 | the aligning rotation of any ring lies in (-360, 0], is a multiple of the ring's width, and is 0 for a label the ring does not list |
| RingRotation.RotationOfListedLabel | src/utils/ringRotation.ts:23-29 | a listed label is turned back by its index times the ring's width |
| RingRotation.DecadeRotations | src/utils/ringRotation.ts:16-29 | decade i is aligned by -40 i |
| RingRotation.YearRotations | src/utils/ringRotation.ts:16-29 | year i of a well-formed decade is aligned by -36 i when that decade is the context |
| RingRotation.MonthRotations | src/utils/ringRotation.ts:16-29 | month i is aligned by -30 i |
| RingRotation.DecadeRotationExamples | src/utils/ringRotation.test.ts:7-34 | 1940s, 1950s and 1990s are aligned by 0, -40 and -200 |
| RingRotation.MissingDecadeRotation | src/utils/ringRotation.test.ts:37-43 | a decade the ring does not list gets 0 |
| RingRotation.YearRotationExample1995 | src/utils/ringRotation.test.ts:68-75 | 1995 in the 1990s is aligned by -180 |
| RingRotation.YearRotationExample1985 | src/utils/ringRotation.test.ts:78-85 | 1985 in the 1980s is aligned by -180: the year list follows the context decade |
| RingRotation.YearRotationExampleMissing | src/utils/ringRotation.test.ts:88-95 | 2000 is not a year of the 1990s and gets 0 |
| RingRotation.UnreadableDecadeAlignsYearAtZero | src/utils/ringRotation.ts:16-29 | when parseInt cannot read the context decade every year label is "NaN", and every answer gets rotation 0 |
| RingRotation.MonthRotationExamples | src/utils/ringRotation.test.ts:120-137 | Aug and Dec are aligned by -210 and -330 |
| RingRotation.MissingMonthRotation | src/utils/ringRotation.test.ts:140-146 | a label that is not a month gets 0 |
| DragGeometry.Trunc | src/hooks/useRingRotation.ts:23 | the quotient of JavaScript's remainder rounds toward zero, for either sign |
| DragGeometry.Rem360 | src/hooks/useRingRotation.ts:23 | JavaScript's x % 360 is x minus the whole turns of its truncated quotient, lies strictly within one turn either way and has the sign of x |
| DragGeometry.Mod360 | src/hooks/useRingRotation.ts:23 | the Euclidean remainder lies in [0, 360) |
| DragGeometry.Normalize | src/hooks/useRingRotation.ts:23 | the double remainder brings any rotation into [0, 360) |
| DragGeometry.NormalizeIsMod360 | src/hooks/useRingRotation.ts:23 | the double JavaScript remainder equals the Euclidean remainder, negative rotations included |
| DragGeometry.Mod360Periodic | src/hooks/useRingRotation.ts:23 | whole turns do not change the normalised angle |
| DragGeometry.Round | src/hooks/useRingRotation.ts:25 | Math.round returns the integer within half of x, halves going up |
| DragGeometry.RoundHalfUp | src/hooks/useRingRotation.ts:25 | k + 1/2 rounds to k + 1 and k - 1/2 rounds to k |
| DragGeometry.DialFor | src/hooks/useRingRotation.ts:17 | for n > 0 segments the angle per segment is positive and n of them make exactly one turn |
| DragGeometry.NearestBoundary | src/hooks/useRingRotation.ts:23-25 | the rounded segment count of the normalised rotation lies between 0 and the segment count |
| DragGeometry.SegmentAtTop | src/hooks/useRingRotation.ts:20-29 | the segment at the top is a valid segment index |
| DragGeometry.SegmentAtTopPeriodic | src/hooks/useRingRotation.ts:20-29 | adding whole turns leaves the same segment at the top |
| DragGeometry.TopOfBoundary | src/hooks/useRingRotation.ts:20-29 | a rotation of exactly j segments shows segment j |
| DragGeometry.NearFullTurnIsSegmentZero | src/hooks/useRingRotation.ts:23-26 | within half a segment below a full turn the top segment wraps to 0 |
| DragGeometry.ClockwiseTurnShowsMirrorSegment | src/hooks/useRingRotation.ts:20-29 | turning back by i segments shows segment (n - i) mod n |
| DragGeometry.SnapToSegment | src/hooks/useRingRotation.ts:32-39 | a snapped rotation lies in [0, 360) |
| DragGeometry.SnapOfFullTurn | src/hooks/useRingRotation.ts:35 | boundaries that make a full turn leave no remainder under `% 360` |
| DragGeometry.SnapOfBoundary | src/hooks/useRingRotation.ts:34-35 | the remainder of boundary k, for k from 0 up to the segment count, is boundary k mod n: the rounded count n wraps to 0 |
| DragGeometry.SnapIsTopBoundary | src/hooks/useRingRotation.ts:32-39 | snapping lands exactly on the boundary of the segment that is at the top |
| DragGeometry.SnapIdempotent | src/hooks/useRingRotation.ts:32-39 | snapping a snapped rotation changes nothing |
| DragGeometry.SnapKeepsTopSegment | src/hooks/useRingRotation.ts:66-74 | the segment read after snapping is the one at the top before snapping |
| DragGeometry.DragEnd | src/hooks/useRingRotation.ts:60-79 | nothing on a locked ring; otherwise a valid index, the segment at the top of the released rotation |
| DialConventions.RingDialOf | src/hooks/useRingRotation.ts:17 | each ring's drag dial has the ring's segment count and its whole-degree width |
| DialConventions.IntegerTurnReadsMirror | src/utils/ringRotation.ts:29 | on every ring, a turn back by i whole segments of the ring's width shows segment (n - i) mod n |
| DialConventions.AlignedRotationReadsMirror | src/utils/ringRotation.ts:26-29 | the drag hook reads the aligning rotation of the label at index i as segment (n - i) mod n, not i: the two modules count segments in opposite directions |
| DialDimensions.RingRadius | src/config/dialDimensions.ts:48-50 | each ring's radius leaves one margin, one half stroke, and one stroke plus gap per ring further out, to the canvas centre |
| DialDimensions.RingOuterEdge | src/config/dialDimensions.ts:52-54 | the outer edge lies outside the stroke's centre line |
| DialDimensions.RingInnerEdge | src/config/dialDimensions.ts:56-58 | the inner edge lies between the centre and the stroke's centre line |
| DialDimensions.RingsNestInward | src/config/dialDimensions.ts:28-38 | a ring later in the solving order lies wholly inside an earlier one |
| DialDimensions.RingIsOneStrokeWide | src/config/dialDimensions.ts:24-38 | each ring is one stroke wide and centred on its radius |
| DialDimensions.DialLayout | src/config/dialDimensions.ts:4-44 | the centre is the canvas middle, the outer ring stops one margin from the edge, rings are one gap apart, and the month ring is one gap from the centre circle |
| GameTypes.Rings.Set | src/context/gameReducer.ts:27-33 | the spread update holds the new state on the ring named and leaves every other ring as it was |
| InitialState.FreshRing | src/context/initialState.ts:15-21 | an initial ring is unlocked, uncoloured, not flashing and has no wrong guesses |
| InitialState.CreateInitialState | src/context/initialState.ts:4-40 | the day's puzzle is copied, the decade ring is current, nothing is heard, the game has not started, and each ring starts fresh on the first label of its list |
| InitialState.InitialSelectionsAtTop | src/context/initialState.ts:14-36 | the initial year is the first year of the initial decade, and every initial label is aligned by a rotation of 0 |
| InitialState.InitialRingAsWritten | src/context/initialState.ts:15-21 | the initializer's ring literal has no guess list |
| InitialState.AppendGuessAsWritten | src/context/gameReducer.ts:157-160 | spreading the guess list fails exactly when the list is absent, and otherwise appends the guess |
| InitialState.FirstWrongGuessThrowsAsWritten | src/context/initialState.ts:14-36 | as written, the first wrong guess on any ring of a new day throws |
| InitialState.FirstWrongGuessRecorded | src/context/gameReducer.ts:150-164 | from a new day's state the first wrong guess becomes the ring's only recorded guess, and the game does not start or end |
| GameReducer.ColorForHeadlines | src/context/gameReducer.ts:239-244 | gold, silver or bronze exactly for one, two or three headlines, and no colour for any other count |
| GameReducer.FewerHeadlinesBetterMedal | src/context/gameReducer.ts:239-244 | solving after fewer headlines earns a strictly better medal, and never the loss colour |
| GameReducer.NextRing | src/context/gameReducer.ts:246-250 | there is no next ring exactly after the month ring, otherwise the next ring is one further in the order |
| GameReducer.NextRingFollowsEnumeration | src/context/gameReducer.ts:246-250 | following the next ring from the decade walks the rings in their declared order |
| GameReducer.SyncYear | src/context/gameReducer.ts:36-49 | when parseInt reads both labels, the rewritten year is a canonical numeral worth the new decade's start plus the last digit of the old year's parsed value |
| GameReducer.SyncYearIsInDecade | src/context/gameReducer.ts:36-49 | the rewritten year is the new decade's year at the old year's last digit, so it is on the year ring |
| GameReducer.SyncYearKeepsOffset | src/context/gameReducer.ts:34-49 | between well-formed decades, the year at position i moves to the year at position i |
| GameReducer.ShiftedYear | src/context/gameReducer.ts:37-46 | the written year is numeric exactly when parseInt reads the decade's first four characters and the year; it is then the canonical numeral of the new decade's start plus the last digit of the old year's value, and otherwise "NaN" |
| GameReducer.SetValue | src/context/gameReducer.ts:21-55 | a locked ring ignores the action; an unlocked one takes the value; only the decade also rewrites the year, and only when the year is unlocked; nothing but selected values changes |
| GameReducer.CorrectGuess | src/context/gameReducer.ts:60-96 | the ring is locked with the medal for the headlines heard; play moves to the next ring, or the game is won after the month; other rings keep their locks, colours and guesses; only a decade guess rewrites the year |
| GameReducer.RecordMiss | src/context/gameReducer.ts:155-160 | a miss appends exactly the guess to the ring's history and turns the flash on, leaving lock, colour and value alone |
| GameReducer.Strike | src/context/gameReducer.ts:97-164 | with headlines left, a miss is recorded on that ring only and the headline index advances; the count heard, the current ring and the status stay |
| GameReducer.RevealOnLoss | src/context/gameReducer.ts:104-132 | on a loss a ring is locked on the answer, an unsolved ring turns red and an earned medal stays |
| GameReducer.Loss | src/context/gameReducer.ts:103-147 | the game is lost, every ring is locked on the answer, earned medals stay, unsolved rings turn red, and the miss is recorded on the guessed ring |
| GameReducer.Lock | src/context/gameReducer.ts:168-180 | the ring is locked with the given colour; its value, guesses and flash and every other ring stay |
| GameReducer.ClearFlash | src/context/gameReducer.ts:182-193 | only the ring's flash is switched off |
| GameReducer.Play | src/context/gameReducer.ts:195-207 | the count heard rises by one exactly when it equals the headline index, and a not-started game starts |
| GameReducer.Advance | src/context/gameReducer.ts:209-214 | the index never exceeds 2, advances by one below 2, and never moves back from a valid index; an index already past 2 is pulled back to 2 |
| GameReducer.Step | src/context/gameReducer.ts:19-237 | a reset returns its state, an unknown action changes nothing, and winning or losing outright changes the status alone; otherwise locks are never released, guess histories only grow, only playing counts headlines, and the puzzle is untouched |
| GameReducer.LockAndClearIdempotent | src/context/gameReducer.ts:168-193 | locking twice, or clearing the flash twice, is doing it once |
| GameReducer.SolvedRingIgnoresTurning | src/context/gameReducer.ts:21-74 | after a correct guess, turning that ring changes nothing |
| GameReducer.ClearFlashKeepsMiss | src/context/gameReducer.ts:150-193 | clearing the flash after a miss keeps the recorded guess and the advanced headline |
| Reachability.RunAfterReset | src/context/gameReducer.ts:230-232 | a reset discards every action before it: the run continues from the installed state |
| Reachability.InitialStateWithinBudget | src/context/initialState.ts:11-12 | a new day starts within the headline budget |
| Reachability.StepKeepsBudget | src/context/gameReducer.ts:195-214 | every action keeps at most three headlines heard, at most one more than the index, and the third only at the last index |
| Reachability.RunKeepsBudget | src/context/gameReducer.ts:195-214 | any run whose resets install budgeted states stays within the budget |
| Reachability.NeverMoreThanThreeHeadlines | src/types/game.ts:45 | from a new day, no run without resets hears more than three headlines |
| Reachability.RunOnlyAdds | src/context/gameReducer.ts:19-237 | without resets, locked rings stay locked, guess histories only grow and the puzzle is unchanged over a run |
| Reachability.OnlyPlayCountsHeadlines | src/context/gameReducer.ts:195-207 | a run with no play and no reset leaves the count heard unchanged |
| Reachability.LossNeedsThreeHeadlines | src/context/gameReducer.ts:101-147 | a game becomes lost only by the lose action, a reset, or a wrong guess after three headlines |
| Reachability.WinNeedsMonth | src/context/gameReducer.ts:91-96 | a game becomes won only by the win action, a reset, or a correct month guess |
| Scenarios.TestRing | src/test/testHelpers.ts:7-16 | the test ring defaults are those of a fresh ring |
| Scenarios.MockState | src/test/testHelpers.ts:22-45 | the base fixture, with its headline counters overridden, has nothing solved or guessed, the decade ring current and the game not started; it is within the headline budget exactly when its counters are |
| Scenarios.StateWithDecadeLocked | src/test/testHelpers.ts:50-67 | the decade is locked with the given medal, the other rings are open, the year ring is current, one headline is heard, and the state is within the budget |
| Scenarios.StateWithYearLocked | src/test/testHelpers.ts:72-94 | decade and year are locked with the given medals, the locked year lies in the locked decade, the month ring is current; with two headlines heard but the index at 0 it is outside the budget, so no run reaches it |
| Scenarios.StateWithThreeHeadlinesHeard | src/test/testHelpers.ts:100-115 | three headlines are heard within the budget, two wrong decades are recorded, and any wrong decade now loses |
| Scenarios.MockGameIsOnTheDial | src/data/mockGame.ts:3-16 | the development puzzle's decade, year and month are segments of their rings, aligned by -200, -180 and -210 |
| Scenarios.CorrectDecadeMedals | src/context/gameReducer.test.ts:173-260 | a correct decade after one, two or three headlines is gold, silver or bronze, none after zero, and play moves to the year |
| Scenarios.YearLeadsToMonth | src/context/gameReducer.test.ts:261-275 | a correct year moves play to the month |
| Scenarios.MonthSolvesTheGame | src/context/gameReducer.test.ts:276-290 | a correct month wins and keeps the earlier medals |
| Scenarios.WrongGuessDoesNotCountHeadline | src/context/gameReducer.ts:150-164 | a miss with headlines left is recorded and advances the index but does not count a headline |
| Scenarios.ThirdMissLoses | src/context/gameReducer.test.ts:418-459 | a miss after three headlines loses, appends to the history, and shows the answer in red on every ring |
| Scenarios.LossKeepsEarnedMedal | src/context/gameReducer.ts:103-147 | a loss keeps an earned gold and turns only the unsolved rings red |
| Scenarios.FirstHeadlineSolvesDecade | src/context/gameReducer.ts:60-96 | from a new day, playing a headline then solving the decade gives gold and moves play to the year |
| Scenarios.ReplayDoesNotCount | src/context/gameReducer.test.ts:643-655 | replaying a headline counts it once |
| Scenarios.SkipStopsAtLastHeadline | src/context/gameReducer.test.ts:712-723 | skipping ahead stops at the third headline |
| Scenarios.BlindGuessesPassLastHeadline | src/context/gameReducer.ts:97-164 | three misses before any headline leave the game not started, nothing heard, and the index at 3 |
| Scenarios.WonGameCanStillBeLost | src/context/gameReducer.ts:103-147 | a late miss after three headlines turns a won game into a lost one |
| Scenarios.DecadeTurnCarriesYear | src/context/gameReducer.ts:36-49 | turning the decade from the 1940s to the 1990s moves 1945 to 1995 |
| Scenarios.LockedYearIgnoresDecadeTurn | src/context/gameReducer.ts:36 | a locked year is not rewritten when the decade is turned |
| Scenarios.CorrectDecadeRewritesLockedYear | src/context/gameReducer.ts:76-89 | a correct 1980s guess rewrites a locked 1995 to 1985 |
| Scenarios.NonNumericDecadeWritesNaN | src/context/gameReducer.ts:37-46 | a decade label parseInt cannot read writes "NaN" into the year |
| Scenarios.HexDecadeIsReadInBase16 | src/context/gameReducer.ts:37-46 | turning the decade to "0x10s" rewrites 1945 as 21, since parseInt reads "0x10" as 16 |
| Scenarios.HexYearKeepsItsLastDigit | src/context/gameReducer.ts:40-46 | a year label "0X1F" is read as 31, so its last digit 1 carries into the 1990s as 1991 |

## Findings

| source | as written | input that shows it | evidently intended | confidence | as-written member | corrected member |
|---|---|---|---|---|---|---|
| src/context/initialState.ts:14-36 | the initial ring states set no `incorrectGuesses`, so the wrong-guess branch (`gameReducer.ts:157-160`) spreads `undefined` and throws | a new day's state, any ring, any wrong guess | every ring starts with an empty guess list, as `types/game.ts:31` declares | high; not executed | InitialState.FirstWrongGuessThrowsAsWritten | InitialState.FirstWrongGuessRecorded |

The rest of the model uses the corrected initial state: `CreateInitialState`
gives each ring an empty guess list.

## Left out

- React state, effects and rendering are not modelled: the provider, `isDragging`, `handleDragStart`, `handleDrag` and the components. The hook's pure computations are modelled.
- Dispatching `ROTATE_RING` from the drag handlers is not modelled. The reducer ignores that action (`Unrecognized`).
- `rotationAngle` in the initial ring literals is dropped. It is not declared on the ring state type and no reducer branch writes it; the dial component and the ring-turn tests read it, and rendering is left out.
- Audio playback, timing and the network are not modelled. They never reach the reducer except as actions.
- InitialState.CreateInitialState: the source sets no `radioStation`, which leaves it `undefined`. The model uses the empty string.
- DragGeometry.Rem360: angles are exact reals, not IEEE doubles. Rounding error in `360 / segmentCount` and in the products is not modelled.
- DragGeometry.DialFor: requires a positive segment count. With 0 segments JavaScript computes with `Infinity` and `NaN`; every ring has 9, 10 or 12.
- DragGeometry.NearestBoundary: computes the normalised rotation as its Euclidean form. `NormalizeIsMod360` proves it equal to the JavaScript double remainder.
- RingRotation.RotationToAlign: returns the integer 0 where JavaScript returns `-0` for index 0. The two compare equal with `===`; the tests' `toBe(-0)` distinguishes them.
- Decimal.ParseInt: `parseInt` also skips leading whitespace and accepts a sign. The model treats such labels as unreadable, so `ShiftedYear` writes "NaN" for them.
- Decimal.ParseInt: the result is an exact integer. `parseInt` returns a double, so a digit run worth 2^53 or more loses its low digits, and above 20 significant digits the ECMAScript standard lets the engine approximate. Only a year label can carry such a run, since a decade is sliced to four characters (`ParseIntOfShort`); for those the year's last digit in `SyncYear` can differ from JavaScript's.
- GameReducer.ShiftedYear: JavaScript `NaN` propagates through the sum and prints as "NaN". Only that printed result is modelled, not `NaN` as a number.
- Numbers in the state (`headlinesHeard`, `currentHeadlineIndex`) are unbounded integers. JavaScript's doubles are exact at every count the game reaches.
