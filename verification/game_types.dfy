/**
 The state shape of the dial game: the three ring kinds, the game status, the
 ring colours, one ring's state, the whole game state and a day's puzzle.
 */
module GameTypes {

  /** The three concentric rings, played in this order. */
  datatype RingType = Decade | Year | Month

  /** Position of a ring in the order the player solves them, outermost first. */
  function RingOrder(t: RingType): nat {
    match t
    case Decade => 0
    case Year => 1
    case Month => 2
  }

  datatype GameStatus = NotStarted | Playing | Won | Lost

  /** The medal a ring earned, or the failure marker of a lost game. */
  datatype RingColor = None | Gold | Silver | Bronze | Red

  const AllRingTypes: seq<RingType> := [Decade, Year, Month]
  const AllGameStatuses: seq<GameStatus> := [NotStarted, Playing, Won, Lost]
  const AllRingColors: seq<RingColor> := [None, Gold, Silver, Bronze, Red]

  /** Each enumeration lists every value exactly once. */
  lemma EnumerationsAreExact()
    ensures forall t: RingType :: t in AllRingTypes
    ensures forall g: GameStatus :: g in AllGameStatuses
    ensures forall c: RingColor :: c in AllRingColors
    ensures |AllRingTypes| == 3 && |AllGameStatuses| == 4 && |AllRingColors| == 5
    ensures forall i, j :: 0 <= i < j < |AllRingTypes| ==> AllRingTypes[i] != AllRingTypes[j]
    ensures forall i, j :: 0 <= i < j < |AllGameStatuses| ==> AllGameStatuses[i] != AllGameStatuses[j]
    ensures forall i, j :: 0 <= i < j < |AllRingColors| ==> AllRingColors[i] != AllRingColors[j]
  {
    forall t: RingType
      ensures t in AllRingTypes
    {
      match t
      case Decade => assert AllRingTypes[0] == t;
      case Year => assert AllRingTypes[1] == t;
      case Month => assert AllRingTypes[2] == t;
    }
    forall g: GameStatus
      ensures g in AllGameStatuses
    {
      match g
      case NotStarted => assert AllGameStatuses[0] == g;
      case Playing => assert AllGameStatuses[1] == g;
      case Won => assert AllGameStatuses[2] == g;
      case Lost => assert AllGameStatuses[3] == g;
    }
    forall c: RingColor
      ensures c in AllRingColors
    {
      match c
      case None => assert AllRingColors[0] == c;
      case Gold => assert AllRingColors[1] == c;
      case Silver => assert AllRingColors[2] == c;
      case Bronze => assert AllRingColors[3] == c;
      case Red => assert AllRingColors[4] == c;
    }
  }

  /** Exactly three strings: the headline audio clips of a day. */
  type Triple = s: seq<string> | |s| == 3 witness ["", "", ""]

  /**
   One ring's state. There is no stored rotation: the display angle is derived
   from `selectedValue`.
   */
  datatype RingState = RingState(
    isLocked: bool,
    color: RingColor,
    selectedValue: string,
    showIncorrectFlash: bool,
    incorrectGuesses: seq<string>)

  /** The day's answer, one label per ring. */
  datatype Answer = Answer(decade: string, year: string, month: string)
  {
    function Get(t: RingType): string {
      match t
      case Decade => decade
      case Year => year
      case Month => month
    }
  }

  /** The `ringStates` record: exactly one ring state per ring kind. */
  datatype Rings = Rings(decade: RingState, year: RingState, month: RingState)
  {
    function Get(t: RingType): RingState {
      match t
      case Decade => decade
      case Year => year
      case Month => month
    }

    /** The record with ring `t` replaced, as the spread `{...rings, [t]: rs}` does. */
    function Set(t: RingType, rs: RingState): (r: Rings)
      ensures r.Get(t) == rs
      ensures forall u :: u != t ==> r.Get(u) == Get(u)
    {
      match t
      case Decade => this.(decade := rs)
      case Year => this.(year := rs)
      case Month => this.(month := rs)
    }
  }

  /** Two ring records that agree on every ring kind are the same record. */
  lemma RingsExtensional(a: Rings, b: Rings)
    requires forall t :: a.Get(t) == b.Get(t)
    ensures a == b
  {
    assert a.Get(Decade) == b.Get(Decade);
    assert a.Get(Year) == b.Get(Year);
    assert a.Get(Month) == b.Get(Month);
  }

  datatype GameState = GameState(
    dailyGameId: string,
    correctAnswer: Answer,
    audioFiles: Triple,
    radioStation: string,
    currentRing: RingType,
    headlinesHeard: int,
    currentHeadlineIndex: int,
    ringStates: Rings,
    gameStatus: GameStatus)

  /** One day's puzzle definition. */
  datatype DailyGame = DailyGame(
    id: string,
    answer: Answer,
    headlines: Triple,
    radioStation: string)
}
