/**
 Sequences of actions folded through the reducer, and what stays true along
 them: the headline budget, locks, the guess history and the day's puzzle.
 */
module Reachability {
  import opened GameTypes
  import opened GameReducer
  import opened InitialState

  /** The state after dispatching the actions in order. */
  function Run(s: GameState, acts: seq<Action>): (r: GameState)
    decreases |acts|
  {
    if |acts| == 0 then s else Run(Step(s, acts[0]), acts[1..])
  }

  /** Dispatching a sequence and then another is dispatching their concatenation. */
  lemma {:induction false} RunAppend(s: GameState, xs: seq<Action>, ys: seq<Action>)
    ensures Run(s, xs + ys) == Run(Run(s, xs), ys)
    decreases |xs|
  {
    if |xs| == 0 {
      assert xs + ys == ys;
    } else {
      assert (xs + ys)[1..] == xs[1..] + ys;
      RunAppend(Step(s, xs[0]), xs[1..], ys);
    }
  }

  /** A reset discards everything dispatched before it: the run continues from the installed state. */
  lemma RunAfterReset(s: GameState, before: seq<Action>, installed: GameState, after: seq<Action>)
    ensures Run(s, before + [ResetGame(installed)] + after) == Run(installed, after)
  {
    RunAppend(s, before + [ResetGame(installed)], after);
    RunAppend(s, before, [ResetGame(installed)]);
    assert Run(Run(s, before), [ResetGame(installed)]) == Run(installed, []);
  }

  predicate NoReset(acts: seq<Action>) {
    forall i :: 0 <= i < |acts| ==> !acts[i].ResetGame?
  }

  /**
   The headline counters as the reducer keeps them: at most three headlines
   heard, at most one more than the index of the current headline, and the
   third only once the index has reached the last headline.
   */
  predicate HeadlineBudget(s: GameState) {
    && 0 <= s.headlinesHeard <= 3
    && 0 <= s.currentHeadlineIndex
    && s.headlinesHeard <= s.currentHeadlineIndex + 1
    && (s.headlinesHeard == 3 ==> s.currentHeadlineIndex == 2)
  }

  /** Every reset in the sequence installs a state within the budget. */
  predicate ResetsWithinBudget(acts: seq<Action>) {
    forall i :: 0 <= i < |acts| && acts[i].ResetGame? ==> HeadlineBudget(acts[i].newState)
  }

  lemma InitialStateWithinBudget(g: DailyGame)
    ensures HeadlineBudget(CreateInitialState(g))
  {
  }

  /** One action keeps the budget. */
  lemma StepKeepsBudget(s: GameState, a: Action)
    requires HeadlineBudget(s)
    requires a.ResetGame? ==> HeadlineBudget(a.newState)
    ensures HeadlineBudget(Step(s, a))
  {
  }

  /** Any run keeps the budget, so headlinesHeard never exceeds three. */
  lemma {:induction false} RunKeepsBudget(s: GameState, acts: seq<Action>)
    requires HeadlineBudget(s) && ResetsWithinBudget(acts)
    ensures HeadlineBudget(Run(s, acts))
    ensures 0 <= Run(s, acts).headlinesHeard <= 3
    decreases |acts|
  {
    if |acts| > 0 {
      StepKeepsBudget(s, acts[0]);
      assert ResetsWithinBudget(acts[1..]) by {
        forall i | 0 <= i < |acts[1..]| && acts[1..][i].ResetGame?
          ensures HeadlineBudget(acts[1..][i].newState)
        {
          assert acts[1..][i] == acts[i + 1];
        }
      }
      RunKeepsBudget(Step(s, acts[0]), acts[1..]);
    }
  }

  /** From a new day's state, no sequence of play without resets hears a fourth headline. */
  lemma NeverMoreThanThreeHeadlines(g: DailyGame, acts: seq<Action>)
    requires NoReset(acts)
    ensures Run(CreateInitialState(g), acts).headlinesHeard <= 3
  {
    InitialStateWithinBudget(g);
    RunKeepsBudget(CreateInitialState(g), acts);
  }

  /** The part of a state no action but a reset changes. */
  predicate SamePuzzle(s: GameState, r: GameState) {
    && r.dailyGameId == s.dailyGameId
    && r.correctAnswer == s.correctAnswer
    && r.audioFiles == s.audioFiles
    && r.radioStation == s.radioStation
  }

  /**
   Without resets, a run only ever adds: every locked ring stays locked, every
   ring's guess history is extended, and the puzzle stays the same.
   */
  lemma {:induction false} RunOnlyAdds(s: GameState, acts: seq<Action>)
    requires NoReset(acts)
    ensures SamePuzzle(s, Run(s, acts))
    ensures forall t :: s.ringStates.Get(t).isLocked ==> Run(s, acts).ringStates.Get(t).isLocked
    ensures forall t :: s.ringStates.Get(t).incorrectGuesses <= Run(s, acts).ringStates.Get(t).incorrectGuesses
    decreases |acts|
  {
    if |acts| > 0 {
      var next := Step(s, acts[0]);
      assert !acts[0].ResetGame?;
      assert NoReset(acts[1..]) by {
        forall i | 0 <= i < |acts[1..]|
          ensures !acts[1..][i].ResetGame?
        {
          assert acts[1..][i] == acts[i + 1];
        }
      }
      RunOnlyAdds(next, acts[1..]);
    }
  }

  /** Without a play or a reset, the count of headlines heard does not move. */
  lemma {:induction false} OnlyPlayCountsHeadlines(s: GameState, acts: seq<Action>)
    requires forall i :: 0 <= i < |acts| ==> !acts[i].ResetGame? && !acts[i].PlayHeadline?
    ensures Run(s, acts).headlinesHeard == s.headlinesHeard
    decreases |acts|
  {
    if |acts| > 0 {
      assert !acts[0].ResetGame? && !acts[0].PlayHeadline?;
      assert forall i :: 0 <= i < |acts[1..]| ==> acts[1..][i] == acts[i + 1];
      OnlyPlayCountsHeadlines(Step(s, acts[0]), acts[1..]);
    }
  }

  /**
   The only ways to reach a lost game: the lose action, a reset, or a wrong
   guess once three headlines have been heard.
   */
  lemma LossNeedsThreeHeadlines(s: GameState, a: Action)
    requires s.gameStatus != Lost && Step(s, a).gameStatus == Lost
    ensures a.LoseGame? || a.ResetGame? || (a.SubmitGuess? && !a.isCorrect && s.headlinesHeard >= 3)
  {
  }

  /**
   The only ways to reach a won game: the win action, a reset, or a correct
   guess on the month ring.
   */
  lemma WinNeedsMonth(s: GameState, a: Action)
    requires s.gameStatus != Won && Step(s, a).gameStatus == Won
    ensures a.WinGame? || a.ResetGame? || (a.SubmitGuess? && a.isCorrect && a.ringType == Month)
  {
  }
}
