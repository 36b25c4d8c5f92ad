/**
 * Scoring: the combo counter, the best score with its stored copy, and the
 * running score. Scores are C# `int`s, so additions and products wrap
 * around at 32 bits; the wrap is written out as Wrap32. Raised events are
 * recorded as sequences of their arguments.
 */
module Scoring {
  import opened Wrappers

  /** A C# 32-bit signed integer. */
  type Int32 = x: int | -0x8000_0000 <= x < 0x8000_0000

  /** Two's-complement wrap-around of an unbounded result to 32 bits. */
  function Wrap32(x: int): (r: Int32)
    ensures (r - x) % 0x1_0000_0000 == 0
    ensures -0x8000_0000 <= x < 0x8000_0000 ==> r == x
  {
    (x + 0x8000_0000) % 0x1_0000_0000 - 0x8000_0000
  }

  // ---------------------------------------------------------------------------
  // Combo
  // ---------------------------------------------------------------------------

  /** The combo never exceeds nine. */
  const MaxCombo: int := 9

  /** The combo after one more clear: one higher, capped at MaxCombo. */
  function NextCombo(c: int): (r: int)
    ensures r <= MaxCombo
    ensures c < MaxCombo ==> r == c + 1
    ensures c >= MaxCombo ==> r == MaxCombo
  {
    if c + 1 <= MaxCombo then c + 1 else MaxCombo
  }

  /** The score multiplier for a combo: the combo itself, but at least 1. */
  function Multiplier(c: int): (m: int)
    ensures m >= 1 && m >= c
    ensures m == 1 || m == c
  {
    if c >= 1 then c else 1
  }

  /** The combo after n consecutive clears starting from c. */
  function ComboAfter(c: int, n: nat): int {
    if n == 0 then c else NextCombo(ComboAfter(c, n - 1))
  }

  /** From a combo in range, n clears reach min(c + n, MaxCombo). */
  lemma {:induction false} ComboSaturates(c: int, n: nat)
    requires 0 <= c <= MaxCombo
    ensures ComboAfter(c, n) == if c + n <= MaxCombo then c + n else MaxCombo
  {
    if n > 0 {
      ComboSaturates(c, n - 1);
    }
  }

  /** A combo in range gives a multiplier in 1..MaxCombo. */
  lemma MultiplierRange(c: int)
    requires 0 <= c <= MaxCombo
    ensures 1 <= Multiplier(c) <= MaxCombo
  {
  }

  class ComboManager {
    var currentCombo: int
    /** Arguments of every ComboChanged event raised so far. */
    var comboEvents: seq<int>

    /** The combo stays within 0..MaxCombo. */
    ghost predicate Valid()
      reads this
    {
      0 <= currentCombo <= MaxCombo
    }

    constructor ()
      ensures currentCombo == 0 && comboEvents == [] && Valid()
    {
      currentCombo := 0;
      comboEvents := [];
    }

    /** One more clear: the combo rises by one up to the cap, and the event fires even at the cap. */
    method AddCombo()
      requires Valid()
      modifies this
      ensures Valid()
      ensures currentCombo == NextCombo(old(currentCombo))
      ensures comboEvents == old(comboEvents) + [currentCombo]
    {
      currentCombo := if currentCombo + 1 <= MaxCombo then currentCombo + 1 else MaxCombo;
      comboEvents := comboEvents + [currentCombo];
    }

    /** A move without a clear: the combo drops to 0, announcing 0 only when it was positive. */
    method ResetCombo()
      modifies this
      ensures Valid()
      ensures currentCombo == 0
      ensures comboEvents == old(comboEvents) + (if old(currentCombo) > 0 then [0] else [])
    {
      if currentCombo > 0 {
        comboEvents := comboEvents + [0];
      }
      currentCombo := 0;
    }

    /** The current multiplier, between 1 and MaxCombo. */
    method GetComboMultiplier() returns (m: int)
      requires Valid()
      ensures m == Multiplier(currentCombo)
      ensures 1 <= m <= MaxCombo
    {
      m := if currentCombo >= 1 then currentCombo else 1;
    }
  }

  // ---------------------------------------------------------------------------
  // Best score
  // ---------------------------------------------------------------------------

  class BestScoreManager {
    var bestScore: int
    /** The persisted copy under the best-score key; None when the key is absent. */
    var stored: Option<int>
    /** Arguments of every BestScoreUpdated event raised so far. */
    var bestEvents: seq<int>

    /** Reloading the persisted copy (0 when absent) gives the in-memory best. */
    ghost predicate Persisted()
      reads this
    {
      stored.GetOr(0) == bestScore
    }

    /** Loads the persisted best score, 0 when nothing is stored. */
    constructor (saved: Option<int>)
      ensures stored == saved && bestScore == saved.GetOr(0) && bestEvents == []
      ensures Persisted()
    {
      stored := saved;
      bestScore := saved.GetOr(0);
      bestEvents := [];
    }

    /** The best becomes the larger of itself and the score; only a strict improvement is stored and announced. */
    method CheckAndUpdateBestScore(currentScore: int)
      modifies this
      ensures bestScore >= old(bestScore) && bestScore >= currentScore
      ensures bestScore == old(bestScore) || bestScore == currentScore
      ensures currentScore > old(bestScore) ==> stored == Some(currentScore) && bestEvents == old(bestEvents) + [currentScore]
      ensures currentScore <= old(bestScore) ==> stored == old(stored) && bestEvents == old(bestEvents)
      ensures old(Persisted()) ==> Persisted()
    {
      if currentScore > bestScore {
        bestScore := currentScore;
        stored := Some(bestScore);
        bestEvents := bestEvents + [bestScore];
      }
    }

    /** The best drops to 0 and the stored copy is deleted. */
    method ResetBestScore()
      modifies this
      ensures bestScore == 0 && stored == None && bestEvents == old(bestEvents)
      ensures Persisted()
    {
      bestScore := 0;
      stored := None;
    }
  }

  // ---------------------------------------------------------------------------
  // Score
  // ---------------------------------------------------------------------------

  /** Points for placed blocks: count times multiplier, in 32-bit arithmetic. */
  function BlockPoints(blockCount: Int32, combo: int): Int32 {
    Wrap32(blockCount * Multiplier(combo))
  }

  /** Points for cleared lines: count times 8 times multiplier, each product in 32-bit arithmetic. */
  function LinePoints(lineCount: Int32, combo: int): Int32 {
    Wrap32(Wrap32(lineCount * 8) * Multiplier(combo))
  }

  /** Adding points to a score in 32-bit arithmetic. */
  function AddPoints(score: Int32, points: Int32): Int32 {
    Wrap32(score + points)
  }

  /**
   * Without overflow, placing n blocks adds exactly n times the multiplier,
   * so a non-negative count never lowers the score.
   */
  lemma BlockScoreExact(score: Int32, blockCount: Int32, combo: int)
    requires 0 <= combo <= MaxCombo
    requires score + blockCount * Multiplier(combo) < 0x8000_0000 && score + blockCount * Multiplier(combo) >= -0x8000_0000
    requires -0x8000_0000 <= blockCount * Multiplier(combo) < 0x8000_0000
    ensures AddPoints(score, BlockPoints(blockCount, combo)) == score + blockCount * Multiplier(combo)
    ensures blockCount >= 0 ==> AddPoints(score, BlockPoints(blockCount, combo)) >= score
  {
    var m := Multiplier(combo);
    assert blockCount >= 0 ==> blockCount * m >= 0;
  }

  /** A non-negative amount times a factor of at least 1 is at least that amount. */
  lemma ScaleAtLeast(a: int, m: int)
    requires a >= 0 && m >= 1
    ensures a * m >= a
  {
    assert a * m == a + a * (m - 1);
  }

  /**
   * Without overflow, clearing n lines adds exactly n * 8 times the
   * multiplier, so a non-negative count never lowers the score.
   */
  lemma LineScoreExact(score: Int32, lineCount: Int32, combo: int)
    requires 0 <= combo <= MaxCombo && 0 <= lineCount
    requires score + lineCount * 8 * Multiplier(combo) < 0x8000_0000
    requires lineCount * 8 * Multiplier(combo) < 0x8000_0000
    ensures AddPoints(score, LinePoints(lineCount, combo)) == score + lineCount * 8 * Multiplier(combo)
    ensures AddPoints(score, LinePoints(lineCount, combo)) >= score
  {
    var m := Multiplier(combo);
    var p := lineCount * 8;
    ScaleAtLeast(p, m);
    assert Wrap32(p) == p;
    assert p * m == lineCount * 8 * m;
    assert Wrap32(p * m) == p * m;
    assert LinePoints(lineCount, combo) == p * m;
  }

  class ScoreManager {
    var currentScore: Int32
    /** Arguments of every ScoreChanged event raised so far. */
    var scoreEvents: seq<int>
    const combo: ComboManager
    const best: BestScoreManager

    constructor (c: ComboManager, b: BestScoreManager)
      ensures currentScore == 0 && scoreEvents == [] && combo == c && best == b
    {
      currentScore := 0;
      scoreEvents := [];
      combo := c;
      best := b;
    }

    /** Adds blockCount (one by default) times the multiplier, announces the score and offers it as a best score. */
    method AddBlockScore(blockCount: Int32 := 1)
      requires combo.Valid()
      modifies this, best
      ensures currentScore == AddPoints(old(currentScore), BlockPoints(blockCount, combo.currentCombo))
      ensures scoreEvents == old(scoreEvents) + [currentScore]
      ensures best.bestScore >= currentScore && best.bestScore >= old(best.bestScore)
      ensures best.bestScore == old(best.bestScore) || best.bestScore == currentScore
      ensures currentScore > old(best.bestScore) ==>
        best.stored == Some(currentScore) && best.bestEvents == old(best.bestEvents) + [currentScore]
      ensures currentScore <= old(best.bestScore) ==>
        best.stored == old(best.stored) && best.bestEvents == old(best.bestEvents)
      ensures old(best.Persisted()) ==> best.Persisted()
    {
      var comboMultiplier := combo.GetComboMultiplier();
      var scoreToAdd := Wrap32(blockCount * comboMultiplier);
      currentScore := Wrap32(currentScore + scoreToAdd);
      scoreEvents := scoreEvents + [currentScore];
      best.CheckAndUpdateBestScore(currentScore);
    }

    /** Adds lineCount (one by default) times 8 times the multiplier, announces the score and offers it as a best score. */
    method AddClearLineScore(lineCount: Int32 := 1)
      requires combo.Valid()
      modifies this, best
      ensures currentScore == AddPoints(old(currentScore), LinePoints(lineCount, combo.currentCombo))
      ensures scoreEvents == old(scoreEvents) + [currentScore]
      ensures best.bestScore >= currentScore && best.bestScore >= old(best.bestScore)
      ensures best.bestScore == old(best.bestScore) || best.bestScore == currentScore
      ensures currentScore > old(best.bestScore) ==>
        best.stored == Some(currentScore) && best.bestEvents == old(best.bestEvents) + [currentScore]
      ensures currentScore <= old(best.bestScore) ==>
        best.stored == old(best.stored) && best.bestEvents == old(best.bestEvents)
      ensures old(best.Persisted()) ==> best.Persisted()
    {
      var comboMultiplier := combo.GetComboMultiplier();
      var scoreToAdd := Wrap32(Wrap32(lineCount * 8) * comboMultiplier);
      currentScore := Wrap32(currentScore + scoreToAdd);
      scoreEvents := scoreEvents + [currentScore];
      best.CheckAndUpdateBestScore(currentScore);
    }

    /** The score returns to 0 and is announced. */
    method ResetScore()
      modifies this
      ensures currentScore == 0 && scoreEvents == old(scoreEvents) + [0]
    {
      currentScore := 0;
      scoreEvents := scoreEvents + [currentScore];
    }
  }
}
