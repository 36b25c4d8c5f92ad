/** Level progression over a fixed list of level descriptions. */
module Levels {
  import opened Wrappers

  /** One level's description; the difficulty is a float in the game. */
  datatype LevelData = LevelData(levelNumber: int, targetScore: int, moves: int, difficulty: real)

  /** The index NextLevel loads: the next one, or the first after the last. */
  function NextIndex(i: int, count: nat): (r: int)
    ensures count > 0 && 0 <= i < count ==> 0 <= r < count
  {
    if i < count - 1 then i + 1 else 0
  }

  /** The index after k calls of NextLevel. */
  function Advance(i: int, count: nat, k: nat): int {
    if k == 0 then i else NextIndex(Advance(i, count, k - 1), count)
  }

  /** Advancing a then b times is advancing a + b times. */
  lemma {:induction false} AdvanceAdd(i: int, count: nat, a: nat, b: nat)
    ensures Advance(i, count, a + b) == Advance(Advance(i, count, a), count, b)
  {
    if b > 0 {
      AdvanceAdd(i, count, a, b - 1);
    }
  }

  /** Below the last index, k advances just count up. */
  lemma {:induction false} AdvanceCountsUp(i: int, count: nat, k: nat)
    requires 0 <= i && i + k < count
    ensures Advance(i, count, k) == i + k
  {
    if k > 0 {
      AdvanceCountsUp(i, count, k - 1);
    }
  }

  /** From any valid index, count advances come back to it: the levels are visited in a cycle. */
  lemma AdvanceCycles(i: int, count: nat)
    requires 0 <= i < count
    ensures Advance(i, count, count) == i
  {
    AdvanceCountsUp(i, count, count - 1 - i);
    AdvanceAdd(i, count, count - 1 - i, 1);
    assert Advance(i, count, count - i) == 0;
    AdvanceCountsUp(0, count, i);
    AdvanceAdd(i, count, count - i, i);
  }

  class LevelManager {
    const levels: seq<LevelData>
    var currentLevelIndex: int
    /** The loaded level; None before any level is loaded. */
    var currentLevel: Option<LevelData>
    /** Index argument of every OnLevelLoaded, OnLevelCompleted and OnLevelFailed event. */
    var loadedEvents: seq<int>
    var completedEvents: seq<int>
    var failedEvents: seq<int>

    /** Either nothing is loaded at index 0, or the loaded level is the one at the current index. */
    ghost predicate Valid()
      reads this
    {
      (currentLevel == None && currentLevelIndex == 0) ||
      (0 <= currentLevelIndex < |levels| && currentLevel == Some(levels[currentLevelIndex]))
    }

    /** Starts at index 0 and loads the first level when there is one. */
    constructor (configured: seq<LevelData>)
      ensures levels == configured && currentLevelIndex == 0 && Valid()
      ensures |levels| == 0 ==> currentLevel == None && loadedEvents == []
      ensures |levels| > 0 ==> currentLevel == Some(levels[0]) && loadedEvents == [0]
      ensures completedEvents == [] && failedEvents == []
    {
      levels := configured;
      currentLevelIndex := 0;
      currentLevel := None;
      loadedEvents := [];
      completedEvents := [];
      failedEvents := [];
      new;
      if |levels| == 0 {
        return;
      }
      LoadLevel(0);
    }

    /** The 1-based number of the current level. */
    function CurrentLevel(): (n: int)
      reads this
      ensures Valid() && currentLevel.Some? ==> 1 <= n <= |levels|
    {
      currentLevelIndex + 1
    }

    function TotalLevels(): nat {
      |levels|
    }

    /** The current index is the last one (always true without levels). */
    predicate IsLastLevel()
      reads this
    {
      currentLevelIndex >= |levels| - 1
    }

    /** An index in range is loaded and announced; any other index changes nothing. */
    method LoadLevel(index: int)
      modifies this
      ensures !(0 <= index < |levels|) ==>
        currentLevelIndex == old(currentLevelIndex) && currentLevel == old(currentLevel) && loadedEvents == old(loadedEvents)
      ensures 0 <= index < |levels| ==>
        currentLevelIndex == index && currentLevel == Some(levels[index]) && loadedEvents == old(loadedEvents) + [index]
      ensures old(Valid()) ==> Valid()
      ensures completedEvents == old(completedEvents) && failedEvents == old(failedEvents)
    {
      if index < 0 || index >= |levels| {
        return;
      }
      currentLevelIndex := index;
      currentLevel := Some(levels[index]);
      loadedEvents := loadedEvents + [currentLevelIndex];
    }

    /** Loads the following level, wrapping to the first after the last. */
    method NextLevel()
      modifies this
      ensures old(Valid()) && |levels| > 0 ==>
        currentLevelIndex == NextIndex(old(currentLevelIndex), |levels|) &&
        currentLevel == Some(levels[currentLevelIndex]) && loadedEvents == old(loadedEvents) + [currentLevelIndex]
      ensures var next := NextIndex(old(currentLevelIndex), |levels|);
        if 0 <= next < |levels| then
          currentLevelIndex == next && currentLevel == Some(levels[next]) && loadedEvents == old(loadedEvents) + [next]
        else
          currentLevelIndex == old(currentLevelIndex) && currentLevel == old(currentLevel) && loadedEvents == old(loadedEvents)
      ensures |levels| == 0 ==> currentLevelIndex == old(currentLevelIndex) && currentLevel == old(currentLevel)
      ensures completedEvents == old(completedEvents) && failedEvents == old(failedEvents)
      ensures old(Valid()) ==> Valid()
    {
      if currentLevelIndex < |levels| - 1 {
        LoadLevel(currentLevelIndex + 1);
      } else {
        LoadLevel(0);
      }
    }

    /** Reloads the current index. */
    method RestartLevel()
      modifies this
      ensures currentLevelIndex == old(currentLevelIndex)
      ensures 0 <= old(currentLevelIndex) < |levels| ==>
        currentLevel == Some(levels[currentLevelIndex]) && loadedEvents == old(loadedEvents) + [currentLevelIndex]
      ensures !(0 <= old(currentLevelIndex) < |levels|) ==>
        currentLevel == old(currentLevel) && loadedEvents == old(loadedEvents)
      ensures old(Valid()) && old(currentLevel).Some? ==>
        currentLevel == old(currentLevel) && loadedEvents == old(loadedEvents) + [currentLevelIndex]
      ensures completedEvents == old(completedEvents) && failedEvents == old(failedEvents)
      ensures old(Valid()) ==> Valid()
    {
      LoadLevel(currentLevelIndex);
    }

    /** Announces the completion of the current level. */
    method CompleteLevel()
      modifies this
      ensures completedEvents == old(completedEvents) + [currentLevelIndex]
      ensures currentLevelIndex == old(currentLevelIndex) && currentLevel == old(currentLevel)
      ensures loadedEvents == old(loadedEvents) && failedEvents == old(failedEvents)
    {
      completedEvents := completedEvents + [currentLevelIndex];
    }

    /** Announces the failure of the current level. */
    method FailLevel()
      modifies this
      ensures failedEvents == old(failedEvents) + [currentLevelIndex]
      ensures currentLevelIndex == old(currentLevelIndex) && currentLevel == old(currentLevel)
      ensures loadedEvents == old(loadedEvents) && completedEvents == old(completedEvents)
    {
      failedEvents := failedEvents + [currentLevelIndex];
    }

    /** Loads the level with the given 1-based number, if it exists. */
    method JumpToLevel(levelNumber: int)
      modifies this
      ensures GetLevelData(levelNumber).Some? ==>
        currentLevel == GetLevelData(levelNumber) && CurrentLevel() == levelNumber &&
        loadedEvents == old(loadedEvents) + [levelNumber - 1]
      ensures GetLevelData(levelNumber).None? ==>
        currentLevelIndex == old(currentLevelIndex) && currentLevel == old(currentLevel) && loadedEvents == old(loadedEvents)
      ensures completedEvents == old(completedEvents) && failedEvents == old(failedEvents)
      ensures old(Valid()) ==> Valid()
    {
      LoadLevel(levelNumber - 1);
    }

    /** The level with the given 1-based number, or None when there is none. */
    function GetLevelData(levelNumber: int): (r: Option<LevelData>)
      ensures r.Some? <==> 1 <= levelNumber <= |levels|
      ensures r.Some? ==> r.value == levels[levelNumber - 1]
    {
      var index := levelNumber - 1;
      if 0 <= index < |levels| then Some(levels[index]) else None
    }
  }

  /** Once a level is loaded, looking up the current level number gives the loaded level. */
  lemma LoadedLevelIsCurrent(m: LevelManager)
    requires m.Valid() && m.currentLevel.Some?
    ensures m.GetLevelData(m.CurrentLevel()) == m.currentLevel
    ensures m.IsLastLevel() <==> m.currentLevelIndex == |m.levels| - 1
  {
  }
}
