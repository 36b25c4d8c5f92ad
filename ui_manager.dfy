/**
 * Popup bookkeeping: a stack of shown popups (top at the end of the
 * sequence) and a map from the requested popup type to the popup shown for
 * it. Popups come from the first object pool; every one of them has the
 * prefab's runtime type, which is the key HideTopPopup and HideAllPopups
 * remove, whatever type the popup was shown under.
 */
module Popups {
  import opened PoolObjects
  import opened PoolCore

  /** What hiding every popup of a stack, top first, does to the pool. */
  function AfterHideAll(s: PoolState, stack: seq<PooledObject?>): PoolState
    decreases |stack|
  {
    if |stack| == 0 then s
    else AfterHideAll(AfterDespawn(s, stack[|stack| - 1]), stack[..|stack| - 1])
  }

  /**
   * Hiding every popup leaves none of the live popups of the stack active,
   * activates nothing, and keeps the old queue as a prefix of the new one.
   */
  lemma {:induction false} AfterHideAllShape(s: PoolState, stack: seq<PooledObject?>)
    ensures AfterHideAll(s, stack).active <= s.active
    ensures s.available <= AfterHideAll(s, stack).available
    ensures forall i :: 0 <= i < |stack| && stack[i] != null ==> stack[i] !in AfterHideAll(s, stack).active
    decreases |stack|
  {
    if |stack| > 0 {
      var top := stack[|stack| - 1];
      var init := stack[..|stack| - 1];
      var t := AfterDespawn(s, top);
      AfterDespawnShape(s, top);
      AfterHideAllShape(t, init);
      assert forall i :: 0 <= i < |init| ==> init[i] == stack[i];
    }
  }

  class UIManager {
    /** Shown popups, the top of the stack last; null stands for a destroyed popup. */
    var popupStack: seq<PooledObject?>
    var activePopups: map<string, PooledObject>
    /** Type of every OnPopupShown and OnPopupHidden event raised so far. */
    var shownEvents: seq<string>
    var hiddenEvents: seq<string>
    const popupPool: ObjectPool

    constructor (pool: ObjectPool)
      ensures popupPool == pool && popupStack == [] && activePopups == map[]
      ensures shownEvents == [] && hiddenEvents == []
    {
      popupPool := pool;
      popupStack := [];
      activePopups := map[];
      shownEvents := [];
      hiddenEvents := [];
    }

    /** The number of popups on the stack. */
    function ActivePopupCount(): nat
      reads this
    {
      |popupStack|
    }

    /** Whether a popup is recorded for the type. */
    predicate IsPopupActive(popupType: string)
      reads this
    {
      popupType in activePopups
    }

    /**
     * A type already shown gives back its popup and changes nothing;
     * otherwise a popup is spawned from the pool, pushed, recorded under the
     * type and announced.
     */
    method ShowPopup(popupType: string) returns (popup: PooledObject)
      modifies this, popupPool
      ensures popupType in old(activePopups) ==>
        popup == old(activePopups)[popupType] && popupStack == old(popupStack) &&
        activePopups == old(activePopups) && shownEvents == old(shownEvents) &&
        popupPool.available == old(popupPool.available) && popupPool.active == old(popupPool.active)
      ensures popupType !in old(activePopups) ==>
        popupStack == old(popupStack) + [popup] && activePopups == old(activePopups)[popupType := popup] &&
        shownEvents == old(shownEvents) + [popupType] &&
        popupPool.active == old(popupPool.active) + {popup} &&
        (|old(popupPool.available)| > 0 ==>
          popup == old(popupPool.available)[0] && popupPool.available == old(popupPool.available)[1..]) &&
        (|old(popupPool.available)| == 0 ==> fresh(popup) && popupPool.available == [popup]) &&
        (old(popupPool.OfPrefab()) ==> popup.kind == popupPool.prefabKind)
      ensures old(popupPool.OfPrefab()) ==> popupPool.OfPrefab()
      ensures hiddenEvents == old(hiddenEvents)
    {
      if popupType in activePopups {
        popup := activePopups[popupType];
        return;
      }
      popup := popupPool.Spawn();
      popupStack := popupStack + [popup];
      activePopups := activePopups[popupType := popup];
      shownEvents := shownEvents + [popupType];
    }

    /**
     * An inactive type changes nothing. Otherwise its record is removed, the
     * popup is popped only if it is on top, returned to the pool and the
     * hiding announced.
     */
    method HidePopup(popupType: string)
      modifies this, popupPool
      ensures popupType !in old(activePopups) ==>
        popupStack == old(popupStack) && activePopups == old(activePopups) && hiddenEvents == old(hiddenEvents) &&
        popupPool.available == old(popupPool.available) && popupPool.active == old(popupPool.active)
      ensures popupType in old(activePopups) ==>
        activePopups == old(activePopups) - {popupType} &&
        popupStack == (if |old(popupStack)| > 0 && old(popupStack)[|old(popupStack)| - 1] == old(activePopups)[popupType]
                       then old(popupStack)[..|old(popupStack)| - 1] else old(popupStack)) &&
        hiddenEvents == old(hiddenEvents) + [popupType] &&
        popupPool.State() == AfterDespawn(old(popupPool.State()), old(activePopups)[popupType])
      ensures shownEvents == old(shownEvents)
      ensures old(popupPool.OfPrefab()) ==> popupPool.OfPrefab()
    {
      if popupType !in activePopups {
        return;
      }
      var popup := activePopups[popupType];
      activePopups := activePopups - {popupType};
      if |popupStack| > 0 && popupStack[|popupStack| - 1] == popup {
        popupStack := popupStack[..|popupStack| - 1];
      }
      popupPool.Despawn(popup);
      hiddenEvents := hiddenEvents + [popupType];
    }

    /** Pops every popup, removing the record for its runtime type and returning it to the pool; then forgets every record. */
    method HideAllPopups()
      modifies this, popupPool
      ensures popupStack == [] && activePopups == map[]
      ensures popupPool.State() == AfterHideAll(old(popupPool.State()), old(popupStack))
      ensures shownEvents == old(shownEvents) && hiddenEvents == old(hiddenEvents)
    {
      while |popupStack| > 0
        invariant AfterHideAll(popupPool.State(), popupStack) == AfterHideAll(old(popupPool.State()), old(popupStack))
        invariant shownEvents == old(shownEvents) && hiddenEvents == old(hiddenEvents)
        decreases |popupStack|
      {
        var popup := popupStack[|popupStack| - 1];
        popupStack := popupStack[..|popupStack| - 1];
        if popup != null {
          activePopups := activePopups - {popup.kind};
          popupPool.Despawn(popup);
        }
      }
      activePopups := map[];
    }

    /**
     * Pops at most one popup; a live one loses the record under its runtime
     * type (not necessarily the type it was shown under) and goes back to
     * the pool.
     */
    method HideTopPopup()
      modifies this, popupPool
      ensures |old(popupStack)| == 0 ==> popupStack == [] && activePopups == old(activePopups)
      ensures |old(popupStack)| > 0 ==> popupStack == old(popupStack)[..|old(popupStack)| - 1]
      ensures |old(popupStack)| > 0 && old(popupStack)[|old(popupStack)| - 1] != null ==>
        activePopups == old(activePopups) - {old(popupStack)[|old(popupStack)| - 1].kind}
      ensures |old(popupStack)| > 0 && old(popupStack)[|old(popupStack)| - 1] == null ==>
        activePopups == old(activePopups)
      ensures |old(popupStack)| == 0 ==> popupPool.State() == old(popupPool.State())
      ensures |old(popupStack)| > 0 ==>
        popupPool.State() == AfterDespawn(old(popupPool.State()), old(popupStack)[|old(popupStack)| - 1])
      ensures shownEvents == old(shownEvents) && hiddenEvents == old(hiddenEvents)
    {
      if |popupStack| > 0 {
        var popup := popupStack[|popupStack| - 1];
        popupStack := popupStack[..|popupStack| - 1];
        if popup != null {
          activePopups := activePopups - {popup.kind};
          popupPool.Despawn(popup);
        }
      }
    }
  }

  /**
   * Showing a popup under a type other than the prefab's runtime type and
   * then hiding the top popup empties the stack slot but leaves the type
   * recorded as active.
   */
  method HideTopLeavesStaleRecord(ui: UIManager, popupType: string)
    requires popupType !in ui.activePopups && popupType != ui.popupPool.prefabKind
    requires ui.popupPool.OfPrefab()
    modifies ui, ui.popupPool
    ensures ui.popupStack == old(ui.popupStack) && ui.IsPopupActive(popupType)
  {
    var popup := ui.ShowPopup(popupType);
    ui.HideTopPopup();
  }
}
