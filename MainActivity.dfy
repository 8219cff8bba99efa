/**
 * The navigation driver of the main screen, counting logic only: how a session is
 * started or restored from a saved count, what is saved, and how a swipe forward or
 * back moves the session.  Views, gestures, vibration patterns and the completion
 * dialog are reduced to the few fields that record what the screen shows: the
 * position whose prayer and label are displayed, whether the completion dialog was
 * shown, and which kind of haptic feedback the last step asked for.
 */
module Navigation {
  import opened Optional
  import opened Rosary

  /** The saved instance state: the mystery type and the position, either possibly absent. */
  datatype Bundle = Bundle(mysteryType: Option<string>, totalCount: Option<int>)

  /** The mystery type used when none is given. */
  const DefaultMysteryType: string := "joyful"

  /** `getString(KEY_MYSTERY_TYPE, "joyful")`. */
  function SavedMysteryType(saved: Bundle): string
  {
    if saved.mysteryType.Some? then saved.mysteryType.value else DefaultMysteryType
  }

  /** `getInt(KEY_TOTAL_COUNT, 0)`. */
  function SavedCount(saved: Bundle): int
  {
    if saved.totalCount.Some? then saved.totalCount.value else 0
  }

  /** The position a session reaches after `k` steps forward from the start. */
  function Replayed(k: int): int
  {
    if k < 0 then 0 else if k > MaxCount then MaxCount else k
  }

  /** Advancing a session that sits at `Settled(n)` lands on `Settled(n + 1)`, or stays put once complete. */
  method AdvanceSettled(state: RosaryState, n: int)
    requires 0 <= n <= MaxCount && state.Valid() && state.Snapshot() == Settled(n)
    modifies state
    ensures state.Valid()
    ensures state.Snapshot() == Settled(if n < MaxCount then n + 1 else MaxCount)
  {
    var _ := state.Advance(true);
    if n < MaxCount {
      AheadIsSettled(state.Snapshot());
    }
  }

  /** The restore loop: `count` steps forward from the start; a negative count takes none. */
  method Replay(state: RosaryState, count: int)
    requires state.Valid() && state.Snapshot() == Settled(0)
    modifies state
    ensures state.Valid() && state.Snapshot() == Settled(Replayed(count))
  {
    var i := 0;
    while i < count
      invariant 0 <= i <= (if count < 0 then 0 else count)
      invariant state.Valid() && state.Snapshot() == Settled(Replayed(i))
    {
      var n := Replayed(i);
      AdvanceSettled(state, n);
      assert Replayed(i + 1) == if n < MaxCount then n + 1 else MaxCount;
      i := i + 1;
    }
  }

  /**
   * The counting half of `onCreate`: a new session for the mystery type, then either a
   * fresh start, which takes one step forward to position 1, or a restore from a saved
   * count.  A saved count of 0 also takes one step and displays position 1; any other
   * count takes that many steps forward (none for a negative count) and displays the
   * saved count itself.
   */
  method StartSession(mysteryType: string, savedTotalCount: Option<int>) returns (state: RosaryState, position: int)
    ensures fresh(state) && state.Valid() && state.mysteryType == mysteryType
    ensures savedTotalCount.None? || savedTotalCount == Some(0) ==> state.Snapshot() == Settled(1) && position == 1
    ensures savedTotalCount.Some? && savedTotalCount.value != 0 ==>
      state.Snapshot() == Settled(Replayed(savedTotalCount.value)) && position == savedTotalCount.value
  {
    state := new RosaryState(mysteryType);
    if savedTotalCount.None? || savedTotalCount.value == 0 {
      AdvanceSettled(state, 0);
      return state, 1;
    }
    var count := savedTotalCount.value;
    Replay(state, count);
    position := count;
  }

  class MainActivity {
    var rosaryState: RosaryState
    var mysteryType: string
    /** The position whose prayer text and label are on screen. */
    var displayedPosition: int
    /** Whether the completion dialog has been shown. */
    var completionDialogShown: bool
    /** The bead-transition flag passed to the haptic feedback by the last step forward, if any. */
    var beadTransitionFeedback: Option<bool>

    predicate Valid()
      reads this, rosaryState
    {
      rosaryState.Valid() && rosaryState.mysteryType == mysteryType
    }

    /**
     * `onCreate`: the mystery type comes from the saved state, else from a non-empty
     * intent extra, else the default.  A fresh start advances once, to position 1.  A
     * restore replays the saved count with that many steps forward (one step for 0),
     * so a count past the end stops at the end and a negative one stays at 0.
     */
    constructor OnCreate(savedInstanceState: Option<Bundle>, intentMysteryType: Option<string>)
      ensures Valid() && fresh(rosaryState)
      ensures !completionDialogShown && beadTransitionFeedback.None?
      ensures savedInstanceState.Some? ==> mysteryType == SavedMysteryType(savedInstanceState.value)
      ensures savedInstanceState.None? && intentMysteryType.Some? && intentMysteryType.value != "" ==>
        mysteryType == intentMysteryType.value
      ensures savedInstanceState.None? && (intentMysteryType.None? || intentMysteryType.value == "") ==>
        mysteryType == DefaultMysteryType
      ensures savedInstanceState.None? ==>
        rosaryState.Snapshot() == Settled(1) && rosaryState.TotalCount() == 1 && displayedPosition == 1
      ensures savedInstanceState.Some? && SavedCount(savedInstanceState.value) == 0 ==>
        rosaryState.TotalCount() == 1 && displayedPosition == 1
      ensures savedInstanceState.Some? && SavedCount(savedInstanceState.value) != 0 ==>
        var s := SavedCount(savedInstanceState.value);
        && rosaryState.Snapshot() == Settled(Replayed(s))
        && displayedPosition == s
        && (1 <= s <= MaxCount ==> rosaryState.TotalCount() == s)
        && (s > MaxCount ==> rosaryState.TotalCount() == MaxCount && rosaryState.isComplete)
        && (s < 0 ==> rosaryState.TotalCount() == 0)
    {
      var chosenType := DefaultMysteryType;
      if savedInstanceState.Some? {
        chosenType := SavedMysteryType(savedInstanceState.value);
      } else if intentMysteryType.Some? && intentMysteryType.value != "" {
        chosenType := intentMysteryType.value;
      }
      var state, position := StartSession(chosenType,
        if savedInstanceState.Some? then Some(SavedCount(savedInstanceState.value)) else None);
      mysteryType := chosenType;
      rosaryState := state;
      displayedPosition := position;
      completionDialogShown := false;
      beadTransitionFeedback := None;
    }

    /** `onSaveInstanceState`: the mystery type and the current position; `SaveAndRecreate` below is its round trip with `OnCreate`. */
    method OnSaveInstanceState() returns (outState: Bundle)
      ensures outState.mysteryType == Some(mysteryType)
      ensures outState.totalCount == Some(rosaryState.TotalCount())
    {
      outState := Bundle(Some(mysteryType), Some(rosaryState.TotalCount()));
    }

    /**
     * `advanceRosary`: a complete session only shows the completion dialog; any other
     * session takes exactly one step forward and displays the new position.
     */
    method AdvanceRosary(isFinishing: bool)
      requires Valid()
      modifies this, rosaryState
      ensures Valid() && rosaryState == old(rosaryState) && mysteryType == old(mysteryType)
      ensures isFinishing ==> unchanged(this) && unchanged(rosaryState)
      ensures !isFinishing && old(rosaryState.isComplete) ==>
        && unchanged(rosaryState)
        && completionDialogShown
        && displayedPosition == old(displayedPosition)
        && beadTransitionFeedback == old(beadTransitionFeedback)
      ensures !isFinishing && !old(rosaryState.isComplete) ==>
        && rosaryState.TotalCount() == old(rosaryState.TotalCount()) + 1
        && displayedPosition == rosaryState.TotalCount()
        && completionDialogShown == old(completionDialogShown)
        && beadTransitionFeedback == Some(IsBeadTypeTransition(old(rosaryState.Snapshot()), true))
    {
      if isFinishing {
        return;
      }
      var currentCount := rosaryState.TotalCount();
      var wasAtMaxCount := currentCount == MaxCount;
      if currentCount > MaxCount || rosaryState.isComplete {
        // checkCompletion: the dialog is shown when the session is complete
        if rosaryState.isComplete {
          completionDialogShown := true;
        }
        return;
      }
      var isBeadTransition := IsBeadTypeTransition(rosaryState.Snapshot(), true);
      var _ := rosaryState.Advance(true);
      // The source's "just completed" branch needs position 80 before the step and a
      // position past 80 after it; position 80 is always complete, and no position exceeds 80.
      assert !wasAtMaxCount && rosaryState.TotalCount() <= MaxCount;
      displayedPosition := rosaryState.TotalCount();
      beadTransitionFeedback := Some(isBeadTransition);
    }

    /**
     * `previousRosary`: nothing happens at position 1 or before; otherwise the screen
     * shows the previous position and the session takes one step back.  From the
     * completed position 80 the step back lands on 78 while position 79 is displayed.
     */
    method PreviousRosary(isFinishing: bool)
      requires Valid()
      modifies this, rosaryState
      ensures Valid() && rosaryState == old(rosaryState) && mysteryType == old(mysteryType)
      ensures isFinishing || old(rosaryState.TotalCount()) <= 1 ==> unchanged(this) && unchanged(rosaryState)
      ensures !isFinishing && old(rosaryState.TotalCount()) > 1 ==>
        && displayedPosition == old(rosaryState.TotalCount()) - 1
        && rosaryState.TotalCount() == (if old(rosaryState.isComplete) then 78 else old(rosaryState.TotalCount()) - 1)
        && completionDialogShown == old(completionDialogShown)
        && beadTransitionFeedback == old(beadTransitionFeedback)
    {
      if isFinishing {
        return;
      }
      var currentCount := rosaryState.TotalCount();
      if currentCount <= 1 {
        return;
      }
      var previousCount := currentCount - 1;
      displayedPosition := previousCount;
      var _ := rosaryState.GoBack(true);
    }
  }

  /**
   * Saving a session and recreating the screen from the saved state resumes at the same
   * position, with the same mystery type, for every position from 1 on; the restored
   * session is the canonical one for that position, which is the saved one itself
   * whenever its counter is not at the start of a stage.
   */
  method SaveAndRecreate(activity: MainActivity) returns (recreated: MainActivity)
    requires activity.Valid() && activity.rosaryState.TotalCount() >= 1
    ensures fresh(recreated) && fresh(recreated.rosaryState) && recreated.Valid()
    ensures recreated.mysteryType == activity.mysteryType
    ensures recreated.rosaryState.TotalCount() == activity.rosaryState.TotalCount()
    ensures recreated.displayedPosition == activity.rosaryState.TotalCount()
    ensures recreated.rosaryState.Snapshot() == Settled(activity.rosaryState.TotalCount())
    ensures activity.rosaryState.prayerCount >= 1 ==> recreated.rosaryState.Snapshot() == activity.rosaryState.Snapshot()
  {
    var outState := activity.OnSaveInstanceState();
    recreated := new MainActivity.OnCreate(Some(outState), None);
    if activity.rosaryState.prayerCount >= 1 {
      AheadIsSettled(activity.rosaryState.Snapshot());
    }
  }
}
