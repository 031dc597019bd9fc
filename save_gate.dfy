/** The save handler of src/app/hooks/useWorkoutSave.ts: a cooldown gate on the
    time of the last accepted save, the `isSaving` flag, and the toasts the
    outcome produces. The awaited service call splits the handler in two:
    `Begin` runs up to the call, `Finish` runs once its outcome is known. */
module SaveGate {
  import opened Common
  import opened Toasts
  import opened ErrorHandling
  import Constants

  const WaitMessage: string := "Please wait before saving again."
  const SaveFailedMessage: string := "Failed to save workout. Please try again."

  /** The gate: a call at `now` passes when at least the cooldown has elapsed
      since `lastSave`. A clock that went backwards makes the difference
      negative, so such a call is refused as well. */
  predicate Passes(lastSave: int, now: int) {
    now - lastSave >= Constants.SAVE_COOLDOWN_MS
  }

  /** `workoutId.slice(0, 6)` */
  function ShortId(id: string): (r: string)
    ensures |r| <= 6 && r <= id
    ensures |id| >= 6 ==> |r| == 6
    ensures |id| < 6 ==> r == id
  {
    if |id| <= 6 then id else id[..6]
  }

  /** The success toast's text. */
  function SavedMessage(id: string): (r: string)
    ensures 16 <= |r| <= 22 && (|id| >= 6 ==> |r| == 22)
    ensures r[..15] == "Workout saved (" && r[|r| - 1] == ')'
    ensures r[15..|r| - 1] <= id
  {
    "Workout saved (" + ShortId(id) + ")"
  }

  /** Accepted call times, each at least the cooldown after the one before,
      the first at least the cooldown after time 0. */
  ghost predicate Spaced(times: seq<int>) {
    (forall i :: 0 < i < |times| ==> times[i] - times[i - 1] >= Constants.SAVE_COOLDOWN_MS)
    && (|times| > 0 ==> times[0] >= Constants.SAVE_COOLDOWN_MS)
  }

  /** Consecutive spacing adds up: any two accepted calls are at least the
      cooldown apart, times the number of accepted calls between them. */
  lemma {:induction false} SpacedApart(times: seq<int>, i: int, j: int)
    requires Spaced(times)
    requires 0 <= i < j < |times|
    ensures times[j] - times[i] >= (j - i) * Constants.SAVE_COOLDOWN_MS
  {
    if j > i + 1 {
      SpacedApart(times, i, j - 1);
    }
  }

  class Gate {
    var lastSave: int
    var isSaving: bool
    var toasts: seq<Toast>
    /** How many times `onSaved` was invoked. */
    var savedCount: nat
    /** The times of the calls the gate accepted, oldest first. */
    ghost var accepted: seq<int>

    ghost predicate Valid()
      reads this
    {
      Spaced(accepted)
      && lastSave == (if accepted == [] then 0 else accepted[|accepted| - 1])
    }

    constructor()
      ensures Valid() && accepted == []
      ensures lastSave == 0 && !isSaving && toasts == [] && savedCount == 0
    {
      lastSave := 0;
      isSaving := false;
      toasts := [];
      savedCount := 0;
      accepted := [];
    }

    /** `handleSaveWorkout` up to the service call. A refused call only shows
        the wait toast; an accepted one records `now` first, so it counts
        against the next call even if the save then fails. */
    method Begin(now: int) returns (ok: bool)
      requires Valid()
      modifies this
      ensures Valid()
      ensures ok <==> Passes(old(lastSave), now)
      ensures !ok ==> lastSave == old(lastSave) && isSaving == old(isSaving) && accepted == old(accepted)
                      && toasts == old(toasts) + [Toast(WaitMessage, Error)]
      ensures ok ==> lastSave == now && isSaving && accepted == old(accepted) + [now] && toasts == old(toasts)
      ensures savedCount == old(savedCount)
    {
      if now - lastSave < Constants.SAVE_COOLDOWN_MS {
        toasts := toasts + [Toast(WaitMessage, Error)];
        return false;
      }
      lastSave := now;
      accepted := accepted + [now];
      isSaving := true;
      ok := true;
    }

    /** The rest of `handleSaveWorkout` once the service call settled:
        `outcome` is the saved workout's id or the message it threw. */
    method Finish(outcome: Result<string>, isDevelopment: bool)
      requires Valid()
      modifies this
      ensures Valid()
      ensures !isSaving
      ensures outcome.Ok? ==> toasts == old(toasts) + [Toast(SavedMessage(outcome.value), Success)]
                              && savedCount == old(savedCount) + 1
      ensures outcome.Err? ==>
        toasts == old(toasts) + [Toast(GetErrorMessage(ErrorValue(outcome.message), SaveFailedMessage, isDevelopment), Error)]
        && savedCount == old(savedCount)
      ensures lastSave == old(lastSave) && accepted == old(accepted)
    {
      match outcome {
        case Ok(workoutId) =>
          toasts := toasts + [Toast(SavedMessage(workoutId), Success)];
          savedCount := savedCount + 1;
        case Err(message) =>
          toasts := toasts + [Toast(GetErrorMessage(ErrorValue(message), SaveFailedMessage, isDevelopment), Error)];
      }
      isSaving := false;
    }
  }
}
