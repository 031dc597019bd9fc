/** The bookkeeping of src/app/components/ExerciseAccordion.tsx: which exercise
    is open, the per-exercise cache of last weights, the set of weight
    requests in flight and the per-exercise loading flags, and the set the
    component asks the editor to add. Rendering is not modelled. */
module Accordion {
  import opened Common
  import opened Workout
  import ExerciseEditor

  const PlaceholderSummary: string := "-- / -- kg"
  const LoadingText: string := "Loading..."

  /** `formatWeightSummary(workingWeight, maxWeight)`. `show` is JavaScript's
      number-to-string conversion, which this model leaves abstract. */
  function FormatWeightSummary(workingWeight: Option<real>, maxWeight: Option<real>, show: real -> string): (r: string)
    ensures workingWeight.None? || maxWeight.None? ==> r == PlaceholderSummary
    ensures workingWeight.Some? && maxWeight.Some? ==>
      r == show(workingWeight.value) + " / " + show(maxWeight.value) + " kg"
    ensures |r| >= 3 && r[|r| - 3..] == " kg"
  {
    if workingWeight.None? || maxWeight.None? then PlaceholderSummary
    else show(workingWeight.value) + " / " + show(maxWeight.value) + " kg"
  }

  /** What a failed weight load caches: every field `null`. */
  const EmptyWeights: ExerciseWeights := ExerciseWeights(None, None, None)

  /** A call of the editor's `onAddSet(exerciseId, defaultWeight, defaultReps)`. */
  datatype AddSetRequest = AddSetRequest(exerciseId: string, defaultWeight: Num, defaultReps: Option<Num>)

  function AsNum(x: Option<real>): Option<Num> {
    match x
    case None => None
    case Some(v) => Some(Finite(v))
  }

  /** The "+ Add set" button of an open exercise: the cached working weight
      or 0, and the cached last reps if there are any. */
  function AddSetButton(cache: map<string, ExerciseWeights>, exerciseId: string): (r: AddSetRequest)
    ensures r.exerciseId == exerciseId
    ensures exerciseId !in cache ==> r.defaultWeight == Finite(0.0) && r.defaultReps.None?
    ensures exerciseId in cache ==>
      r.defaultWeight == Finite(cache[exerciseId].workingWeight.GetOr(0.0))
      && (r.defaultReps.Some? <==> cache[exerciseId].lastReps.Some?)
      && (r.defaultReps.Some? ==> r.defaultReps.value == Finite(cache[exerciseId].lastReps.value))
  {
    if exerciseId in cache then
      AddSetRequest(exerciseId, Finite(cache[exerciseId].workingWeight.GetOr(0.0)), AsNum(cache[exerciseId].lastReps))
    else AddSetRequest(exerciseId, Finite(0.0), None)
  }

  /** `!openExerciseId`: null and the empty string are both falsy. */
  predicate NoneOpen(openExerciseId: Option<string>) {
    openExerciseId.None? || openExerciseId.value == ""
  }

  /** The effect that gives an open exercise without sets its first set, once
      its weights are cached. */
  function AutoAddSet(openExerciseId: Option<string>, exercises: seq<ExerciseEntry>, cache: map<string, ExerciseWeights>): (r: Option<AddSetRequest>)
    ensures r.Some? <==>
      !NoneOpen(openExerciseId)
      && ExerciseEditor.FindExercise(exercises, openExerciseId.value).Some?
      && ExerciseEditor.FindExercise(exercises, openExerciseId.value).value.sets == []
      && openExerciseId.value in cache
    ensures r.Some? ==> r.value.exerciseId == openExerciseId.value
  {
    if NoneOpen(openExerciseId) then None
    else
      match ExerciseEditor.FindExercise(exercises, openExerciseId.value)
      case None => None
      case Some(exercise) =>
        if |exercise.sets| > 0 then None
        else if exercise.id !in cache then None
        else
          var cached := cache[exercise.id];
          Some(AddSetRequest(exercise.id, Finite(cached.workingWeight.GetOr(0.0)), AsNum(cached.lastReps)))
  }

  /** The automatic first set uses the same defaults as the button, and then
      the editor's new set takes exactly those defaults. */
  lemma AutoAddMatchesButton(openExerciseId: Option<string>, exercises: seq<ExerciseEntry>, cache: map<string, ExerciseWeights>)
    requires AutoAddSet(openExerciseId, exercises, cache).Some?
    ensures AutoAddSet(openExerciseId, exercises, cache) == Some(AddSetButton(cache, openExerciseId.value))
    ensures var req := AutoAddSet(openExerciseId, exercises, cache).value;
      var s := ExerciseEditor.NewSet([], "", req.defaultWeight, req.defaultReps);
      s.weight == Finite(cache[openExerciseId.value].workingWeight.GetOr(0.0))
      && s.reps == (if cache[openExerciseId.value].lastReps.Some? then Finite(cache[openExerciseId.value].lastReps.value)
                    else ExerciseEditor.FallbackReps)
  {
  }

  /** The header line: "Loading..." while a load runs, the summary otherwise. */
  function HeaderText(cache: map<string, ExerciseWeights>, loading: map<string, bool>, exerciseId: string, show: real -> string): (r: string)
    ensures exerciseId in loading && loading[exerciseId] ==> r == LoadingText
    ensures !(exerciseId in loading && loading[exerciseId]) && exerciseId in cache ==>
      r == FormatWeightSummary(cache[exerciseId].workingWeight, cache[exerciseId].maxWeight, show)
    ensures !(exerciseId in loading && loading[exerciseId]) && exerciseId !in cache ==> r == PlaceholderSummary
    ensures !(exerciseId in loading && loading[exerciseId]) ==> |r| >= 3 && r[|r| - 3..] == " kg"
  {
    if exerciseId in loading && loading[exerciseId] then LoadingText
    else if exerciseId in cache then FormatWeightSummary(cache[exerciseId].workingWeight, cache[exerciseId].maxWeight, show)
    else FormatWeightSummary(None, None, show)
  }

  class Panel {
    var openExerciseId: Option<string>
    /** `weightCacheRef` and the `weightCache` state, which are always written
        together with the same value. */
    var cache: map<string, ExerciseWeights>
    /** `activeRequestsRef` */
    var inFlight: set<string>
    /** `loadingWeights` */
    var loading: map<string, bool>
    /** Every exercise id a weight request was issued for, oldest first. */
    ghost var requested: seq<string>

    /** A request is in flight exactly while its loading flag is up; no id is
        both in flight and cached; every request ever issued is in flight or
        cached; and no id was requested twice. */
    ghost predicate Valid()
      reads this
    {
      (forall id :: id in inFlight <==> id in loading && loading[id])
      && (forall id :: id in inFlight ==> id !in cache)
      && (forall i :: 0 <= i < |requested| ==> requested[i] in inFlight || requested[i] in cache)
      && (forall i, j :: 0 <= i < j < |requested| ==> requested[i] != requested[j])
    }

    constructor()
      ensures Valid()
      ensures openExerciseId == None && cache == map[] && inFlight == {} && loading == map[] && requested == []
    {
      openExerciseId := None;
      cache := map[];
      inFlight := {};
      loading := map[];
      requested := [];
    }

    /** The effect that keeps an exercise open: the first one opens when none
        is, and an empty list closes everything. */
    method SyncOpen(exercises: seq<ExerciseEntry>)
      modifies this
      ensures |exercises| > 0 && NoneOpen(old(openExerciseId)) ==> openExerciseId == Some(exercises[0].id)
      ensures |exercises| == 0 ==> openExerciseId == None
      ensures |exercises| > 0 && !NoneOpen(old(openExerciseId)) ==> openExerciseId == old(openExerciseId)
      ensures cache == old(cache) && inFlight == old(inFlight) && loading == old(loading) && requested == old(requested)
    {
      if |exercises| > 0 && NoneOpen(openExerciseId) {
        openExerciseId := Some(exercises[0].id);
      } else if |exercises| == 0 {
        openExerciseId := None;
      }
    }

    /** `loadWeights` up to the request: nothing happens for an id that is
        cached or already in flight; otherwise the id goes in flight and its
        loading flag goes up. */
    method StartLoad(exerciseId: string) returns (started: bool)
      requires Valid()
      modifies this
      ensures Valid()
      ensures started <==> exerciseId !in old(cache) && exerciseId !in old(inFlight)
      ensures !started ==> inFlight == old(inFlight) && loading == old(loading) && requested == old(requested)
      ensures started ==> inFlight == old(inFlight) + {exerciseId} && loading == old(loading)[exerciseId := true]
                          && requested == old(requested) + [exerciseId]
      ensures cache == old(cache) && openExerciseId == old(openExerciseId)
    {
      if exerciseId in cache || exerciseId in inFlight {
        return false;
      }
      inFlight := inFlight + {exerciseId};
      loading := loading[exerciseId := true];
      requested := requested + [exerciseId];
      started := true;
    }

    /** The rest of `loadWeights` once the request settled: the weights, or
        all-null ones after a failure, are cached; the id leaves the
        in-flight set and its loading flag goes down. */
    method FinishLoad(exerciseId: string, outcome: Result<ExerciseWeights>)
      requires Valid()
      modifies this
      ensures Valid()
      ensures cache == old(cache)[exerciseId := if outcome.Ok? then outcome.value else EmptyWeights]
      ensures inFlight == old(inFlight) - {exerciseId} && loading == old(loading)[exerciseId := false]
      ensures requested == old(requested) && openExerciseId == old(openExerciseId)
    {
      var weights := if outcome.Ok? then outcome.value else EmptyWeights;
      cache := cache[exerciseId := weights];
      inFlight := inFlight - {exerciseId};
      loading := loading[exerciseId := false];
    }

    /** A click on an exercise's header toggles it, so at most one exercise
        is open, and a load starts only when it opens. */
    method HeaderClick(exercise: ExerciseEntry) returns (started: bool)
      requires Valid()
      modifies this
      ensures Valid()
      ensures old(openExerciseId) == Some(exercise.id) ==> openExerciseId == None && !started
      ensures old(openExerciseId) != Some(exercise.id) ==> openExerciseId == Some(exercise.id)
      ensures started <==> old(openExerciseId) != Some(exercise.id) && exercise.id !in old(cache) && exercise.id !in old(inFlight)
      ensures !started ==> inFlight == old(inFlight) && loading == old(loading) && requested == old(requested)
      ensures started ==> inFlight == old(inFlight) + {exercise.id} && loading == old(loading)[exercise.id := true]
                          && requested == old(requested) + [exercise.id]
      ensures cache == old(cache)
    {
      var nextIsOpen := openExerciseId != Some(exercise.id);
      openExerciseId := if nextIsOpen then Some(exercise.id) else None;
      started := false;
      if nextIsOpen {
        started := StartLoad(exercise.id);
      }
    }
  }
}
