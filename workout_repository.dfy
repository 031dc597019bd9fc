/** The workout repository of src/app/lib/repositories/workoutRepository.ts:
    it maps the payload to the arguments of the atomic save procedure, calls
    it, and checks the identifier that comes back. The procedure call is a
    parameter: a function from arguments to the reply storage gives. */
module WorkoutRepository {
  import opened Common
  import opened Workout
  import opened Normalize
  import opened ErrorHandling
  import opened TypeGuards
  import opened Text

  /** One exercise as the procedure receives it; a missing template exercise
      id is sent as `null` (`None`). */
  datatype ExerciseRow = ExerciseRow(name: string, templateExerciseId: Option<string>, sets: seq<SetPayload>)

  /** `p_date`, `p_template_id` and `p_exercises`. */
  datatype SaveArgs = SaveArgs(date: string, templateId: Option<string>, exercises: seq<ExerciseRow>)

  /** `{ data, error }` as the storage client returns it. */
  datatype RpcReply = RpcReply(data: JsValue, error: Option<SupabaseError>)

  const SaveFailedMessage: string := "Failed to save workout."

  /** `exercise.sets.map(set => ({ weight, reps }))`: each set keeps its
      weight and reps, in order. */
  function SetRows(sets: seq<SetPayload>): (r: seq<SetPayload>)
    ensures |r| == |sets|
    ensures forall j :: 0 <= j < |sets| ==> r[j].weight == sets[j].weight && r[j].reps == sets[j].reps
  {
    if sets == [] then [] else [SetPayload(sets[0].weight, sets[0].reps)] + SetRows(sets[1..])
  }

  /** One exercise as it is sent: the name normalized, the template exercise
      id (or `null`) and the sets unchanged. */
  function ExerciseRowOf(e: ExercisePayload): (r: ExerciseRow)
    ensures r.name == NormalizeExerciseName(e.name)
    ensures r.sets == e.sets && r.templateExerciseId == e.templateExerciseId
  {
    var sets := SetRows(e.sets);
    assert sets == e.sets;
    ExerciseRow(NormalizeExerciseName(e.name), e.templateExerciseId, sets)
  }

  /** `workout.exercises.map(...)`: every exercise is sent, in order. */
  function ExerciseRows(exercises: seq<ExercisePayload>): (r: seq<ExerciseRow>)
    ensures |r| == |exercises|
    ensures forall i :: 0 <= i < |exercises| ==> r[i] == ExerciseRowOf(exercises[i])
  {
    seq(|exercises|, i requires 0 <= i < |exercises| => ExerciseRowOf(exercises[i]))
  }

  /** Every name sent is in normal form: normalizing it again changes
      nothing, and it is a clean name of at most 200 UTF-16 code units. */
  lemma ExerciseRowsCanonical(exercises: seq<ExercisePayload>)
    ensures forall i :: 0 <= i < |exercises| ==>
      var name := ExerciseRows(exercises)[i].name;
      NormalizeExerciseName(name) == name && CleanName(name) && Utf16Length(name) <= 200
  {
    forall i | 0 <= i < |exercises|
      ensures var name := ExerciseRows(exercises)[i].name;
        NormalizeExerciseName(name) == name && CleanName(name) && Utf16Length(name) <= 200
    {
      NormalizeIdempotent(exercises[i].name);
      NormalizeOutput(exercises[i].name);
    }
  }

  /** The arguments of `save_workout_atomic`: the date and template id as
      given, and every exercise under its normalized name, in order. */
  function SaveArgsOf(workout: WorkoutPayload): (args: SaveArgs)
    ensures args.date == workout.date && args.templateId == workout.templateId
    ensures |args.exercises| == |workout.exercises|
    ensures forall i :: 0 <= i < |workout.exercises| ==>
      args.exercises[i].name == NormalizeExerciseName(workout.exercises[i].name)
      && args.exercises[i].templateExerciseId == workout.exercises[i].templateExerciseId
      && args.exercises[i].sets == workout.exercises[i].sets
  {
    SaveArgs(workout.date, workout.templateId, ExerciseRows(workout.exercises))
  }

  /** `saveWorkout(workout)`: a storage error or a falsy id throws the
      classified message, a non-string id throws "Failed to save workout.",
      and a string id is returned only if it is a well-formed UUID. */
  function SaveWorkout(workout: WorkoutPayload, rpc: SaveArgs -> RpcReply): (r: Result<string>)
    ensures var reply := rpc(SaveArgsOf(workout));
      (reply.error.Some? || !IsTruthy(reply.data) ==> r == HandleSupabaseError(reply.error, SaveFailedMessage))
      && (reply.error.None? && IsTruthy(reply.data) && !reply.data.JsString? ==> r == Err(SaveFailedMessage))
      && (reply.error.None? && IsTruthy(reply.data) && reply.data.JsString? ==> r == AssertUuid(reply.data.s))
      && (r.Ok? ==> reply.error.None? && reply.data == JsString(r.value) && IsUuid(r.value))
  {
    var reply := rpc(SaveArgsOf(workout));
    if reply.error.Some? || !IsTruthy(reply.data) then
      HandleSupabaseError(reply.error, SaveFailedMessage)
    else if !reply.data.JsString? then
      Err(SaveFailedMessage)
    else
      AssertUuid(reply.data.s)
  }

  /** Whatever storage replies, a failed save carries one of the fixed
      messages or names the malformed id; the backend's own text never
      reaches the caller. */
  lemma SaveWorkoutMessages(workout: WorkoutPayload, rpc: SaveArgs -> RpcReply)
    ensures var r := SaveWorkout(workout, rpc);
      r.Err? ==> r.message in {ValidationFailedMessage, DuplicateEntryMessage, InvalidReferenceMessage, SaveFailedMessage}
                 || (exists id :: r.message == "Invalid UUID: " + id)
  {
    var reply := rpc(SaveArgsOf(workout));
    if !(reply.error.Some? || !IsTruthy(reply.data)) && reply.data.JsString? {
      var id := reply.data.s;
      assert SaveWorkout(workout, rpc) == AssertUuid(id);
    }
  }
}
