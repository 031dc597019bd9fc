/** The workout service of src/app/lib/services/workoutService.ts: the
    validation engine, the save orchestrator and the template-exercise loader.
    Storage is reached through parameters: the template-exercise query and
    the save procedure are functions from their arguments to storage's reply. */
module WorkoutService {
  import opened Common
  import opened Workout
  import opened Validation
  import opened TypeGuards
  import opened Formats
  import opened Text
  import FormatErrors
  import WorkoutRepository
  import Constants

  const TooManyExercisesMessage: string := "Too many exercises in workout (max 100)"
  const TooManySetsMessage: string := "Too many sets in exercise (max 50)"
  const NameTooLongMessage: string := "Exercise name too long (max 100 characters)"
  const RepsRangeMessage: string := "reps must be between 1 and 1000"
  const WeightRangeMessage: string := "weight must be between 0 and 10000"

  // ---------------------------------------------------------------------
  // The validity the engine is meant to enforce, stated on its own.

  /** Reps are a finite number in [1, 1000]; they need not be whole. */
  predicate RepsInRange(reps: Num) {
    reps.Finite? && 1.0 <= reps.value <= Constants.MAX_REPS as real
  }

  /** Weight is a finite number in [0, 10000]. */
  predicate WeightInRange(weight: Num) {
    weight.Finite? && 0.0 <= weight.value <= Constants.MAX_WEIGHT_KG as real
  }

  predicate SetIsValid(s: SetEntry) {
    RepsInRange(s.reps) && WeightInRange(s.weight)
  }

  /** A name of at most 100 UTF-16 code units, at most 50 sets, every set
      valid. */
  predicate ExerciseIsValid(e: ExerciseEntry) {
    Utf16Length(e.name) <= Constants.EXERCISE_NAME_MAX_LENGTH
    && |e.sets| <= Constants.MAX_SETS_PER_EXERCISE
    && forall j :: 0 <= j < |e.sets| ==> SetIsValid(e.sets[j])
  }

  /** At most 100 exercises, every exercise valid. */
  predicate WorkoutIsValid(exercises: seq<ExerciseEntry>) {
    |exercises| <= Constants.MAX_EXERCISES
    && forall i :: 0 <= i < |exercises| ==> ExerciseIsValid(exercises[i])
  }

  // ---------------------------------------------------------------------
  // The validation engine.

  /** `validateExerciseCount` */
  function ExerciseCountErrors(exercises: seq<ExerciseEntry>): seq<ValidationError> {
    if !IsValidArrayLength(exercises, 0, Constants.MAX_EXERCISES) then
      [ValidationError("Workout", 0, Weight, TooManyExercisesMessage)]
    else []
  }

  /** `validateExerciseName`: the name's `length`, in UTF-16 code units, is
      checked; reported against set 0 and the placeholder field "weight". */
  function ExerciseNameErrors(e: ExerciseEntry): seq<ValidationError> {
    if Utf16Length(e.name) > Constants.EXERCISE_NAME_MAX_LENGTH then
      [ValidationError(e.name, 0, Weight, NameTooLongMessage)]
    else []
  }

  /** `validateExerciseSets`: reported against set 0 and the placeholder
      field "weight". */
  function ExerciseSetsErrors(e: ExerciseEntry): seq<ValidationError> {
    if !IsValidArrayLength(e.sets, 0, Constants.MAX_SETS_PER_EXERCISE) then
      [ValidationError(e.name, 0, Weight, TooManySetsMessage)]
    else []
  }

  /** What `validateSet` reports for the set at position `index`: nothing
      for a valid set, otherwise the reps error before the weight error, both
      against set `index + 1`. */
  function SetErrors(s: SetEntry, exerciseName: string, index: nat): (r: seq<ValidationError>)
    ensures r == [] <==> SetIsValid(s)
    ensures |r| == (if RepsInRange(s.reps) then 0 else 1) + (if WeightInRange(s.weight) then 0 else 1)
    ensures forall k :: 0 <= k < |r| ==> r[k].exerciseName == exerciseName && r[k].setIndex == index + 1
    ensures forall k :: 0 <= k < |r| && r[k].field == Reps ==> !RepsInRange(s.reps) && r[k].message == RepsRangeMessage
    ensures forall k :: 0 <= k < |r| && r[k].field == Weight ==> !WeightInRange(s.weight) && r[k].message == WeightRangeMessage
    ensures |r| == 2 ==> r[0].field == Reps && r[1].field == Weight
  {
    IsValidNumberIsInRange(s.reps, 1.0, Constants.MAX_REPS as real);
    IsValidNumberIsInRange(s.weight, 0.0, Constants.MAX_WEIGHT_KG as real);
    (if !IsValidNumber(s.reps, 1.0, Constants.MAX_REPS as real) then
       [ValidationError(exerciseName, index + 1, Reps, RepsRangeMessage)] else [])
    + (if !IsValidNumber(s.weight, 0.0, Constants.MAX_WEIGHT_KG as real) then
       [ValidationError(exerciseName, index + 1, Weight, WeightRangeMessage)] else [])
  }

  /** The errors of the first `n` sets, set by set. */
  function SetsErrors(exerciseName: string, sets: seq<SetEntry>, n: nat): seq<ValidationError>
    requires n <= |sets|
  {
    if n == 0 then [] else SetsErrors(exerciseName, sets, n - 1) + SetErrors(sets[n - 1], exerciseName, n - 1)
  }

  /** The errors of one exercise: name, then set count, then every set. */
  function ExerciseErrors(e: ExerciseEntry): seq<ValidationError> {
    ExerciseNameErrors(e) + ExerciseSetsErrors(e) + SetsErrors(e.name, e.sets, |e.sets|)
  }

  /** The errors of the first `n` exercises, exercise by exercise. */
  function ExercisesErrors(exercises: seq<ExerciseEntry>, n: nat): seq<ValidationError>
    requires n <= |exercises|
  {
    if n == 0 then [] else ExercisesErrors(exercises, n - 1) + ExerciseErrors(exercises[n - 1])
  }

  /** What `validateWorkout` returns. */
  function WorkoutErrors(exercises: seq<ExerciseEntry>): seq<ValidationError> {
    var errors := ExerciseCountErrors(exercises);
    if |errors| > 0 then errors else ExercisesErrors(exercises, |exercises|)
  }

  /** `validateSet`: pushes the reps error, then the weight error. */
  method ValidateSet(s: SetEntry, exerciseName: string, index: nat) returns (errors: seq<ValidationError>)
    ensures errors == SetErrors(s, exerciseName, index)
  {
    errors := [];
    if !IsValidNumber(s.reps, 1.0, Constants.MAX_REPS as real) {
      errors := errors + [ValidationError(exerciseName, index + 1, Reps, RepsRangeMessage)];
    }
    if !IsValidNumber(s.weight, 0.0, Constants.MAX_WEIGHT_KG as real) {
      errors := errors + [ValidationError(exerciseName, index + 1, Weight, WeightRangeMessage)];
    }
  }

  /** The body of `validateWorkout`'s outer loop for one exercise: the name
      and set-count checks, then every set in order. */
  method ValidateExercise(exercise: ExerciseEntry) returns (errors: seq<ValidationError>)
    ensures errors == ExerciseErrors(exercise)
  {
    errors := ExerciseNameErrors(exercise) + ExerciseSetsErrors(exercise);
    ghost var checks := errors;
    var index := 0;
    while index < |exercise.sets|
      invariant 0 <= index <= |exercise.sets|
      invariant errors == checks + SetsErrors(exercise.name, exercise.sets, index)
    {
      var setErrors := ValidateSet(exercise.sets[index], exercise.name, index);
      AppendAssoc(checks, SetsErrors(exercise.name, exercise.sets, index), setErrors);
      errors := errors + setErrors;
      index := index + 1;
    }
  }

  /** `validateWorkout`: the count check returns early; otherwise errors are
      pushed exercise by exercise and set by set, with no short-circuit. */
  method ValidateWorkout(exercises: seq<ExerciseEntry>) returns (errors: seq<ValidationError>)
    ensures errors == WorkoutErrors(exercises)
  {
    errors := ExerciseCountErrors(exercises);
    if |errors| > 0 {
      return;
    }
    var i := 0;
    while i < |exercises|
      invariant 0 <= i <= |exercises|
      invariant errors == ExercisesErrors(exercises, i)
    {
      var exerciseErrors := ValidateExercise(exercises[i]);
      errors := errors + exerciseErrors;
      i := i + 1;
    }
  }

  /** The first `n` sets give no error exactly when each of them is valid. */
  lemma {:induction false} SetsErrorsEmptyIff(exerciseName: string, sets: seq<SetEntry>, n: nat)
    requires n <= |sets|
    ensures SetsErrors(exerciseName, sets, n) == [] <==> forall j :: 0 <= j < n ==> SetIsValid(sets[j])
  {
    if n > 0 {
      SetsErrorsEmptyIff(exerciseName, sets, n - 1);
    }
  }

  /** The first `n` exercises give no error exactly when each of them is valid. */
  lemma {:induction false} ExercisesErrorsEmptyIff(exercises: seq<ExerciseEntry>, n: nat)
    requires n <= |exercises|
    ensures ExercisesErrors(exercises, n) == [] <==> forall i :: 0 <= i < n ==> ExerciseIsValid(exercises[i])
  {
    if n > 0 {
      ExercisesErrorsEmptyIff(exercises, n - 1);
      var e := exercises[n - 1];
      SetsErrorsEmptyIff(e.name, e.sets, |e.sets|);
    }
  }

  /** `validateWorkout` returns no error exactly for a valid workout: at most
      100 exercises, names of at most 100 UTF-16 code units, at most 50 sets each,
      reps in [1, 1000] and weight in [0, 10000]. */
  lemma WorkoutErrorsEmptyIff(exercises: seq<ExerciseEntry>)
    ensures WorkoutErrors(exercises) == [] <==> WorkoutIsValid(exercises)
  {
    ExercisesErrorsEmptyIff(exercises, |exercises|);
  }

  /** More than 100 exercises give exactly one error and no per-exercise check. */
  lemma WorkoutErrorsTooMany(exercises: seq<ExerciseEntry>)
    requires |exercises| > Constants.MAX_EXERCISES
    ensures WorkoutErrors(exercises) == [ValidationError("Workout", 0, Weight, TooManyExercisesMessage)]
  {
  }

  /** Errors accumulate: adding an exercise (within the limit) appends its
      errors after those of the exercises before it. */
  lemma WorkoutErrorsAppend(exercises: seq<ExerciseEntry>, e: ExerciseEntry)
    requires |exercises| < Constants.MAX_EXERCISES
    ensures WorkoutErrors(exercises + [e]) == WorkoutErrors(exercises) + ExerciseErrors(e)
  {
    var all := exercises + [e];
    assert all[..|exercises|] == exercises[..|exercises|];
    ExercisesErrorsAgree(all, exercises, |exercises|);
  }

  /** The errors of the first `n` exercises depend only on those exercises. */
  lemma {:induction false} ExercisesErrorsAgree(a: seq<ExerciseEntry>, b: seq<ExerciseEntry>, n: nat)
    requires n <= |a| && n <= |b| && a[..n] == b[..n]
    ensures ExercisesErrors(a, n) == ExercisesErrors(b, n)
  {
    if n > 0 {
      assert a[..n - 1] == a[..n][..n - 1] == b[..n][..n - 1] == b[..n - 1];
      assert a[n - 1] == a[..n][n - 1] == b[..n][n - 1] == b[n - 1];
      ExercisesErrorsAgree(a, b, n - 1);
    }
  }

  /** Every error of the first `n` sets names the exercise and a set between
      1 and `n`. */
  lemma {:induction false} SetsErrorsLocate(exerciseName: string, sets: seq<SetEntry>, n: nat)
    requires n <= |sets|
    ensures forall k :: 0 <= k < |SetsErrors(exerciseName, sets, n)| ==>
      SetsErrors(exerciseName, sets, n)[k].exerciseName == exerciseName
      && 1 <= SetsErrors(exerciseName, sets, n)[k].setIndex <= n
  {
    if n > 0 {
      SetsErrorsLocate(exerciseName, sets, n - 1);
      var prefix := SetsErrors(exerciseName, sets, n - 1);
      var last := SetErrors(sets[n - 1], exerciseName, n - 1);
      assert SetsErrors(exerciseName, sets, n) == prefix + last;
    }
  }

  /** Every error of an exercise names it; errors against set 0 are the name
      and set-count errors, reported on the placeholder field "weight"; every
      other error is against one of its sets, counted from 1. */
  lemma ExerciseErrorsLocate(e: ExerciseEntry)
    ensures forall k :: 0 <= k < |ExerciseErrors(e)| ==>
      ExerciseErrors(e)[k].exerciseName == e.name
      && ExerciseErrors(e)[k].setIndex <= |e.sets|
      && (ExerciseErrors(e)[k].setIndex == 0 ==> ExerciseErrors(e)[k].field == Weight)
  {
    SetsErrorsLocate(e.name, e.sets, |e.sets|);
    var head := ExerciseNameErrors(e) + ExerciseSetsErrors(e);
    assert ExerciseErrors(e) == head + SetsErrors(e.name, e.sets, |e.sets|);
  }

  /** A set with reps 0 and weight 10001 gives exactly two errors, reps first. */
  lemma SetOutOfBoundsExample(id: string, name: string, setId: string, done: bool)
    requires Utf16Length(name) <= Constants.EXERCISE_NAME_MAX_LENGTH
    ensures WorkoutErrors([ExerciseEntry(id, name, [SetEntry(setId, Finite(10001.0), Finite(0.0), done)])])
            == [ValidationError(name, 1, Reps, RepsRangeMessage), ValidationError(name, 1, Weight, WeightRangeMessage)]
  {
    var s := SetEntry(setId, Finite(10001.0), Finite(0.0), done);
    var e := ExerciseEntry(id, name, [s]);
    var r := SetErrors(s, name, 0);
    assert |r| == 2 && r[0].field == Reps && r[1].field == Weight;
    assert r == [ValidationError(name, 1, Reps, RepsRangeMessage), ValidationError(name, 1, Weight, WeightRangeMessage)];
    assert SetsErrors(name, e.sets, 1) == SetsErrors(name, e.sets, 0) + r;
    assert ExerciseErrors(e) == r;
    assert ExercisesErrors([e], 1) == ExercisesErrors([e], 0) + ExerciseErrors(e);
  }

  /** The name limit counts code units: 51 characters above U+FFFF are 102
      units and too long, while 100 characters below U+10000 are not. */
  lemma NameLimitCountsCodeUnits(e: ExerciseEntry)
    ensures (|e.name| > 50 && forall i :: 0 <= i < |e.name| ==> Utf16Width(e.name[i]) == 2) ==>
      ExerciseNameErrors(e) == [ValidationError(e.name, 0, Weight, NameTooLongMessage)]
    ensures (|e.name| <= 100 && forall i :: 0 <= i < |e.name| ==> Utf16Width(e.name[i]) == 1) ==>
      ExerciseNameErrors(e) == []
  {
    Utf16LengthUniform(e.name);
  }

  /** Reps need not be whole numbers. */
  lemma FractionalRepsAccepted(id: string, name: string, setId: string, done: bool)
    requires Utf16Length(name) <= Constants.EXERCISE_NAME_MAX_LENGTH
    ensures WorkoutErrors([ExerciseEntry(id, name, [SetEntry(setId, Finite(60.0), Finite(2.5), done)])]) == []
  {
    WorkoutErrorsEmptyIff([ExerciseEntry(id, name, [SetEntry(setId, Finite(60.0), Finite(2.5), done)])]);
  }

  // ---------------------------------------------------------------------
  // The save orchestrator.

  const NoExercisesMessage: string := "Cannot save workout: at least one exercise is required."
  const NoSetsMessage: string := "Cannot save workout: at least one set is required."
  const InvalidTemplateIdMessage: string := "Invalid template ID format."
  const InvalidTemplateExerciseIdMessage: string := "Invalid template exercise ID format."

  /** `exercises.some(exercise => exercise.sets.length > 0)` */
  predicate HasSets(exercises: seq<ExerciseEntry>) {
    exists i :: 0 <= i < |exercises| && |exercises[i].sets| > 0
  }

  /** `validateWorkoutIds`: the message it throws, if any. A present,
      non-empty template id must be a UUID; so must every value of the map,
      whether or not its exercise is in the workout. */
  function IdsRejection(templateId: Option<string>, templateExerciseMap: map<string, string>): (r: Option<string>)
    ensures r.None? <==>
      (IsNonEmpty(templateId) ==> IsUuidText(templateId.value))
      && forall k :: k in templateExerciseMap ==> IsUuidText(templateExerciseMap[k])
  {
    if IsNonEmpty(templateId) && !IsValidUuid(templateId) then
      IsValidUuidIsUuidText(templateId);
      Some(InvalidTemplateIdMessage)
    else if exists k :: k in templateExerciseMap && !IsValidUuid(Some(templateExerciseMap[k])) then
      var k :| k in templateExerciseMap && !IsValidUuid(Some(templateExerciseMap[k]));
      IsValidUuidIsUuidText(Some(templateExerciseMap[k]));
      Some(InvalidTemplateExerciseIdMessage)
    else
      IsValidUuidIsUuidText(templateId);
      assert forall k :: k in templateExerciseMap ==> IsUuidText(templateExerciseMap[k]) by {
        forall k | k in templateExerciseMap ensures IsUuidText(templateExerciseMap[k]) {
          IsValidUuidIsUuidText(Some(templateExerciseMap[k]));
        }
      }
      None
  }

  /** `validateWorkoutIds` as written: the template id first, then the map's
      values one by one. The map is visited in an order this model does not
      fix; the result is the same for every order. */
  method ValidateWorkoutIds(templateId: Option<string>, templateExerciseMap: map<string, string>)
    returns (r: Option<string>)
    ensures r == IdsRejection(templateId, templateExerciseMap)
  {
    if IsNonEmpty(templateId) && !IsValidUuid(templateId) {
      return Some(InvalidTemplateIdMessage);
    }
    var remaining := templateExerciseMap.Keys;
    while remaining != {}
      invariant remaining <= templateExerciseMap.Keys
      invariant forall k :: k in templateExerciseMap && k !in remaining ==> IsValidUuid(Some(templateExerciseMap[k]))
      decreases remaining
    {
      var k :| k in remaining;
      if !IsValidUuid(Some(templateExerciseMap[k])) {
        return Some(InvalidTemplateExerciseIdMessage);
      }
      remaining := remaining - {k};
    }
    return None;
  }

  /** `x ? assertUUID(x) : undefined` */
  function OptionalUuid(id: Option<string>): (r: Result<Option<string>>)
    ensures r.Ok? ==> (r.value.Some? <==> IsNonEmpty(id)) && (r.value.Some? ==> r.value == id)
  {
    if IsNonEmpty(id) then
      match AssertUuid(id.value)
      case Ok(v) => Ok(Some(v))
      case Err(m) => Err(m)
    else Ok(None)
  }

  /** `templateExerciseMap.get(id)` */
  function Lookup(templateExerciseMap: map<string, string>, id: string): Option<string> {
    if id in templateExerciseMap then Some(templateExerciseMap[id]) else None
  }

  /** `{ weight: Number(set.weight) || 0, reps: Number(set.reps) || 0 }` */
  function SetPayloadOf(s: SetEntry): SetPayload {
    SetPayload(NumberOrZero(s.weight), NumberOrZero(s.reps))
  }

  /** The payload of one exercise. */
  function ExercisePayloadOf(e: ExerciseEntry, templateExerciseMap: map<string, string>): Result<ExercisePayload> {
    match OptionalUuid(Lookup(templateExerciseMap, e.id))
    case Err(m) => Err(m)
    case Ok(templateExerciseId) =>
      Ok(ExercisePayload(e.name, templateExerciseId, seq(|e.sets|, j requires 0 <= j < |e.sets| => SetPayloadOf(e.sets[j]))))
  }

  /** `exercises.map(...)`, stopping at the first exercise whose assertion
      throws. */
  function ExercisePayloads(exercises: seq<ExerciseEntry>, templateExerciseMap: map<string, string>): (r: Result<seq<ExercisePayload>>)
    ensures r.Ok? ==> (|r.value| == |exercises|
      && forall i :: 0 <= i < |exercises| ==> ExercisePayloadOf(exercises[i], templateExerciseMap) == Ok(r.value[i]))
  {
    if exercises == [] then Ok([])
    else
      match ExercisePayloadOf(exercises[0], templateExerciseMap)
      case Err(m) => Err(m)
      case Ok(p) =>
        match ExercisePayloads(exercises[1..], templateExerciseMap)
        case Err(m) => Err(m)
        case Ok(ps) =>
          assert forall i :: 1 <= i < |exercises| ==> exercises[i] == exercises[1..][i - 1];
          Ok([p] + ps)
  }

  /** Everything `saveWorkout` does before it calls storage: the checks in
      their order, then the payload. */
  function SavePrecheck(templateId: Option<string>, exercises: seq<ExerciseEntry>,
                        templateExerciseMap: map<string, string>, date: Option<string>, today: string): Result<WorkoutPayload>
  {
    if |exercises| == 0 then Err(NoExercisesMessage)
    else if !HasSets(exercises) then Err(NoSetsMessage)
    else if IdsRejection(templateId, templateExerciseMap).Some? then Err(IdsRejection(templateId, templateExerciseMap).value)
    else
      var errors := WorkoutErrors(exercises);
      if |errors| > 0 then Err("Cannot save workout:\n" + FormatErrors.FormatValidationErrors(errors))
      else
        match AssertDateString(date.GetOr(today))
        case Err(m) => Err(m)
        case Ok(workoutDate) =>
          match OptionalUuid(templateId)
          case Err(m) => Err(m)
          case Ok(tid) =>
            match ExercisePayloads(exercises, templateExerciseMap)
            case Err(m) => Err(m)
            case Ok(ps) => Ok(WorkoutPayload(workoutDate, tid, ps))
  }

  /** `saveWorkout(templateId, exercises, templateExerciseMap, date)`, with
      `today` standing for the current UTC date and `rpc` for the save
      procedure: the checks, the repository call, and a final UUID check. */
  function SaveWorkout(templateId: Option<string>, exercises: seq<ExerciseEntry>,
                       templateExerciseMap: map<string, string>, date: Option<string>, today: string,
                       rpc: WorkoutRepository.SaveArgs -> WorkoutRepository.RpcReply): Result<string>
  {
    match SavePrecheck(templateId, exercises, templateExerciseMap, date, today)
    case Err(m) => Err(m)
    case Ok(payload) =>
      match WorkoutRepository.SaveWorkout(payload, rpc)
      case Err(m) => Err(m)
      case Ok(id) => AssertUuid(id)
  }

  /** A rejected save never reaches storage: the outcome is the rejection,
      whatever the save procedure would have done. */
  lemma SaveRejectsBeforeStorage(templateId: Option<string>, exercises: seq<ExerciseEntry>,
                                 templateExerciseMap: map<string, string>, date: Option<string>, today: string,
                                 rpc1: WorkoutRepository.SaveArgs -> WorkoutRepository.RpcReply,
                                 rpc2: WorkoutRepository.SaveArgs -> WorkoutRepository.RpcReply)
    requires SavePrecheck(templateId, exercises, templateExerciseMap, date, today).Err?
    ensures SaveWorkout(templateId, exercises, templateExerciseMap, date, today, rpc1)
            == SaveWorkout(templateId, exercises, templateExerciseMap, date, today, rpc2)
            == Err(SavePrecheck(templateId, exercises, templateExerciseMap, date, today).message)
  {
  }

  /** The rejections in their order: no exercise, then no set, then a
      malformed template id or map value, then validation errors. */
  lemma SaveRejectionOrder(templateId: Option<string>, exercises: seq<ExerciseEntry>,
                           templateExerciseMap: map<string, string>, date: Option<string>, today: string)
    ensures var r := SavePrecheck(templateId, exercises, templateExerciseMap, date, today);
      (|exercises| == 0 ==> r == Err(NoExercisesMessage))
      && (|exercises| > 0 && !HasSets(exercises) ==> r == Err(NoSetsMessage))
      && (HasSets(exercises) && IsNonEmpty(templateId) && !IsUuidText(templateId.value) ==> r == Err(InvalidTemplateIdMessage))
      && (HasSets(exercises) && (IsNonEmpty(templateId) ==> IsUuidText(templateId.value))
          && (exists k :: k in templateExerciseMap && !IsUuidText(templateExerciseMap[k]))
          ==> r == Err(InvalidTemplateExerciseIdMessage))
      && (HasSets(exercises) && IdsRejection(templateId, templateExerciseMap).None? && !WorkoutIsValid(exercises)
          ==> r == Err("Cannot save workout:\n" + FormatErrors.FormatValidationErrors(WorkoutErrors(exercises))))
  {
    WorkoutErrorsEmptyIff(exercises);
    IsValidUuidIsUuidText(templateId);
  }

  /** An accepted payload keeps every exercise in order, with its name, its
      template exercise id from the map (an empty one is dropped) and its sets'
      weight and reps unchanged; the template id is dropped when empty. */
  predicate PayloadMatches(payload: WorkoutPayload, templateId: Option<string>, exercises: seq<ExerciseEntry>,
                           templateExerciseMap: map<string, string>)
  {
    payload.templateId == (if IsNonEmpty(templateId) then templateId else None)
    && |payload.exercises| == |exercises|
    && forall i :: 0 <= i < |exercises| ==>
      var p := payload.exercises[i];
      var e := exercises[i];
      var t := Lookup(templateExerciseMap, e.id);
      p.name == e.name
      && p.templateExerciseId == (if IsNonEmpty(t) then t else None)
      && |p.sets| == |e.sets|
      && forall j :: 0 <= j < |e.sets| ==> p.sets[j] == SetPayload(e.sets[j].weight, e.sets[j].reps)
  }

  /** The save checks pass exactly when there is an exercise, some set, the
      ids are well-formed, the workout is valid and the date is a real
      calendar date; the payload is then the workout itself. */
  lemma SavePrecheckAccepts(templateId: Option<string>, exercises: seq<ExerciseEntry>,
                            templateExerciseMap: map<string, string>, date: Option<string>, today: string)
    ensures var r := SavePrecheck(templateId, exercises, templateExerciseMap, date, today);
      r.Ok? <==> (|exercises| > 0 && HasSets(exercises)
                  && IdsRejection(templateId, templateExerciseMap).None?
                  && WorkoutIsValid(exercises) && IsFullDate(date.GetOr(today)))
    ensures var r := SavePrecheck(templateId, exercises, templateExerciseMap, date, today);
      r.Ok? ==> r.value.date == date.GetOr(today) && PayloadMatches(r.value, templateId, exercises, templateExerciseMap)
  {
    WorkoutErrorsEmptyIff(exercises);
    IsDateStringAgrees(date.GetOr(today));
    if |exercises| > 0 && HasSets(exercises) && IdsRejection(templateId, templateExerciseMap).None?
       && WorkoutIsValid(exercises) && IsFullDate(date.GetOr(today)) {
      PayloadBuilds(templateId, exercises, templateExerciseMap);
    }
  }

  /** Once the ids have passed and the workout is valid, building the
      payload never throws, and it matches the workout. */
  lemma PayloadBuilds(templateId: Option<string>, exercises: seq<ExerciseEntry>, templateExerciseMap: map<string, string>)
    requires IdsRejection(templateId, templateExerciseMap).None?
    requires WorkoutIsValid(exercises)
    ensures OptionalUuid(templateId).Ok?
    ensures ExercisePayloads(exercises, templateExerciseMap).Ok?
    ensures PayloadMatches(WorkoutPayload("", OptionalUuid(templateId).value, ExercisePayloads(exercises, templateExerciseMap).value),
                           templateId, exercises, templateExerciseMap)
  {
    IsUuidAgrees(if templateId.Some? then templateId.value else "");
    forall i | 0 <= i < |exercises| ensures ExercisePayloadOf(exercises[i], templateExerciseMap).Ok? {
      var id := exercises[i].id;
      if id in templateExerciseMap {
        IsUuidAgrees(templateExerciseMap[id]);
      }
    }
    ExercisePayloadsOk(exercises, templateExerciseMap);
    var ps := ExercisePayloads(exercises, templateExerciseMap).value;
    forall i | 0 <= i < |exercises|
      ensures ps[i].name == exercises[i].name
      ensures var t := Lookup(templateExerciseMap, exercises[i].id);
              ps[i].templateExerciseId == (if IsNonEmpty(t) then t else None)
      ensures |ps[i].sets| == |exercises[i].sets|
      ensures forall j :: 0 <= j < |exercises[i].sets| ==>
                ps[i].sets[j] == SetPayload(exercises[i].sets[j].weight, exercises[i].sets[j].reps)
    {
      assert ExerciseIsValid(exercises[i]);
      assert ExercisePayloadOf(exercises[i], templateExerciseMap) == Ok(ps[i]);
    }
  }

  /** The exercise payloads build when every exercise's does. */
  lemma {:induction false} ExercisePayloadsOk(exercises: seq<ExerciseEntry>, templateExerciseMap: map<string, string>)
    requires forall i :: 0 <= i < |exercises| ==> ExercisePayloadOf(exercises[i], templateExerciseMap).Ok?
    ensures ExercisePayloads(exercises, templateExerciseMap).Ok?
  {
    if exercises != [] {
      assert ExercisePayloadOf(exercises[0], templateExerciseMap).Ok?;
      ExercisePayloadsOk(exercises[1..], templateExerciseMap);
    }
  }

  /** A save that succeeds returns a well-formed UUID. */
  lemma SaveReturnsUuid(templateId: Option<string>, exercises: seq<ExerciseEntry>,
                        templateExerciseMap: map<string, string>, date: Option<string>, today: string,
                        rpc: WorkoutRepository.SaveArgs -> WorkoutRepository.RpcReply)
    ensures var r := SaveWorkout(templateId, exercises, templateExerciseMap, date, today, rpc);
      r.Ok? ==> IsUuidText(r.value)
  {
    var r := SaveWorkout(templateId, exercises, templateExerciseMap, date, today, rpc);
    if r.Ok? {
      IsUuidAgrees(r.value);
    }
  }

  /** The outcome of a save once its checks pass: the procedure receives the
      checked payload, and the save succeeds exactly when storage replies
      with no error and a UUID string, which is then the result. */
  lemma SaveOutcome(templateId: Option<string>, exercises: seq<ExerciseEntry>,
                    templateExerciseMap: map<string, string>, date: Option<string>, today: string,
                    rpc: WorkoutRepository.SaveArgs -> WorkoutRepository.RpcReply)
    ensures var r := SaveWorkout(templateId, exercises, templateExerciseMap, date, today, rpc);
      var pre := SavePrecheck(templateId, exercises, templateExerciseMap, date, today);
      r.Ok? <==> pre.Ok? && (var reply := rpc(WorkoutRepository.SaveArgsOf(pre.value));
                             reply.error.None? && reply.data.JsString? && IsUuidText(reply.data.s))
    ensures var r := SaveWorkout(templateId, exercises, templateExerciseMap, date, today, rpc);
      var pre := SavePrecheck(templateId, exercises, templateExerciseMap, date, today);
      pre.Ok? ==> var reply := rpc(WorkoutRepository.SaveArgsOf(pre.value));
        reply.error.None? && reply.data.JsString? && IsUuidText(reply.data.s) ==> r == Ok(reply.data.s)
  {
    var pre := SavePrecheck(templateId, exercises, templateExerciseMap, date, today);
    if pre.Ok? {
      var reply := rpc(WorkoutRepository.SaveArgsOf(pre.value));
      if reply.error.None? && reply.data.JsString? {
        IsUuidAgrees(reply.data.s);
      }
    }
  }

  /** The text "not-a-uuid" is not a UUID. */
  lemma NotAUuid()
    ensures !IsUuidText("not-a-uuid")
  {
  }

  /** A malformed template id is rejected before storage, once there are sets. */
  lemma SaveRejectsMalformedTemplateId(exercises: seq<ExerciseEntry>, templateExerciseMap: map<string, string>,
                                       date: Option<string>, today: string,
                                       rpc: WorkoutRepository.SaveArgs -> WorkoutRepository.RpcReply)
    requires HasSets(exercises)
    ensures SaveWorkout(Some("not-a-uuid"), exercises, templateExerciseMap, date, today, rpc) == Err(InvalidTemplateIdMessage)
  {
    SaveRejectionOrder(Some("not-a-uuid"), exercises, templateExerciseMap, date, today);
  }

  /** A malformed map value is rejected before storage, even when no exercise
      of the workout refers to it. */
  lemma SaveRejectsMalformedMapValue(exercises: seq<ExerciseEntry>, key: string,
                                     date: Option<string>, today: string,
                                     rpc: WorkoutRepository.SaveArgs -> WorkoutRepository.RpcReply)
    requires HasSets(exercises)
    ensures SaveWorkout(None, exercises, map[key := "bad-id"], date, today, rpc) == Err(InvalidTemplateExerciseIdMessage)
  {
    var m := map[key := "bad-id"];
    assert key in m && !IsUuidText(m[key]);
    SaveRejectionOrder(None, exercises, map[key := "bad-id"], date, today);
  }

  // ---------------------------------------------------------------------
  // Loading a template's exercises.

  /** The exercises of a template as the editor starts from them, and the map
      from their UI ids back to the template exercise ids. */
  datatype LoadedExercises = LoadedExercises(exercises: seq<ExerciseEntry>, templateExerciseMap: map<string, string>)

  /** The UI id of the exercise made from a template exercise. */
  function EntryId(templateExerciseId: string): string {
    "exercise-" + templateExerciseId
  }

  /** `loadTemplateExercises(templateId)`: a malformed id is rejected before
      the query; otherwise one entry per template exercise, in order, with no
      sets, and a map entry from its UI id back to the template exercise. */
  method LoadTemplateExercises(templateId: string, fetch: string -> Result<seq<TemplateExercise>>)
    returns (r: Result<LoadedExercises>)
    ensures !IsUuidText(templateId) ==> r == Err(InvalidTemplateIdMessage)
    ensures IsUuidText(templateId) && fetch(templateId).Err? ==> r == Err(fetch(templateId).message)
    ensures IsUuidText(templateId) && fetch(templateId).Ok? ==>
      var templateExercises := fetch(templateId).value;
      r.Ok?
      && |r.value.exercises| == |templateExercises|
      && (forall i :: 0 <= i < |templateExercises| ==>
            r.value.exercises[i] == ExerciseEntry(EntryId(templateExercises[i].id), templateExercises[i].name, []))
      && (forall k :: k in r.value.templateExerciseMap <==>
            exists i :: 0 <= i < |templateExercises| && k == EntryId(templateExercises[i].id))
      && (forall i :: 0 <= i < |templateExercises| ==>
            r.value.templateExerciseMap[EntryId(templateExercises[i].id)] == templateExercises[i].id)
  {
    IsValidUuidIsUuidText(Some(templateId));
    if !IsValidUuid(Some(templateId)) {
      return Err(InvalidTemplateIdMessage);
    }
    var fetched := fetch(templateId);
    if fetched.Err? {
      return Err(fetched.message);
    }
    var templateExercises := fetched.value;
    var exerciseMap: map<string, string> := map[];
    var entries: seq<ExerciseEntry> := [];
    var i := 0;
    while i < |templateExercises|
      invariant 0 <= i <= |templateExercises|
      invariant |entries| == i
      invariant forall j :: 0 <= j < i ==>
        entries[j] == ExerciseEntry(EntryId(templateExercises[j].id), templateExercises[j].name, [])
      invariant forall k :: k in exerciseMap <==> exists j :: 0 <= j < i && k == EntryId(templateExercises[j].id)
      invariant forall j :: 0 <= j < i ==> exerciseMap[EntryId(templateExercises[j].id)] == templateExercises[j].id
    {
      var te := templateExercises[i];
      var exerciseId := EntryId(te.id);
      EntryIdInjective(te.id);
      exerciseMap := exerciseMap[exerciseId := te.id];
      entries := entries + [ExerciseEntry(exerciseId, te.name, [])];
      i := i + 1;
    }
    r := Ok(LoadedExercises(entries, exerciseMap));
  }

  /** Different template exercise ids give different UI ids. */
  lemma EntryIdInjective(id: string)
    ensures forall other :: EntryId(other) == EntryId(id) ==> other == id
  {
    forall other | EntryId(other) == EntryId(id) ensures other == id {
      assert other == EntryId(other)[9..];
      assert id == EntryId(id)[9..];
    }
  }
}
