/** The exercise-list editor of src/app/hooks/useWorkoutExercises.ts: the list
    of exercises being logged, the set that should take the keyboard focus,
    and the map from UI exercise ids back to template exercise ids. Every
    handler replaces the list with a `map`/`filter` over the previous one;
    those updates are the pure functions below, and the class assigns them. */
module ExerciseEditor {
  import opened Common
  import opened Workout
  import opened Toasts
  import opened ErrorHandling
  import WorkoutService

  const CannotRemoveLastSetMessage: string := "Cannot remove the last set. Each exercise must have at least one set."
  const LoadFailedMessage: string := "Failed to load exercises."
  /** `defaultReps ?? 8` */
  const FallbackReps: Num := Finite(8.0)
  /** The default of `handleAddSet`'s `defaultWeight` parameter. */
  const DefaultWeight: Num := Finite(0.0)

  // ---------------------------------------------------------------------
  // Looking things up.

  /** `exercises.find(ex => ex.id === exerciseId)`: the first exercise with
      that id. */
  function FindExercise(exs: seq<ExerciseEntry>, exerciseId: string): (r: Option<ExerciseEntry>)
    ensures r.None? <==> forall i :: 0 <= i < |exs| ==> exs[i].id != exerciseId
    ensures r.Some? ==> exists i :: 0 <= i < |exs| && exs[i] == r.value && exs[i].id == exerciseId
                                    && (forall j :: 0 <= j < i ==> exs[j].id != exerciseId)
  {
    if exs == [] then None
    else if exs[0].id == exerciseId then Some(exs[0])
    else
      var r := FindExercise(exs[1..], exerciseId);
      assert forall i :: 0 < i < |exs| ==> exs[i] == exs[1..][i - 1];
      if r.Some? then
        ghost var k :| 0 <= k < |exs| - 1 && exs[1..][k] == r.value && exs[1..][k].id == exerciseId
                       && (forall j :: 0 <= j < k ==> exs[1..][j].id != exerciseId);
        assert exs[k + 1] == r.value;
        r
      else r
  }

  /** The first set with id `setId`. */
  function FindSet(sets: seq<SetEntry>, setId: string): (r: Option<SetEntry>)
    ensures r.None? <==> forall i :: 0 <= i < |sets| ==> sets[i].id != setId
    ensures r.Some? ==> r.value in sets && r.value.id == setId
  {
    if sets == [] then None
    else if sets[0].id == setId then Some(sets[0])
    else
      assert forall i :: 0 < i < |sets| ==> sets[i] == sets[1..][i - 1];
      FindSet(sets[1..], setId)
  }

  /** The set a handler addressed by `(exerciseId, setId)` reaches: the first
      matching set of the first matching exercise. */
  function SetAt(exs: seq<ExerciseEntry>, exerciseId: string, setId: string): Option<SetEntry> {
    match FindExercise(exs, exerciseId)
    case None => None
    case Some(ex) => FindSet(ex.sets, setId)
  }

  function MapOption<T>(o: Option<T>, f: T -> T): Option<T> {
    match o
    case None => None
    case Some(v) => Some(f(v))
  }

  // ---------------------------------------------------------------------
  // The two `map` shapes every handler is built from.

  /** `sets.map(set => set.id === setId ? f(set) : set)`: order and length are
      kept, the sets with that id are replaced by their image, the others
      stay as they are. */
  function MapSets(sets: seq<SetEntry>, setId: string, f: SetEntry -> SetEntry): (r: seq<SetEntry>)
    ensures |r| == |sets|
    ensures forall i :: 0 <= i < |sets| && sets[i].id != setId ==> r[i] == sets[i]
    ensures forall i :: 0 <= i < |sets| && sets[i].id == setId ==> r[i] == f(sets[i])
  {
    if sets == [] then []
    else [if sets[0].id == setId then f(sets[0]) else sets[0]] + MapSets(sets[1..], setId, f)
  }

  /** `exercises.map(ex => ex.id !== exerciseId ? ex : g(ex))`. */
  function MapExercises(exs: seq<ExerciseEntry>, exerciseId: string, g: ExerciseEntry -> ExerciseEntry): (r: seq<ExerciseEntry>)
    ensures |r| == |exs|
    ensures forall i :: 0 <= i < |exs| && exs[i].id != exerciseId ==> r[i] == exs[i]
    ensures forall i :: 0 <= i < |exs| && exs[i].id == exerciseId ==> r[i] == g(exs[i])
  {
    if exs == [] then []
    else [if exs[0].id == exerciseId then g(exs[0]) else exs[0]] + MapExercises(exs[1..], exerciseId, g)
  }

  /** A set update that keeps the set's id. */
  ghost predicate KeepsSetId(f: SetEntry -> SetEntry) {
    forall s :: f(s).id == s.id
  }

  /** An exercise update that keeps the exercise's id. */
  ghost predicate KeepsExerciseId(g: ExerciseEntry -> ExerciseEntry) {
    forall ex :: g(ex).id == ex.id
  }

  /** After updating the sets with `setId` by an id-keeping `f`, the first set
      with `setId` is the image of the one found before, and the first set
      with any other id is the one found before. */
  lemma {:induction false} FindSetAfterMap(sets: seq<SetEntry>, setId: string, f: SetEntry -> SetEntry, other: string)
    requires KeepsSetId(f)
    ensures FindSet(MapSets(sets, setId, f), other)
      == if other == setId then MapOption(FindSet(sets, setId), f) else FindSet(sets, other)
  {
    if sets != [] {
      var r := MapSets(sets, setId, f);
      assert r[1..] == MapSets(sets[1..], setId, f);
      assert f(sets[0]).id == sets[0].id;
      FindSetAfterMap(sets[1..], setId, f, other);
    }
  }

  /** The same one level up, for the exercises with `exerciseId`. */
  lemma {:induction false} FindExerciseAfterMap(exs: seq<ExerciseEntry>, exerciseId: string, g: ExerciseEntry -> ExerciseEntry, other: string)
    requires KeepsExerciseId(g)
    ensures FindExercise(MapExercises(exs, exerciseId, g), other)
      == if other == exerciseId then MapOption(FindExercise(exs, exerciseId), g) else FindExercise(exs, other)
  {
    if exs != [] {
      var r := MapExercises(exs, exerciseId, g);
      assert r[1..] == MapExercises(exs[1..], exerciseId, g);
      assert g(exs[0]).id == exs[0].id;
      FindExerciseAfterMap(exs[1..], exerciseId, g, other);
    }
  }

  // ---------------------------------------------------------------------
  // handleSetChange and handleSetDone.

  /** `{ ...set, [field]: value }` */
  function WithField(s: SetEntry, field: Field, value: Num): SetEntry {
    match field
    case Weight => s.(weight := value)
    case Reps => s.(reps := value)
  }

  /** The update both `handleSetChange` and `handleSetDone` apply: `f` on the
      sets with `setId` inside the exercises with `exerciseId`. */
  function UpdateSet(exs: seq<ExerciseEntry>, exerciseId: string, setId: string, f: SetEntry -> SetEntry): seq<ExerciseEntry> {
    MapExercises(exs, exerciseId, (ex: ExerciseEntry) => ex.(sets := MapSets(ex.sets, setId, f)))
  }

  /** Reading back any `(exercise, set)` address after `UpdateSet` with an
      id-keeping `f`: the updated address shows the image of what it showed
      before, every other address shows exactly what it showed before. */
  lemma ReadAfterUpdate(exs: seq<ExerciseEntry>, exerciseId: string, setId: string, f: SetEntry -> SetEntry,
                        otherExercise: string, otherSet: string)
    requires KeepsSetId(f)
    ensures SetAt(UpdateSet(exs, exerciseId, setId, f), otherExercise, otherSet)
      == if otherExercise == exerciseId && otherSet == setId then MapOption(SetAt(exs, exerciseId, setId), f)
         else SetAt(exs, otherExercise, otherSet)
  {
    var g := (ex: ExerciseEntry) => ex.(sets := MapSets(ex.sets, setId, f));
    FindExerciseAfterMap(exs, exerciseId, g, otherExercise);
    if otherExercise == exerciseId {
      match FindExercise(exs, exerciseId)
      case None =>
      case Some(ex) => FindSetAfterMap(ex.sets, setId, f, otherSet);
    }
  }

  /** The ids and names of the exercises and the ids of their sets, in order:
      what none of the field edits may change. */
  function Shape(exs: seq<ExerciseEntry>): seq<(string, string, seq<string>)> {
    seq(|exs|, i requires 0 <= i < |exs| => (exs[i].id, exs[i].name, SetIds(exs[i].sets)))
  }

  function SetIds(sets: seq<SetEntry>): seq<string> {
    seq(|sets|, j requires 0 <= j < |sets| => sets[j].id)
  }

  /** An id-keeping set update changes no exercise, no set and no order:
      only field values. */
  lemma UpdateKeepsShape(exs: seq<ExerciseEntry>, exerciseId: string, setId: string, f: SetEntry -> SetEntry)
    requires KeepsSetId(f)
    ensures Shape(UpdateSet(exs, exerciseId, setId, f)) == Shape(exs)
  {
    var r := UpdateSet(exs, exerciseId, setId, f);
    forall i | 0 <= i < |exs| ensures Shape(r)[i] == Shape(exs)[i] {
      if exs[i].id == exerciseId {
        forall j | 0 <= j < |exs[i].sets| ensures r[i].sets[j].id == exs[i].sets[j].id {
          assert f(exs[i].sets[j]).id == exs[i].sets[j].id;
        }
        assert SetIds(r[i].sets) == SetIds(exs[i].sets);
      }
    }
  }

  /** `handleSetChange(exerciseId, setId, field, value)` on the list. */
  function ChangeSet(exs: seq<ExerciseEntry>, exerciseId: string, setId: string, field: Field, value: Num): seq<ExerciseEntry> {
    UpdateSet(exs, exerciseId, setId, (s: SetEntry) => WithField(s, field, value))
  }

  /** `handleSetDone(exerciseId, setId, done)` on the list. */
  function MarkDone(exs: seq<ExerciseEntry>, exerciseId: string, setId: string, done: bool): seq<ExerciseEntry> {
    UpdateSet(exs, exerciseId, setId, (s: SetEntry) => s.(done := done))
  }

  /** A field change shows through its own address with only that field
      changed, leaves every other address as it was, and keeps the shape. */
  lemma ChangeSetEffect(exs: seq<ExerciseEntry>, exerciseId: string, setId: string, field: Field, value: Num,
                        otherExercise: string, otherSet: string)
    ensures var after := SetAt(ChangeSet(exs, exerciseId, setId, field, value), exerciseId, setId);
      after.Some? == SetAt(exs, exerciseId, setId).Some?
      && (after.Some? ==>
            var before := SetAt(exs, exerciseId, setId).value;
            after.value.id == before.id && after.value.done == before.done
            && (field == Weight ==> after.value.weight == value && after.value.reps == before.reps)
            && (field == Reps ==> after.value.reps == value && after.value.weight == before.weight))
    ensures otherExercise != exerciseId || otherSet != setId ==>
      SetAt(ChangeSet(exs, exerciseId, setId, field, value), otherExercise, otherSet) == SetAt(exs, otherExercise, otherSet)
    ensures Shape(ChangeSet(exs, exerciseId, setId, field, value)) == Shape(exs)
  {
    var f := (s: SetEntry) => WithField(s, field, value);
    ReadAfterUpdate(exs, exerciseId, setId, f, exerciseId, setId);
    ReadAfterUpdate(exs, exerciseId, setId, f, otherExercise, otherSet);
    UpdateKeepsShape(exs, exerciseId, setId, f);
  }

  /** Marking a set done (or not) changes only that set's flag. */
  lemma MarkDoneEffect(exs: seq<ExerciseEntry>, exerciseId: string, setId: string, done: bool,
                       otherExercise: string, otherSet: string)
    ensures SetAt(MarkDone(exs, exerciseId, setId, done), exerciseId, setId)
      == MapOption(SetAt(exs, exerciseId, setId), (s: SetEntry) => s.(done := done))
    ensures otherExercise != exerciseId || otherSet != setId ==>
      SetAt(MarkDone(exs, exerciseId, setId, done), otherExercise, otherSet) == SetAt(exs, otherExercise, otherSet)
    ensures Shape(MarkDone(exs, exerciseId, setId, done)) == Shape(exs)
  {
    var f := (s: SetEntry) => s.(done := done);
    ReadAfterUpdate(exs, exerciseId, setId, f, exerciseId, setId);
    ReadAfterUpdate(exs, exerciseId, setId, f, otherExercise, otherSet);
    UpdateKeepsShape(exs, exerciseId, setId, f);
  }

  // ---------------------------------------------------------------------
  // handleAddSet.

  /** `${exerciseId}-set-${uuid}` */
  function NewSetId(exerciseId: string, uuid: string): string {
    exerciseId + "-set-" + uuid
  }

  /** The set appended to an exercise: weight and reps of its last set if it
      has one, otherwise `defaultWeight` and `defaultReps ?? 8`; never done. */
  function NewSet(sets: seq<SetEntry>, id: string, defaultWeight: Num, defaultReps: Option<Num>): (r: SetEntry)
    ensures r.id == id && !r.done
    ensures sets != [] ==> r.weight == sets[|sets| - 1].weight && r.reps == sets[|sets| - 1].reps
    ensures sets == [] && defaultReps.Some? ==> r.weight == defaultWeight && r.reps == defaultReps.value
    ensures sets == [] && defaultReps.None? ==> r.weight == defaultWeight && r.reps == FallbackReps
  {
    if sets == [] then SetEntry(id, defaultWeight, defaultReps.GetOr(FallbackReps), false)
    else SetEntry(id, sets[|sets| - 1].weight, sets[|sets| - 1].reps, false)
  }

  function AppendSet(ex: ExerciseEntry, id: string, defaultWeight: Num, defaultReps: Option<Num>): ExerciseEntry {
    ex.(sets := ex.sets + [NewSet(ex.sets, id, defaultWeight, defaultReps)])
  }

  /** `handleAddSet(exerciseId, defaultWeight, defaultReps)` on the list, with
      the fresh set id already drawn. */
  function AddSetTo(exs: seq<ExerciseEntry>, exerciseId: string, id: string, defaultWeight: Num, defaultReps: Option<Num>): seq<ExerciseEntry> {
    MapExercises(exs, exerciseId, (ex: ExerciseEntry) => AppendSet(ex, id, defaultWeight, defaultReps))
  }

  /** Adding a set grows the addressed exercise by exactly one set at the end
      and changes nothing else: no other exercise, no existing set, no order. */
  lemma AddSetEffect(exs: seq<ExerciseEntry>, exerciseId: string, id: string, defaultWeight: Num, defaultReps: Option<Num>, other: string)
    ensures var r := AddSetTo(exs, exerciseId, id, defaultWeight, defaultReps);
      |r| == |exs|
      && (forall i :: 0 <= i < |exs| && exs[i].id != exerciseId ==> r[i] == exs[i])
      && (forall i :: 0 <= i < |exs| && exs[i].id == exerciseId ==>
            r[i].id == exs[i].id && r[i].name == exs[i].name
            && |r[i].sets| == |exs[i].sets| + 1 && r[i].sets[..|exs[i].sets|] == exs[i].sets
            && r[i].sets[|exs[i].sets|] == NewSet(exs[i].sets, id, defaultWeight, defaultReps))
    ensures FindExercise(AddSetTo(exs, exerciseId, id, defaultWeight, defaultReps), other)
      == if other == exerciseId then MapOption(FindExercise(exs, exerciseId), (ex: ExerciseEntry) => AppendSet(ex, id, defaultWeight, defaultReps))
         else FindExercise(exs, other)
  {
    var g := (ex: ExerciseEntry) => AppendSet(ex, id, defaultWeight, defaultReps);
    FindExerciseAfterMap(exs, exerciseId, g, other);
    var r := AddSetTo(exs, exerciseId, id, defaultWeight, defaultReps);
    forall i | 0 <= i < |exs| && exs[i].id == exerciseId
      ensures r[i].sets[..|exs[i].sets|] == exs[i].sets
    {
      assert r[i].sets == exs[i].sets + [NewSet(exs[i].sets, id, defaultWeight, defaultReps)];
    }
  }

  // ---------------------------------------------------------------------
  // handleRemoveSet.

  /** `sets.filter(set => set.id !== setId)`: exactly the sets with another
      id, in their order and as often as they occur. */
  function RemoveSets(sets: seq<SetEntry>, setId: string): (r: seq<SetEntry>)
    ensures forall s :: s in r <==> s in sets && s.id != setId
    ensures |r| <= |sets|
    ensures (forall i :: 0 <= i < |sets| ==> sets[i].id != setId) ==> r == sets
  {
    if sets == [] then []
    else
      assert forall s :: s in sets <==> s == sets[0] || s in sets[1..];
      if sets[0].id == setId then RemoveSets(sets[1..], setId)
      else [sets[0]] + RemoveSets(sets[1..], setId)
  }

  /** The filter keeps the other sets in their order and as often as they
      occur: the result is a subsequence of the sets with the same count of
      every set whose id differs. */
  lemma {:induction false} RemoveSetsKeepsOthers(sets: seq<SetEntry>, setId: string)
    ensures IsSubsequence(RemoveSets(sets, setId), sets)
    ensures forall s: SetEntry :: s.id != setId ==> multiset(RemoveSets(sets, setId))[s] == multiset(sets)[s]
    decreases |sets|
  {
    if sets != [] {
      RemoveSetsKeepsOthers(sets[1..], setId);
      assert sets == [sets[0]] + sets[1..];
      var rest := RemoveSets(sets[1..], setId);
      if sets[0].id != setId {
        assert ([sets[0]] + rest)[1..] == rest;
      } else if rest != [] {
        assert rest[0] in rest;
      }
    }
  }

  /** `handleRemoveSet` refuses when the first exercise with that id has
      exactly one set. */
  predicate RemoveRefused(exs: seq<ExerciseEntry>, exerciseId: string) {
    var found := FindExercise(exs, exerciseId);
    found.Some? && |found.value.sets| == 1
  }

  /** The list `handleRemoveSet(exerciseId, setId)` leaves behind. */
  function RemoveSet(exs: seq<ExerciseEntry>, exerciseId: string, setId: string): seq<ExerciseEntry> {
    if RemoveRefused(exs, exerciseId) then exs
    else MapExercises(exs, exerciseId, (ex: ExerciseEntry) => ex.(sets := RemoveSets(ex.sets, setId)))
  }

  /** Removing a set: after an accepted removal the address reads nothing and
      every other address reads what it read before; a refused removal
      changes nothing. */
  lemma RemoveSetEffect(exs: seq<ExerciseEntry>, exerciseId: string, setId: string, otherExercise: string, otherSet: string)
    ensures RemoveRefused(exs, exerciseId) ==> RemoveSet(exs, exerciseId, setId) == exs
    ensures !RemoveRefused(exs, exerciseId) ==> SetAt(RemoveSet(exs, exerciseId, setId), exerciseId, setId).None?
    ensures otherExercise != exerciseId || otherSet != setId ==>
      SetAt(RemoveSet(exs, exerciseId, setId), otherExercise, otherSet) == SetAt(exs, otherExercise, otherSet)
  {
    if !RemoveRefused(exs, exerciseId) {
      var g := (ex: ExerciseEntry) => ex.(sets := RemoveSets(ex.sets, setId));
      FindExerciseAfterMap(exs, exerciseId, g, exerciseId);
      FindExerciseAfterMap(exs, exerciseId, g, otherExercise);
      if otherExercise == exerciseId && FindExercise(exs, exerciseId).Some? {
        FindSetAfterRemove(FindExercise(exs, exerciseId).value.sets, setId, otherSet);
      }
    }
  }

  lemma {:induction false} FindSetAfterRemove(sets: seq<SetEntry>, setId: string, other: string)
    ensures FindSet(RemoveSets(sets, setId), other) == if other == setId then None else FindSet(sets, other)
  {
    if sets != [] {
      FindSetAfterRemove(sets[1..], setId, other);
    }
  }

  /** No two entries share an id. */
  predicate UniqueExerciseIds(exs: seq<ExerciseEntry>) {
    forall i, j :: 0 <= i < j < |exs| ==> exs[i].id != exs[j].id
  }

  predicate UniqueSetIds(sets: seq<SetEntry>) {
    forall i, j :: 0 <= i < j < |sets| ==> sets[i].id != sets[j].id
  }

  /** The guard's promise: with unique exercise ids and unique set ids, no
      exercise that has a set loses its last one. */
  lemma RemoveKeepsEveryExerciseNonEmpty(exs: seq<ExerciseEntry>, exerciseId: string, setId: string)
    requires UniqueExerciseIds(exs)
    requires forall i :: 0 <= i < |exs| ==> UniqueSetIds(exs[i].sets)
    ensures forall i :: 0 <= i < |exs| && exs[i].sets != [] ==> RemoveSet(exs, exerciseId, setId)[i].sets != []
  {
    var r := RemoveSet(exs, exerciseId, setId);
    if !RemoveRefused(exs, exerciseId) {
      forall i | 0 <= i < |exs| && exs[i].sets != [] ensures r[i].sets != [] {
        if exs[i].id == exerciseId {
          assert FindExercise(exs, exerciseId) == Some(exs[i]);
          assert |exs[i].sets| >= 2;
          var k := if exs[i].sets[0].id != setId then 0 else 1;
          assert exs[i].sets[k].id != setId;
          assert exs[i].sets[k] in r[i].sets;
        }
      }
    }
  }

  // ---------------------------------------------------------------------
  // The hook's state.

  class Editor {
    var exercises: seq<ExerciseEntry>
    var focusSetId: Option<string>
    var templateExerciseMap: map<string, string>
    /** The toasts handed to `showToast`, oldest first. */
    var toasts: seq<Toast>

    constructor()
      ensures exercises == [] && focusSetId == None && templateExerciseMap == map[] && toasts == []
    {
      exercises := [];
      focusSetId := None;
      templateExerciseMap := map[];
      toasts := [];
    }

    /** The synchronous commit of a finished template load: the list is
        replaced wholesale and the focus cleared. */
    method CommitLoad(loaded: WorkoutService.LoadedExercises)
      modifies this
      ensures exercises == loaded.exercises && templateExerciseMap == loaded.templateExerciseMap
      ensures focusSetId == None && toasts == old(toasts)
    {
      templateExerciseMap := loaded.templateExerciseMap;
      exercises := loaded.exercises;
      focusSetId := None;
    }

    /** A failed template load only shows an error toast. */
    method LoadFailed(error: Thrown, isDevelopment: bool)
      modifies this
      ensures toasts == old(toasts) + [Toast(GetErrorMessage(error, LoadFailedMessage, isDevelopment), Error)]
      ensures exercises == old(exercises) && focusSetId == old(focusSetId)
      ensures templateExerciseMap == old(templateExerciseMap)
    {
      toasts := toasts + [Toast(GetErrorMessage(error, LoadFailedMessage, isDevelopment), Error)];
    }

    method SetChange(exerciseId: string, setId: string, field: Field, value: Num)
      modifies this
      ensures exercises == ChangeSet(old(exercises), exerciseId, setId, field, value)
      ensures focusSetId == old(focusSetId) && toasts == old(toasts)
      ensures templateExerciseMap == old(templateExerciseMap)
    {
      exercises := ChangeSet(exercises, exerciseId, setId, field, value);
    }

    method SetDone(exerciseId: string, setId: string, done: bool)
      modifies this
      ensures exercises == MarkDone(old(exercises), exerciseId, setId, done)
      ensures focusSetId == old(focusSetId) && toasts == old(toasts)
      ensures templateExerciseMap == old(templateExerciseMap)
    {
      exercises := MarkDone(exercises, exerciseId, setId, done);
    }

    /** `handleAddSet`; `uuid` is the value `crypto.randomUUID()` returned. The
        new set takes the focus. */
    method AddSet(exerciseId: string, uuid: string, defaultWeight: Num, defaultReps: Option<Num>)
      modifies this
      ensures focusSetId == Some(NewSetId(exerciseId, uuid))
      ensures exercises == AddSetTo(old(exercises), exerciseId, NewSetId(exerciseId, uuid), defaultWeight, defaultReps)
      ensures toasts == old(toasts) && templateExerciseMap == old(templateExerciseMap)
    {
      var newSetId := NewSetId(exerciseId, uuid);
      focusSetId := Some(newSetId);
      exercises := AddSetTo(exercises, exerciseId, newSetId, defaultWeight, defaultReps);
    }

    /** `handleRemoveSet`: refused with an error toast when the exercise has a
        single set. */
    method RemoveSetFrom(exerciseId: string, setId: string)
      modifies this
      ensures exercises == RemoveSet(old(exercises), exerciseId, setId)
      ensures RemoveRefused(old(exercises), exerciseId) ==>
        toasts == old(toasts) + [Toast(CannotRemoveLastSetMessage, Error)]
      ensures !RemoveRefused(old(exercises), exerciseId) ==> toasts == old(toasts)
      ensures focusSetId == old(focusSetId) && templateExerciseMap == old(templateExerciseMap)
    {
      var exercise := FindExercise(exercises, exerciseId);
      if exercise.Some? && |exercise.value.sets| == 1 {
        toasts := toasts + [Toast(CannotRemoveLastSetMessage, Error)];
        return;
      }
      exercises := RemoveSet(exercises, exerciseId, setId);
    }
  }
}
