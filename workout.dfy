/** The workout entities of src/app/lib/types/workout.ts and the shapes that
    cross the service and storage boundaries. */
module Workout {
  import opened Common

  /** A set as the editor holds it. `done` is the UI-only completion flag;
      it is never sent to storage. */
  datatype SetEntry = SetEntry(id: string, weight: Num, reps: Num, done: bool)

  /** An exercise of the session being logged; the order of `sets` is the
      order in which they were entered. */
  datatype ExerciseEntry = ExerciseEntry(id: string, name: string, sets: seq<SetEntry>)

  /** What is persisted of a set. */
  datatype SetPayload = SetPayload(weight: Num, reps: Num)

  /** What is persisted of an exercise: no UI id, an optional template reference. */
  datatype ExercisePayload = ExercisePayload(name: string, templateExerciseId: Option<string>, sets: seq<SetPayload>)

  /** The record handed to the repository by the save orchestrator. */
  datatype WorkoutPayload = WorkoutPayload(date: string, templateId: Option<string>, exercises: seq<ExercisePayload>)

  /** The field a validation error is reported against. */
  datatype Field = Weight | Reps

  /** One violation found by the validation engine. */
  datatype ValidationError = ValidationError(exerciseName: string, setIndex: nat, field: Field, message: string)

  /** A template exercise as the template repository returns it. */
  datatype TemplateExercise = TemplateExercise(id: string, templateId: string, name: string, sortOrder: int)

  /** The last-used weights of an exercise; each field is a finite number or
      `null`. */
  datatype ExerciseWeights = ExerciseWeights(workingWeight: Option<real>, maxWeight: Option<real>, lastReps: Option<real>)
}
