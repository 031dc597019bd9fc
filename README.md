# Workout tracker — a verified model of its decision logic

This project models the logic of a workout-logging web application written in
TypeScript (Next.js with a Supabase backend). The application does three things:

- It validates a logged workout: a list of exercises, each with a list of sets of
  weight and reps.
- It saves the workout through a stored procedure.
- It looks up the last weights used for each exercise.

The model covers the code behind those steps. The rendering around it is not modelled.
There is one Dafny module per source file:

| module | file | form |
|---|---|---|
| `Common`, `Constants`, `Toasts` (common.dfy) | shared values: optional values, results of code that may throw, JavaScript numbers and values, `constants.ts` | datatypes |
| `Text` (text.dfy) | the JavaScript string operations the code relies on: `trim`, `includes`, `indexOf`, `join`, `split`, decimal rendering | functions, lemmas |
| `Formats` (formats.dfy) | the anchored regular expressions for UUIDs and dates, and the date round trip through `Date` | functions, lemmas |
| `Validation`, `TypeGuards` (validation.dfy) | `validation.ts` and `types/common.ts` | functions, lemmas |
| `Normalize` (normalize.dfy) | `normalizeExerciseName` in `utils.ts` | functions, lemmas |
| `FormatErrors` (format_errors.dfy) | `formatValidationErrors.ts` | functions, lemmas |
| `ErrorHandling` (error_handling.dfy) | `supabaseErrorHandler.ts` and `errorHandler.ts` | functions, lemmas |
| `Workout` (workout.dfy) | the entity types of `types/workout.ts` | datatypes |
| `WorkoutService` (workout_service.dfy) | `workoutService.ts`: the validation engine, the save orchestrator and the template load | methods with loops, proved against specification functions |
| `WorkoutRepository` (workout_repository.dfy) | `workoutRepository.ts` | functions, lemmas |
| `LastWeights` (last_weights.dfy) | `getLastExerciseWeights.ts` | functions, and a method whose loop builds the result map |
| `ExerciseEditor` (exercise_editor.dfy) | `useWorkoutExercises.ts` | class `Editor` whose methods assign the results of pure list updates |
| `SaveGate` (save_gate.dfy) | `useWorkoutSave.ts` | class `Gate` |
| `Accordion` (accordion.dfy) | `ExerciseAccordion.tsx` | class `Panel`, and functions |
| `SelectBox` (select_box.dfy) | `Select.tsx` | class `Listbox`, and functions |
| `Base64`, `Middleware` (base64.dfy, middleware.dfy) | `middleware.ts` and the `atob` it calls | functions, lemmas |

## Modelling choices

- **Numbers.** A JavaScript number is `Finite(real) | NaN | Infinity(negative)`.
- **Errors.** Code that throws returns `Err(message)` of a `Result`.
- **String lengths.** A string is a sequence of whole characters. `length` and `slice` count UTF-16 code units, one for a character below U+10000 and two for one above U+FFFF (`Text.Utf16Length`). The name limit and the sanitizer's cut count that way.
- **Nullable values.** `null`/`undefined` become `None` of an `Option`.
- **Storage procedures** (`rpc`), the template query (`fetch`), the clock (`now`, `today`) and `crypto.randomUUID()` (`uuid`) are parameters of the members that use them.
- **Asynchronous handlers.** A handler that awaits is split at the await:
  - `Gate.Begin`/`Gate.Finish`;
  - `Panel.StartLoad`/`Panel.FinishLoad`;
  - `Editor.CommitLoad`/`Editor.LoadFailed`.
- **UUIDs.** The UUID check is the 8-4-4-4-12 hexadecimal text form of section 3 of RFC 4122. The version and variant digits are not checked.
- **Dates.**
  - The date check is proved equal to the `full-date` of RFC 3339, sections 5.6 and 5.7. That is a four-digit year, and a month and a day that exist in the Gregorian calendar.
  - `Date` parsing is replaced by that calendar: a pattern-matching string of a non-existent day fails the round trip either way.
- **Base64.** `atob` is the forgiving base64 decode over the alphabet of section 4 of RFC 4648. An encoder is added so that the round trip can be stated. The credentials are split at the first colon, as section 2 of RFC 7617 prescribes.
- **Error-list separator.** In `formatValidationErrors.ts:13` the separator is the three characters `â€”` between spaces: an em dash stored with the wrong encoding. It is modelled literally.
- **Select list.** When the list opens, it focuses option 0 rather than the selected option. The index it would use is computed as -1 while the list is closed. This is modelled as written.

## Model

| member | source | states |
|---|---|---|
| `Validation.IsValidUuidIsUuidText` | src/app/lib/utils/validation.ts:13-16 | `isValidUUID` is false for null, undefined and ""; otherwise it holds exactly for 36 characters with '-' at positions 8, 13, 18, 23 and a hex digit of either case elsewhere |
| `Validation.IsValidUuid` | src/app/lib/utils/validation.ts:13-16 | `isValidUUID`: false for null, undefined and "", otherwise the UUID pattern test; its meaning is stated by `IsValidUuidIsUuidText` |
| `Formats.UuidRegexIsUuidText` | src/app/lib/utils/validation.ts:7-8 | the anchored, case-insensitive UUID regular expression accepts exactly the 8-4-4-4-12 hex form |
| `Formats.MatchesPointwise` | src/app/lib/utils/validation.ts:7-8 | a fixed-width anchored pattern matches exactly the strings of its length that match it position by position |
| `Formats.DatePatternIsDateText` | src/app/lib/utils/validation.ts:23-24 | `/^\d{4}-\d{2}-\d{2}$/` accepts exactly four ASCII digits, '-', two digits, '-', two digits |
| `Formats.ParseIsoDate` | src/app/lib/utils/validation.ts:26-29 | `new Date(s)` on a date-pattern string gives a real calendar date made of the string's own fields, or fails |
| `Formats.FormatIsoDate` | src/app/lib/utils/validation.ts:30 | `toISOString().slice(0, 10)` of a real date is again a `YYYY-MM-DD` text |
| `Formats.ParsedDateRoundTrips` | src/app/lib/utils/validation.ts:26-31 | every date the parser accepts formats back to exactly the text it came from |
| `Formats.DateCheckIsFullDate` | src/app/lib/utils/validation.ts:23-31 | the pattern test followed by the round trip accepts exactly the RFC 3339 full dates |
| `Formats.FormatParseRoundTrip` | src/app/lib/utils/validation.ts:26-31 | writing a real date and reading it back gives the same date, and the text is a full date |
| `Formats.DaysInMonth` | src/app/lib/utils/validation.ts:26-31 | each month has between 28 and 31 days |
| `Formats.PadDigits` | src/app/lib/utils/validation.ts:30 | zero-padding to a width gives exactly that many digits with the same value |
| `Formats.PadDecimalValue` | src/app/lib/utils/validation.ts:30 | reading a digit string and writing it back at its width gives the same string |
| `Validation.IsValidDateIsFullDate` | src/app/lib/utils/validation.ts:21-32 | `isValidDate` holds exactly for RFC 3339 full dates: "" and non-pattern text fail, as do days that do not exist |
| `Validation.IsValidDateLeapDay` | src/app/lib/utils/validation.ts:21-32 | 2024-02-29 is accepted |
| `Validation.IsValidDateNoLeapDay` | src/app/lib/utils/validation.ts:21-32 | 2023-02-29 is rejected |
| `Validation.IsValidDateRejectsMonth` | src/app/lib/utils/validation.ts:21-32 | month 13 and a one-digit month are rejected |
| `Validation.IsValidDate` | src/app/lib/utils/validation.ts:21-32 | `isValidDate`: "" fails, then the pattern test, then the `Date` round trip; its meaning is stated by `IsValidDateIsFullDate` |
| `Validation.RemoveAngleBrackets` | src/app/lib/utils/validation.ts:51 | `replace(/[<>]/g, "")` leaves no angle bracket and never lengthens the text, in characters or in UTF-16 code units |
| `Validation.RemoveAngleBracketsKeepsOthers` | src/app/lib/utils/validation.ts:51 | the result is a subsequence of the input that keeps every other character as often as it occurs |
| `Validation.RemoveAngleBracketsAppend` | src/app/lib/utils/validation.ts:51 | the replacement distributes over concatenation |
| `Validation.RemoveAngleBracketsIdentity` | src/app/lib/utils/validation.ts:51 | text without angle brackets is left unchanged |
| `Validation.SliceEnd` | src/app/lib/utils/validation.ts:47 | `slice(0, end)` keeps `end` code units, all of them past the length, and counts a negative end from the back |
| `Validation.SanitizedPrefix` | src/app/lib/utils/validation.ts:47 | `trim().slice(0, maxLength)` is a prefix of the trimmed input of at most `maxLength` UTF-16 code units; it is the longest such prefix, and the whole trimmed input when that fits |
| `Validation.SanitizeString` | src/app/lib/utils/validation.ts:38-54 | a non-string gives ""; the result has at most `maxLength` UTF-16 code units and no '<' or '>' |
| `Validation.SanitizeKeepsOthers` | src/app/lib/utils/validation.ts:47-51 | the result is the trimmed, cut input with only the angle brackets deleted, order kept |
| `Validation.SanitizeOrdinaryText` | src/app/lib/utils/validation.ts:38-54 | bracket-free text whose trim fits in the limit, counted in UTF-16 code units, comes back exactly trimmed |
| `Validation.SanitizeCutsCodeUnits` | src/app/lib/utils/validation.ts:47 | the cut counts code units: 100 or more characters above U+FFFF are cut to their first 100 under the default limit of 200 |
| `Validation.SanitizeMayLeaveWhitespace` | src/app/lib/utils/validation.ts:47-51 | trimming runs before bracket removal, so "< a" gives " a" |
| `Validation.TrimNoBrackets` | src/app/lib/utils/validation.ts:47 | trimming a bracket-free string leaves it bracket-free |
| `Validation.IsValidNumberIsInRange` | src/app/lib/utils/validation.ts:59-71 | `isValidNumber` holds exactly for a finite value in the closed range; NaN and both infinities fail |
| `Validation.IsValidNumber` | src/app/lib/utils/validation.ts:59-71 | `isValidNumber` on a number: finite, not NaN and inside `[min, max]`; `IsValidNumberIsInRange` states it as a closed range |
| `Validation.IsValidArrayLengthRange` | src/app/lib/utils/validation.ts:76-82 | `isValidArrayLength` holds exactly for lengths in the closed range; with the defaults, up to 1000 |
| `Validation.IsValidArrayLength` | src/app/lib/utils/validation.ts:76-82 | `isValidArrayLength` on an array, with the defaults 0 and 1000; `IsValidArrayLengthRange` states it as a closed range |
| `TypeGuards.IsUuidAgrees` | src/app/lib/types/common.ts:12-16 | `isUUID` agrees with `isValidUUID` on every string and holds exactly for the 8-4-4-4-12 hex form |
| `TypeGuards.IsDateStringAgrees` | src/app/lib/types/common.ts:21-31 | `isDateString` agrees with `isValidDate` on every string and holds exactly for the RFC 3339 full dates |
| `TypeGuards.IsUuid` | src/app/lib/types/common.ts:12-16 | `isUUID`: the UUID pattern test, with no separate test for ""; `IsUuidAgrees` states its meaning |
| `TypeGuards.IsDateString` | src/app/lib/types/common.ts:21-31 | `isDateString`: the date pattern, then the `Date` round trip; `IsDateStringAgrees` states its meaning |
| `TypeGuards.AssertUuid` | src/app/lib/types/common.ts:37-42 | returns the value unchanged exactly when `isUUID` holds, otherwise fails with "Invalid UUID: " + value |
| `TypeGuards.AssertDateString` | src/app/lib/types/common.ts:48-53 | returns the value unchanged exactly when `isDateString` holds, otherwise fails with "Invalid date string: " + value |
| `TypeGuards.AssertionsIdempotent` | src/app/lib/types/common.ts:37-53 | a value that passed an assertion passes it again with the same result |
| `Text.TrimStart` | src/app/lib/utils/validation.ts:47 | what remains is a suffix, everything dropped is white space, and the rest starts with non-white space |
| `Text.TrimEnd` | src/app/lib/utils/validation.ts:47 | what remains is a prefix, everything dropped is white space, and the rest ends with non-white space |
| `Text.Trim` | src/app/lib/utils/validation.ts:47 | `trim` gives a contiguous piece with no white space at either end, empty exactly for blank input |
| `Text.TrimIdentity` | src/app/lib/utils.ts:8 | text with no white space at either end is its own trim |
| `Text.Utf16Length` | src/app/lib/services/workoutService.ts:136 | `length` counts UTF-16 code units: between one and two per character |
| `Text.Utf16LengthUniform` | src/app/lib/services/workoutService.ts:136 | text below U+10000 has one code unit per character, text above U+FFFF two |
| `Text.Utf16LengthAppend` | src/app/lib/utils/validation.ts:47 | the code units of a concatenation add up |
| `Text.Utf16LengthSlice` | src/app/lib/utils/validation.ts:47 | a piece of a text has no more code units than the text |
| `Text.Utf16LengthPrefix` | src/app/lib/utils/validation.ts:47 | a prefix has no more code units than the string |
| `Text.Utf16LengthDrop` | src/app/lib/utils/validation.ts:47 | dropping `k` characters removes at least `k` code units |
| `Text.Utf16Take` | src/app/lib/utils/validation.ts:47 | the number of characters `slice(0, units)` keeps, never more than the string has; its meaning is stated by `Utf16TakeFits`, `Utf16TakeLongest` and `Utf16TakeWhole` |
| `Text.Utf16TakeFits` | src/app/lib/utils/validation.ts:47 | the kept prefix has at most `units` code units |
| `Text.Utf16TakeLongest` | src/app/lib/utils/validation.ts:47 | the kept prefix is the longest that fits: one more character would exceed `units` |
| `Text.Utf16TakeWhole` | src/app/lib/utils/validation.ts:47 | a string that fits in `units` code units is kept whole |
| `Text.IncludesAt` | src/app/lib/utils/supabaseErrorHandler.ts:13-17 | `includes` holds exactly when the text occurs at some position |
| `Text.IndexOf` | middleware.ts:35 | `indexOf` is -1 exactly when the character is absent, and otherwise the position of its first occurrence |
| `Text.IndexOfAfter` | middleware.ts:35-41 | the first colon of `a + ":" + b` with a colon-free `a` is just after `a` |
| `Text.Join` | src/app/lib/utils/formatValidationErrors.ts:15 | joining nothing gives "", joining one part gives that part |
| `Text.JoinAppend` | src/app/lib/utils/formatValidationErrors.ts:15 | joining two non-empty lists puts exactly one separator between them |
| `Text.Split` | src/app/lib/utils/formatValidationErrors.ts:15 | `split` always gives at least one part |
| `Text.SplitJoin` | src/app/lib/utils/formatValidationErrors.ts:15 | `split` undoes `join` when no part contains the separator |
| `Text.NatToString` | src/app/lib/utils/formatValidationErrors.ts:13 | the decimal rendering of a number: digits only, no leading zero, the same value |
| `Normalize.CollapseWhitespace` | src/app/lib/utils.ts:8 | `replace(/\s+/g, " ")` never lengthens the text and empties only the empty string |
| `Normalize.CollapseEnds` | src/app/lib/utils.ts:8 | the collapsed text starts and ends with white space exactly when the input does |
| `Normalize.CollapseSingleSpaced` | src/app/lib/utils.ts:8 | afterwards every white-space character is a plain space and no two are adjacent |
| `Normalize.CollapseKeepsWords` | src/app/lib/utils.ts:8 | collapsing keeps every non-white-space character, in order |
| `Normalize.CollapseNoNewCharacters` | src/app/lib/utils.ts:8 | every character of the result is a space or a character of the input |
| `Normalize.CollapseFixpoint` | src/app/lib/utils.ts:8 | a single-spaced text is left unchanged |
| `Normalize.CollapseIdempotent` | src/app/lib/utils.ts:8 | collapsing twice is collapsing once |
| `Normalize.CollapsePrefixWord` | src/app/lib/utils.ts:8 | a leading run of non-white-space characters is copied unchanged |
| `Normalize.CollapseRun` | src/app/lib/utils.ts:8 | a leading white-space run before a word becomes one space |
| `Normalize.CollapseTrimmed` | src/app/lib/utils.ts:8 | collapsing a trimmed text gives a single-spaced text with no white space at either end |
| `Normalize.CollapseClean` | src/app/lib/utils.ts:7-8 | collapsing a trimmed, bracket-free text gives a clean name no longer than the input |
| `Normalize.CollapseUtf16Length` | src/app/lib/utils.ts:8 | collapsing never lengthens the text in UTF-16 code units |
| `Normalize.TrimUtf16Length` | src/app/lib/utils.ts:8 | `trim` never lengthens the text in UTF-16 code units |
| `Normalize.NormalizeOutput` | src/app/lib/utils.ts:6-9 | a normalized name has at most 200 UTF-16 code units, no white space at either end, only single plain spaces inside and no '<' or '>' |
| `Normalize.NormalizeKeepsWords` | src/app/lib/utils.ts:6-9 | the non-white-space characters of a normalized name are those of the trimmed, sanitized input |
| `Normalize.NormalizeBlank` | src/app/lib/utils.ts:6-9 | a name made only of white space and angle brackets, or empty, normalizes to "" |
| `Normalize.RemoveAngleBracketsBlank` | src/app/lib/utils.ts:7-8 | white space and angle brackets leave only white space once the brackets are removed |
| `Normalize.NormalizeIdempotent` | src/app/lib/utils.ts:6-9 | normalizing a normalized name changes nothing |
| `Normalize.NormalizePadded` | src/app/lib/utils.ts:6-9 | white space around an already clean name is dropped and inner runs collapse |
| `Normalize.NormalizeExample` | src/app/lib/utils.ts:6-9 | " Bench  Press " normalizes to "Bench Press" |
| `Normalize.BenchPressPadded` | src/app/lib/utils.ts:6-9 | " Bench  Press " is the clean name "Bench  Press" with one space around it, so normalizing it only collapses the inner run |
| `Normalize.CollapseExample` | src/app/lib/utils.ts:8 | "Bench  Press" collapses to "Bench Press" |
| `Normalize.TrimPadded` | src/app/lib/utils.ts:8 | `trim` removes exactly the white space around a text whose ends are not white space |
| `Normalize.NormalizeExerciseName` | src/app/lib/utils.ts:6-9 | `sanitizeString(name, 200)`, trimmed, with white-space runs collapsed; stated by `NormalizeOutput`, `NormalizeKeepsWords`, `NormalizeIdempotent` and `NormalizeBlank` |
| `FormatErrors.Lines` | src/app/lib/utils/formatValidationErrors.ts:10-14 | one line per error, line i made from error i alone |
| `FormatErrors.FormatEmpty` | src/app/lib/utils/formatValidationErrors.ts:7-16 | no error gives "" |
| `FormatErrors.LineHasNoNewline` | src/app/lib/utils/formatValidationErrors.ts:13 | a line has no newline when the name and the message have none |
| `FormatErrors.JoinCount` | src/app/lib/utils/formatValidationErrors.ts:15 | a join adds exactly one separator per gap |
| `FormatErrors.LinesHaveNoNewline` | src/app/lib/utils/formatValidationErrors.ts:10-14 | the lines of newline-free errors hold no newline |
| `FormatErrors.FormatSplitsIntoLines` | src/app/lib/utils/formatValidationErrors.ts:7-16 | n newline-free errors give a text that splits back into exactly their n lines, in order |
| `FormatErrors.FormatNewlineCount` | src/app/lib/utils/formatValidationErrors.ts:7-16 | that text holds exactly n - 1 newlines and so no trailing one |
| `FormatErrors.FormatAppend` | src/app/lib/utils/formatValidationErrors.ts:7-16 | adding an error appends a newline and exactly its line |
| `FormatErrors.FormatValidationErrors` | src/app/lib/utils/formatValidationErrors.ts:7-16 | the lines joined by "\n"; stated by `FormatEmpty`, `FormatSplitsIntoLines`, `FormatNewlineCount` and `FormatAppend` |
| `ErrorHandling.HandleSupabaseError` | src/app/lib/utils/supabaseErrorHandler.ts:5-23 | never returns normally; a null error or a missing or empty message gives the default; otherwise "violates", then "duplicate", then "foreign key" select the fixed message; the message is always one of the three fixed ones or the default |
| `ErrorHandling.ViolatesTakesPriority` | src/app/lib/utils/supabaseErrorHandler.ts:11-20 | "violates" at any position gives the validation message whatever else the text holds; failing that, "duplicate" anywhere gives the duplicate message; failing both, "foreign key" anywhere gives the reference message |
| `ErrorHandling.ViolatesAfterOtherKeywords` | src/app/lib/utils/supabaseErrorHandler.ts:11-20 | "violates" after "duplicate foreign key" still gives the validation message |
| `ErrorHandling.GetErrorMessage` | src/app/lib/utils/errorHandler.ts:5-10 | outside development the default; in development an `Error`'s own message; any other thrown value gives the default |
| `WorkoutService.SetErrors` | src/app/lib/services/workoutService.ts:104-130 | a set gives no error exactly when it is valid; one error per failed bound, reps before weight, with index + 1, the exercise name and the fixed messages |
| `WorkoutService.ValidateSet` | src/app/lib/services/workoutService.ts:104-130 | the pushes of `validateSet` give exactly the specified errors of the set |
| `WorkoutService.ValidateExercise` | src/app/lib/services/workoutService.ts:157-166 | the name error, the set-count error, then every set's errors in order |
| `WorkoutService.ValidateWorkout` | src/app/lib/services/workoutService.ts:150-169 | the nested loops return exactly the specified error list |
| `WorkoutService.SetsErrorsEmptyIff` | src/app/lib/services/workoutService.ts:162-165 | the sets give no error exactly when each of them is valid |
| `WorkoutService.ExercisesErrorsEmptyIff` | src/app/lib/services/workoutService.ts:157-166 | the exercises give no error exactly when each of them is valid |
| `WorkoutService.WorkoutErrorsEmptyIff` | src/app/lib/services/workoutService.ts:72-169 | `validateWorkout` returns [] exactly when there are at most 100 exercises, every name has at most 100 UTF-16 code units, every exercise at most 50 sets, and every set reps in [1, 1000] and weight in [0, 10000] |
| `WorkoutService.WorkoutErrors` | src/app/lib/services/workoutService.ts:150-169 | what `validateWorkout` returns: the count error alone, or the errors of every exercise in order; stated by `WorkoutErrorsEmptyIff`, `WorkoutErrorsTooMany` and `WorkoutErrorsAppend` |
| `WorkoutService.WorkoutErrorsTooMany` | src/app/lib/services/workoutService.ts:150-155 | more than 100 exercises give exactly the one "Workout" error with index 0, and no per-exercise checks run |
| `WorkoutService.WorkoutErrorsAppend` | src/app/lib/services/workoutService.ts:157-166 | errors accumulate without short-circuit: an added exercise appends its own errors |
| `WorkoutService.ExercisesErrorsAgree` | src/app/lib/services/workoutService.ts:157-166 | the errors of the first n exercises depend only on those exercises |
| `WorkoutService.SetsErrorsLocate` | src/app/lib/services/workoutService.ts:111-127 | every per-set error names the exercise and a set index between 1 and the number of sets |
| `WorkoutService.ExerciseErrorsLocate` | src/app/lib/services/workoutService.ts:87-145 | every error of an exercise names it; the errors against index 0 are the name and set-count errors, reported on the "weight" field |
| `WorkoutService.SetOutOfBoundsExample` | src/app/lib/services/workoutService.test.ts:28-45 | reps 0 and weight 10001 give exactly two errors, reps first |
| `WorkoutService.NameLimitCountsCodeUnits` | src/app/lib/services/workoutService.ts:135-145 | the name limit counts code units: 51 characters above U+FFFF are too long, 100 characters below U+10000 are not |
| `WorkoutService.FractionalRepsAccepted` | src/app/lib/services/workoutService.ts:111 | reps need not be whole numbers |
| `WorkoutService.IdsRejection` | src/app/lib/services/workoutService.ts:182-195 | no rejection exactly when a present, non-empty template id and every value of the map are well-formed UUIDs |
| `WorkoutService.ValidateWorkoutIds` | src/app/lib/services/workoutService.ts:182-195 | the loop over the map gives exactly that rejection, whatever order it visits the map in |
| `WorkoutService.OptionalUuid` | src/app/lib/services/workoutService.ts:236 | a falsy id becomes absent; a present one is kept unchanged once it passes the assertion |
| `WorkoutService.ExercisePayloads` | src/app/lib/services/workoutService.ts:237-249 | a built payload has one entry per exercise, in order, each the exercise's own payload |
| `WorkoutService.ExercisePayloadsOk` | src/app/lib/services/workoutService.ts:237-249 | the payloads build when every exercise's does |
| `WorkoutService.SaveRejectsBeforeStorage` | src/app/lib/services/workoutService.ts:207-231 | a rejected save gives the rejection whatever the save procedure would do |
| `WorkoutService.SaveRejectionOrder` | src/app/lib/services/workoutService.ts:207-227 | the rejections come in order: no exercise, no set, malformed template id, malformed map value, then "Cannot save workout:\n" and the formatted errors |
| `WorkoutService.SavePrecheckAccepts` | src/app/lib/services/workoutService.ts:201-250 | the checks pass exactly when there is an exercise and a set, the ids are well-formed, the workout is valid and the date is a real one; the payload then has that date and keeps every exercise in order with its template exercise id, and its sets unchanged |
| `WorkoutService.SavePrecheck` | src/app/lib/services/workoutService.ts:201-250 | `saveWorkout` up to the storage call: the checks in order, then the payload; stated by `SaveRejectionOrder` and `SavePrecheckAccepts` |
| `WorkoutService.PayloadBuilds` | src/app/lib/services/workoutService.ts:234-250 | once the ids passed and the workout is valid, the payload builds and matches the exercises |
| `WorkoutService.SaveReturnsUuid` | src/app/lib/services/workoutService.ts:252-253 | a successful save returns a well-formed UUID |
| `WorkoutService.SaveWorkout` | src/app/lib/services/workoutService.ts:201-253 | `saveWorkout`: the checks, the repository call on the payload, and the final UUID assertion; stated by `SaveRejectsBeforeStorage`, `SaveOutcome` and `SaveReturnsUuid` |
| `WorkoutService.SaveOutcome` | src/app/lib/services/workoutService.ts:201-253 | once the checks pass, storage receives the checked payload, and the save succeeds exactly when storage replies with no error and a UUID string, which is then returned |
| `WorkoutService.SaveRejectsMalformedTemplateId` | src/app/lib/services/workoutService.test.ts:59-65 | "not-a-uuid" as template id is rejected with "Invalid template ID format." before storage |
| `WorkoutService.SaveRejectsMalformedMapValue` | src/app/lib/services/workoutService.test.ts:67-75 | a malformed map value is rejected with "Invalid template exercise ID format.", even for an exercise not in the list |
| `WorkoutService.LoadTemplateExercises` | src/app/lib/services/workoutService.ts:38-67 | a malformed template id is rejected before the query; a query error is passed on; otherwise one set-less entry "exercise-" + id per template exercise, in order, and a map from each entry id back to its template exercise id |
| `WorkoutService.EntryIdInjective` | src/app/lib/services/workoutService.ts:53-54 | different template exercise ids give different entry ids |
| `WorkoutRepository.SetRows` | src/app/lib/repositories/workoutRepository.ts:26-29 | every set keeps its weight and reps, in order |
| `WorkoutRepository.ExerciseRowOf` | src/app/lib/repositories/workoutRepository.ts:23-30 | an exercise is sent under its normalized name, with its template exercise id (or null) and its sets unchanged |
| `WorkoutRepository.ExerciseRows` | src/app/lib/repositories/workoutRepository.ts:23-30 | every exercise is sent, in order, with the same count |
| `WorkoutRepository.ExerciseRowsCanonical` | src/app/lib/repositories/workoutRepository.ts:23-30 | every name sent is in normal form: normalizing it again changes nothing, and it is a clean name of at most 200 code units |
| `WorkoutRepository.SaveArgsOf` | src/app/lib/repositories/workoutRepository.ts:32-36 | the procedure receives the date and template id as given and every exercise in order under its normalized name, with its template exercise id and sets |
| `WorkoutRepository.SaveWorkout` | src/app/lib/repositories/workoutRepository.ts:21-49 | a storage error or a falsy id gives the classified message; with no error a truthy non-string id fails with "Failed to save workout." and a string id goes through `assertUUID`, so a UUID reply is the result; success needs no error and a string UUID |
| `WorkoutRepository.SaveWorkoutMessages` | src/app/lib/repositories/workoutRepository.ts:38-48 | a failed save carries one of the fixed messages or names the malformed id; the backend's own text never reaches the caller |
| `LastWeights.ToNumber` | src/app/lib/getLastExerciseWeights.ts:38 | `Number` keeps a number, gives NaN for undefined and 0 for null |
| `LastWeights.ToNullableNumber` | src/app/lib/getLastExerciseWeights.ts:34-40 | null exactly for null, undefined or a non-finite coercion; otherwise the finite value |
| `LastWeights.AcceptedColumnKept` | src/app/lib/getLastExerciseWeights.ts:17-40 | on a column the row check accepted, only null and undefined become null, and a finite number is kept |
| `LastWeights.IsWeightsBatchRow` | src/app/lib/getLastExerciseWeights.ts:17-32 | `isWeightsBatchRow`: a truthy object with a string name whose three weight columns are null, undefined or coerce to a finite number; `AcceptedColumnKept` states what it admits |
| `LastWeights.NormalizerIdempotent` | src/app/lib/getLastExerciseWeights.ts:48 | the normalizer used on names is idempotent |
| `LastWeights.Normalized` | src/app/lib/getLastExerciseWeights.ts:48 | every name is normalized, in order |
| `LastWeights.UniqueNonEmpty` | src/app/lib/getLastExerciseWeights.ts:45-51 | the result holds exactly the non-empty names, each once |
| `LastWeights.UniqueNonEmptyOrder` | src/app/lib/getLastExerciseWeights.ts:45-51 | a name earlier in the result first occurs earlier in the input |
| `LastWeights.PrepareNames` | src/app/lib/getLastExerciseWeights.ts:45-51 | the names sent are exactly the non-empty normalized names, without duplicates |
| `LastWeights.PrepareNamesOrder` | src/app/lib/getLastExerciseWeights.ts:45-51 | the names sent are in first-occurrence order |
| `LastWeights.PreparedNamesCanonical` | src/app/lib/getLastExerciseWeights.ts:45-51 | with an idempotent normalizer every name sent is its own normal form |
| `LastWeights.NoNamesIffBlank` | src/app/lib/getLastExerciseWeights.ts:45-55 | nothing is sent exactly when every name normalizes to "" |
| `LastWeights.WeightsByNameKeys` | src/app/lib/getLastExerciseWeights.ts:76-84 | the keys are exactly the non-empty normalized names of the rows |
| `LastWeights.WeightsByNameLastRow` | src/app/lib/getLastExerciseWeights.ts:76-84 | each key holds the weights of the last row stored under it, so later rows overwrite earlier ones |
| `LastWeights.WeightsKeysCanonical` | src/app/lib/getLastExerciseWeights.ts:76-84 | with an idempotent normalizer every key is non-empty and canonical |
| `LastWeights.BuildWeights` | src/app/lib/getLastExerciseWeights.ts:74-84 | the loop builds exactly the specified map |
| `LastWeights.AcceptedRows` | src/app/lib/getLastExerciseWeights.ts:70-71 | the kept rows all pass the row check, and none was dropped exactly when every row passes |
| `LastWeights.WeightsFromReply` | src/app/lib/getLastExerciseWeights.ts:62-86 | a storage error gives its message or the default; non-array data and any bad row give the fixed messages, with no partial result; with no error, array data and every row valid the result is exactly the map of the rows |
| `LastWeights.LastExerciseWeightsBatch` | src/app/lib/getLastExerciseWeights.ts:42-87 | with no non-blank name the result is {} and storage is not called; otherwise storage receives the prepared names and its reply decides the outcome |
| `LastWeights.BatchKeysCanonical` | src/app/lib/getLastExerciseWeights.ts:45-84 | the names sent and the keys of a successful result are canonical exercise names |
| `ExerciseEditor.FindExercise` | src/app/hooks/useWorkoutExercises.ts:98 | `find` gives nothing exactly when no exercise has the id, and otherwise an exercise of the list with that id |
| `ExerciseEditor.FindSet` | src/app/hooks/useWorkoutExercises.ts:57-58 | nothing exactly when no set has the id, and otherwise a set of the list with that id |
| `ExerciseEditor.MapSets` | src/app/hooks/useWorkoutExercises.ts:57-59 | length and order kept; the sets with the id updated, every other set unchanged |
| `ExerciseEditor.MapExercises` | src/app/hooks/useWorkoutExercises.ts:51-61 | length and order kept; the exercises with the id updated, every other exercise unchanged |
| `ExerciseEditor.FindSetAfterMap` | src/app/hooks/useWorkoutExercises.ts:57-59 | after an id-keeping update, looking up a set finds the updated set or the same set |
| `ExerciseEditor.FindExerciseAfterMap` | src/app/hooks/useWorkoutExercises.ts:51-61 | the same one level up, for exercises |
| `ExerciseEditor.ReadAfterUpdate` | src/app/hooks/useWorkoutExercises.ts:50-62 | reading any address after an update gives the updated set at the updated address and the old set elsewhere |
| `ExerciseEditor.UpdateKeepsShape` | src/app/hooks/useWorkoutExercises.ts:50-62 | an id-keeping update changes no exercise id or name, no set id and no order |
| `ExerciseEditor.ChangeSetEffect` | src/app/hooks/useWorkoutExercises.ts:50-62 | `handleSetChange` changes only the one field of the addressed set; every other set reads the same and the shape is kept |
| `ExerciseEditor.ChangeSet` | src/app/hooks/useWorkoutExercises.ts:50-62 | the list `handleSetChange` leaves; stated by `ChangeSetEffect` |
| `ExerciseEditor.MarkDoneEffect` | src/app/hooks/useWorkoutExercises.ts:123-137 | `handleSetDone` changes only the addressed set's flag |
| `ExerciseEditor.MarkDone` | src/app/hooks/useWorkoutExercises.ts:123-137 | the list `handleSetDone` leaves; stated by `MarkDoneEffect` |
| `ExerciseEditor.NewSet` | src/app/hooks/useWorkoutExercises.ts:76-82 | the new set copies the last set's weight and reps; with no set it takes the defaults, reps 8 when none is given; it starts not done |
| `ExerciseEditor.AddSetEffect` | src/app/hooks/useWorkoutExercises.ts:71-89 | the addressed exercise grows by exactly the new set at the end; every other exercise is unchanged |
| `ExerciseEditor.AddSetTo` | src/app/hooks/useWorkoutExercises.ts:71-89 | the list `handleAddSet` leaves; stated by `AddSetEffect` |
| `ExerciseEditor.RemoveSets` | src/app/hooks/useWorkoutExercises.ts:113 | `filter` keeps exactly the sets with another id; an unknown id changes nothing |
| `ExerciseEditor.RemoveSetsKeepsOthers` | src/app/hooks/useWorkoutExercises.ts:113 | the kept sets are a subsequence of the list, in their order, each kept as often as it occurs |
| `ExerciseEditor.RemoveSetEffect` | src/app/hooks/useWorkoutExercises.ts:97-117 | a refused removal leaves the list as it was; an accepted one empties the address and leaves every other address as it was |
| `ExerciseEditor.RemoveSet` | src/app/hooks/useWorkoutExercises.ts:97-117 | the list `handleRemoveSet` leaves; stated by `RemoveSetEffect` |
| `ExerciseEditor.FindSetAfterRemove` | src/app/hooks/useWorkoutExercises.ts:113 | after the filter the removed id reads nothing and every other id reads as before |
| `ExerciseEditor.RemoveKeepsEveryExerciseNonEmpty` | src/app/hooks/useWorkoutExercises.ts:97-117 | with unique ids, no removal empties an exercise that had sets |
| `ExerciseEditor.Editor.constructor` | src/app/hooks/useWorkoutExercises.ts:13-15 | an empty list, no focused set, an empty map and no toast |
| `ExerciseEditor.Editor.CommitLoad` | src/app/hooks/useWorkoutExercises.ts:27-30 | after a load the list and the map are replaced wholesale and the focus is cleared |
| `ExerciseEditor.Editor.LoadFailed` | src/app/hooks/useWorkoutExercises.ts:31-34 | a failed load only adds the error toast |
| `ExerciseEditor.Editor.SetChange` | src/app/hooks/useWorkoutExercises.ts:43-65 | the list becomes the field change of the old list; nothing else changes |
| `ExerciseEditor.Editor.SetDone` | src/app/hooks/useWorkoutExercises.ts:123-137 | the list becomes the done change of the old list; nothing else changes |
| `ExerciseEditor.Editor.AddSet` | src/app/hooks/useWorkoutExercises.ts:67-93 | the new set's id is exerciseId + "-set-" + uuid, it gets the focus, and it is appended to the addressed exercise |
| `ExerciseEditor.Editor.RemoveSetFrom` | src/app/hooks/useWorkoutExercises.ts:95-121 | a refused removal adds the "Cannot remove the last set" toast and keeps the list; otherwise the set is filtered out |
| `SaveGate.ShortId` | src/app/hooks/useWorkoutSave.ts:48 | `slice(0, 6)` is a prefix of at most six characters, exactly six when the id is long enough |
| `SaveGate.SavedMessage` | src/app/hooks/useWorkoutSave.ts:48 | the success text is "Workout saved (", a prefix of the id, and ")" |
| `SaveGate.SpacedApart` | src/app/hooks/useWorkoutSave.ts:33-39 | any two accepted calls are at least 2000 ms apart per accepted call between them |
| `SaveGate.Gate.constructor` | src/app/hooks/useWorkoutSave.ts:25-26 | the last save is at time 0 and nothing is saving |
| `SaveGate.Gate.Begin` | src/app/hooks/useWorkoutSave.ts:33-41 | a call passes exactly when at least 2000 ms passed since the last accepted one; a refused call adds the wait toast and changes nothing else; an accepted one records its time before saving and sets `isSaving` |
| `SaveGate.Gate.Finish` | src/app/hooks/useWorkoutSave.ts:42-54 | `isSaving` goes false on both outcomes; success shows the short id and calls `onSaved`, failure shows the error message and does not call it |
| `Accordion.FormatWeightSummary` | src/app/components/ExerciseAccordion.tsx:31-40 | "-- / -- kg" when either value is null, and otherwise "<working> / <max> kg" |
| `Accordion.AddSetButton` | src/app/components/ExerciseAccordion.tsx:294-298 | the button adds a set with the cached working weight or 0 and the cached last reps if any |
| `Accordion.AutoAddSet` | src/app/components/ExerciseAccordion.tsx:126-140 | a set is added exactly when an exercise is open, found, has no sets and has cached weights |
| `Accordion.AutoAddMatchesButton` | src/app/components/ExerciseAccordion.tsx:126-140 | the automatic set uses the button's defaults, and the editor's new set takes exactly those values |
| `Accordion.HeaderText` | src/app/components/ExerciseAccordion.tsx:206-242 | "Loading..." while a load runs; otherwise the summary of the cached weights, or the placeholder summary when nothing is cached, in both cases ending in " kg" |
| `Accordion.Panel.constructor` | src/app/components/ExerciseAccordion.tsx:49-76 | nothing open, cached, in flight or loading |
| `Accordion.Panel.SyncOpen` | src/app/components/ExerciseAccordion.tsx:52-58 | with none open the first exercise opens; an empty list clears the open id |
| `Accordion.Panel.StartLoad` | src/app/components/ExerciseAccordion.tsx:93-101 | nothing happens for a cached or in-flight id; otherwise the id goes in flight and is marked loading; no id is requested twice |
| `Accordion.Panel.FinishLoad` | src/app/components/ExerciseAccordion.tsx:103-121 | the weights, or all-null ones after a failure, are cached; the id leaves the in-flight set and stops loading |
| `Accordion.Panel.HeaderClick` | src/app/components/ExerciseAccordion.tsx:220-225 | a click toggles the exercise, so at most one is open; a load starts only when it opens an uncached id with no request in flight, and then the id goes in flight, is marked loading and is recorded as requested; otherwise those stay as they were |
| `SelectBox.NextIndex` | src/app/components/Select.tsx:75-81 | ArrowDown goes one down, from the last option (or from -1 to the first) wrapping to 0 |
| `SelectBox.PrevIndex` | src/app/components/Select.tsx:83-89 | ArrowUp goes one up, from 0 or -1 wrapping to the last option |
| `SelectBox.UpDownInverse` | src/app/components/Select.tsx:75-89 | on every focused option, up undoes down and down undoes up |
| `SelectBox.DownsWrap` | src/app/components/Select.tsx:75-81 | k presses of ArrowDown move k places, wrapping past the last option |
| `SelectBox.DownsCycle` | src/app/components/Select.tsx:75-81 | going once round returns to the starting option |
| `SelectBox.FindOption` | src/app/components/Select.tsx:32-35 | nothing exactly when no option has the value; otherwise the first such option |
| `SelectBox.ButtonLabel` | src/app/components/Select.tsx:32-35 | the first matching option's label, or the placeholder when none matches |
| `SelectBox.Listbox.constructor` | src/app/components/Select.tsx:25-26 | closed, with focus -1 and no change reported |
| `SelectBox.Listbox.Choose` | src/app/components/Select.tsx:43-51 | `onChange` receives the id, the list closes and the focus resets to -1 |
| `SelectBox.Listbox.ButtonClick` | src/app/components/Select.tsx:169-176 | the button toggles the list; opening focuses option 0 |
| `SelectBox.Listbox.OptionClick` | src/app/components/Select.tsx:238 | a click selects that option |
| `SelectBox.Listbox.MouseEnter` | src/app/components/Select.tsx:239 | hovering focuses that option |
| `SelectBox.Listbox.KeyDown` | src/app/components/Select.tsx:117-155 | keys act only while open: arrows move with wrap-around, Home and End go to the ends, Escape closes without a change, Enter or Space select a focused option with a non-empty id, other keys do nothing |
| `SelectBox.Listbox.PressEnter` | src/app/components/Select.tsx:91-98 | selects only when the focus is on an option whose id is not empty |
| `Base64.SextetChar` | middleware.ts:30 | every 6-bit value has an alphabet character that decodes back to it |
| `Base64.RemoveWhitespace` | middleware.ts:30 | ASCII white space is dropped and every other character kept, in order and as often as it occurs; text without white space is unchanged |
| `Base64.StripPadding` | middleware.ts:30 | one or two final '=' are removed from a length that is a multiple of four |
| `Base64.Decode` | middleware.ts:29-33 | `atob` fails exactly when, without white space and padding, the length is 4k + 1 or a character is outside the alphabet |
| `Base64.Encode` | middleware.ts:26-30 | the padded encoding has a length that is a multiple of four and only alphabet characters and '=' |
| `Base64.DecodeEncodeSextets` | middleware.ts:30 | four sextets give back the three bytes they were made from, and the final groups likewise |
| `Base64.DecodeEncode` | middleware.ts:29-33 | decoding undoes encoding |
| `Base64.BinaryString` | middleware.ts:30 | `atob` returns one character per byte |
| `Base64.Latin1Bytes` | middleware.ts:30 | the bytes of a Latin-1 text turn back into that text |
| `Middleware.Decide` | middleware.ts:13-48 | with no password configured every request passes; a missing or non-"Basic " header, or undecodable base64, gives the 401 challenge |
| `Middleware.SplitMatchesIff` | middleware.ts:35-43 | splitting at the first colon matches the configured pair exactly when the text is user-id ":" password with a colon-free user-id |
| `Middleware.DecidePassesIff` | middleware.ts:13-48 | with a password configured, a request passes exactly when its header decodes to the configured user-id (default "admin"), a colon and the configured password |
| `Middleware.ClientCredentials` | middleware.ts:19-47 | a client sending base64 of its user-id ":" password gets through exactly when both parts equal the configured ones |
| `Middleware.Utf8PasswordRejected` | middleware.ts:7-43 | the challenge advertises UTF-8, but a client that sends the UTF-8 bytes of the configured password "é" is refused, because the decoded bytes are read one character per byte |

## Left out

- Rendering is not modelled: the JSX, the DOM, every `.focus()` call, the IntersectionObserver in `ExerciseAccordion.tsx`, and the outside-click listener and deferred focus in `Select.tsx`.
- Concurrency is not modelled. This covers the `cancelled` flags of the asynchronous loads and any interleaving of handlers; only the synchronous commit of each load is modelled.
- Timers are not modelled, including the toast auto-dismiss.
- `loadWorkoutTemplateOptions` is not part of this model. It is a query followed by a renaming `map`.
- The template query, the storage procedures, `Date.now()`, `new Date().toISOString()` and `crypto.randomUUID()` are parameters: their behaviour is whatever the caller supplies.
- `getLastExerciseWeights`, the single-name lookup that `ExerciseAccordion.tsx` imports, is not part of this model. The file defines only the batch function, so `Panel.FinishLoad` takes the outcome as a parameter.
- JavaScript `Number` coercion is modelled for numbers, null, undefined, booleans and strings of ASCII digits (possibly padded with white space). Other strings and arrays give NaN here; JavaScript gives 0 or a number for some of them.
- IEEE-754 rounding and -0 are not modelled; weights and reps are real numbers.
- Validation.SanitizedPrefix: when the cut at `maxLength` code units falls inside a surrogate pair, JavaScript keeps the lone high surrogate. A string here holds only whole characters, so the model drops that half, and the result is one code unit shorter.
- Accordion.FormatWeightSummary: JavaScript's number-to-string conversion is an abstract parameter `show`. The summary is stated in terms of it.
- Accordion.Panel: `weightCacheRef` and the `weightCache` state are always written together with the same value. They are one map here.
- LastWeights: the folds take the normalizer as a parameter. The top-level batch instantiates it with `Normalize.NormalizeExerciseName`.
- Validation.IsValidNumber: takes a number. The coercion of other argument types is not modelled; the callers pass numbers.
- Middleware.Decide: the `config.matcher` path filter is not modelled; every request is assumed to reach the middleware.
- The "most recent session" weight aggregation happens inside the database procedure. It is not modelled.
