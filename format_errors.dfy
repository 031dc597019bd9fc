/** The validation-error formatter of src/app/lib/utils/formatValidationErrors.ts:
    one line per error, joined by newlines. */
module FormatErrors {
  import opened Text
  import opened Workout

  /** The separator between the exercise name and the set: an em dash between
      spaces, which the source file carries as the three characters
      U+00E2 U+20AC U+201D (the UTF-8 bytes of the dash read as Windows-1252). */
  const Separator: string := [' ', '\U{E2}', '\U{20AC}', '\U{201D}', ' ']

  /** `${exerciseName} — Set ${setIndex}: ${message}` */
  function Line(e: ValidationError): string {
    e.exerciseName + Separator + "Set " + NatToString(e.setIndex) + ": " + e.message
  }

  /** `errors.map(...)`: line `i` is made from error `i` alone. */
  function Lines(errors: seq<ValidationError>): (r: seq<string>)
    ensures |r| == |errors|
    ensures forall i :: 0 <= i < |errors| ==> r[i] == Line(errors[i])
  {
    if errors == [] then [] else [Line(errors[0])] + Lines(errors[1..])
  }

  /** `formatValidationErrors`: the lines joined by "\n". */
  function FormatValidationErrors(errors: seq<ValidationError>): string {
    Join(Lines(errors), "\n")
  }

  /** No error, no text. */
  lemma FormatEmpty()
    ensures FormatValidationErrors([]) == ""
  {
  }

  /** A line has no newline of its own when the name and the message have none. */
  lemma LineHasNoNewline(e: ValidationError)
    requires '\n' !in e.exerciseName && '\n' !in e.message
    ensures '\n' !in Line(e)
  {
    var digits := NatToString(e.setIndex);
    assert forall i :: 0 <= i < |digits| ==> IsDigitChar(digits[i]);
    assert '\n' !in digits;
  }

  /** The number of `c` in a join is the number in the parts plus one per
      separator. */
  lemma {:induction false} JoinCount(parts: seq<string>, c: char)
    requires parts != []
    requires forall i :: 0 <= i < |parts| ==> c !in parts[i]
    ensures multiset(Join(parts, [c]))[c] == |parts| - 1
    decreases |parts|
  {
    if |parts| == 1 {
      assert c !in multiset(parts[0]);
    } else {
      JoinCount(parts[1..], c);
      assert c !in multiset(parts[0]);
      var rest := Join(parts[1..], [c]);
      assert Join(parts, [c]) == parts[0] + [c] + rest;
      assert multiset(parts[0] + [c] + rest) == multiset(parts[0]) + multiset([c]) + multiset(rest);
    }
  }

  /** The lines of errors whose names and messages hold no newline hold none
      either. */
  lemma LinesHaveNoNewline(errors: seq<ValidationError>)
    requires forall i :: 0 <= i < |errors| ==> '\n' !in errors[i].exerciseName && '\n' !in errors[i].message
    ensures forall i :: 0 <= i < |errors| ==> '\n' !in Lines(errors)[i]
  {
    forall i | 0 <= i < |errors| ensures '\n' !in Lines(errors)[i] {
      LineHasNoNewline(errors[i]);
    }
  }

  /** `n` errors whose names and messages hold no newline give `n` lines in
      input order: splitting the text at "\n" gives back line `i` for error
      `i`. */
  lemma FormatSplitsIntoLines(errors: seq<ValidationError>)
    requires errors != []
    requires forall i :: 0 <= i < |errors| ==> '\n' !in errors[i].exerciseName && '\n' !in errors[i].message
    ensures Split(FormatValidationErrors(errors), '\n') == Lines(errors)
  {
    LinesHaveNoNewline(errors);
    SplitJoin(Lines(errors), '\n');
  }

  /** The same text holds exactly `n - 1` newlines: one between each two
      lines and none at the end. */
  lemma FormatNewlineCount(errors: seq<ValidationError>)
    requires errors != []
    requires forall i :: 0 <= i < |errors| ==> '\n' !in errors[i].exerciseName && '\n' !in errors[i].message
    ensures multiset(FormatValidationErrors(errors))['\n'] == |errors| - 1
  {
    LinesHaveNoNewline(errors);
    JoinCount(Lines(errors), '\n');
  }

  /** Adding an error adds exactly its line, after a newline, to the text. */
  lemma FormatAppend(errors: seq<ValidationError>, e: ValidationError)
    requires errors != []
    ensures FormatValidationErrors(errors + [e]) == FormatValidationErrors(errors) + "\n" + Line(e)
  {
    assert Lines(errors + [e]) == Lines(errors) + Lines([e]);
    JoinAppend(Lines(errors), Lines([e]), "\n");
  }
}
