/** Error classification: src/app/lib/utils/supabaseErrorHandler.ts, which
    turns a storage error into a fixed user-facing message and throws it, and
    src/app/lib/utils/errorHandler.ts, which picks the text a toast shows. */
module ErrorHandling {
  import opened Common
  import opened Text

  /** The error object the storage client returns; only `message` is read. */
  datatype SupabaseError = SupabaseError(message: Option<string>)

  const ValidationFailedMessage: string := "Data validation failed."
  const DuplicateEntryMessage: string := "Duplicate entry."
  const InvalidReferenceMessage: string := "Invalid reference."

  /** `handleSupabaseError(error, defaultMessage)`: it never returns normally;
      the message it throws is chosen by the first of "violates", "duplicate"
      and "foreign key" that the backend text contains, and is the default
      when there is no error, no message, an empty message or no match. The
      backend text itself is never passed on. */
  function HandleSupabaseError(error: Option<SupabaseError>, defaultMessage: string): (r: Result<string>)
    ensures r.Err?
    ensures error.None? || !IsNonEmpty(error.value.message) ==> r.message == defaultMessage
    ensures error.Some? && IsNonEmpty(error.value.message) ==>
      var m := error.value.message.value;
      r.message == (if Includes(m, "violates") then ValidationFailedMessage
                    else if Includes(m, "duplicate") then DuplicateEntryMessage
                    else if Includes(m, "foreign key") then InvalidReferenceMessage
                    else defaultMessage)
    ensures r.message in {ValidationFailedMessage, DuplicateEntryMessage, InvalidReferenceMessage, defaultMessage}
  {
    var sanitizedMessage :=
      if error.Some? && IsNonEmpty(error.value.message) then
        var m := error.value.message.value;
        if Includes(m, "violates") then ValidationFailedMessage
        else if Includes(m, "duplicate") then DuplicateEntryMessage
        else if Includes(m, "foreign key") then InvalidReferenceMessage
        else defaultMessage
      else defaultMessage;
    Err(sanitizedMessage)
  }

  /** The keywords are looked for anywhere in the backend text: an
      occurrence of "violates" at any position gives the validation message,
      whatever else the text holds; failing that, "duplicate" anywhere gives
      the duplicate message; failing both, "foreign key" anywhere gives the
      reference message. */
  lemma ViolatesTakesPriority(m: string, defaultMessage: string)
    ensures (exists i :: OccursAt(m, "violates", i)) ==>
      HandleSupabaseError(Some(SupabaseError(Some(m))), defaultMessage) == Err(ValidationFailedMessage)
    ensures !(exists i :: OccursAt(m, "violates", i)) && (exists i :: OccursAt(m, "duplicate", i)) ==>
      HandleSupabaseError(Some(SupabaseError(Some(m))), defaultMessage) == Err(DuplicateEntryMessage)
    ensures !(exists i :: OccursAt(m, "violates", i)) && !(exists i :: OccursAt(m, "duplicate", i))
            && (exists i :: OccursAt(m, "foreign key", i)) ==>
      HandleSupabaseError(Some(SupabaseError(Some(m))), defaultMessage) == Err(InvalidReferenceMessage)
  {
    IncludesAt(m, "violates");
    IncludesAt(m, "duplicate");
    IncludesAt(m, "foreign key");
    if exists i :: OccursAt(m, "violates", i) || OccursAt(m, "duplicate", i) || OccursAt(m, "foreign key", i) {
      var i :| OccursAt(m, "violates", i) || OccursAt(m, "duplicate", i) || OccursAt(m, "foreign key", i);
      assert m != [];
    }
  }

  /** For instance, a "violates" after both other keywords still wins. */
  lemma ViolatesAfterOtherKeywords(a: string, b: string)
    ensures HandleSupabaseError(Some(SupabaseError(Some(a + "duplicate foreign key" + b + "violates"))), "x").message
            == ValidationFailedMessage
  {
    var m := a + "duplicate foreign key" + b + "violates";
    assert OccursAt(m, "violates", |m| - 8);
    ViolatesTakesPriority(m, "x");
  }

  /** A thrown value as `catch` sees it: an `Error` with its message, or
      anything else. */
  datatype Thrown = ErrorValue(message: string) | OtherValue

  /** `getErrorMessage(error, defaultMessage)`: the error's own message only
      for an `Error` in development mode, the default otherwise. */
  function GetErrorMessage(error: Thrown, defaultMessage: string, isDevelopment: bool): (r: string)
    ensures !isDevelopment ==> r == defaultMessage
    ensures error.OtherValue? ==> r == defaultMessage
    ensures isDevelopment && error.ErrorValue? ==> r == error.message
    ensures r == defaultMessage || (error.ErrorValue? && r == error.message)
  {
    if error.ErrorValue? && isDevelopment then error.message else defaultMessage
  }
}
