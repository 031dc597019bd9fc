/** The batch query for last-used weights of src/app/lib/getLastExerciseWeights.ts:
    the names are prepared before the storage procedure is called, and its
    reply is checked row by row and folded into a map keyed by normalized
    exercise name. The procedure call is a parameter. */
module LastWeights {
  import opened Common
  import opened Text
  import opened Workout
  import opened Normalize
  import opened ErrorHandling

  const LoadFailedMessage: string := "Failed to load exercise weights."
  const UnexpectedResponseMessage: string := "Unexpected response format while loading exercise weights."
  const UnexpectedRowMessage: string := "Unexpected row format while loading exercise weights."

  /** `{ data, error }` as the storage client returns it. */
  datatype WeightsReply = WeightsReply(data: JsValue, error: Option<SupabaseError>)

  /** `Number(value)`. Strings are read only in their simplest form: blank
      text is 0, trimmed ASCII digits are their decimal value, any other text
      is NaN. Arrays and objects are NaN. */
  function ToNumber(value: JsValue): (r: Num)
    ensures value.JsNumber? ==> r == value.n
    ensures value == JsUndefined ==> r == NaN
    ensures value == JsNull ==> r == Finite(0.0)
  {
    match value
    case JsUndefined => NaN
    case JsNull => Finite(0.0)
    case JsBool(b) => if b then Finite(1.0) else Finite(0.0)
    case JsNumber(n) => n
    case JsString(s) =>
      var t := Trim(s);
      if AllDigits(t) then Finite(DecimalValue(t) as real) else NaN
    case JsArray(_) => NaN
    case JsObject(_) => NaN
  }

  /** A numeric column is acceptable when it is null, undefined or a finite
      number after coercion. */
  predicate NumericColumnOk(value: JsValue) {
    value == JsNull || value == JsUndefined || IsFinite(ToNumber(value))
  }

  /** `isWeightsBatchRow`: a truthy object whose `exercise_name` is a string
      and whose three numeric columns are acceptable. An array is an object
      too, but it has no `exercise_name`. */
  predicate IsWeightsBatchRow(value: JsValue) {
    IsTruthy(value)
    && match value
       case JsObject(row) =>
         Prop(row, "exercise_name").JsString?
         && NumericColumnOk(Prop(row, "working_weight"))
         && NumericColumnOk(Prop(row, "max_weight"))
         && NumericColumnOk(Prop(row, "last_reps"))
       case _ => false
  }

  /** `toNullableNumber`: null, undefined and non-finite values become null;
      a finite value is kept. */
  function ToNullableNumber(value: JsValue): (r: Option<real>)
    ensures r.None? <==> !(value != JsNull && value != JsUndefined && IsFinite(ToNumber(value)))
    ensures r.Some? ==> Finite(r.value) == ToNumber(value)
  {
    if value == JsNull || value == JsUndefined then None
    else
      match ToNumber(value)
      case Finite(x) => Some(x)
      case _ => None
  }

  /** On a column the row check accepted, a value is dropped to null only
      when the column was null or undefined: no finite value is lost. */
  lemma AcceptedColumnKept(value: JsValue)
    requires NumericColumnOk(value)
    ensures ToNullableNumber(value).None? <==> value == JsNull || value == JsUndefined
    ensures forall x :: value == JsNumber(Finite(x)) ==> ToNullableNumber(value) == Some(x)
  {
  }

  // ---------------------------------------------------------------------
  // Preparing the names. The normalizer is a parameter here and in the fold
  // below, so that what they do is stated for the normalizer as a value;
  // the query passes `NormalizeExerciseName`, whose only property the
  // lemmas need is that it is idempotent.

  ghost predicate Idempotent(normalize: string -> string) {
    forall x :: normalize(normalize(x)) == normalize(x)
  }

  /** The exercise-name normalizer is idempotent. */
  lemma NormalizerIdempotent()
    ensures Idempotent(NormalizeExerciseName)
  {
    forall x ensures NormalizeExerciseName(NormalizeExerciseName(x)) == NormalizeExerciseName(x) {
      NormalizeIdempotent(x);
    }
  }

  /** `names.map(normalize)` */
  function Normalized(names: seq<string>, normalize: string -> string): (ns: seq<string>)
    ensures |ns| == |names|
    ensures forall i :: 0 <= i < |names| ==> ns[i] == normalize(names[i])
  {
    seq(|names|, i requires 0 <= i < |names| => normalize(names[i]))
  }

  /** `Array.from(new Set(ns.filter(n => n.length > 0)))` over the first `n`
      strings: the non-empty ones, each at its first occurrence. */
  function UniqueNonEmpty(ns: seq<string>, n: nat): (r: seq<string>)
    requires n <= |ns|
    ensures forall x :: x in r <==> x != "" && exists q :: 0 <= q < n && ns[q] == x
    ensures forall i, j :: 0 <= i < j < |r| ==> r[i] != r[j]
  {
    if n == 0 then []
    else
      var previous := UniqueNonEmpty(ns, n - 1);
      var last := ns[n - 1];
      if last == "" || last in previous then previous else previous + [last]
  }

  /** A string that comes earlier in the result first occurs earlier in `ns`:
      wherever the later one `r[j]` occurs, `r[i]` occurs before. */
  lemma {:induction false} UniqueNonEmptyOrder(ns: seq<string>, n: nat, i: nat, j: nat, q: nat)
    requires n <= |ns|
    requires i < j < |UniqueNonEmpty(ns, n)| && q < n && ns[q] == UniqueNonEmpty(ns, n)[j]
    ensures exists p :: 0 <= p < q && ns[p] == UniqueNonEmpty(ns, n)[i]
  {
    var previous := UniqueNonEmpty(ns, n - 1);
    var r := UniqueNonEmpty(ns, n);
    assert r == previous || r == previous + [ns[n - 1]];
    assert r[i] == previous[i];
    if j < |previous| {
      assert r[j] == previous[j];
      if q < n - 1 {
        UniqueNonEmptyOrder(ns, n - 1, i, j, q);
      } else {
        assert previous[j] in previous;
        var q' :| 0 <= q' < n - 1 && ns[q'] == previous[j];
        UniqueNonEmptyOrder(ns, n - 1, i, j, q');
      }
    } else {
      assert q == n - 1 by {
        if q < n - 1 {
          assert false;
        }
      }
      assert previous[i] in previous;
    }
  }

  /** The names sent to storage: every name normalized, the empty ones
      dropped, each remaining one once, at its first occurrence. */
  function PrepareNames(names: seq<string>, normalize: string -> string): (r: seq<string>)
    ensures forall x :: x in r <==> x != "" && exists i :: 0 <= i < |names| && normalize(names[i]) == x
    ensures forall i, j :: 0 <= i < j < |r| ==> r[i] != r[j]
  {
    var ns := Normalized(names, normalize);
    UniqueNonEmpty(ns, |ns|)
  }

  /** The prepared names are in first-occurrence order: a name that comes
      earlier in the result first occurs earlier in the input. */
  lemma PrepareNamesOrder(names: seq<string>, normalize: string -> string, i: nat, j: nat, q: nat)
    requires i < j < |PrepareNames(names, normalize)| && q < |names|
    requires normalize(names[q]) == PrepareNames(names, normalize)[j]
    ensures exists p :: 0 <= p < q && normalize(names[p]) == PrepareNames(names, normalize)[i]
  {
    var ns := Normalized(names, normalize);
    UniqueNonEmptyOrder(ns, |ns|, i, j, q);
  }

  /** With an idempotent normalizer the prepared names are already
      canonical: normalizing one changes nothing. */
  lemma PreparedNamesCanonical(names: seq<string>, normalize: string -> string)
    requires Idempotent(normalize)
    ensures forall x :: x in PrepareNames(names, normalize) ==> normalize(x) == x
  {
  }

  /** Only blank input skips storage: no name is prepared exactly when every
      name normalizes to "". */
  lemma NoNamesIffBlank(names: seq<string>, normalize: string -> string)
    ensures PrepareNames(names, normalize) == [] <==> forall i :: 0 <= i < |names| ==> normalize(names[i]) == ""
  {
    if PrepareNames(names, normalize) != [] {
      assert PrepareNames(names, normalize)[0] in PrepareNames(names, normalize);
    } else {
      forall i | 0 <= i < |names| ensures normalize(names[i]) == "" {
        assert normalize(names[i]) !in PrepareNames(names, normalize);
      }
    }
  }

  // ---------------------------------------------------------------------
  // Folding the reply into the result.

  /** `String(row.exercise_name ?? "")` on a row the check accepted. */
  function RowName(row: JsValue): string
    requires IsWeightsBatchRow(row)
  {
    Prop(row.props, "exercise_name").s
  }

  /** The value stored for a row: each column through `toNullableNumber`. */
  function WeightsOf(row: JsValue): ExerciseWeights
    requires IsWeightsBatchRow(row)
  {
    ExerciseWeights(ToNullableNumber(Prop(row.props, "working_weight")),
                    ToNullableNumber(Prop(row.props, "max_weight")),
                    ToNullableNumber(Prop(row.props, "last_reps")))
  }

  predicate AllRowsValid(rows: seq<JsValue>) {
    forall i :: 0 <= i < |rows| ==> IsWeightsBatchRow(rows[i])
  }

  /** The first `n` rows, one by one: a row whose name normalizes to "" is
      skipped, and a later row overwrites an earlier one with the same key.
      The keys of the map are exactly the non-empty keys of those rows. */
  function WeightsByName(rows: seq<JsValue>, normalize: string -> string, n: nat): map<string, ExerciseWeights>
    requires AllRowsValid(rows) && n <= |rows|
  {
    if n == 0 then map[] else StoreRow(WeightsByName(rows, normalize, n - 1), rows[n - 1], normalize)
  }

  /** One row of the loop: skipped when its name normalizes to "", stored
      under the normalized name otherwise. */
  function StoreRow(byName: map<string, ExerciseWeights>, row: JsValue, normalize: string -> string): map<string, ExerciseWeights>
    requires IsWeightsBatchRow(row)
  {
    var key := normalize(RowName(row));
    if key == "" then byName else byName[key := WeightsOf(row)]
  }

  /** The keys of the map are exactly the non-empty keys of the rows. */
  lemma {:induction false} WeightsByNameKeys(rows: seq<JsValue>, normalize: string -> string, n: nat)
    requires AllRowsValid(rows) && n <= |rows|
    ensures forall k :: k in WeightsByName(rows, normalize, n) <==>
      k != "" && exists q :: 0 <= q < n && normalize(RowName(rows[q])) == k
  {
    if n > 0 {
      WeightsByNameKeys(rows, normalize, n - 1);
    }
  }

  /** Each key holds the weights of the last row stored under it. */
  lemma {:induction false} WeightsByNameLastRow(rows: seq<JsValue>, normalize: string -> string, n: nat, i: nat)
    requires AllRowsValid(rows) && n <= |rows|
    requires i < n && normalize(RowName(rows[i])) != ""
    requires forall j :: i < j < n ==> normalize(RowName(rows[j])) != normalize(RowName(rows[i]))
    ensures normalize(RowName(rows[i])) in WeightsByName(rows, normalize, n)
    ensures WeightsByName(rows, normalize, n)[normalize(RowName(rows[i]))] == WeightsOf(rows[i])
  {
    if i < n - 1 {
      WeightsByNameLastRow(rows, normalize, n - 1, i);
    }
  }

  /** With an idempotent normalizer every key of the result is a canonical,
      non-empty exercise name. */
  lemma WeightsKeysCanonical(rows: seq<JsValue>, normalize: string -> string, n: nat)
    requires AllRowsValid(rows) && n <= |rows| && Idempotent(normalize)
    ensures forall k :: k in WeightsByName(rows, normalize, n) ==> k != "" && normalize(k) == k
  {
    WeightsByNameKeys(rows, normalize, n);
  }

  /** `for (const row of rows)`: the map built row by row. */
  method BuildWeights(rows: seq<JsValue>, normalize: string -> string) returns (byName: map<string, ExerciseWeights>)
    requires AllRowsValid(rows)
    ensures byName == WeightsByName(rows, normalize, |rows|)
  {
    byName := map[];
    var i := 0;
    while i < |rows|
      invariant 0 <= i <= |rows|
      invariant byName == WeightsByName(rows, normalize, i)
    {
      var row := rows[i];
      assert IsWeightsBatchRow(row);
      var normalizedName := normalize(RowName(row));
      if normalizedName != "" {
        byName := byName[normalizedName := WeightsOf(row)];
      }
      i := i + 1;
    }
  }

  /** `data.filter(isWeightsBatchRow)` */
  function AcceptedRows(items: seq<JsValue>): (rows: seq<JsValue>)
    ensures |rows| <= |items|
    ensures AllRowsValid(rows)
    ensures |rows| == |items| <==> AllRowsValid(items)
    ensures AllRowsValid(items) ==> rows == items
  {
    if items == [] then []
    else
      var rest := AcceptedRows(items[1..]);
      assert forall i :: 1 <= i < |items| ==> items[i] == items[1..][i - 1];
      if IsWeightsBatchRow(items[0]) then [items[0]] + rest else rest
  }

  /** What becomes of the procedure's reply: its error message (or the
      default when it has none), a format error when the data is not an
      array, a row error when any row fails the check (no partial result),
      and otherwise the map of the rows. */
  function WeightsFromReply(reply: WeightsReply, normalize: string -> string): (r: Result<map<string, ExerciseWeights>>)
    ensures reply.error.Some? ==> r == Err(reply.error.value.message.GetOr(LoadFailedMessage))
    ensures reply.error.None? && !reply.data.JsArray? ==> r == Err(UnexpectedResponseMessage)
    ensures reply.error.None? && reply.data.JsArray? && !AllRowsValid(reply.data.items) ==> r == Err(UnexpectedRowMessage)
    ensures reply.error.None? && reply.data.JsArray? && AllRowsValid(reply.data.items) ==>
      r == Ok(WeightsByName(reply.data.items, normalize, |reply.data.items|))
    ensures r.Ok? ==> reply.error.None? && reply.data.JsArray? && AllRowsValid(reply.data.items)
                      && r.value == WeightsByName(reply.data.items, normalize, |reply.data.items|)
  {
    if reply.error.Some? then Err(reply.error.value.message.GetOr(LoadFailedMessage))
    else if !reply.data.JsArray? then Err(UnexpectedResponseMessage)
    else
      var rows := AcceptedRows(reply.data.items);
      if |rows| != |reply.data.items| then Err(UnexpectedRowMessage)
      else Ok(WeightsByName(rows, normalize, |rows|))
  }

  /** `getLastExerciseWeightsBatch(exerciseNames)`, with `rpc` standing for
      the storage procedure: with no non-blank name the result is empty
      whatever storage would say; otherwise the procedure receives the
      prepared names and its reply decides the outcome. */
  method LastExerciseWeightsBatch(exerciseNames: seq<string>, rpc: seq<string> -> WeightsReply)
    returns (r: Result<map<string, ExerciseWeights>>)
    ensures PrepareNames(exerciseNames, NormalizeExerciseName) == [] ==> r == Ok(map[])
    ensures PrepareNames(exerciseNames, NormalizeExerciseName) != [] ==>
      r == WeightsFromReply(rpc(PrepareNames(exerciseNames, NormalizeExerciseName)), NormalizeExerciseName)
  {
    var normalizedNames := PrepareNames(exerciseNames, NormalizeExerciseName);
    if |normalizedNames| == 0 {
      return Ok(map[]);
    }
    var reply := rpc(normalizedNames);
    if reply.error.Some? {
      return Err(reply.error.value.message.GetOr(LoadFailedMessage));
    }
    if !reply.data.JsArray? {
      return Err(UnexpectedResponseMessage);
    }
    var rows := AcceptedRows(reply.data.items);
    if |rows| != |reply.data.items| {
      return Err(UnexpectedRowMessage);
    }
    var byName := BuildWeights(rows, NormalizeExerciseName);
    return Ok(byName);
  }

  /** The keys of a successful batch result are canonical exercise names,
      and the names sent to storage are too. */
  lemma BatchKeysCanonical(exerciseNames: seq<string>, reply: WeightsReply)
    ensures forall x :: x in PrepareNames(exerciseNames, NormalizeExerciseName) ==> NormalizeExerciseName(x) == x
    ensures WeightsFromReply(reply, NormalizeExerciseName).Ok? ==>
      forall k :: k in WeightsFromReply(reply, NormalizeExerciseName).value ==> k != "" && NormalizeExerciseName(k) == k
  {
    NormalizerIdempotent();
    PreparedNamesCanonical(exerciseNames, NormalizeExerciseName);
    if WeightsFromReply(reply, NormalizeExerciseName).Ok? {
      WeightsKeysCanonical(reply.data.items, NormalizeExerciseName, |reply.data.items|);
    }
  }
}
