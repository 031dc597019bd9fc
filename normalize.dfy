/** The exercise-name normalizer of src/app/lib/utils.ts: sanitize, trim, and
    collapse every run of white space into one space. */
module Normalize {
  import opened Common
  import opened Text
  import opened Validation

  /** Every white-space character is a plain space and no two are adjacent. */
  predicate SingleSpaced(s: string) {
    (forall i :: 0 <= i < |s| && IsWhitespace(s[i]) ==> s[i] == ' ')
    && (forall i :: 0 <= i < |s| - 1 ==> !(IsWhitespace(s[i]) && IsWhitespace(s[i + 1])))
  }

  /** The characters of `s` that are not white space, in order. */
  function NonWhitespace(s: string): (r: string)
    ensures forall i :: 0 <= i < |r| ==> !IsWhitespace(r[i])
  {
    if s == [] then []
    else if IsWhitespace(s[0]) then NonWhitespace(s[1..])
    else [s[0]] + NonWhitespace(s[1..])
  }

  /** Leading white space carries no non-white-space characters. */
  lemma {:induction false} NonWhitespaceTrimStart(s: string)
    ensures NonWhitespace(TrimStart(s)) == NonWhitespace(s)
    decreases |s|
  {
    if s != [] && IsWhitespace(s[0]) {
      NonWhitespaceTrimStart(s[1..]);
    }
  }

  /** `s.replace(/\s+/g, " ")`: each maximal run of white space becomes one
      space, so the result is never longer and is empty only for "". */
  function CollapseWhitespace(s: string): (r: string)
    ensures |r| <= |s|
    ensures r == [] <==> s == []
    decreases |s|
  {
    if s == [] then []
    else if IsWhitespace(s[0]) then
      var t := TrimStart(s);
      assert |t| < |s|;
      [' '] + CollapseWhitespace(t)
    else
      [s[0]] + CollapseWhitespace(s[1..])
  }

  /** The collapsed string starts (ends) with white space exactly when `s`
      does. */
  lemma CollapseEnds(s: string)
    ensures s != [] ==> (IsWhitespace(CollapseWhitespace(s)[0]) <==> IsWhitespace(s[0]))
    ensures s != [] ==> (IsWhitespace(CollapseWhitespace(s)[|CollapseWhitespace(s)| - 1]) <==> IsWhitespace(s[|s| - 1]))
  {
    if s != [] {
      assert IsWhitespace(' ');
      CollapseLast(s);
    }
  }

  lemma {:induction false} CollapseLast(s: string)
    requires s != []
    ensures var r := CollapseWhitespace(s);
      r[|r| - 1] == if IsWhitespace(s[|s| - 1]) then ' ' else s[|s| - 1]
    decreases |s|, 1
  {
    if IsWhitespace(s[0]) {
      CollapseLastRun(s);
    } else {
      CollapseLastChar(s);
    }
  }

  lemma {:induction false} CollapseLastRun(s: string)
    requires s != [] && IsWhitespace(s[0])
    ensures var r := CollapseWhitespace(s);
      r[|r| - 1] == if IsWhitespace(s[|s| - 1]) then ' ' else s[|s| - 1]
    decreases |s|, 0
  {
    var t := TrimStart(s);
    CollapseStep(s);
    if t == [] {
      TrimStartGone(s);
    } else {
      TrimStartLast(s);
      CollapseLast(t);
      LastOfCons(' ', CollapseWhitespace(t));
    }
  }

  lemma {:induction false} CollapseLastChar(s: string)
    requires s != [] && !IsWhitespace(s[0])
    ensures var r := CollapseWhitespace(s);
      r[|r| - 1] == if IsWhitespace(s[|s| - 1]) then ' ' else s[|s| - 1]
    decreases |s|, 0
  {
    var t := s[1..];
    CollapseStep(s);
    if t != [] {
      assert t[|t| - 1] == s[|s| - 1];
      CollapseLast(t);
      LastOfCons(s[0], CollapseWhitespace(t));
    }
  }

  lemma LastOfCons(c: char, r: string)
    requires r != []
    ensures ([c] + r)[|r|] == r[|r| - 1]
  {
  }

  /** One step of the collapse: the first character or run, then the rest. */
  lemma CollapseStep(s: string)
    requires s != []
    ensures CollapseWhitespace(s) ==
      if IsWhitespace(s[0]) then [' '] + CollapseWhitespace(TrimStart(s))
      else [s[0]] + CollapseWhitespace(s[1..])
  {
  }

  lemma TrimStartGone(s: string)
    requires s != [] && TrimStart(s) == []
    ensures IsWhitespace(s[|s| - 1])
  {
  }

  lemma TrimStartLast(s: string)
    requires TrimStart(s) != []
    ensures TrimStart(s)[|TrimStart(s)| - 1] == s[|s| - 1]
  {
  }

  /** Putting `c` in front of a single-spaced string keeps it single-spaced
      when `c` is not white space, or is a space followed by none. */
  lemma ConsSingleSpaced(c: char, rest: string)
    requires SingleSpaced(rest)
    requires IsWhitespace(c) ==> c == ' ' && (rest != [] ==> !IsWhitespace(rest[0]))
    ensures SingleSpaced([c] + rest)
  {
    var r := [c] + rest;
    assert forall i :: 1 <= i < |r| ==> r[i] == rest[i - 1];
    assert r[0] == c;
  }

  /** The collapsed string is single-spaced. */
  lemma {:induction false} CollapseSingleSpaced(s: string)
    ensures SingleSpaced(CollapseWhitespace(s))
    decreases |s|
  {
    if s != [] {
      if IsWhitespace(s[0]) {
        var t := TrimStart(s);
        CollapseSingleSpaced(t);
        CollapseEnds(t);
        assert CollapseWhitespace(s) == [' '] + CollapseWhitespace(t);
        ConsSingleSpaced(' ', CollapseWhitespace(t));
      } else {
        CollapseSingleSpaced(s[1..]);
        assert CollapseWhitespace(s) == [s[0]] + CollapseWhitespace(s[1..]);
        ConsSingleSpaced(s[0], CollapseWhitespace(s[1..]));
      }
    }
  }

  /** Collapsing keeps every non-white-space character, in order: the words
      of the name are unchanged. */
  lemma {:induction false} CollapseKeepsWords(s: string)
    ensures NonWhitespace(CollapseWhitespace(s)) == NonWhitespace(s)
    decreases |s|
  {
    if s != [] {
      if IsWhitespace(s[0]) {
        var t := TrimStart(s);
        CollapseKeepsWords(t);
        NonWhitespaceTrimStart(s);
        assert ([' '] + CollapseWhitespace(t))[1..] == CollapseWhitespace(t);
      } else {
        CollapseKeepsWords(s[1..]);
        assert ([s[0]] + CollapseWhitespace(s[1..]))[1..] == CollapseWhitespace(s[1..]);
      }
    }
  }

  /** A single-spaced string is left as it is. */
  lemma {:induction false} CollapseFixpoint(s: string)
    requires SingleSpaced(s)
    ensures CollapseWhitespace(s) == s
    decreases |s|
  {
    if s != [] {
      var t := s[1..];
      assert SingleSpaced(t) by {
        forall i | 0 <= i < |t| - 1 ensures !(IsWhitespace(t[i]) && IsWhitespace(t[i + 1])) {
          assert t[i] == s[i + 1] && t[i + 1] == s[i + 2];
        }
      }
      CollapseFixpoint(t);
      if IsWhitespace(s[0]) {
        if t != [] {
          assert t[0] == s[1];
        }
        assert TrimStart(s) == TrimStart(t);
      }
      assert s == [s[0]] + t;
    }
  }

  /** Collapsing twice is collapsing once. */
  lemma CollapseIdempotent(s: string)
    ensures CollapseWhitespace(CollapseWhitespace(s)) == CollapseWhitespace(s)
  {
    CollapseSingleSpaced(s);
    CollapseFixpoint(CollapseWhitespace(s));
  }

  /** `normalizeExerciseName`: `sanitizeString(name, 200)`, trimmed again
      (removing a bracket can expose white space), with every white-space run
      collapsed into one space. */
  function NormalizeExerciseName(name: string): string {
    CollapseWhitespace(Trim(SanitizeString(JsString(name), 200)))
  }

  /** Collapsing adds only spaces, so a bracket-free string stays bracket-free. */
  lemma CollapseNoBrackets(t: string)
    requires forall i :: 0 <= i < |t| ==> !IsAngleBracket(t[i])
    ensures forall i :: 0 <= i < |CollapseWhitespace(t)| ==> !IsAngleBracket(CollapseWhitespace(t)[i])
  {
    CollapseNoNewCharacters(t);
  }

  /** Collapsing a trimmed string gives a single-spaced string with no white
      space at either end. */
  lemma CollapseTrimmed(t: string)
    requires t != [] ==> !IsWhitespace(t[0]) && !IsWhitespace(t[|t| - 1])
    ensures var r := CollapseWhitespace(t);
      SingleSpaced(r) && (r != [] ==> !IsWhitespace(r[0]) && !IsWhitespace(r[|r| - 1]))
  {
    CollapseSingleSpaced(t);
    CollapseEnds(t);
  }

  /** The shape of a normalized name: no white space at either end, no white
      space but single spaces, and no angle bracket. */
  predicate CleanName(r: string) {
    SingleSpaced(r)
    && (r != [] ==> !IsWhitespace(r[0]) && !IsWhitespace(r[|r| - 1]))
    && forall i :: 0 <= i < |r| ==> !IsAngleBracket(r[i])
  }

  /** What collapsing makes of a trimmed, bracket-free string. */
  lemma CollapseClean(t: string)
    requires t != [] ==> !IsWhitespace(t[0]) && !IsWhitespace(t[|t| - 1])
    requires forall i :: 0 <= i < |t| ==> !IsAngleBracket(t[i])
    ensures |CollapseWhitespace(t)| <= |t| && CleanName(CollapseWhitespace(t))
  {
    CollapseNoBrackets(t);
    CollapseTrimmed(t);
  }

  /** Collapsing never lengthens a string in UTF-16 code units either: a run
      of white space, all below U+10000, becomes one space. */
  lemma {:induction false} CollapseUtf16Length(s: string)
    ensures Utf16Length(CollapseWhitespace(s)) <= Utf16Length(s)
    decreases |s|
  {
    if s != [] {
      CollapseStep(s);
      if IsWhitespace(s[0]) {
        var t := TrimStart(s);
        CollapseUtf16Length(t);
        Utf16LengthDrop(s, |s| - |t|);
        Utf16LengthAppend([' '], CollapseWhitespace(t));
      } else {
        CollapseUtf16Length(s[1..]);
        Utf16LengthAppend([s[0]], CollapseWhitespace(s[1..]));
      }
    }
  }

  /** A normalized name is at most 200 UTF-16 code units long, has no white
      space at either end, no white space but single spaces, and no angle
      bracket. */
  lemma NormalizeOutput(name: string)
    ensures Utf16Length(NormalizeExerciseName(name)) <= 200 && CleanName(NormalizeExerciseName(name))
  {
    var u := SanitizeString(JsString(name), 200);
    TrimNoBrackets(u);
    CollapseClean(Trim(u));
    TrimUtf16Length(u);
    CollapseUtf16Length(Trim(u));
  }

  /** Trimming never lengthens a string in UTF-16 code units. */
  lemma TrimUtf16Length(u: string)
    ensures Utf16Length(Trim(u)) <= Utf16Length(u)
  {
    var t, k := Trim(u), LeadingWhitespace(u);
    assert t == u[k..k + |t|];
    Utf16LengthSlice(u, k, k + |t|);
  }

  /** Every character of the collapsed string is a space or a character of `s`. */
  lemma {:induction false} CollapseNoNewCharacters(s: string)
    ensures forall i :: 0 <= i < |CollapseWhitespace(s)| ==> CollapseWhitespace(s)[i] == ' ' || CollapseWhitespace(s)[i] in s
    decreases |s|
  {
    if s != [] {
      if IsWhitespace(s[0]) {
        var t := TrimStart(s);
        CollapseNoNewCharacters(t);
        assert forall c :: c in t ==> c in s;
      } else {
        CollapseNoNewCharacters(s[1..]);
        assert forall c :: c in s[1..] ==> c in s;
      }
    }
  }

  /** The words of a normalized name are those of the trimmed, sanitized input. */
  lemma NormalizeKeepsWords(name: string)
    ensures NonWhitespace(NormalizeExerciseName(name)) == NonWhitespace(Trim(SanitizeString(JsString(name), 200)))
  {
    CollapseKeepsWords(Trim(SanitizeString(JsString(name), 200)));
  }

  /** Text made of white space and angle brackets is white space once the
      brackets are gone. */
  lemma {:induction false} RemoveAngleBracketsBlank(s: string)
    requires forall i :: 0 <= i < |s| ==> IsWhitespace(s[i]) || IsAngleBracket(s[i])
    ensures AllWhitespace(RemoveAngleBrackets(s))
    decreases |s|
  {
    if s != [] {
      RemoveAngleBracketsBlank(s[1..]);
    }
  }

  /** A name made only of white space and angle brackets (or empty)
      normalizes to "". */
  lemma NormalizeBlank(name: string)
    requires forall i :: 0 <= i < |name| ==> IsWhitespace(name[i]) || IsAngleBracket(name[i])
    ensures NormalizeExerciseName(name) == ""
  {
    var t := Trim(name);
    var p := SanitizedPrefix(name, 200);
    var k := LeadingWhitespace(name);
    forall i | 0 <= i < |p| ensures IsWhitespace(p[i]) || IsAngleBracket(p[i]) {
      assert p[i] == t[i] == name[k + i];
    }
    RemoveAngleBracketsBlank(p);
    assert Trim(RemoveAngleBrackets(p)) == [];
  }

  /** Normalizing a normalized name changes nothing. */
  lemma NormalizeIdempotent(name: string)
    ensures NormalizeExerciseName(NormalizeExerciseName(name)) == NormalizeExerciseName(name)
  {
    var n := NormalizeExerciseName(name);
    NormalizeOutput(name);
    TrimIdentity(n);
    SanitizeOrdinaryText(n, 200);
    TrimIdentity(n);
    CollapseFixpoint(n);
  }

  /** White space in front of a string that does not start with white space
      is exactly what `TrimStart` removes. */
  lemma {:induction false} TrimStartPadded(a: string, x: string)
    requires AllWhitespace(a)
    requires x != [] ==> !IsWhitespace(x[0])
    ensures TrimStart(a + x) == x
    decreases |a|
  {
    if a == [] {
      assert a + x == x;
    } else {
      assert (a + x)[0] == a[0];
      assert (a + x)[1..] == a[1..] + x;
      TrimStartPadded(a[1..], x);
    }
  }

  /** The mirror image: white space after a string that does not end with
      white space is exactly what `TrimEnd` removes. */
  lemma {:induction false} TrimEndPadded(x: string, b: string)
    requires AllWhitespace(b)
    requires x != [] ==> !IsWhitespace(x[|x| - 1])
    ensures TrimEnd(x + b) == x
    decreases |b|
  {
    if b == [] {
      assert x + b == x;
    } else {
      var s := x + b;
      assert s[|s| - 1] == b[|b| - 1];
      assert s[..|s| - 1] == x + b[..|b| - 1];
      TrimEndPadded(x, b[..|b| - 1]);
    }
  }

  /** `trim` removes exactly the white space around a string whose ends are
      not white space. */
  lemma TrimPadded(a: string, t: string, b: string)
    requires AllWhitespace(a) && AllWhitespace(b)
    requires t != [] ==> !IsWhitespace(t[0]) && !IsWhitespace(t[|t| - 1])
    ensures Trim(a + t + b) == t
  {
    assert a + t + b == a + (t + b);
    assert t != [] ==> (t + b)[0] == t[0];
    if t == [] {
      assert a + t + b == a + b;
      assert AllWhitespace(a + b) by {
        forall i | 0 <= i < |a + b| ensures IsWhitespace((a + b)[i]) {
          if i < |a| { assert (a + b)[i] == a[i]; } else { assert (a + b)[i] == b[i - |a|]; }
        }
      }
    } else {
      TrimStartPadded(a, t + b);
      TrimEndPadded(t, b);
    }
  }

  /** A run of white space followed by a non-white-space character collapses
      into one space. */
  lemma CollapseRun(a: string, x: string)
    requires a != [] && AllWhitespace(a)
    requires x != [] ==> !IsWhitespace(x[0])
    ensures CollapseWhitespace(a + x) == [' '] + CollapseWhitespace(x)
  {
    assert (a + x)[0] == a[0];
    TrimStartPadded(a, x);
  }

  /** The collapsing step of the example below: the double space becomes one. */
  lemma CollapseExample()
    ensures CollapseWhitespace("Bench  Press") == "Bench Press"
  {
    var w: string := "Bench";
    var sp: string := "  ";
    var p: string := "Press";
    assert CollapseWhitespace(w + (sp + p)) == w + ([' '] + p) by {
      assert forall i :: 0 <= i < |w| ==> !IsWhitespace(w[i]);
      assert forall i :: 0 <= i < |p| ==> !IsWhitespace(p[i]);
      CollapseRun(sp, p);
      CollapseFixpoint(p);
      CollapsePrefixWord(w, sp + p);
    }
    assert w + (sp + p) == "Bench  Press";
    assert w + ([' '] + p) == "Bench Press";
  }

  /** White space is never an angle bracket, so padding a bracket-free
      string with white space keeps it bracket-free. */
  lemma NoBracketsPadded(a: string, t: string, b: string)
    requires AllWhitespace(a) && AllWhitespace(b)
    requires forall i :: 0 <= i < |t| ==> !IsAngleBracket(t[i])
    ensures forall i :: 0 <= i < |a + t + b| ==> !IsAngleBracket((a + t + b)[i])
  {
    var s := a + t + b;
    forall i | 0 <= i < |s| ensures !IsAngleBracket(s[i]) {
      if i < |a| {
        assert s[i] == a[i] && IsWhitespace(a[i]);
      } else if i < |a| + |t| {
        assert s[i] == t[i - |a|];
      } else {
        assert s[i] == b[i - |a| - |t|] && IsWhitespace(b[i - |a| - |t|]);
      }
    }
  }

  /** White space around a name that is already clean is dropped, and only
      the inner white-space runs are collapsed. */
  lemma NormalizePadded(a: string, t: string, b: string)
    requires AllWhitespace(a) && AllWhitespace(b)
    requires t != [] ==> !IsWhitespace(t[0]) && !IsWhitespace(t[|t| - 1])
    requires Utf16Length(t) <= 200
    requires forall i :: 0 <= i < |t| ==> !IsAngleBracket(t[i])
    ensures NormalizeExerciseName(a + t + b) == CollapseWhitespace(t)
  {
    var s := a + t + b;
    TrimPadded(a, t, b);
    NoBracketsPadded(a, t, b);
    assert SanitizeString(JsString(s), 200) == t by {
      SanitizeOrdinaryText(s, 200);
    }
    assert Trim(t) == t by {
      TrimIdentity(t);
    }
  }

  /** Surrounding and repeated spaces disappear. */
  lemma NormalizeExample()
    ensures NormalizeExerciseName(" Bench  Press ") == "Bench Press"
  {
    BenchPressPadded(" Bench  Press ", "Bench  Press");
    CollapseExample();
  }

  /** " Bench  Press " is the clean name "Bench  Press" padded by one space
      on each side, so normalizing it only collapses the inner run. */
  lemma BenchPressPadded(s: string, t: string)
    requires s == " Bench  Press " && t == "Bench  Press"
    ensures NormalizeExerciseName(s) == CollapseWhitespace(t)
  {
    assert s == [' '] + t + [' '];
    assert !IsWhitespace(t[0]) && !IsWhitespace(t[|t| - 1]);
    assert forall i :: 0 <= i < |t| ==> !IsAngleBracket(t[i]);
    NormalizePadded([' '], t, [' ']);
  }

  /** A leading run of non-white-space characters is copied unchanged. */
  lemma {:induction false} CollapsePrefixWord(w: string, u: string)
    requires forall i :: 0 <= i < |w| ==> !IsWhitespace(w[i])
    ensures CollapseWhitespace(w + u) == w + CollapseWhitespace(u)
    decreases |w|
  {
    if w != [] {
      var s := w + u;
      assert s[0] == w[0];
      assert s[1..] == w[1..] + u;
      CollapsePrefixWord(w[1..], u);
      AppendAssoc([w[0]], w[1..], CollapseWhitespace(u));
      assert [w[0]] + w[1..] == w;
    } else {
      assert w + u == u;
    }
  }
}
