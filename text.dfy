/** String operations of the JavaScript runtime that the modelled code relies on:
    whitespace, `trim`, `includes`, `indexOf`, `split`, `join` and the decimal
    rendering of a non-negative integer, and the length of a string in UTF-16
    code units, which is what `length` and `slice` count. Strings are
    sequences of characters. */
module Text {

  /** The characters JavaScript counts as white space (WhiteSpace and
      LineTerminator): exactly the set that `String.prototype.trim` removes and
      that the regular-expression class `\s` matches. */
  predicate IsWhitespace(c: char) {
    var k := c as int;
    k == 0x09 || k == 0x0A || k == 0x0B || k == 0x0C || k == 0x0D || k == 0x20
    || k == 0xA0 || k == 0x1680 || (0x2000 <= k <= 0x200A)
    || k == 0x2028 || k == 0x2029 || k == 0x202F || k == 0x205F
    || k == 0x3000 || k == 0xFEFF
  }

  predicate AllWhitespace(s: string) {
    forall i :: 0 <= i < |s| ==> IsWhitespace(s[i])
  }

  /** Drops the leading white space: what remains is a suffix, everything
      dropped is white space, and the suffix does not start with white space. */
  function TrimStart(s: string): (r: string)
    ensures |r| <= |s| && r == s[|s| - |r|..]
    ensures forall i :: 0 <= i < |s| - |r| ==> IsWhitespace(s[i])
    ensures r != [] ==> !IsWhitespace(r[0])
  {
    if s != [] && IsWhitespace(s[0]) then TrimStart(s[1..]) else s
  }

  /** Drops the trailing white space: what remains is a prefix, everything
      dropped is white space, and the prefix does not end with white space. */
  function TrimEnd(s: string): (r: string)
    ensures |r| <= |s| && r == s[..|r|]
    ensures forall i :: |r| <= i < |s| ==> IsWhitespace(s[i])
    ensures r != [] ==> !IsWhitespace(r[|r| - 1])
  {
    if s != [] && IsWhitespace(s[|s| - 1]) then TrimEnd(s[..|s| - 1]) else s
  }

  /** The number of leading white-space characters. */
  function LeadingWhitespace(s: string): (n: nat)
    ensures n <= |s|
  {
    |s| - |TrimStart(s)|
  }

  /** `String.prototype.trim`: a contiguous piece of `s` with neither leading
      nor trailing white space; empty exactly when `s` is all white space. */
  function Trim(s: string): (r: string)
    ensures LeadingWhitespace(s) + |r| <= |s|
    ensures r == s[LeadingWhitespace(s)..LeadingWhitespace(s) + |r|]
    ensures r != [] ==> !IsWhitespace(r[0]) && !IsWhitespace(r[|r| - 1])
    ensures r == [] <==> AllWhitespace(s)
  {
    var t := TrimStart(s);
    var r := TrimEnd(t);
    assert r == [] ==> AllWhitespace(s) by {
      if r == [] {
        assert t == [];
      }
    }
    r
  }

  /** A string with no white space at either end is its own trim. */
  lemma TrimIdentity(s: string)
    requires s != [] ==> !IsWhitespace(s[0]) && !IsWhitespace(s[|s| - 1])
    ensures Trim(s) == s
  {
  }

  // ---------------------------------------------------------------------
  // Lengths as JavaScript counts them.

  /** The UTF-16 code units of one character: a surrogate pair above U+FFFF,
      a single unit otherwise. */
  function Utf16Width(c: char): (w: nat)
    ensures w == 1 || w == 2
    ensures w == 2 <==> c as int >= 0x1_0000
  {
    if c as int >= 0x1_0000 then 2 else 1
  }

  /** `s.length`: the number of UTF-16 code units, at least one and at most
      two per character. */
  function Utf16Length(s: string): (n: nat)
    ensures |s| <= n <= 2 * |s|
  {
    if s == [] then 0 else Utf16Width(s[0]) + Utf16Length(s[1..])
  }

  lemma {:induction false} Utf16LengthAppend(a: string, b: string)
    ensures Utf16Length(a + b) == Utf16Length(a) + Utf16Length(b)
    decreases |a|
  {
    if a == [] {
      assert a + b == b;
    } else {
      assert (a + b)[0] == a[0];
      assert (a + b)[1..] == a[1..] + b;
      Utf16LengthAppend(a[1..], b);
    }
  }

  /** A piece of a string is no longer, in code units, than the string. */
  lemma Utf16LengthSlice(s: string, lo: nat, hi: nat)
    requires lo <= hi <= |s|
    ensures Utf16Length(s[lo..hi]) <= Utf16Length(s)
  {
    Utf16LengthPrefix(s, hi);
    Utf16LengthDrop(s[..hi], lo);
    assert s[..hi][lo..] == s[lo..hi];
  }

  /** A prefix has no more code units than the string. */
  lemma {:induction false} Utf16LengthPrefix(s: string, k: nat)
    requires k <= |s|
    ensures Utf16Length(s[..k]) <= Utf16Length(s)
    decreases k
  {
    if k > 0 {
      Utf16LengthPrefix(s[1..], k - 1);
      Utf16LengthPrefixHead(s, k - 1);
    }
  }

  /** Dropping `k` characters removes at least `k` code units. */
  lemma {:induction false} Utf16LengthDrop(s: string, k: nat)
    requires k <= |s|
    ensures Utf16Length(s[k..]) + k <= Utf16Length(s)
    decreases k
  {
    if k > 0 {
      Utf16LengthDrop(s[1..], k - 1);
      assert s[1..][k - 1..] == s[k..];
    }
  }

  /** Text below U+10000 has one code unit per character; text above it has
      two. */
  lemma {:induction false} Utf16LengthUniform(s: string)
    ensures (forall i :: 0 <= i < |s| ==> Utf16Width(s[i]) == 1) ==> Utf16Length(s) == |s|
    ensures (forall i :: 0 <= i < |s| ==> Utf16Width(s[i]) == 2) ==> Utf16Length(s) == 2 * |s|
    decreases |s|
  {
    if s != [] {
      Utf16LengthUniform(s[1..]);
      assert forall i :: 1 <= i < |s| ==> s[1..][i - 1] == s[i];
    }
  }

  /** How many characters `s.slice(0, units)` keeps when the cut is counted
      in code units: characters are taken while they fit. */
  function Utf16Take(s: string, units: nat): (k: nat)
    ensures k <= |s|
  {
    if s == [] || Utf16Width(s[0]) > units then 0
    else 1 + Utf16Take(s[1..], units - Utf16Width(s[0]))
  }

  /** What `Utf16Take` keeps fits in `units` code units. */
  lemma {:induction false} Utf16TakeFits(s: string, units: nat)
    ensures Utf16Length(s[..Utf16Take(s, units)]) <= units
    decreases |s|
  {
    if s != [] && Utf16Width(s[0]) <= units {
      var w := Utf16Width(s[0]);
      var k := Utf16Take(s[1..], units - w);
      Utf16TakeFits(s[1..], units - w);
      Utf16LengthPrefixHead(s, k);
    }
  }

  /** `Utf16Take` keeps the whole string when it fits. */
  lemma {:induction false} Utf16TakeWhole(s: string, units: nat)
    ensures Utf16Length(s) <= units ==> Utf16Take(s, units) == |s|
    decreases |s|
  {
    if s != [] && Utf16Length(s) <= units {
      Utf16TakeWhole(s[1..], units - Utf16Width(s[0]));
    }
  }

  /** `Utf16Take` keeps the longest prefix that fits: one more character
      would exceed `units`. */
  lemma {:induction false} Utf16TakeLongest(s: string, units: nat)
    ensures Utf16Take(s, units) < |s| ==> Utf16Length(s[..Utf16Take(s, units) + 1]) > units
    decreases |s|
  {
    if s != [] {
      var w := Utf16Width(s[0]);
      if w > units {
        assert Utf16Take(s, units) == 0;
        Utf16LengthPrefixHead(s, 0);
      } else {
        var k := Utf16Take(s[1..], units - w);
        assert Utf16Take(s, units) == k + 1;
        if k < |s| - 1 {
          Utf16TakeLongest(s[1..], units - w);
          Utf16LengthPrefixHead(s, k + 1);
        }
      }
    }
  }

  /** The code units of a non-empty prefix: its first character's, then the
      rest of the prefix's. */
  lemma Utf16LengthPrefixHead(s: string, k: nat)
    requires k < |s|
    ensures Utf16Length(s[..k + 1]) == Utf16Width(s[0]) + Utf16Length(s[1..][..k])
  {
    assert s[..k + 1][1..] == s[1..][..k];
  }

  /** `s.includes(t)` */
  predicate Includes(s: string, t: string)
    decreases |s|
  {
    t <= s || (s != [] && Includes(s[1..], t))
  }

  /** `t` occurs in `s` starting at position `i`. */
  predicate OccursAt(s: string, t: string, i: int) {
    0 <= i <= |s| - |t| && s[i..i + |t|] == t
  }

  /** `includes` holds exactly when `t` occurs at some position of `s`. */
  lemma {:induction false} IncludesAt(s: string, t: string)
    ensures Includes(s, t) <==> exists i :: OccursAt(s, t, i)
    decreases |s|
  {
    if t <= s {
      assert OccursAt(s, t, 0);
    } else if s != [] {
      IncludesAt(s[1..], t);
      OccursShift(s, t);
    }
  }

  /** An occurrence after the first character is an occurrence in the tail. */
  lemma OccursShift(s: string, t: string)
    requires s != [] && !(t <= s)
    ensures (exists i :: OccursAt(s, t, i)) <==> exists i :: OccursAt(s[1..], t, i)
  {
    if exists i :: OccursAt(s[1..], t, i) {
      var i :| OccursAt(s[1..], t, i);
      assert s[1..][i..i + |t|] == s[i + 1..i + 1 + |t|];
      assert OccursAt(s, t, i + 1);
    }
    if exists i :: OccursAt(s, t, i) {
      var i :| OccursAt(s, t, i);
      assert i != 0;
      assert s[1..][i - 1..i - 1 + |t|] == s[i..i + |t|];
      assert OccursAt(s[1..], t, i - 1);
    }
  }

  /** `s.indexOf(c)` for a single character. */
  function IndexOf(s: string, c: char): (r: int)
    ensures -1 <= r < |s|
    ensures r == -1 <==> c !in s
    ensures r >= 0 ==> s[r] == c && c !in s[..r]
  {
    if s == [] then -1
    else if s[0] == c then 0
    else
      var k := IndexOf(s[1..], c);
      assert s == [s[0]] + s[1..];
      if k == -1 then -1
      else
        assert s[..k + 1] == [s[0]] + s[1..][..k];
        k + 1
  }

  /** The first occurrence of `c` in `a + [c] + b` is just after `a` when `a`
      does not contain `c`. */
  lemma IndexOfAfter(a: string, c: char, b: string)
    requires c !in a
    ensures IndexOf(a + [c] + b, c) == |a|
  {
    var s := a + [c] + b;
    assert s[|a|] == c;
    assert s[..|a|] == a;
    assert forall j :: 0 <= j < |a| ==> s[j] == a[j];
  }

  /** `parts.join(sep)` */
  function Join(parts: seq<string>, sep: string): (r: string)
    ensures parts == [] ==> r == ""
    ensures |parts| == 1 ==> r == parts[0]
  {
    if |parts| == 0 then ""
    else if |parts| == 1 then parts[0]
    else parts[0] + sep + Join(parts[1..], sep)
  }

  /** Joining two non-empty lists inserts exactly one separator between them. */
  lemma {:induction false} JoinAppend(a: seq<string>, b: seq<string>, sep: string)
    requires a != [] && b != []
    ensures Join(a + b, sep) == Join(a, sep) + sep + Join(b, sep)
    decreases |a|
  {
    if |a| == 1 {
      assert (a + b)[1..] == b;
    } else {
      assert (a + b)[1..] == a[1..] + b;
      JoinAppend(a[1..], b, sep);
    }
  }

  /** `s.split(c)` for a single-character separator. */
  function Split(s: string, c: char): (r: seq<string>)
    ensures |r| >= 1
    decreases |s|
  {
    var i := IndexOf(s, c);
    if i == -1 then [s] else [s[..i]] + Split(s[i + 1..], c)
  }

  /** Splitting at the first separator after a separator-free part. */
  lemma SplitCons(a: string, c: char, rest: string)
    requires c !in a
    ensures Split(a + [c] + rest, c) == [a] + Split(rest, c)
  {
    var s := a + [c] + rest;
    IndexOfAfter(a, c, rest);
    assert s[..|a|] == a;
    assert s[|a| + 1..] == rest;
  }

  /** `split` undoes `join` when no part contains the separator. */
  lemma {:induction false} SplitJoin(parts: seq<string>, c: char)
    requires parts != []
    requires forall i :: 0 <= i < |parts| ==> c !in parts[i]
    ensures Split(Join(parts, [c]), c) == parts
    decreases |parts|
  {
    if |parts| == 1 {
      assert IndexOf(parts[0], c) == -1;
    } else {
      var rest := Join(parts[1..], [c]);
      assert Join(parts, [c]) == parts[0] + [c] + rest;
      SplitCons(parts[0], c, rest);
      SplitJoin(parts[1..], c);
      assert parts == [parts[0]] + parts[1..];
    }
  }

  predicate IsDigitChar(c: char) {
    '0' <= c <= '9'
  }

  predicate AllDigits(s: string) {
    forall i :: 0 <= i < |s| ==> IsDigitChar(s[i])
  }

  function DigitChar(d: nat): (c: char)
    requires d < 10
    ensures IsDigitChar(c) && c as int - '0' as int == d
  {
    ('0' as int + d) as char
  }

  function Pow10(n: nat): (r: nat)
    ensures r >= 1
  {
    if n == 0 then 1 else 10 * Pow10(n - 1)
  }

  /** The value of a string of decimal digits; it has at most `|s|` digits. */
  function DecimalValue(s: string): (v: nat)
    requires AllDigits(s)
    ensures v < Pow10(|s|)
  {
    if s == [] then 0
    else DecimalValue(s[..|s| - 1]) * 10 + (s[|s| - 1] as int - '0' as int)
  }

  /** The decimal rendering of a non-negative integer, as a template literal
      writes it: digits only, no leading zero, and reading it back gives `n`. */
  function NatToString(n: nat): (r: string)
    ensures r != [] && AllDigits(r)
    ensures |r| > 1 ==> r[0] != '0'
    ensures DecimalValue(r) == n
  {
    if n < 10 then [DigitChar(n)]
    else
      var prefix := NatToString(n / 10);
      var r := prefix + [DigitChar(n % 10)];
      assert r[..|r| - 1] == prefix;
      r
  }
}
