/** Base64 as `atob` reads it: the alphabet of section 4 of RFC 4648, decoded
    forgivingly (ASCII whitespace is skipped, the padding may be left off,
    and the bits left over at the end are dropped), with the bytes returned
    as a binary string of one character per byte. The encoder is the one a
    client uses to build its credentials; it pads to a multiple of four. */
module Base64 {
  import opened Common
  import opened Text

  type Byte = x: int | 0 <= x < 256

  /** Tab, line feed, form feed, carriage return and space. */
  predicate IsAsciiWhitespace(c: char) {
    c == '\t' || c == '\n' || c == '\U{0C}' || c == '\r' || c == ' '
  }

  /** The 64 characters of the alphabet; `=` is not one of them. */
  predicate IsBase64Char(c: char) {
    ('A' <= c <= 'Z') || ('a' <= c <= 'z') || ('0' <= c <= '9') || c == '+' || c == '/'
  }

  /** The value an alphabet character stands for. */
  function SextetValue(c: char): (v: nat)
    requires IsBase64Char(c)
    ensures v < 64
  {
    if 'A' <= c <= 'Z' then c as int - 'A' as int
    else if 'a' <= c <= 'z' then c as int - 'a' as int + 26
    else if '0' <= c <= '9' then c as int - '0' as int + 52
    else if c == '+' then 62
    else 63
  }

  /** The alphabet character for a 6-bit value: the inverse of `SextetValue`. */
  function SextetChar(v: nat): (c: char)
    requires v < 64
    ensures IsBase64Char(c) && SextetValue(c) == v
  {
    if v < 26 then ('A' as int + v) as char
    else if v < 52 then ('a' as int + v - 26) as char
    else if v < 62 then ('0' as int + v - 52) as char
    else if v == 62 then '+'
    else '/'
  }

  lemma SextetCharOfValue(c: char)
    requires IsBase64Char(c)
    ensures SextetChar(SextetValue(c)) == c
  {
  }

  // ---------------------------------------------------------------------
  // Decoding.

  /** Step 1 of the forgiving decode: drop every ASCII whitespace character
      and keep every other one, in order and as often as it occurs. */
  function RemoveWhitespace(s: string): (r: string)
    ensures forall i :: 0 <= i < |r| ==> !IsAsciiWhitespace(r[i])
    ensures IsSubsequence(r, s)
    ensures forall c :: !IsAsciiWhitespace(c) ==> multiset(r)[c] == multiset(s)[c]
    ensures (forall i :: 0 <= i < |s| ==> !IsAsciiWhitespace(s[i])) ==> r == s
    ensures |r| <= |s|
  {
    if s == [] then []
    else
      assert s == [s[0]] + s[1..];
      var rest := RemoveWhitespace(s[1..]);
      if IsAsciiWhitespace(s[0]) then
        assert rest != [] ==> rest[0] != s[0];
        rest
      else
        assert ([s[0]] + rest)[1..] == rest;
        [s[0]] + rest
  }

  /** Step 2: a length that is a multiple of four may end in one or two `=`,
      which are removed. */
  function StripPadding(s: string): (r: string)
    ensures |s| % 4 != 0 ==> r == s
    ensures |s| % 4 == 0 && |s| >= 2 && s[|s| - 2..] == "==" ==> r == s[..|s| - 2]
    ensures |s| % 4 == 0 && |s| >= 1 && s[|s| - 1] == '=' && !(|s| >= 2 && s[|s| - 2] == '=') ==> r == s[..|s| - 1]
    ensures |s| % 4 == 0 && (|s| == 0 || s[|s| - 1] != '=') ==> r == s
  {
    if |s| % 4 != 0 then s
    else if |s| >= 2 && s[|s| - 1] == '=' && s[|s| - 2] == '=' then s[..|s| - 2]
    else if |s| >= 1 && s[|s| - 1] == '=' then s[..|s| - 1]
    else s
  }

  predicate AllBase64(s: string) {
    forall i :: 0 <= i < |s| ==> IsBase64Char(s[i])
  }

  predicate AllSextets(v: seq<nat>) {
    forall i :: 0 <= i < |v| ==> v[i] < 64
  }

  function Sextets(s: string): (v: seq<nat>)
    requires AllBase64(s)
    ensures |v| == |s| && AllSextets(v)
  {
    seq(|s|, i requires 0 <= i < |s| => SextetValue(s[i]))
  }

  /** Four sextets carry three bytes. */
  function DecodeQuad(a: nat, b: nat, c: nat, d: nat): (r: seq<Byte>)
    requires a < 64 && b < 64 && c < 64 && d < 64
    ensures |r| == 3
  {
    [a * 4 + b / 16, (b % 16) * 16 + c / 4, (c % 4) * 64 + d]
  }

  /** Step 5: four sextets make three bytes; a final two make one byte and a
      final three make two, the leftover low bits being dropped. */
  function DecodeSextets(v: seq<nat>): (r: seq<Byte>)
    requires AllSextets(v) && |v| % 4 != 1
  {
    if |v| >= 4 then DecodeQuad(v[0], v[1], v[2], v[3]) + DecodeSextets(v[4..])
    else if |v| == 3 then [v[0] * 4 + v[1] / 16, (v[1] % 16) * 16 + v[2] / 4]
    else if |v| == 2 then [v[0] * 4 + v[1] / 16]
    else []
  }

  /** The forgiving-base64 decode `atob` performs. `None` is the failure
      `atob` reports by throwing: a length of the form 4k + 1 after
      whitespace and padding are removed, or any character outside the
      alphabet (a stray `=` included). */
  function Decode(s: string): (r: Option<seq<Byte>>)
    ensures var t := StripPadding(RemoveWhitespace(s));
      r.Some? <==> |t| % 4 != 1 && AllBase64(t)
  {
    var t := StripPadding(RemoveWhitespace(s));
    if |t| % 4 == 1 || !AllBase64(t) then None
    else Some(DecodeSextets(Sextets(t)))
  }

  // ---------------------------------------------------------------------
  // Encoding.

  /** Three bytes make four sextets. */
  function EncodeTriple(x: Byte, y: Byte, z: Byte): (r: seq<nat>)
    ensures |r| == 4 && AllSextets(r)
  {
    [x / 4, (x % 4) * 16 + y / 16, (y % 16) * 4 + z / 64, z % 64]
  }

  /** The sextets of the encoding, before padding. */
  function EncodeSextets(b: seq<Byte>): (v: seq<nat>)
    ensures AllSextets(v)
    ensures |v| % 4 == (if |b| % 3 == 0 then 0 else |b| % 3 + 1)
  {
    if |b| >= 3 then EncodeTriple(b[0], b[1], b[2]) + EncodeSextets(b[3..])
    else if |b| == 2 then [b[0] / 4, (b[0] % 4) * 16 + b[1] / 16, (b[1] % 16) * 4]
    else if |b| == 1 then [b[0] / 4, (b[0] % 4) * 16]
    else []
  }

  function SextetText(v: seq<nat>): (s: string)
    requires AllSextets(v)
    ensures |s| == |v| && AllBase64(s)
  {
    seq(|v|, i requires 0 <= i < |v| => SextetChar(v[i]))
  }

  /** The padding that brings the encoding to a multiple of four. */
  function Padding(n: nat): string {
    if n % 3 == 1 then "==" else if n % 3 == 2 then "=" else ""
  }

  /** Standard padded base64 of `b`. */
  function Encode(b: seq<Byte>): (s: string)
    ensures |s| % 4 == 0
    ensures forall i :: 0 <= i < |s| ==> IsBase64Char(s[i]) || s[i] == '='
  {
    SextetText(EncodeSextets(b)) + Padding(|b|)
  }

  /** The bit arithmetic of one full group: four sextets give back the three
      bytes they were made from. */
  lemma TripleRoundTrip(x: Byte, y: Byte, z: Byte)
    ensures var v := EncodeTriple(x, y, z);
      DecodeQuad(v[0], v[1], v[2], v[3]) == [x, y, z]
  {
    assert (x / 4) * 4 + ((x % 4) * 16 + y / 16) / 16 == x;
    assert (((x % 4) * 16 + y / 16) % 16) * 16 + ((y % 16) * 4 + z / 64) / 4 == y;
    assert (((y % 16) * 4 + z / 64) % 4) * 64 + z % 64 == z;
  }

  /** The same for a final group of two bytes (three sextets) and of one
      byte (two sextets). */
  lemma TailRoundTrip(x: Byte, y: Byte)
    ensures (x / 4) * 4 + ((x % 4) * 16 + y / 16) / 16 == x
    ensures (((x % 4) * 16 + y / 16) % 16) * 16 + ((y % 16) * 4) / 4 == y
    ensures (x / 4) * 4 + ((x % 4) * 16) / 16 == x
  {
  }

  lemma {:induction false} DecodeEncodeSextets(b: seq<Byte>)
    ensures |EncodeSextets(b)| % 4 != 1
    ensures DecodeSextets(EncodeSextets(b)) == b
  {
    var v := EncodeSextets(b);
    if |b| >= 3 {
      DecodeEncodeSextets(b[3..]);
      assert v == EncodeTriple(b[0], b[1], b[2]) + EncodeSextets(b[3..]);
      assert v[4..] == EncodeSextets(b[3..]);
      TripleRoundTrip(b[0], b[1], b[2]);
      assert b == [b[0], b[1], b[2]] + b[3..];
    } else if |b| == 2 {
      TailRoundTrip(b[0], b[1]);
    } else if |b| == 1 {
      TailRoundTrip(b[0], 0);
    }
  }

  /** The decoder's padding step removes exactly the encoder's padding. */
  lemma PaddingStripped(b: seq<Byte>)
    ensures StripPadding(Encode(b)) == SextetText(EncodeSextets(b))
  {
    var body := SextetText(EncodeSextets(b));
    var s := Encode(b);
    assert s == body + Padding(|b|);
    if |b| % 3 == 0 {
      assert s == body;
      if |body| > 0 {
        assert IsBase64Char(body[|body| - 1]);
      }
    } else if |b| % 3 == 2 {
      assert IsBase64Char(body[|body| - 1]);
      assert s[..|s| - 1] == body;
    } else {
      assert s[..|s| - 2] == body;
    }
  }

  /** Decoding undoes encoding. */
  lemma DecodeEncode(b: seq<Byte>)
    ensures Decode(Encode(b)) == Some(b)
  {
    var v := EncodeSextets(b);
    var body := SextetText(v);
    var s := Encode(b);
    assert RemoveWhitespace(s) == s by {
      forall i | 0 <= i < |s| ensures !IsAsciiWhitespace(s[i]) {
        assert IsBase64Char(s[i]) || s[i] == '=';
      }
    }
    PaddingStripped(b);
    DecodeEncodeSextets(b);
    assert Sextets(body) == v by {
      forall i | 0 <= i < |v| ensures Sextets(body)[i] == v[i] {
        assert body[i] == SextetChar(v[i]);
      }
    }
  }

  // ---------------------------------------------------------------------
  // Binary strings.

  /** The string `atob` returns: one character per byte. */
  function BinaryString(b: seq<Byte>): (s: string)
    ensures |s| == |b|
    ensures forall i :: 0 <= i < |b| ==> s[i] as int == b[i]
  {
    seq(|b|, i requires 0 <= i < |b| => b[i] as char)
  }

  /** Every character below U+0100, as `btoa` requires. */
  predicate IsLatin1(s: string) {
    forall i :: 0 <= i < |s| ==> s[i] as int < 256
  }

  /** The bytes of a Latin-1 string, the inverse of `BinaryString`. */
  function Latin1Bytes(s: string): (b: seq<Byte>)
    requires IsLatin1(s)
    ensures |b| == |s|
    ensures BinaryString(b) == s
  {
    var b := seq(|s|, i requires 0 <= i < |s| => s[i] as int as Byte);
    assert forall i :: 0 <= i < |s| ==> BinaryString(b)[i] == s[i];
    b
  }
}
