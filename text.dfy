/**
 * The string primitives the source leans on: JavaScript's `trim`,
 * `toLowerCase` for the letters of the common European scripts, string
 * lengths as JavaScript measures them (in UTF-16 code units) and the UTF-8
 * encoding, `split`/`join` on one separator character, stripping a run of
 * trailing characters, removing every whitespace character, and the decimal
 * rendering and parsing of integers (`String(n)`, `padStart`).
 *
 * A Dafny `string` is a sequence of Unicode scalar values, while JavaScript
 * indexes a string by UTF-16 code units: a character above U+FFFF counts
 * twice in `.length` and `slice`.
 */
module Text {

  /** The characters JavaScript's `trim` and the regular-expression class `\s` treat as white space. */
  predicate IsSpace(c: char) {
    || c == ' ' || c == '\t' || c == '\n' || c == '\r' || c == '\U{000B}' || c == '\U{000C}'
    || c == '\U{00A0}' || c == '\U{1680}' || ('\U{2000}' <= c <= '\U{200A}')
    || c == '\U{2028}' || c == '\U{2029}' || c == '\U{202F}' || c == '\U{205F}'
    || c == '\U{3000}' || c == '\U{FEFF}'
  }

  predicate IsDigit(c: char) { '0' <= c <= '9' }

  predicate AllDigits(s: string) { forall i :: 0 <= i < |s| ==> IsDigit(s[i]) }

  /** Drops the leading white space. */
  function TrimStart(s: string): (r: string)
    ensures |r| <= |s|
    ensures r == [] || !IsSpace(r[0])
    decreases |s|
  {
    if |s| > 0 && IsSpace(s[0]) then TrimStart(s[1..]) else s
  }

  /** Drops the trailing white space. */
  function TrimEnd(s: string): (r: string)
    ensures |r| <= |s| && r == s[..|r|]
    ensures r == [] || !IsSpace(r[|r| - 1])
    decreases |s|
  {
    if |s| > 0 && IsSpace(s[|s| - 1]) then TrimEnd(s[..|s| - 1]) else s
  }

  /** `String.prototype.trim`. */
  function Trim(s: string): (r: string)
    ensures |r| <= |s|
    ensures r == [] || (!IsSpace(r[0]) && !IsSpace(r[|r| - 1]))
  {
    TrimEnd(TrimStart(s))
  }

  /** A string whose ends are not white space is its own trim. */
  lemma {:induction false} TrimOfTrimmed(s: string)
    requires s == [] || (!IsSpace(s[0]) && !IsSpace(s[|s| - 1]))
    ensures Trim(s) == s
  {
  }

  lemma {:induction false} TrimIdempotent(s: string)
    ensures Trim(Trim(s)) == Trim(s)
  {
    TrimOfTrimmed(Trim(s));
  }

  /** Upper-case letters of Latin Extended-A whose lower-case form is the next code point. */
  predicate LatinExtendedAUpper(c: char) {
    var n := c as int;
    || (n % 2 == 0 && (0x100 <= n <= 0x12F || 0x132 <= n <= 0x137 || 0x14A <= n <= 0x177))
    || (n % 2 == 1 && (0x139 <= n <= 0x148 || 0x179 <= n <= 0x17E))
  }

  /** The one-to-one part of `toLowerCase`'s case mapping, for the scripts the model covers:
      ASCII, Latin-1, Latin Extended-A, the basic Greek capitals (without the context-dependent
      sigma), basic Cyrillic, full-width Latin, and the Kelvin and Angstrom signs. Every other
      character is kept. */
  function LowerChar(c: char): char {
    var n := c as int;
    if || 'A' <= c <= 'Z'
       || ('\U{00C0}' <= c <= '\U{00DE}' && c != '\U{00D7}')
       || ('\U{0391}' <= c <= '\U{03A9}' && c != '\U{03A2}' && c != '\U{03A3}')
       || '\U{0410}' <= c <= '\U{042F}'
       || '\U{FF21}' <= c <= '\U{FF3A}'
    then (n + 32) as char
    else if '\U{0400}' <= c <= '\U{040F}' then (n + 80) as char
    else if LatinExtendedAUpper(c) then (n + 1) as char
    else if c == '\U{0178}' then '\U{00FF}'
    else if c == '\U{212A}' then 'k'
    else if c == '\U{212B}' then '\U{00E5}'
    else c
  }

  /** `String.prototype.toLowerCase`, restricted to the mapping of `LowerChar`. */
  function Lower(s: string): string {
    seq(|s|, i requires 0 <= i < |s| => LowerChar(s[i]))
  }

  /** No character that `LowerChar` would change. */
  predicate IsLower(s: string) { forall i :: 0 <= i < |s| ==> LowerChar(s[i]) == s[i] }

  lemma LowerCharIdempotent(c: char)
    ensures LowerChar(LowerChar(c)) == LowerChar(c)
  {
  }

  lemma LowerIsLower(s: string)
    ensures IsLower(Lower(s))
    ensures Lower(Lower(s)) == Lower(s)
  {
    forall i | 0 <= i < |s| ensures LowerChar(Lower(s)[i]) == Lower(s)[i] {
      LowerCharIdempotent(s[i]);
    }
  }

  /** Lowering never turns a white-space character into another kind, nor back. */
  lemma LowerCharKeepsSpace(c: char)
    ensures IsSpace(LowerChar(c)) == IsSpace(c)
  {
  }

  /** Lowering keeps a string trimmed. */
  lemma LowerKeepsTrimmed(s: string)
    requires s == [] || (!IsSpace(s[0]) && !IsSpace(s[|s| - 1]))
    ensures var r := Lower(s); r == [] || (!IsSpace(r[0]) && !IsSpace(r[|r| - 1]))
  {
    if s != [] {
      LowerCharKeepsSpace(s[0]);
      LowerCharKeepsSpace(s[|s| - 1]);
    }
  }

  /** `String.prototype.includes` for one character. */
  predicate Contains(s: string, c: char) { exists i :: 0 <= i < |s| && s[i] == c }

  /** `s.split(sep)` for a one-character separator: never fewer than one part. */
  function Split(s: string, sep: char): (parts: seq<string>)
    ensures |parts| >= 1
    decreases |s|
  {
    if |s| == 0 then [""]
    else if s[0] == sep then [""] + Split(s[1..], sep)
    else
      var rest := Split(s[1..], sep);
      [[s[0]] + rest[0]] + rest[1..]
  }

  /** `parts.join(sep)`. */
  function Join(parts: seq<string>, sep: char): string
    requires |parts| >= 1
    decreases |parts|
  {
    if |parts| == 1 then parts[0] else parts[0] + [sep] + Join(parts[1..], sep)
  }

  /** Splitting loses nothing: joining the parts with the separator gives the string back. */
  lemma {:induction false} JoinSplit(s: string, sep: char)
    ensures Join(Split(s, sep), sep) == s
    decreases |s|
  {
    if |s| > 0 {
      var rest := Split(s[1..], sep);
      JoinSplit(s[1..], sep);
      if s[0] == sep {
        assert Split(s, sep)[1..] == rest;
      } else {
        JoinCons(s[0], rest, sep);
      }
      assert s == [s[0]] + s[1..];
    }
  }

  /** Putting a character in front of the first part puts it in front of the join. */
  lemma JoinCons(c: char, rest: seq<string>, sep: char)
    requires |rest| >= 1
    ensures Join([[c] + rest[0]] + rest[1..], sep) == [c] + Join(rest, sep)
  {
    var parts := [[c] + rest[0]] + rest[1..];
    if |rest| > 1 {
      assert parts[1..] == rest[1..];
    }
  }

  /** Splitting a join of separator-free parts gives the parts back. */
  lemma {:induction false} SplitJoin(parts: seq<string>, sep: char)
    requires |parts| >= 1
    requires forall i :: 0 <= i < |parts| ==> sep !in parts[i]
    ensures Split(Join(parts, sep), sep) == parts
    decreases |parts|
  {
    if |parts| == 1 {
      SplitNoSep(parts[0], sep);
    } else {
      SplitJoin(parts[1..], sep);
      SplitPrefix(parts[0], Join(parts[1..], sep), sep);
      assert parts == [parts[0]] + parts[1..];
    }
  }

  lemma {:induction false} SplitNoSep(s: string, sep: char)
    requires sep !in s
    ensures Split(s, sep) == [s]
    decreases |s|
  {
    if |s| > 0 {
      SplitNoSep(s[1..], sep);
      assert s == [s[0]] + s[1..];
    }
  }

  /** Splitting `p + sep + rest` when `p` has no separator. */
  lemma {:induction false} SplitPrefix(p: string, rest: string, sep: char)
    requires sep !in p
    ensures Split(p + [sep] + rest, sep) == [p] + Split(rest, sep)
    decreases |p|
  {
    var s := p + [sep] + rest;
    if |p| == 0 {
      assert s[1..] == rest;
    } else {
      SplitPrefix(p[1..], rest, sep);
      assert s[1..] == p[1..] + [sep] + rest;
      assert p == [p[0]] + p[1..];
    }
  }

  /** `s.replace(/c+$/, '')`: removes the whole run of `c` at the end of `s`. */
  function StripTrailing(s: string, c: char): (r: string)
    ensures |r| <= |s| && r == s[..|r|]
    ensures forall k :: |r| <= k < |s| ==> s[k] == c
    ensures r == [] || r[|r| - 1] != c
    decreases |s|
  {
    if |s| > 0 && s[|s| - 1] == c then StripTrailing(s[..|s| - 1], c) else s
  }

  /** `s.replace(/\s+/g, '')`: keeps the other characters in their order. */
  function RemoveSpaces(s: string): (r: string)
    ensures |r| <= |s|
    ensures forall i :: 0 <= i < |r| ==> !IsSpace(r[i])
    ensures forall i :: 0 <= i < |s| && !IsSpace(s[i]) ==> s[i] in r
    decreases |s|
  {
    if |s| == 0 then ""
    else if IsSpace(s[0]) then RemoveSpaces(s[1..])
    else [s[0]] + RemoveSpaces(s[1..])
  }

  /** A string without white space is left as it is. */
  lemma {:induction false} RemoveSpacesKeepsClean(s: string)
    requires forall i :: 0 <= i < |s| ==> !IsSpace(s[i])
    ensures RemoveSpaces(s) == s
    decreases |s|
  {
    if |s| > 0 {
      RemoveSpacesKeepsClean(s[1..]);
      assert s == [s[0]] + s[1..];
    }
  }

  function DigitChar(d: nat): char
    requires d < 10
  {
    ('0' as int + d) as char
  }

  function DigitValue(c: char): nat
    requires IsDigit(c)
  {
    c as int - '0' as int
  }

  function Pow10(k: nat): nat {
    if k == 0 then 1 else 10 * Pow10(k - 1)
  }

  /** `String(n)` for a natural number: decimal digits without leading zeros. */
  function NatToDecimal(n: nat): (r: string)
    ensures |r| >= 1 && AllDigits(r)
    ensures r[0] == '0' ==> n == 0
    decreases n
  {
    if n < 10 then [DigitChar(n)] else NatToDecimal(n / 10) + [DigitChar(n % 10)]
  }

  /** `String(i)` for an integer. */
  function IntToDecimal(i: int): (r: string)
    ensures |r| >= 1
  {
    if i < 0 then "-" + NatToDecimal(-i) else NatToDecimal(i)
  }

  /** The value of a string of decimal digits (leading zeros allowed). */
  function DecimalValue(s: string): nat
    requires AllDigits(s)
    decreases |s|
  {
    if |s| == 0 then 0 else 10 * DecimalValue(s[..|s| - 1]) + DigitValue(s[|s| - 1])
  }

  lemma {:induction false} DecimalRoundTrip(n: nat)
    ensures DecimalValue(NatToDecimal(n)) == n
    decreases n
  {
    if n >= 10 {
      DecimalRoundTrip(n / 10);
      var s := NatToDecimal(n);
      assert s[..|s| - 1] == NatToDecimal(n / 10);
    }
  }

  /** A number below 10^k is written with at most k digits. */
  lemma {:induction false} DecimalLength(n: nat, k: nat)
    requires 1 <= k && n < Pow10(k)
    ensures |NatToDecimal(n)| <= k
    decreases k
  {
    if n >= 10 {
      DecimalLength(n / 10, k - 1);
    }
  }

  function Repeat(c: char, k: nat): (r: string)
    ensures |r| == k && forall i :: 0 <= i < k ==> r[i] == c
  {
    seq(k, i => c)
  }

  /** `s.padStart(width, c)`. */
  function PadStart(s: string, width: nat, c: char): (r: string)
    ensures |r| == Max(|s|, width)
    ensures r == Repeat(c, |r| - |s|) + s
  {
    if |s| >= width then s else Repeat(c, width - |s|) + s
  }

  function Max(a: int, b: int): int { if a >= b then a else b }

  /** Leading zeros do not change the value of a digit string. */
  lemma {:induction false} LeadingZerosValue(k: nat, s: string)
    requires AllDigits(s)
    ensures AllDigits(Repeat('0', k) + s)
    ensures DecimalValue(Repeat('0', k) + s) == DecimalValue(s)
    decreases |s|
  {
    var t := Repeat('0', k) + s;
    assert AllDigits(t) by {
      forall i | 0 <= i < |t| ensures IsDigit(t[i]) {
        if i >= k { assert t[i] == s[i - k]; }
      }
    }
    if |s| == 0 {
      ZerosValue(k);
      assert t == Repeat('0', k);
    } else {
      LeadingZerosValue(k, s[..|s| - 1]);
      assert t[..|t| - 1] == Repeat('0', k) + s[..|s| - 1];
    }
  }

  lemma {:induction false} ZerosValue(k: nat)
    ensures AllDigits(Repeat('0', k)) && DecimalValue(Repeat('0', k)) == 0
    decreases k
  {
    if k > 0 {
      ZerosValue(k - 1);
      assert Repeat('0', k)[..k - 1] == Repeat('0', k - 1);
    }
  }

  /** Prefix test, `s.startsWith(p)`. */
  predicate StartsWith(s: string, p: string) { |p| <= |s| && s[..|p|] == p }

  /** How many UTF-16 code units JavaScript spends on a character. */
  function Utf16Units(c: char): nat { if c as int > 0xFFFF then 2 else 1 }

  /** `s.length` in JavaScript. */
  function Utf16Length(s: string): (n: nat)
    ensures |s| <= n <= 2 * |s|
  {
    if s == [] then 0 else Utf16Units(s[0]) + Utf16Length(s[1..])
  }

  /** `s.slice(0, n)`, cutting between characters: the longest prefix that fits in `n` code
      units. Where the source would cut a surrogate pair in half, this stops before it. */
  function SliceUnits(s: string, n: nat): (r: string)
    ensures |r| <= |s| && r == s[..|r|]
    ensures Utf16Length(r) <= n
    ensures Utf16Length(s) <= n ==> r == s
    ensures |r| < |s| ==> Utf16Length(r) + Utf16Units(s[|r|]) > n
    decreases |s|
  {
    if s == [] || Utf16Units(s[0]) > n then []
    else
      var rest := SliceUnits(s[1..], n - Utf16Units(s[0]));
      assert ([s[0]] + rest)[1..] == rest;
      [s[0]] + rest
  }

  /** The UTF-8 encoding of one character, as byte values. */
  function Utf8Char(c: char): (b: seq<int>)
    ensures 1 <= |b| <= 4
  {
    var n := c as int;
    if n < 0x80 then [n]
    else if n < 0x800 then [0xC0 + n / 64, 0x80 + n % 64]
    else if n < 0x10000 then [0xE0 + n / 4096, 0x80 + (n / 64) % 64, 0x80 + n % 64]
    else [0xF0 + n / 262144, 0x80 + (n / 4096) % 64, 0x80 + (n / 64) % 64, 0x80 + n % 64]
  }

  /** The UTF-8 encoding of a string. */
  function Utf8(s: string): (b: seq<int>)
    ensures |s| <= |b| <= 4 * |s|
  {
    if s == [] then [] else Utf8Char(s[0]) + Utf8(s[1..])
  }

  /** The length of a character's encoding, read from its first byte. */
  function Utf8Width(lead: int): nat {
    if lead < 0x80 then 1 else if lead < 0xE0 then 2 else if lead < 0xF0 then 3 else 4
  }

  /** The code point a one-character encoding spells. */
  function Utf8Value(b: seq<int>): int
    requires 1 <= |b| <= 4
  {
    if |b| == 1 then b[0]
    else if |b| == 2 then (b[0] - 0xC0) * 64 + (b[1] - 0x80)
    else if |b| == 3 then (b[0] - 0xE0) * 4096 + (b[1] - 0x80) * 64 + (b[2] - 0x80)
    else (b[0] - 0xF0) * 262144 + (b[1] - 0x80) * 4096 + (b[2] - 0x80) * 64 + (b[3] - 0x80)
  }

  /** A character's encoding announces its own length and spells its code point. */
  lemma Utf8CharDecodes(c: char)
    ensures Utf8Width(Utf8Char(c)[0]) == |Utf8Char(c)|
    ensures Utf8Value(Utf8Char(c)) == c as int
  {
    var n := c as int;
    if 0x10000 <= n {
      assert n / 4096 == 64 * (n / 262144) + (n / 4096) % 64;
      assert n / 64 == 64 * (n / 4096) + (n / 64) % 64;
    } else if 0x800 <= n {
      assert n / 64 == 64 * (n / 4096) + (n / 64) % 64;
    }
  }

  /** Encoding distributes over concatenation. */
  lemma {:induction false} Utf8Append(a: string, b: string)
    ensures Utf8(a + b) == Utf8(a) + Utf8(b)
  {
    if a == [] {
      assert a + b == b;
    } else {
      assert (a + b)[0] == a[0];
      assert (a + b)[1..] == a[1..] + b;
      Utf8Append(a[1..], b);
    }
  }

  /** A zero byte in an encoding comes only from a NUL character. */
  lemma {:induction false} Utf8ZeroFree(s: string)
    requires '\0' !in s
    ensures 0 !in Utf8(s)
  {
    if s != [] {
      assert s == [s[0]] + s[1..];
      Utf8ZeroFree(s[1..]);
      assert s[0] != '\0';
      assert 0 !in Utf8Char(s[0]);
    }
  }

  /** Different strings have different encodings. */
  lemma {:induction false} Utf8Injective(a: string, b: string)
    requires Utf8(a) == Utf8(b)
    ensures a == b
    decreases |a|
  {
    if a != [] {
      var ca := Utf8Char(a[0]);
      var cb := Utf8Char(b[0]);
      Utf8CharDecodes(a[0]);
      Utf8CharDecodes(b[0]);
      assert ca[0] == Utf8(a)[0] == Utf8(b)[0] == cb[0];
      assert ca == Utf8(a)[..|ca|] == Utf8(b)[..|cb|] == cb;
      assert a[0] as int == b[0] as int;
      assert Utf8(a[1..]) == Utf8(a)[|ca|..] == Utf8(b)[|cb|..] == Utf8(b[1..]);
      Utf8Injective(a[1..], b[1..]);
      assert a == [a[0]] + a[1..] && b == [b[0]] + b[1..];
    }
  }
}
