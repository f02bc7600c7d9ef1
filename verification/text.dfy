/**
 * The pieces of the .NET string and number library that the modelled code leans on:
 * `Char.IsWhiteSpace`, `string.Trim`, `string.Split(char)` (empty entries kept or removed),
 * `string.Replace` of one character by nothing, ASCII `ToLower`, `IsNullOrWhiteSpace`,
 * `int/byte/long.TryParse` with the default integer number style, decimal `ToString`
 * and hexadecimal `ToString("X")` with `PadLeft`.
 */
module Text {
  import opened Wrappers

  // ---------------------------------------------------------------------------
  // Whitespace, trimming
  // ---------------------------------------------------------------------------

  /** `Char.IsWhiteSpace`: the characters of Unicode's White_Space property. */
  predicate IsWhiteSpace(c: char) {
    || ('\t' <= c <= '\r')
    || c == ' ' || c == '\U{85}' || c == '\U{A0}' || c == '\U{1680}'
    || ('\U{2000}' <= c <= '\U{200A}')
    || c == '\U{2028}' || c == '\U{2029}' || c == '\U{202F}' || c == '\U{205F}' || c == '\U{3000}'
  }

  /** The whitespace that number parsing skips around the digits: tab to carriage return, and space. */
  predicate IsNumberWhite(c: char) {
    c == ' ' || ('\t' <= c <= '\r')
  }

  /** Which whitespace a trim removes: `Char.IsWhiteSpace`, or the narrower set number parsing skips. */
  datatype WhiteKind = Unicode | NumberStyle

  predicate IsWhite(kind: WhiteKind, c: char) {
    match kind
    case Unicode => IsWhiteSpace(c)
    case NumberStyle => IsNumberWhite(c)
  }

  /** Drops the leading whitespace of the given kind. */
  function TrimStart(s: string, kind: WhiteKind): (r: string)
    ensures |r| <= |s| && r == s[|s| - |r|..]
    ensures r == [] || !IsWhite(kind, r[0])
    ensures forall i :: 0 <= i < |s| - |r| ==> IsWhite(kind, s[i])
  {
    if |s| > 0 && IsWhite(kind, s[0]) then
      var r := TrimStart(s[1..], kind);
      assert s[1..][|s| - 1 - |r|..] == s[|s| - |r|..];
      r
    else s
  }

  /** Drops the trailing whitespace of the given kind. */
  function TrimEnd(s: string, kind: WhiteKind): (r: string)
    ensures |r| <= |s| && r == s[..|r|]
    ensures r == [] || !IsWhite(kind, r[|r| - 1])
    ensures forall i :: |r| <= i < |s| ==> IsWhite(kind, s[i])
  {
    if |s| > 0 && IsWhite(kind, s[|s| - 1]) then TrimEnd(s[..|s| - 1], kind) else s
  }

  /** `string.Trim()`: removes leading and trailing whitespace and nothing else. */
  function Trim(s: string): (r: string)
    ensures r == [] || (!IsWhiteSpace(r[0]) && !IsWhiteSpace(r[|r| - 1]))
    ensures |r| <= |s|
  {
    TrimEnd(TrimStart(s, Unicode), Unicode)
  }

  /** A string that `Trim` leaves alone: empty, or without whitespace at either end. */
  predicate Trimmed(s: string) {
    s == [] || (!IsWhiteSpace(s[0]) && !IsWhiteSpace(s[|s| - 1]))
  }

  /** `Trim` removes nothing from a string that has no whitespace at either end. */
  lemma TrimOfTrimmed(s: string)
    requires Trimmed(s)
    ensures Trim(s) == s
  {
  }

  /** `string.IsNullOrWhiteSpace`. */
  predicate IsNullOrWhiteSpace(s: Option<string>) {
    s.None? || forall i :: 0 <= i < |s.value| ==> IsWhiteSpace(s.value[i])
  }

  // ---------------------------------------------------------------------------
  // Split and join
  // ---------------------------------------------------------------------------

  /**
   * `s.Split(sep)`: the pieces between separators, empty pieces kept, so that
   * there is always one piece more than there are separators.
   */
  function Split(s: string, sep: char): (parts: seq<string>)
    ensures |parts| >= 1
    ensures forall i :: 0 <= i < |parts| ==> sep !in parts[i]
  {
    if |s| == 0 then [""]
    else
      var rest := Split(s[1..], sep);
      if s[0] == sep then [""] + rest
      else [[s[0]] + rest[0]] + rest[1..]
  }

  /** `string.Join(sep, parts)`, the inverse of `Split`. */
  function Join(parts: seq<string>, sep: char): string
    requires |parts| >= 1
  {
    if |parts| == 1 then parts[0] else parts[0] + [sep] + Join(parts[1..], sep)
  }

  /** The number of occurrences of `c` in `s`. */
  function Count(s: string, c: char): nat {
    if |s| == 0 then 0 else (if s[0] == c then 1 else 0) + Count(s[1..], c)
  }

  lemma {:induction false} JoinConsFirst(c: char, parts: seq<string>, sep: char)
    requires |parts| >= 1
    ensures Join([[c] + parts[0]] + parts[1..], sep) == [c] + Join(parts, sep)
  {
    var ps := [[c] + parts[0]] + parts[1..];
    if |parts| > 1 {
      assert ps[1..] == parts[1..];
    }
  }

  /** Splitting and joining again gives back the original text. */
  lemma {:induction false} SplitJoin(s: string, sep: char)
    ensures Join(Split(s, sep), sep) == s
  {
    if |s| > 0 {
      var rest := Split(s[1..], sep);
      SplitJoin(s[1..], sep);
      if s[0] == sep {
        assert ([""] + rest)[1..] == rest;
        assert Join([""] + rest, sep) == [sep] + Join(rest, sep);
      } else {
        JoinConsFirst(s[0], rest, sep);
      }
      assert s == [s[0]] + s[1..];
    }
  }

  /** There is exactly one piece more than there are separators. */
  lemma {:induction false} SplitCount(s: string, sep: char)
    ensures |Split(s, sep)| == Count(s, sep) + 1
  {
    if |s| > 0 {
      SplitCount(s[1..], sep);
    }
  }

  /** The pieces of `parts` that are not empty, in order (`StringSplitOptions.RemoveEmptyEntries`). */
  function RemoveEmpty(parts: seq<string>): (r: seq<string>)
    ensures |r| <= |parts|
    ensures forall i :: 0 <= i < |r| ==> r[i] != [] && r[i] in parts
    ensures forall p :: p in parts && p != [] ==> p in r
    ensures multiset(r) == multiset(parts)[[] := 0]
  {
    if |parts| == 0 then []
    else
      assert parts == [parts[0]] + parts[1..];
      if parts[0] == [] then RemoveEmpty(parts[1..]) else [parts[0]] + RemoveEmpty(parts[1..])
  }

  /** Dropping empty pieces works piece by piece, so the order of the kept pieces is their order in `a + b`. */
  lemma {:induction false} RemoveEmptyAppend(a: seq<string>, b: seq<string>)
    ensures RemoveEmpty(a + b) == RemoveEmpty(a) + RemoveEmpty(b)
  {
    if |a| == 0 {
      assert a + b == b;
    } else {
      var ab := a + b;
      assert ab[0] == a[0] && ab[1..] == a[1..] + b;
      RemoveEmptyAppend(a[1..], b);
      if a[0] == [] {
        assert RemoveEmpty(ab) == RemoveEmpty(ab[1..]);
      } else {
        assert RemoveEmpty(ab) == [a[0]] + RemoveEmpty(ab[1..]);
      }
    }
  }

  /** A list without empty pieces is kept as it is. */
  lemma {:induction false} RemoveEmptyKeeps(parts: seq<string>)
    requires forall i :: 0 <= i < |parts| ==> parts[i] != []
    ensures RemoveEmpty(parts) == parts
  {
    if |parts| > 0 {
      RemoveEmptyKeeps(parts[1..]);
    }
  }

  /** `s.Split(new[] {sep}, StringSplitOptions.RemoveEmptyEntries)`. */
  function SplitNonEmpty(s: string, sep: char): (r: seq<string>)
    ensures forall i :: 0 <= i < |r| ==> r[i] != [] && sep !in r[i]
    ensures multiset(r) == multiset(Split(s, sep))[[] := 0]
  {
    RemoveEmpty(Split(s, sep))
  }

  /** Text without the separator is a single piece. */
  lemma {:induction false} SplitNoSeparator(w: string, sep: char)
    requires sep !in w
    ensures Split(w, sep) == [w]
  {
    if |w| > 0 {
      SplitNoSeparator(w[1..], sep);
      assert [w[0]] + w[1..] == w;
    }
  }

  /** A first piece without the separator is split off whole in front of the pieces of the rest. */
  lemma {:induction false} SplitFirstPiece(w: string, rest: string, sep: char)
    requires sep !in w
    ensures Split(w + [sep] + rest, sep) == [w] + Split(rest, sep)
  {
    var s := w + [sep] + rest;
    if |w| == 0 {
      assert s[1..] == rest;
    } else {
      SplitFirstPiece(w[1..], rest, sep);
      assert s[1..] == w[1..] + [sep] + rest;
      assert [w[0]] + w[1..] == w;
    }
  }

  /** Joining pieces that hold no separator and splitting again gives back the pieces. */
  lemma {:induction false} JoinSplit(parts: seq<string>, sep: char)
    requires |parts| >= 1
    requires forall i :: 0 <= i < |parts| ==> sep !in parts[i]
    ensures Split(Join(parts, sep), sep) == parts
  {
    if |parts| == 1 {
      SplitNoSeparator(parts[0], sep);
    } else {
      JoinSplit(parts[1..], sep);
      SplitFirstPiece(parts[0], Join(parts[1..], sep), sep);
      assert [parts[0]] + parts[1..] == parts;
    }
  }

  /**
   * Joining non-empty pieces that hold no separator and splitting with empty
   * entries removed gives back the pieces, in order and with repeats.
   */
  lemma SplitNonEmptyJoin(parts: seq<string>, sep: char)
    requires |parts| >= 1
    requires forall i :: 0 <= i < |parts| ==> parts[i] != [] && sep !in parts[i]
    ensures SplitNonEmpty(Join(parts, sep), sep) == parts
  {
    JoinSplit(parts, sep);
    RemoveEmptyKeeps(parts);
  }

  // ---------------------------------------------------------------------------
  // Character-level rewriting
  // ---------------------------------------------------------------------------

  /** `s.Replace(c.ToString(), "")`: every occurrence of `c` removed. */
  function RemoveChar(s: string, c: char): (r: string)
    ensures c !in r
    ensures |r| == |s| - Count(s, c)
  {
    if |s| == 0 then [] else (if s[0] == c then [] else [s[0]]) + RemoveChar(s[1..], c)
  }

  /** Removing a character that does not occur changes nothing. */
  lemma {:induction false} RemoveCharAbsent(s: string, c: char)
    requires c !in s
    ensures RemoveChar(s, c) == s
  {
    if |s| > 0 {
      RemoveCharAbsent(s[1..], c);
    }
  }

  /** `RemoveChar` distributes over concatenation. */
  lemma {:induction false} RemoveCharAppend(a: string, b: string, c: char)
    ensures RemoveChar(a + b, c) == RemoveChar(a, c) + RemoveChar(b, c)
  {
    if |a| > 0 {
      assert (a + b)[1..] == a[1..] + b;
      RemoveCharAppend(a[1..], b, c);
    } else {
      assert a + b == b;
    }
  }

  /** Lower-casing of one character; only the ASCII letters are mapped. */
  function LowerChar(c: char): (r: char)
    ensures ('A' <= c <= 'Z') ==> r as int == c as int + 32
    ensures !('A' <= c <= 'Z') ==> r == c
  {
    if 'A' <= c <= 'Z' then (c as int + 32) as char else c
  }

  /** `s.ToLower()` on the ASCII letters. */
  function ToLower(s: string): (r: string)
    ensures |r| == |s|
    ensures forall i :: 0 <= i < |s| ==> r[i] == LowerChar(s[i])
  {
    seq(|s|, i requires 0 <= i < |s| => LowerChar(s[i]))
  }

  /** Lower-casing twice is lower-casing once. */
  lemma ToLowerIdempotent(s: string)
    ensures ToLower(ToLower(s)) == ToLower(s)
  {
  }

  /** `a.Equals(b, StringComparison.InvariantCultureIgnoreCase)` on ASCII letters. */
  predicate EqualsIgnoreCase(a: string, b: string) {
    ToLower(a) == ToLower(b)
  }

  // ---------------------------------------------------------------------------
  // Decimal numbers
  // ---------------------------------------------------------------------------

  const Int32Min: int := -0x8000_0000
  const Int32Max: int := 0x7FFF_FFFF
  const Int64Min: int := -0x8000_0000_0000_0000
  const Int64Max: int := 0x7FFF_FFFF_FFFF_FFFF

  predicate IsDigit(c: char) {
    '0' <= c <= '9'
  }

  predicate AllDigits(s: string) {
    forall i :: 0 <= i < |s| ==> IsDigit(s[i])
  }

  function DigitValue(c: char): (d: nat)
    requires IsDigit(c)
    ensures d < 10
  {
    c as int - '0' as int
  }

  function DigitChar(d: nat): (c: char)
    requires d < 10
    ensures IsDigit(c) && DigitValue(c) == d
  {
    ('0' as int + d) as char
  }

  /** The value of a string of decimal digits, most significant first. */
  function DigitsValue(s: string): nat
    requires AllDigits(s)
  {
    if |s| == 0 then 0 else DigitsValue(s[..|s| - 1]) * 10 + DigitValue(s[|s| - 1])
  }

  /** Drops a final run of `'\0'`, which number parsing accepts after everything else. */
  function DropTrailingNuls(s: string): (r: string)
    ensures |r| <= |s| && r == s[..|r|]
    ensures r == [] || r[|r| - 1] != '\0'
    ensures forall i :: |r| <= i < |s| ==> s[i] == '\0'
  {
    if |s| > 0 && s[|s| - 1] == '\0' then DropTrailingNuls(s[..|s| - 1]) else s
  }

  /** The text the number is read from: trailing `'\0'`s, then surrounding whitespace, removed. */
  function NumberText(s: string): string {
    TrimEnd(TrimStart(DropTrailingNuls(s), NumberStyle), NumberStyle)
  }

  /** An optional `+` or `-`, then at least one decimal digit, with a value within `lo..hi`. */
  function ParseNumberText(t: string, lo: int, hi: int): (r: Option<int>)
    ensures r.Some? ==> lo <= r.value <= hi
    ensures t == [] ==> r.None?
  {
    if |t| == 0 then None
    else
      var negative := t[0] == '-';
      var digits := if t[0] == '-' || t[0] == '+' then t[1..] else t;
      if |digits| == 0 || !AllDigits(digits) then None
      else
        var magnitude: int := DigitsValue(digits);
        var v := if negative then -magnitude else magnitude;
        if lo <= v <= hi then Some(v) else None
  }

  /**
   * `TryParse` with the default integer number style: optional surrounding
   * whitespace, an optional `+` or `-`, then at least one decimal digit, and after
   * the trailing whitespace any number of `'\0'`; the value must lie within
   * `lo..hi` (the target type's range).
   */
  function ParseInteger(s: string, lo: int, hi: int): (r: Option<int>)
    ensures r.Some? ==> lo <= r.value <= hi
    ensures s == [] ==> r.None?
  {
    ParseNumberText(NumberText(s), lo, hi)
  }

  /** `int.TryParse`. */
  function TryParseInt32(s: string): Option<int> {
    ParseInteger(s, Int32Min, Int32Max)
  }

  /** `byte.TryParse`. */
  function TryParseByte(s: string): Option<int> {
    ParseInteger(s, 0, 255)
  }

  /** `long.TryParse`. */
  function TryParseInt64(s: string): Option<int> {
    ParseInteger(s, Int64Min, Int64Max)
  }

  /** Decimal digits of a natural number, without leading zeros. */
  function NatToString(n: nat): (s: string)
    ensures |s| >= 1 && AllDigits(s)
  {
    if n < 10 then [DigitChar(n)] else NatToString(n / 10) + [DigitChar(n % 10)]
  }

  /** `n.ToString()` for an integer: a minus sign for negative numbers, then the digits. */
  function IntToString(n: int): (s: string)
    ensures |s| >= 1
  {
    if n < 0 then "-" + NatToString(-n) else NatToString(n)
  }

  lemma {:induction false} NatToStringValue(n: nat)
    ensures DigitsValue(NatToString(n)) == n
  {
    if n >= 10 {
      var s := NatToString(n);
      NatToStringValue(n / 10);
      assert s[..|s| - 1] == NatToString(n / 10);
    }
  }

  /** Formatting an integer and parsing it back (within the target range) gives the integer. */
  lemma IntToStringParses(n: int, lo: int, hi: int)
    requires lo <= n <= hi
    ensures ParseInteger(IntToString(n), lo, hi) == Some(n)
  {
    var s := IntToString(n);
    var m: nat := if n < 0 then -n else n;
    var d := NatToString(m);
    assert DropTrailingNuls(s) == s by {
      assert s[|s| - 1] == d[|d| - 1] && IsDigit(d[|d| - 1]);
    }
    assert NumberText(s) == s by { IntToStringUntrimmed(n); }
    assert DigitsValue(d) == m by { NatToStringValue(m); }
    if n < 0 {
      assert s[0] == '-' && s[1..] == d;
    } else {
      assert s == d && s[0] != '-' && s[0] != '+';
    }
  }

  /** A `'\0'` after the text never changes what it parses to. */
  lemma ParseIgnoresTrailingNul(s: string, lo: int, hi: int)
    ensures ParseInteger(s + ['\0'], lo, hi) == ParseInteger(s, lo, hi)
  {
    assert NumberText(s + ['\0']) == NumberText(s) by {
      assert (s + ['\0'])[..|s|] == s;
      assert DropTrailingNuls(s + ['\0']) == DropTrailingNuls(s);
    }
  }

  /** A formatted integer has no surrounding whitespace to trim. */
  lemma IntToStringUntrimmed(n: int)
    ensures TrimEnd(TrimStart(IntToString(n), NumberStyle), NumberStyle) == IntToString(n)
  {
    var s := IntToString(n);
    var d := NatToString(if n < 0 then -n else n);
    assert s[|s| - 1] == d[|d| - 1];
    assert IsDigit(d[0]) && IsDigit(d[|d| - 1]);
    assert s[0] == '-' || s[0] == d[0];
    TrimStartKeeps(s, NumberStyle);
    TrimEndKeeps(s, NumberStyle);
  }

  /** Nothing is trimmed from the front of a string that starts with a non-white character. */
  lemma TrimStartKeeps(s: string, kind: WhiteKind)
    requires s != [] && !IsWhite(kind, s[0])
    ensures TrimStart(s, kind) == s
  {
  }

  /** Nothing is trimmed from the end of a string that ends with a non-white character. */
  lemma TrimEndKeeps(s: string, kind: WhiteKind)
    requires s != [] && !IsWhite(kind, s[|s| - 1])
    ensures TrimEnd(s, kind) == s
  {
  }

  // ---------------------------------------------------------------------------
  // Hexadecimal numbers
  // ---------------------------------------------------------------------------

  /** The characters `ToString("X")` produces: digits and upper-case A to F. */
  predicate IsUpperHexDigit(c: char) {
    IsDigit(c) || ('A' <= c <= 'F')
  }

  function HexDigitValue(c: char): (d: nat)
    requires IsUpperHexDigit(c)
    ensures d < 16
  {
    if IsDigit(c) then DigitValue(c) else c as int - 'A' as int + 10
  }

  function HexDigitChar(d: nat): (c: char)
    requires d < 16
    ensures IsUpperHexDigit(c) && HexDigitValue(c) == d
  {
    if d < 10 then DigitChar(d) else ('A' as int + d - 10) as char
  }

  predicate AllUpperHex(s: string) {
    forall i :: 0 <= i < |s| ==> IsUpperHexDigit(s[i])
  }

  /** The value of a string of hexadecimal digits, most significant first. */
  function HexValue(s: string): nat
    requires AllUpperHex(s)
  {
    if |s| == 0 then 0 else HexValue(s[..|s| - 1]) * 16 + HexDigitValue(s[|s| - 1])
  }

  /** `n.ToString("X")`: upper-case hexadecimal digits without leading zeros. */
  function ToHex(n: nat): (s: string)
    ensures |s| >= 1 && AllUpperHex(s)
  {
    if n < 16 then [HexDigitChar(n)] else ToHex(n / 16) + [HexDigitChar(n % 16)]
  }

  /** Reading `ToString("X")` back as hexadecimal gives the number. */
  lemma {:induction false} ToHexValue(n: nat)
    ensures HexValue(ToHex(n)) == n
  {
    if n >= 16 {
      ToHexValue(n / 16);
      var s := ToHex(n);
      assert s[..|s| - 1] == ToHex(n / 16);
    }
  }

  /** A leading zero digit does not change a hexadecimal value. */
  lemma {:induction false} HexLeadingZero(s: string)
    requires AllUpperHex(s)
    ensures AllUpperHex(['0'] + s) && HexValue(['0'] + s) == HexValue(s)
  {
    if |s| > 0 {
      HexLeadingZero(s[..|s| - 1]);
      assert (['0'] + s)[..|s|] == ['0'] + s[..|s| - 1];
    }
  }

  /** `s.PadLeft(width, c)`: `c` repeated in front until `s` is `width` long. */
  function PadLeft(s: string, width: nat, c: char): (r: string)
    ensures |r| == if |s| >= width then |s| else width
    ensures r[|r| - |s|..] == s
    ensures forall i :: 0 <= i < |r| - |s| ==> r[i] == c
  {
    if |s| >= width then s else seq(width - |s|, _ => c) + s
  }
}
