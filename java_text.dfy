/** The java.lang.String, java.lang.Integer and java.lang.Long behaviour the
    certificate tool relies on, over Dafny strings. Each definition follows
    the JDK's documented algorithm; lemmas state the facts the rest of the
    model uses. */
module JavaText {

  datatype Option<+T> = None | Some(value: T)

  // ---------------------------------------------------------------------
  // Fixed-width integers

  const MinInt32: int := -0x8000_0000
  const MaxInt32: int := 0x7fff_ffff
  const MinInt64: int := -0x8000_0000_0000_0000
  const MaxInt64: int := 0x7fff_ffff_ffff_ffff

  /** The values of a Java `int` (a non-null `Integer`). */
  type Int32 = x: int | MinInt32 <= x <= MaxInt32

  /** Java `int` arithmetic: the mathematical value reduced to 32-bit two's complement. */
  function Wrap32(x: int): (r: int)
    ensures MinInt32 <= r <= MaxInt32
    ensures (r - x) % 0x1_0000_0000 == 0
    ensures MinInt32 <= x <= MaxInt32 ==> r == x
  {
    (x - MinInt32) % 0x1_0000_0000 + MinInt32
  }

  // ---------------------------------------------------------------------
  // trim, startsWith, endsWith

  /** `String.trim()` removes every character at or below U+0020 from both ends. */
  predicate IsBlank(c: char) { c <= ' ' }

  function TrimStart(s: string): (r: string)
    ensures |r| <= |s| && r == s[|s| - |r|..]
    ensures forall i :: 0 <= i < |s| - |r| ==> IsBlank(s[i])
    ensures r == [] || !IsBlank(r[0])
  {
    if |s| > 0 && IsBlank(s[0]) then TrimStart(s[1..]) else s
  }

  function TrimEnd(s: string): (r: string)
    ensures |r| <= |s| && r == s[..|r|]
    ensures forall i :: |r| <= i < |s| ==> IsBlank(s[i])
    ensures r == [] || !IsBlank(r[|r| - 1])
  {
    if |s| > 0 && IsBlank(s[|s| - 1]) then TrimEnd(s[..|s| - 1]) else s
  }

  /** `String.trim()`. */
  function Trim(s: string): (r: string)
    ensures |r| <= |s|
    ensures r == [] || (!IsBlank(r[0]) && !IsBlank(r[|r| - 1]))
  {
    TrimEnd(TrimStart(s))
  }

  /** A string with no blank at either end is its own trim, so trimming twice
      is trimming once. */
  lemma TrimIdentity(s: string)
    requires s == [] || (!IsBlank(s[0]) && !IsBlank(s[|s| - 1]))
    ensures Trim(s) == s
  {
  }

  lemma TrimIdempotent(s: string)
    ensures Trim(Trim(s)) == Trim(s)
  {
    TrimIdentity(Trim(s));
  }

  predicate StartsWith(s: string, prefix: string) {
    |prefix| <= |s| && s[..|prefix|] == prefix
  }

  predicate EndsWith(s: string, suffix: string) {
    |suffix| <= |s| && s[|s| - |suffix|..] == suffix
  }

  function LowerChar(c: char): char {
    if 'A' <= c <= 'Z' then ((c as int) + 32) as char else c
  }

  /** `String.toLowerCase()` on ASCII letters; other characters are kept. */
  function ToLowerAscii(s: string): (r: string)
    ensures |r| == |s| && forall i :: 0 <= i < |s| ==> r[i] == LowerChar(s[i])
  {
    if s == [] then [] else [LowerChar(s[0])] + ToLowerAscii(s[1..])
  }

  /** Lower-casing text that has no upper-case ASCII letter changes nothing. */
  lemma ToLowerAsciiIdentity(s: string)
    requires forall i :: 0 <= i < |s| ==> !('A' <= s[i] <= 'Z')
    ensures ToLowerAscii(s) == s
  {
  }

  // ---------------------------------------------------------------------
  // indexOf, contains

  /** `t` occurs in `s` starting at index `j`. */
  predicate OccursAt(s: string, t: string, j: nat) {
    j + |t| <= |s| && s[j..j + |t|] == t
  }

  lemma OccursAtTail(s: string, t: string, k: nat)
    requires |s| > 0
    ensures OccursAt(s[1..], t, k) <==> OccursAt(s, t, k + 1)
  {
    if k + 1 + |t| <= |s| {
      assert s[1..][k..k + |t|] == s[k + 1..k + 1 + |t|];
    }
  }

  /** `String.indexOf(t)`: the first index at which `t` occurs, if any. */
  function IndexOf(s: string, t: string): (r: Option<nat>)
    ensures r.Some? ==> OccursAt(s, t, r.value)
    ensures r.Some? ==> forall j :: 0 <= j < r.value ==> !OccursAt(s, t, j)
    ensures r.None? ==> forall j: nat :: !OccursAt(s, t, j)
    decreases |s|
  {
    if |t| <= |s| && s[..|t|] == t then Some(0)
    else if |s| <= |t| then None
    else
      var rest := IndexOf(s[1..], t);
      forall k: nat ensures OccursAt(s[1..], t, k) <==> OccursAt(s, t, k + 1) {
        OccursAtTail(s, t, k);
      }
      assert forall j: nat :: j > 0 ==> (OccursAt(s, t, j) <==> OccursAt(s[1..], t, j - 1));
      match rest
      case None => None
      case Some(k) => Some(k + 1)
  }

  /** `String.contains(t)`. */
  function Contains(s: string, t: string): (r: bool)
    ensures r <==> exists j: nat :: OccursAt(s, t, j)
  {
    IndexOf(s, t).Some?
  }

  /** No occurrence of a non-empty `t` can start where `t`'s first character is absent. */
  lemma NoOccurrenceWithoutHead(s: string, t: string)
    requires |t| > 0 && t[0] !in s
    ensures !Contains(s, t)
  {
    forall j: nat ensures !OccursAt(s, t, j) {
      if j + |t| <= |s| {
        assert s[j..j + |t|][0] == s[j];
      }
    }
  }

  // ---------------------------------------------------------------------
  // split, join, replace

  /** Cutting `s` at every occurrence of `sep`, scanning left to right
      without overlaps (the loop inside `java.util.regex.Pattern.split`). */
  function RawSplit(s: string, sep: string): (r: seq<string>)
    requires |sep| > 0
    ensures |r| >= 1
    decreases |s|
  {
    match IndexOf(s, sep)
    case None => [s]
    case Some(k) => [s[..k]] + RawSplit(s[k + |sep|..], sep)
  }

  /** `String.join(sep, parts)`. */
  function Join(parts: seq<string>, sep: string): string {
    if |parts| == 0 then ""
    else if |parts| == 1 then parts[0]
    else parts[0] + sep + Join(parts[1..], sep)
  }

  /** Splitting loses nothing: joining the pieces back with the separator
      gives the original text. */
  lemma {:induction false} RawSplitJoin(s: string, sep: string)
    requires |sep| > 0
    ensures Join(RawSplit(s, sep), sep) == s
    decreases |s|
  {
    match IndexOf(s, sep)
    case None =>
    case Some(k) =>
      var rest := s[k + |sep|..];
      var parts := RawSplit(rest, sep);
      RawSplitJoin(rest, sep);
      assert RawSplit(s, sep) == [s[..k]] + parts;
      assert ([s[..k]] + parts)[1..] == parts;
      assert Join([s[..k]] + parts, sep) == s[..k] + sep + Join(parts, sep);
      assert s[k..k + |sep|] == sep;
      assert s == s[..k] + s[k..k + |sep|] + rest;
  }

  /** No piece produced by splitting contains the separator, so the pieces
      are the only ones whose join gives back the text. */
  lemma {:induction false} RawSplitPiecesFree(s: string, sep: string)
    requires |sep| > 0
    ensures forall i :: 0 <= i < |RawSplit(s, sep)| ==> !Contains(RawSplit(s, sep)[i], sep)
    decreases |s|
  {
    match IndexOf(s, sep)
    case None =>
    case Some(k) =>
      var rest := s[k + |sep|..];
      RawSplitPiecesFree(rest, sep);
      forall j: nat ensures !OccursAt(s[..k], sep, j) {
        if j + |sep| <= k {
          assert s[..k][j..j + |sep|] == s[j..j + |sep|];
          assert !OccursAt(s, sep, j);
        }
      }
      assert !Contains(s[..k], sep);
      var parts := RawSplit(rest, sep);
      assert RawSplit(s, sep) == [s[..k]] + parts;
  }

  /** When the separator's first character does not occur in `a`, the first
      piece of `a + sep + b` is exactly `a`. */
  lemma SplitCons(a: string, sep: string, b: string)
    requires |sep| > 0 && sep[0] !in a
    ensures RawSplit(a + sep + b, sep) == [a] + RawSplit(b, sep)
  {
    var s := a + sep + b;
    assert OccursAt(s, sep, |a|) by {
      assert s[|a|..|a| + |sep|] == sep;
    }
    forall j: nat | j < |a| ensures !OccursAt(s, sep, j) {
      if j + |sep| <= |s| {
        assert s[j..j + |sep|][0] == a[j];
      }
    }
    assert IndexOf(s, sep) == Some(|a|);
    assert s[..|a|] == a;
    assert s[|a| + |sep|..] == b;
  }

  /** Text without the separator's first character is a single piece. */
  lemma SplitSingle(a: string, sep: string)
    requires |sep| > 0 && sep[0] !in a
    ensures RawSplit(a, sep) == [a]
  {
    NoOccurrenceWithoutHead(a, sep);
  }

  /** Pieces free of the separator's first character are recovered exactly
      by splitting their join. */
  lemma {:induction false} SplitJoinInverse(parts: seq<string>, sep: string)
    requires |parts| >= 1 && |sep| > 0
    requires forall i :: 0 <= i < |parts| ==> sep[0] !in parts[i]
    ensures RawSplit(Join(parts, sep), sep) == parts
  {
    if |parts| == 1 {
      SplitSingle(parts[0], sep);
    } else {
      SplitJoinInverse(parts[1..], sep);
      SplitCons(parts[0], sep, Join(parts[1..], sep));
      assert parts == [parts[0]] + parts[1..];
    }
  }

  // Joins of a fixed number of pieces, spelled out.

  lemma JoinThree(p: seq<string>, sep: string)
    requires |p| == 3
    ensures Join(p, sep) == p[0] + sep + p[1] + sep + p[2]
  {
    assert Join(p[2..], sep) == p[2];
    assert Join(p[1..], sep) == p[1] + sep + p[2];
  }

  lemma JoinFour(p: seq<string>, sep: string)
    requires |p| == 4
    ensures Join(p, sep) == p[0] + sep + p[1] + sep + p[2] + sep + p[3]
  {
    assert Join(p[3..], sep) == p[3];
    assert Join(p[2..], sep) == p[2] + sep + p[3];
    assert Join(p[1..], sep) == p[1] + sep + (p[2] + sep + p[3]);
  }

  lemma JoinEight(p: seq<string>, sep: string)
    requires |p| == 8
    ensures Join(p, sep) == p[0] + sep + p[1] + sep + p[2] + sep + p[3] + sep + p[4] + sep
                            + p[5] + sep + p[6] + sep + p[7]
  {
    assert Join(p[7..], sep) == p[7];
    assert Join(p[6..], sep) == p[6] + sep + p[7];
    assert Join(p[5..], sep) == p[5] + sep + (p[6] + sep + p[7]);
    assert Join(p[4..], sep) == p[4] + sep + (p[5] + sep + (p[6] + sep + p[7]));
    assert Join(p[3..], sep) == p[3] + sep + (p[4] + sep + (p[5] + sep + (p[6] + sep + p[7])));
    assert Join(p[2..], sep)
        == p[2] + sep + (p[3] + sep + (p[4] + sep + (p[5] + sep + (p[6] + sep + p[7]))));
    assert Join(p[1..], sep)
        == p[1] + sep + (p[2] + sep + (p[3] + sep + (p[4] + sep + (p[5] + sep + (p[6] + sep + p[7])))));
  }

  /** `String.split(regex)` with a separator free of regex metacharacters and
      the default limit 0: no occurrence gives the whole string, otherwise the
      pieces with every trailing empty piece removed. */
  function Split(s: string, sep: string): (r: seq<string>)
    requires |sep| > 0
  {
    if IndexOf(s, sep).None? then [s] else DropTrailingEmpty(RawSplit(s, sep))
  }

  function DropTrailingEmpty(parts: seq<string>): (r: seq<string>)
    ensures |r| <= |parts| && r == parts[..|r|]
    ensures forall i :: |r| <= i < |parts| ==> parts[i] == ""
    ensures r == [] || r[|r| - 1] != ""
  {
    if |parts| > 0 && parts[|parts| - 1] == "" then DropTrailingEmpty(parts[..|parts| - 1])
    else parts
  }

  /** `String.replace(target, replacement)` for a non-empty target: every
      occurrence, found left to right without overlaps, is replaced. */
  function Replace(s: string, target: string, replacement: string): string
    requires |target| > 0
  {
    Join(RawSplit(s, target), replacement)
  }

  /** Text that does not contain the target is left alone by `replace`. */
  lemma ReplaceAbsent(s: string, target: string, replacement: string)
    requires |target| > 0 && !Contains(s, target)
    ensures Replace(s, target, replacement) == s
  {
  }

  /** Removing a target whose first character does not recur inside it from
      `d + target`, where `d` does not contain the target, gives back `d`. */
  lemma {:induction false} ReplaceStripsSuffix(d: string, target: string)
    requires |target| > 0 && target[0] !in target[1..]
    requires !Contains(d, target)
    ensures Replace(d + target, target, "") == d
  {
    var s := d + target;
    assert OccursAt(s, target, |d|) by {
      assert s[|d|..|d| + |target|] == target;
    }
    forall j: nat | j < |d| ensures !OccursAt(s, target, j) {
      if j + |target| > |s| {
      } else if j + |target| <= |d| {
        assert d[j..j + |target|] == s[j..j + |target|];
        assert !OccursAt(d, target, j);
      } else {
        var o := |d| - j;
        assert s[j..j + |target|][o] == s[|d|] == target[0];
        assert target[1..][o - 1] == target[o];
      }
    }
    assert IndexOf(s, target) == Some(|d|);
    assert s[..|d|] == d;
    assert s[|d| + |target|..] == "";
    assert RawSplit(s, target) == [d] + RawSplit("", target);
    assert RawSplit("", target) == [""];
    assert Join([d, ""], "") == d + "" + Join([""], "");
  }

  // ---------------------------------------------------------------------
  // Decimal text: String.valueOf, Integer.parseInt, Long.parseLong

  predicate IsDigit(c: char) { '0' <= c <= '9' }

  predicate AllDigits(s: string) { forall i :: 0 <= i < |s| ==> IsDigit(s[i]) }

  function DigitChar(d: nat): (c: char)
    requires d < 10
    ensures IsDigit(c)
  {
    (('0' as int) + d) as char
  }

  function DigitValue(c: char): (d: nat)
    requires IsDigit(c)
    ensures d < 10 && DigitChar(d) == c
  {
    (c as int) - ('0' as int)
  }

  /** `String.valueOf(n)` for a non-negative number: its shortest decimal numeral. */
  function NatToDecimal(n: nat): (r: string)
    ensures |r| >= 1 && AllDigits(r)
    ensures r[0] == '0' ==> n == 0
  {
    if n < 10 then [DigitChar(n)] else NatToDecimal(n / 10) + [DigitChar(n % 10)]
  }

  /** The value of a string of decimal digits. */
  function DigitsValue(s: string): nat
    requires AllDigits(s)
  {
    if s == [] then 0 else DigitsValue(s[..|s| - 1]) * 10 + DigitValue(s[|s| - 1])
  }

  lemma {:induction false} DecimalRoundTrip(n: nat)
    ensures DigitsValue(NatToDecimal(n)) == n
  {
    if n >= 10 {
      var r := NatToDecimal(n);
      assert r[..|r| - 1] == NatToDecimal(n / 10);
      DecimalRoundTrip(n / 10);
    }
  }

  /** `Long.parseLong` / `Integer.parseInt` in radix 10 between the given
      bounds: an optional leading '-' or '+' that is not the whole string,
      then at least one digit, and a value in range; anything else is a
      NumberFormatException, here `None`. */
  function ParseSigned(s: string, lo: int, hi: int): (r: Option<int>)
    ensures r.Some? ==> lo <= r.value <= hi
    ensures r.Some? ==> |s| > 0
  {
    if |s| == 0 then None
    else
      var signed := s[0] == '-' || s[0] == '+';
      var digits := if signed then s[1..] else s;
      if |digits| == 0 || !AllDigits(digits) then None
      else
        var v := if s[0] == '-' then 0 - DigitsValue(digits) else DigitsValue(digits);
        if lo <= v <= hi then Some(v) else None
  }

  function ParseInt(s: string): (r: Option<int>)
    ensures r.Some? ==> MinInt32 <= r.value <= MaxInt32
  {
    ParseSigned(s, MinInt32, MaxInt32)
  }

  function ParseLong(s: string): (r: Option<int>)
    ensures r.Some? ==> MinInt64 <= r.value <= MaxInt64
  {
    ParseSigned(s, MinInt64, MaxInt64)
  }

  /** Every in-range number printed by `String.valueOf` parses back to itself. */
  lemma ParseSignedOfDecimal(n: nat, lo: int, hi: int)
    requires lo <= n <= hi
    ensures ParseSigned(NatToDecimal(n), lo, hi) == Some(n)
    ensures ParseSigned("-" + NatToDecimal(n), lo, hi) == (if lo <= 0 - n then Some(0 - n) else None)
  {
    DecimalRoundTrip(n);
    var d := NatToDecimal(n);
    assert IsDigit(d[0]);
    assert ("-" + d)[1..] == d;
  }

  /** `String.valueOf(n)` for any integer: a '-' before the digits of a
      negative one. */
  function IntToDecimal(n: int): (r: string)
    ensures |r| >= 1
    ensures n < 0 <==> r[0] == '-'
  {
    if n < 0 then "-" + NatToDecimal(0 - n) else NatToDecimal(n)
  }

  /** Every in-range integer, negative ones included, parses back from its
      decimal text. */
  lemma ParseSignedOfIntDecimal(n: int, lo: int, hi: int)
    requires lo <= n <= hi
    ensures ParseSigned(IntToDecimal(n), lo, hi) == Some(n)
  {
    if n >= 0 {
      ParseSignedOfDecimal(n, lo, hi);
    } else {
      DecimalRoundTrip(0 - n);
      var d := NatToDecimal(0 - n);
      assert ("-" + d)[1..] == d;
    }
  }

  // ---------------------------------------------------------------------
  // UTF-8: String.getBytes(StandardCharsets.UTF_8)

  /** Java's signed `byte`. */
  type JByte = b: int | -128 <= b < 128

  /** The Java byte whose unsigned reading (`0xff & b`) is `u`. */
  function ToJByte(u: nat): (b: JByte)
    requires u < 256
    ensures (b + 256) % 256 == u
  {
    if u < 128 then u else u - 256
  }

  /** The UTF-8 encoding of one Unicode scalar value. */
  function Utf8Char(c: char): (r: seq<JByte>)
    ensures 1 <= |r| <= 4
    ensures (c as int) < 0x80 <==> |r| == 1
    ensures (c as int) < 0x80 ==> r == [c as int]
  {
    var cp := c as int;
    if cp < 0x80 then [cp]
    else if cp < 0x800 then [ToJByte(0xC0 + cp / 0x40), ToJByte(0x80 + cp % 0x40)]
    else if cp < 0x1_0000 then
      [ToJByte(0xE0 + cp / 0x1000), ToJByte(0x80 + (cp / 0x40) % 0x40), ToJByte(0x80 + cp % 0x40)]
    else
      [ToJByte(0xF0 + cp / 0x4_0000), ToJByte(0x80 + (cp / 0x1000) % 0x40),
       ToJByte(0x80 + (cp / 0x40) % 0x40), ToJByte(0x80 + cp % 0x40)]
  }

  function Utf8(s: string): (r: seq<JByte>)
    ensures |s| <= |r| <= 4 * |s|
  {
    if s == [] then [] else Utf8(s[..|s| - 1]) + Utf8Char(s[|s| - 1])
  }

  /** Encoding a concatenation is concatenating the encodings, so the bytes of
      `"TC3" + secretKey` are the bytes of "TC3" followed by those of the key. */
  lemma {:induction false} Utf8Append(a: string, b: string)
    ensures Utf8(a + b) == Utf8(a) + Utf8(b)
    decreases |b|
  {
    if b != [] {
      var b' := b[..|b| - 1];
      assert (a + b)[..|a + b| - 1] == a + b';
      Utf8Append(a, b');
    } else {
      assert a + b == a;
    }
  }

  /** ASCII text encodes to one byte per character, each the character's code. */
  lemma {:induction false} Utf8Ascii(s: string)
    requires forall i :: 0 <= i < |s| ==> (s[i] as int) < 0x80
    ensures |Utf8(s)| == |s|
    ensures forall i :: 0 <= i < |s| ==> Utf8(s)[i] == s[i] as int
  {
    if s != [] {
      Utf8Ascii(s[..|s| - 1]);
    }
  }
}
