/** `CommonUtils`: the null-or-empty test and the random identifier alphabet. */
module CommonUtils {
  import opened JavaText

  /** `notNullOrEmpty`: false exactly for a null reference and the empty string. */
  function NotNullOrEmpty(s: Option<string>): (r: bool)
    ensures !r <==> s == None || s == Some("")
  {
    match s
    case None => false
    case Some(v) => !(|v| == 0)
  }

  /** A string of blanks is not empty: the test does not trim. */
  lemma BlankIsNotEmpty(n: nat)
    requires n > 0
    ensures NotNullOrEmpty(Some(seq(n, _ => ' ')))
  {
  }

  /** One value of `(int) (Math.random() * 62)`: `Math.random()` lies in
      [0, 1), so the product truncates to 0..61. */
  type Draw = d: int | 0 <= d < 62

  predicate IsAsciiAlphanumeric(c: char) {
    ('0' <= c <= '9') || ('A' <= c <= 'Z') || ('a' <= c <= 'z')
  }

  /** The character `randomString` appends for one draw: 0-9 give the digits,
      10-35 the upper-case letters and 36-61 the lower-case letters, each
      range in alphabetical order. */
  function DrawChar(d: Draw): (c: char)
    ensures d < 10 ==> '0' <= c <= '9' && (c as int) - ('0' as int) == d
    ensures 10 <= d < 36 ==> 'A' <= c <= 'Z' && (c as int) - ('A' as int) == d - 10
    ensures 36 <= d ==> 'a' <= c <= 'z' && (c as int) - ('a' as int) == d - 36
  {
    if d < 10 then (('0' as int) + d) as char
    else if d < 36 then (('A' as int) + d - 10) as char
    else (('a' as int) + d - 36) as char
  }

  /** The draw that produces a given letter or digit. */
  function DrawOf(c: char): (d: Draw)
    requires IsAsciiAlphanumeric(c)
  {
    if c <= '9' then (c as int) - ('0' as int)
    else if c <= 'Z' then (c as int) - ('A' as int) + 10
    else (c as int) - ('a' as int) + 36
  }

  /** The mapping is a bijection between the 62 draws and the 62 ASCII
      letters and digits: every character it produces is one of them, and
      each of them is produced by exactly one draw. */
  lemma DrawCharBijection(d: Draw, c: char)
    requires IsAsciiAlphanumeric(c)
    ensures IsAsciiAlphanumeric(DrawChar(d))
    ensures DrawChar(DrawOf(c)) == c
    ensures DrawOf(DrawChar(d)) == d
  {
  }

  /** The `n` characters drawn from the stream `random` starting at draw `from`. */
  function DrawnString(random: nat -> Draw, from: nat, n: nat): (r: string)
    ensures |r| == n
  {
    seq(n, i requires 0 <= i < n => DrawChar(random(from + i)))
  }

  /** An identifier made by `randomString(n)`: `n` ASCII letters or digits. */
  predicate IsRandomId(s: string, n: nat) {
    |s| == n && forall i :: 0 <= i < |s| ==> IsAsciiAlphanumeric(s[i])
  }

  lemma DrawnStringIsRandomId(random: nat -> Draw, from: nat, n: nat)
    ensures IsRandomId(DrawnString(random, from, n), n)
  {
    forall i | 0 <= i < n ensures IsAsciiAlphanumeric(DrawnString(random, from, n)[i]) {
      DrawCharBijection(random(from + i), '0');
    }
  }

  /** `randomString(length)`, with the values of `Math.random()` supplied as
      the stream `random`, consumed from position `from`. A negative length
      gives the empty string. */
  method RandomString(length: int, random: nat -> Draw, from: nat) returns (s: string)
    ensures |s| == (if length < 0 then 0 else length)
    ensures s == DrawnString(random, from, |s|)
  {
    var sb := "";
    var i := 0;
    while i < length
      invariant 0 <= i <= (if length < 0 then 0 else length)
      invariant sb == DrawnString(random, from, i)
    {
      var randomChar := random(from + i);
      if randomChar < 10 {
        sb := sb + [(('0' as int) + randomChar) as char];
      } else if randomChar < 36 {
        sb := sb + [(('A' as int) + randomChar - 10) as char];
      } else {
        sb := sb + [(('a' as int) + randomChar - 36) as char];
      }
      assert sb == DrawnString(random, from, i) + [DrawChar(randomChar)];
      i := i + 1;
    }
    s := sb;
  }
}
