/** The JavaScript built-ins the parking engine relies on, modelled on
    values: Array.prototype.find and map, Number.prototype.toString for
    non-negative integers, String.prototype.padStart, toUpperCase and
    trim, and the truncating remainder operator `%`. */
module JsLib {

  datatype Option<T> = None | Some(value: T)

  // ---------------------------------------------------------------- arrays

  /** Array.prototype.find, reporting the index of the first element that
      satisfies `p` rather than the element itself. */
  function FindFirst<T>(s: seq<T>, p: T -> bool): (r: Option<nat>)
    ensures r.None? <==> forall i :: 0 <= i < |s| ==> !p(s[i])
    ensures r.Some? ==> r.value < |s| && p(s[r.value])
    ensures r.Some? ==> forall i :: 0 <= i < r.value ==> !p(s[i])
  {
    if s == [] then None
    else if p(s[0]) then Some(0)
    else match FindFirst(s[1..], p)
      case None => None
      case Some(k) => Some(k + 1)
  }

  /** Array.prototype.map. */
  function MapSeq<T, U>(s: seq<T>, f: T -> U): (r: seq<U>)
    ensures |r| == |s|
    ensures forall i :: 0 <= i < |s| ==> r[i] == f(s[i])
  {
    seq(|s|, i requires 0 <= i < |s| => f(s[i]))
  }

  // --------------------------------------------------------------- numbers

  /** The `%` operator of JavaScript: the remainder takes the sign of the
      dividend (Dafny's own `%` never returns a negative value). */
  function JsRem(a: int, d: int): (r: int)
    requires d > 0
    ensures a >= 0 ==> 0 <= r < d && r == a % d
    ensures a < 0 ==> -d < r <= 0
  {
    if a >= 0 then a % d else -((-a) % d)
  }

  predicate IsDigit(c: char) { '0' <= c <= '9' }

  function DigitChar(d: nat): (c: char)
    requires d < 10
    ensures IsDigit(c)
  {
    (48 + d) as char
  }

  /** Number.prototype.toString() of a non-negative integer: decimal
      digits without leading zeros. */
  function Dec(n: nat): (s: string)
    ensures |s| >= 1
    decreases n
  {
    if n < 10 then [DigitChar(n)] else Dec(n / 10) + [DigitChar(n % 10)]
  }

  /** Only zero prints with a leading zero, and exactly the numbers below
      ten print as one digit. */
  lemma {:induction false} DecShape(n: nat)
    ensures (Dec(n)[0] == '0') == (n == 0)
    ensures n < 10 <==> |Dec(n)| == 1
    decreases n
  {
    if n >= 10 {
      DecShape(n / 10);
      assert Dec(n)[0] == Dec(n / 10)[0];
    }
  }

  /** Reads a string of decimal digits back as a number; the inverse of Dec. */
  function ParseDec(s: string): int
  {
    if s == [] then 0
    else 10 * ParseDec(s[..|s| - 1]) + (s[|s| - 1] as int - 48)
  }

  lemma {:induction false} ParseDecOfDec(n: nat)
    ensures ParseDec(Dec(n)) == n
    decreases n
  {
    if n >= 10 {
      ParseDecOfDec(n / 10);
      var s := Dec(n);
      assert s[..|s| - 1] == Dec(n / 10);
    }
  }

  /** Different numbers print differently. */
  lemma DecInjective(a: nat, b: nat)
    ensures Dec(a) == Dec(b) ==> a == b
  {
    ParseDecOfDec(a);
    ParseDecOfDec(b);
  }

  // --------------------------------------------------------------- strings

  /** String.prototype.padStart(width, fill) with a one-character fill. */
  function PadStart(s: string, width: nat, fill: char): (r: string)
    ensures |r| == if |s| >= width then |s| else width
  {
    if |s| >= width then s else seq(width - |s|, _ => fill) + s
  }

  /** Upper-casing of one character; only the ASCII letters are mapped. */
  function UpperChar(c: char): char
  {
    if 'a' <= c <= 'z' then (c as int - 32) as char else c
  }

  /** Upper-casing keeps a character's whitespace status and is idempotent. */
  lemma UpperCharFacts(c: char)
    ensures IsWhitespace(UpperChar(c)) == IsWhitespace(c)
    ensures UpperChar(UpperChar(c)) == UpperChar(c)
  {
  }

  /** String.prototype.toUpperCase, on the ASCII letters. */
  function ToUpper(s: string): (r: string)
    ensures |r| == |s|
  {
    seq(|s|, i requires 0 <= i < |s| => UpperChar(s[i]))
  }

  /** The characters String.prototype.trim removes: the ECMAScript
      WhiteSpace and LineTerminator code points. */
  predicate IsWhitespace(c: char)
  {
    var x := c as int;
    x == 0x09 || x == 0x0A || x == 0x0B || x == 0x0C || x == 0x0D || x == 0x20
    || x == 0xA0 || x == 0x1680 || (0x2000 <= x <= 0x200A)
    || x == 0x2028 || x == 0x2029 || x == 0x202F || x == 0x205F
    || x == 0x3000 || x == 0xFEFF
  }

  /** The first index from `i` on that does not hold whitespace. */
  function SkipForward(s: string, i: nat): (j: nat)
    requires i <= |s|
    ensures i <= j <= |s|
    decreases |s| - i
  {
    if i < |s| && IsWhitespace(s[i]) then SkipForward(s, i + 1) else i
  }

  /** The smallest index from which `s[..j]` holds only whitespace. */
  function SkipBackward(s: string, j: nat): (i: nat)
    requires j <= |s|
    ensures i <= j
    decreases j
  {
    if j > 0 && IsWhitespace(s[j - 1]) then SkipBackward(s, j - 1) else j
  }

  /** The forward scan passes over whitespace only and stops at the end
      or at a character that is not whitespace. */
  lemma {:induction false} SkipForwardShape(s: string, i: nat)
    requires i <= |s|
    ensures forall k :: i <= k < SkipForward(s, i) ==> IsWhitespace(s[k])
    ensures SkipForward(s, i) < |s| ==> !IsWhitespace(s[SkipForward(s, i)])
    decreases |s| - i
  {
    if i < |s| && IsWhitespace(s[i]) {
      SkipForwardShape(s, i + 1);
    }
  }

  /** The backward scan passes over whitespace only and stops at the start
      or after a character that is not whitespace. */
  lemma {:induction false} SkipBackwardShape(s: string, j: nat)
    requires j <= |s|
    ensures forall k :: SkipBackward(s, j) <= k < j ==> IsWhitespace(s[k])
    ensures SkipBackward(s, j) > 0 ==> !IsWhitespace(s[SkipBackward(s, j) - 1])
    decreases j
  {
    if j > 0 && IsWhitespace(s[j - 1]) {
      SkipBackwardShape(s, j - 1);
    }
  }

  /** String.prototype.trim: the characters between the first and the
      last one that are not whitespace, or nothing if there is none. */
  function Trim(s: string): (r: string)
    ensures |r| <= |s|
  {
    var a, b := SkipForward(s, 0), SkipBackward(s, |s|);
    if a < b then s[a..b] else []
  }

  /** The trimmed string is an infix of `s`, and everything cut off on
      either side is whitespace. */
  lemma TrimInfix(s: string)
    ensures var r, k := Trim(s), SkipForward(s, 0);
      && k + |r| <= |s| && r == s[k..k + |r|]
      && (forall i :: 0 <= i < k ==> IsWhitespace(s[i]))
      && (forall i :: k + |r| <= i < |s| ==> IsWhitespace(s[i]))
  {
    SkipForwardShape(s, 0);
    SkipBackwardShape(s, |s|);
  }

  /** The trimmed string neither starts nor ends with whitespace, and it
      is empty exactly when `s` is all whitespace. */
  lemma TrimShape(s: string)
    ensures var r := Trim(s);
      && (r != [] ==> !IsWhitespace(r[0]) && !IsWhitespace(r[|r| - 1]))
      && (r == [] <==> forall i :: 0 <= i < |s| ==> IsWhitespace(s[i]))
  {
    SkipForwardShape(s, 0);
    SkipBackwardShape(s, |s|);
  }

  /** Trimming a trimmed string changes nothing. */
  lemma TrimIdempotent(s: string)
    ensures Trim(Trim(s)) == Trim(s)
  {
    TrimShape(s);
    var r := Trim(s);
    if r != [] {
      assert SkipForward(r, 0) == 0;
      assert SkipBackward(r, |r|) == |r|;
    }
  }
}
