/** Shared vocabulary: optional values, results, and the character classes
    that the TypeScript services, the Node script and the Python scripts use. */
module Common {

  datatype Option<+T> = None | Some(value: T)

  datatype Result<+T, +E> = Success(value: T) | Failure(error: E)

  /** ASCII digit, as in the character class [0-9]. */
  predicate IsDigit(c: char) {
    '0' <= c <= '9'
  }

  /** ASCII letter or digit, as in the character class [a-zA-Z0-9]. */
  predicate IsAlnum(c: char) {
    ('a' <= c <= 'z') || ('A' <= c <= 'Z') || IsDigit(c)
  }

  predicate IsUpper(c: char) {
    'A' <= c <= 'Z'
  }

  /** A non-empty run of ASCII digits: the pattern ^[0-9]+$. */
  predicate AllDigits(s: string) {
    |s| > 0 && forall i :: 0 <= i < |s| ==> IsDigit(s[i])
  }

  predicate StartsWith(s: string, prefix: string) {
    |prefix| <= |s| && s[..|prefix|] == prefix
  }

  lemma JoinAssoc<T>(x: seq<T>, y: seq<T>, z: seq<T>)
    ensures x + y + z == x + (y + z)
  {
  }

  lemma StartsWithJoin(x: string, y: string)
    ensures StartsWith(x + y, x)
  {
    assert (x + y)[..|x|] == x;
  }

  /** Splitting off the head of a non-empty sequence in front of `y`. */
  lemma JoinHead<T>(x: seq<T>, y: seq<T>)
    requires x != []
    ensures x + y == [x[0]] + (x[1..] + y)
  {
    assert x == [x[0]] + x[1..];
  }

  /** The pieces of `xs` joined end to end. */
  function Concat<T>(xs: seq<seq<T>>): seq<T> {
    if xs == [] then [] else xs[0] + Concat(xs[1..])
  }

  lemma ConcatCons<T>(x: seq<T>, xs: seq<seq<T>>)
    ensures Concat([x] + xs) == x + Concat(xs)
  {
    assert ([x] + xs)[1..] == xs;
  }

  /** Whitespace as Python's str.isspace sees it (str.strip removes these). */
  predicate IsPySpace(c: char) {
    c == ' ' || ('\t' <= c <= '\r') || ('\U{1C}' <= c <= '\U{1F}')
    || c == '\U{85}' || c == '\U{A0}' || c == '\U{1680}'
    || ('\U{2000}' <= c <= '\U{200A}') || c == '\U{2028}' || c == '\U{2029}'
    || c == '\U{202F}' || c == '\U{205F}' || c == '\U{3000}'
  }

  function DropLeadingSpace(s: string): string {
    if s != [] && IsPySpace(s[0]) then DropLeadingSpace(s[1..]) else s
  }

  function DropTrailingSpace(s: string): string {
    if s != [] && IsPySpace(s[|s| - 1]) then DropTrailingSpace(s[..|s| - 1]) else s
  }

  /** Python's str.strip() with no argument. */
  function PyStrip(s: string): string {
    DropTrailingSpace(DropLeadingSpace(s))
  }

  lemma {:induction false} DropLeadingSpaceIsSuffix(s: string) returns (k: nat)
    ensures k <= |s| && DropLeadingSpace(s) == s[k..]
    ensures forall i :: 0 <= i < k ==> IsPySpace(s[i])
    ensures k < |s| ==> !IsPySpace(s[k])
  {
    if s != [] && IsPySpace(s[0]) {
      var k' := DropLeadingSpaceIsSuffix(s[1..]);
      k := k' + 1;
      assert s[1..][k'..] == s[k..];
      forall i | 0 <= i < k ensures IsPySpace(s[i]) {
        if i > 0 {
          assert s[i] == s[1..][i - 1];
        }
      }
    } else {
      k := 0;
    }
  }

  lemma {:induction false} DropTrailingSpaceIsPrefix(s: string) returns (n: nat)
    ensures n <= |s| && DropTrailingSpace(s) == s[..n]
    ensures forall i :: n <= i < |s| ==> IsPySpace(s[i])
    ensures n > 0 ==> !IsPySpace(s[n - 1])
  {
    if s != [] && IsPySpace(s[|s| - 1]) {
      n := DropTrailingSpaceIsPrefix(s[..|s| - 1]);
      assert s[..|s| - 1][..n] == s[..n];
      forall i | n <= i < |s| ensures IsPySpace(s[i]) {
        if i < |s| - 1 {
          assert s[i] == s[..|s| - 1][i];
        }
      }
    } else {
      n := |s|;
    }
  }

  /** strip() removes exactly the leading and trailing whitespace: the result
      is a contiguous part of the input, everything removed is whitespace, and
      the result neither starts nor ends with whitespace. */
  lemma PyStripTrims(s: string) returns (k: nat, n: nat)
    ensures k <= n <= |s| && PyStrip(s) == s[k..n]
    ensures forall i :: (0 <= i < k || n <= i < |s|) ==> IsPySpace(s[i])
    ensures PyStrip(s) == [] || (!IsPySpace(PyStrip(s)[0]) && !IsPySpace(PyStrip(s)[|PyStrip(s)| - 1]))
  {
    k := DropLeadingSpaceIsSuffix(s);
    var t := s[k..];
    var m := DropTrailingSpaceIsPrefix(t);
    n := k + m;
    assert t[..m] == s[k..n];
    forall i | n <= i < |s| ensures IsPySpace(s[i]) {
      assert s[i] == t[i - k];
    }
    if m > 0 {
      assert PyStrip(s)[0] == s[k];
    }
  }

  /** Decimal rendering of a natural number, as a template literal prints it. */
  function NatToDecimal(n: nat): (r: string)
    ensures |r| > 0 && AllDigits(r)
    ensures |r| > 1 ==> r[0] != '0'
  {
    if n < 10 then [DigitChar(n)] else NatToDecimal(n / 10) + [DigitChar(n % 10)]
  }

  function DigitChar(d: nat): (c: char)
    requires d < 10
    ensures IsDigit(c)
  {
    (d + '0' as int) as char
  }

  /** The number a string of decimal digits denotes. */
  function DecimalValue(s: string): nat
    requires forall i :: 0 <= i < |s| ==> IsDigit(s[i])
  {
    if s == [] then 0
    else
      assert IsDigit(s[|s| - 1]);
      10 * DecimalValue(s[..|s| - 1]) + (s[|s| - 1] as int - '0' as int)
  }

  /** Reading back the rendering gives the number: the rendering loses nothing. */
  lemma {:induction false} NatToDecimalRoundTrip(n: nat)
    ensures DecimalValue(NatToDecimal(n)) == n
  {
    if n >= 10 {
      NatToDecimalRoundTrip(n / 10);
      var s := NatToDecimal(n);
      assert s[..|s| - 1] == NatToDecimal(n / 10);
    }
  }

  /** Signed decimal rendering (a leading '-' for negative numbers). */
  function IntToDecimal(n: int): string {
    if n >= 0 then NatToDecimal(n) else "-" + NatToDecimal(-n)
  }
}
