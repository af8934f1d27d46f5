/**
 The printed form of a betting history: one token per action code, streets joined by slashes.
 Printing loses nothing: the text determines the codes.
 */
module HistoryText {

  const INT_MIN: int := -0x8000_0000

  const FOLD_CODE := 1
  const CHECK_CODE := 2
  const CALL_CODE := 3
  const ALL_IN_CODE := 4

  /** Codes the encoding validation lets through. */
  predicate ValidCode(code: int) {
    code != 0 && code > INT_MIN
  }

  predicate ValidCodes(codes: seq<int>) {
    forall i :: 0 <= i < |codes| ==> ValidCode(codes[i])
  }

  // ---------------------------------------------------------------- decimal numbers

  predicate IsDigit(c: char) {
    '0' <= c <= '9'
  }

  function DigitOf(d: nat): (c: char)
    requires d < 10
    ensures IsDigit(c) && (c as int) == ('0' as int) + d
  {
    (('0' as int) + d) as char
  }

  /** std::to_string of a non-negative number. */
  function Decimal(n: nat): (s: string)
    ensures s != [] && forall i :: 0 <= i < |s| ==> IsDigit(s[i])
  {
    if n < 10 then [DigitOf(n)] else Decimal(n / 10) + [DigitOf(n % 10)]
  }

  function ValueOf(c: char): nat
    requires IsDigit(c)
  {
    (c as int) - ('0' as int)
  }

  /** The number a string of digits stands for. */
  function NumberOf(s: string): nat
    requires forall i :: 0 <= i < |s| ==> IsDigit(s[i])
  {
    if s == [] then 0 else 10 * NumberOf(s[..|s| - 1]) + ValueOf(s[|s| - 1])
  }

  /** A printed number stands for itself, without leading zeros. */
  lemma {:induction false} DecimalReads(n: nat)
    ensures NumberOf(Decimal(n)) == n && (n > 0 ==> Decimal(n)[0] != '0')
  {
    if n >= 10 {
      DecimalReads(n / 10);
      assert Decimal(n)[..|Decimal(n)| - 1] == Decimal(n / 10);
    } else {
      assert Decimal(n)[..0] == [];
    }
  }

  lemma {:induction false} DecimalInjective(m: nat, n: nat)
    requires Decimal(m) == Decimal(n)
    ensures m == n
  {
    var a, b := Decimal(m), Decimal(n);
    assert m < 10 <==> |a| == 1;
    assert n < 10 <==> |b| == 1;
    assert a[|a| - 1] == b[|b| - 1];
    if m >= 10 {
      assert a[..|a| - 1] == Decimal(m / 10);
      assert b[..|b| - 1] == Decimal(n / 10);
      DecimalInjective(m / 10, n / 10);
    }
  }

  predicate StartsWithoutDigit(s: string) {
    s == [] || !IsDigit(s[0])
  }

  function LeadingDigits(s: string): (n: nat) {
    if s == [] || !IsDigit(s[0]) then 0 else 1 + LeadingDigits(s[1..])
  }

  lemma {:induction false} LeadingDigitsOf(a: string, r: string)
    requires forall i :: 0 <= i < |a| ==> IsDigit(a[i])
    requires StartsWithoutDigit(r)
    ensures LeadingDigits(a + r) == |a|
  {
    if a == [] {
      assert a + r == r;
    } else {
      assert (a + r)[1..] == a[1..] + r;
      LeadingDigitsOf(a[1..], r);
    }
  }

  /** A number ends where the digits end, so what follows can be told apart from it. */
  lemma NumberSplits(m: nat, n: nat, r: string, t: string)
    requires Decimal(m) + r == Decimal(n) + t
    requires StartsWithoutDigit(r) && StartsWithoutDigit(t)
    ensures m == n && r == t
  {
    var a, b := Decimal(m), Decimal(n);
    LeadingDigitsOf(a, r);
    LeadingDigitsOf(b, t);
    assert a == (a + r)[..|a|] && b == (b + t)[..|b|];
    assert r == (a + r)[|a|..] && t == (b + t)[|b|..];
    DecimalInjective(m, n);
  }

  // ---------------------------------------------------------------- tokens

  /** token_from_history_code. */
  function Token(code: int): (s: string)
    requires ValidCode(code)
    ensures s != [] && !IsDigit(s[0])
  {
    if code == FOLD_CODE then "f"
    else if code == CHECK_CODE then "x"
    else if code == CALL_CODE then "c"
    else if code == ALL_IN_CODE then "A"
    else if code < 0 then ['b'] + Decimal(-code)
    else ['r'] + Decimal(code - ALL_IN_CODE)
  }

  lemma PrependSplits(p: string, q: string, r: string, t: string)
    requires p != [] && q != [] && p + r == q + t
    ensures p[0] == q[0] && p[1..] + r == q[1..] + t
  {
    assert p[0] == (p + r)[0] && q[0] == (q + t)[0];
    assert (p + r)[1..] == p[1..] + r && (q + t)[1..] == q[1..] + t;
  }

  lemma TokenSplits(a: int, b: int, r: string, t: string)
    requires ValidCode(a) && ValidCode(b)
    requires Token(a) + r == Token(b) + t
    requires StartsWithoutDigit(r) && StartsWithoutDigit(t)
    ensures a == b && r == t
  {
    hide Decimal;
    PrependSplits(Token(a), Token(b), r, t);
    if a < 0 {
      assert Token(a)[1..] == Decimal(-a) && Token(b)[1..] == Decimal(-b);
      NumberSplits(-a, -b, r, t);
    } else if a > ALL_IN_CODE {
      assert Token(a)[1..] == Decimal(a - ALL_IN_CODE) && Token(b)[1..] == Decimal(b - ALL_IN_CODE);
      NumberSplits(a - ALL_IN_CODE, b - ALL_IN_CODE, r, t);
    } else {
      assert Token(a) == Token(b) && |Token(a)| == 1;
      assert Token(a)[1..] + r == r && Token(b)[1..] + t == t;
    }
  }

  /** One street: its tokens without separators. */
  function Joined(codes: seq<int>): (s: string)
    requires ValidCodes(codes)
    ensures StartsWithoutDigit(s) && (s == [] <==> codes == [])
  {
    if codes == [] then [] else Token(codes[0]) + Joined(codes[1..])
  }

  /** The tokens of a street can be read back from their concatenation. */
  lemma {:induction false} JoinedInjective(a: seq<int>, b: seq<int>)
    requires ValidCodes(a) && ValidCodes(b) && Joined(a) == Joined(b)
    ensures a == b
  {
    if a != [] && b != [] {
      TokenSplits(a[0], b[0], Joined(a[1..]), Joined(b[1..]));
      JoinedInjective(a[1..], b[1..]);
      assert a == [a[0]] + a[1..] && b == [b[0]] + b[1..];
    }
  }

  // ---------------------------------------------------------------- splitting at a separator

  predicate Without(s: string, c: char) {
    forall i :: 0 <= i < |s| ==> s[i] != c
  }

  /** The position of the first separator, the length when there is none. */
  function Before(s: string, c: char): (n: nat)
    ensures n <= |s|
  {
    if s == [] || s[0] == c then 0 else 1 + Before(s[1..], c)
  }

  lemma {:induction false} BeforeSeparator(a: string, r: string, c: char)
    requires Without(a, c) && (r == [] || r[0] == c)
    ensures Before(a + r, c) == |a|
  {
    if a == [] {
      assert a + r == r;
    } else {
      assert (a + r)[1..] == a[1..] + r;
      BeforeSeparator(a[1..], r, c);
    }
  }

  /** Text up to the first separator is determined by the whole text. */
  lemma SeparatorSplits(a: string, b: string, r: string, t: string, c: char)
    requires Without(a, c) && Without(b, c) && a + ([c] + r) == b + ([c] + t)
    ensures a == b && r == t
  {
    BeforeSeparator(a, [c] + r, c);
    BeforeSeparator(b, [c] + t, c);
    var x, y := a + ([c] + r), b + ([c] + t);
    assert a == x[..|a|] && b == y[..|b|];
    assert r == x[|a| + 1..] && t == y[|b| + 1..];
  }

  lemma TokenWithout(code: int, c: char)
    requires ValidCode(code) && (c == '/' || c == '|')
    ensures Without(Token(code), c)
  {
  }

  lemma {:induction false} JoinedWithout(codes: seq<int>, c: char)
    requires ValidCodes(codes) && (c == '/' || c == '|')
    ensures Without(Joined(codes), c)
  {
    if codes != [] {
      TokenWithout(codes[0], c);
      JoinedWithout(codes[1..], c);
    }
  }

  // ---------------------------------------------------------------- streets

  predicate ValidSegments(segments: seq<seq<int>>) {
    forall i :: 0 <= i < |segments| ==> ValidCodes(segments[i]) && segments[i] != []
  }

  /** The streets with actions, joined by slashes. */
  function Printed(segments: seq<seq<int>>): (s: string)
    requires ValidSegments(segments)
    ensures s == [] <==> segments == []
  {
    if segments == [] then []
    else if |segments| == 1 then Joined(segments[0])
    else Joined(segments[0]) + (['/'] + Printed(segments[1..]))
  }

  lemma {:induction false} PrintedHasNoBar(segments: seq<seq<int>>)
    requires ValidSegments(segments)
    ensures Without(Printed(segments), '|')
  {
    if segments != [] {
      JoinedWithout(segments[0], '|');
      if |segments| > 1 {
        PrintedHasNoBar(segments[1..]);
      }
    }
  }

  lemma PrintedSeparator(a: seq<seq<int>>)
    requires ValidSegments(a) && a != []
    ensures Before(Printed(a), '/') == |Joined(a[0])|
    ensures Before(Printed(a), '/') < |Printed(a)| <==> |a| > 1
  {
    JoinedWithout(a[0], '/');
    if |a| == 1 {
      BeforeSeparator(Joined(a[0]), [], '/');
      assert Joined(a[0]) + [] == Joined(a[0]);
    } else {
      BeforeSeparator(Joined(a[0]), ['/'] + Printed(a[1..]), '/');
    }
  }

  /** A printed history determines its streets and their codes. */
  lemma {:induction false} PrintedInjective(a: seq<seq<int>>, b: seq<seq<int>>)
    requires ValidSegments(a) && ValidSegments(b) && Printed(a) == Printed(b)
    ensures a == b
  {
    if a != [] {
      PrintedSeparator(a);
      PrintedSeparator(b);
      if |a| > 1 {
        JoinedWithout(a[0], '/');
        JoinedWithout(b[0], '/');
        SeparatorSplits(Joined(a[0]), Joined(b[0]), Printed(a[1..]), Printed(b[1..]), '/');
        PrintedInjective(a[1..], b[1..]);
      }
      JoinedInjective(a[0], b[0]);
      assert a == [a[0]] + a[1..] && b == [b[0]] + b[1..];
    }
  }
}
