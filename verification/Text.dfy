/**
 Strings as the Go code builds them: decimal numerals (strconv.Itoa), plain
 concatenation (repeated buffer writes) and joining with a separator
 (strings.Join), with the facts that let a reader split them again.
 */
module Text {

  function Digit(d: nat): char
    requires d < 10
  {
    '0' + d as char
  }

  predicate IsNumeralChar(c: char) {
    '0' <= c <= '9' || c == '-'
  }

  function Digits(n: nat): string {
    if n < 10 then [Digit(n)] else Digits(n / 10) + [Digit(n % 10)]
  }

  /** strconv.Itoa */
  function Itoa(n: int): string {
    if n < 0 then "-" + Digits(-n) else Digits(n)
  }

  /** All words written one after the other, with nothing between them. */
  function Concat(words: seq<string>): string {
    if words == [] then "" else words[0] + Concat(words[1..])
  }

  /** strings.Join */
  function Join(words: seq<string>, sep: string): string {
    if words == [] then ""
    else if |words| == 1 then words[0]
    else words[0] + sep + Join(words[1..], sep)
  }

  lemma {:induction false} DigitsAreDigits(n: nat)
    ensures Digits(n) != ""
    ensures forall i :: 0 <= i < |Digits(n)| ==> '0' <= Digits(n)[i] <= '9'
  {
    if n >= 10 {
      DigitsAreDigits(n / 10);
    }
  }

  lemma {:induction false} DigitsInjective(m: nat, n: nat)
    requires Digits(m) == Digits(n)
    ensures m == n
  {
    DigitsAreDigits(m / 10);
    DigitsAreDigits(n / 10);
    var s, t := Digits(m), Digits(n);
    assert s[|s| - 1] == Digit(m % 10) && t[|t| - 1] == Digit(n % 10);
    if m >= 10 && n >= 10 {
      assert s[..|s| - 1] == Digits(m / 10) && t[..|t| - 1] == Digits(n / 10);
      DigitsInjective(m / 10, n / 10);
    }
  }

  lemma ItoaIsNumeral(n: int)
    ensures Itoa(n) != ""
    ensures forall i :: 0 <= i < |Itoa(n)| ==> IsNumeralChar(Itoa(n)[i])
  {
    DigitsAreDigits(if n < 0 then -n else n);
  }

  lemma ItoaInjective(m: int, n: int)
    requires Itoa(m) == Itoa(n)
    ensures m == n
  {
    DigitsAreDigits(if m < 0 then -m else m);
    DigitsAreDigits(if n < 0 then -n else n);
    assert m < 0 <==> Itoa(m)[0] == '-';
    assert n < 0 <==> Itoa(n)[0] == '-';
    if m < 0 {
      assert Itoa(m)[1..] == Digits(-m) && Itoa(n)[1..] == Digits(-n);
      DigitsInjective(-m, -n);
    } else {
      DigitsInjective(m, n);
    }
  }

  predicate IsDigit(c: char) {
    '0' <= c <= '9'
  }

  /** The number a numeral stands for. */
  function Value(s: string): nat
    requires forall i :: 0 <= i < |s| ==> IsDigit(s[i])
  {
    if s == "" then 0
    else
      var last := s[|s| - 1];
      assert IsDigit(last);
      10 * Value(s[..|s| - 1]) + (last as int - '0' as int)
  }

  lemma {:induction false} ValueOfDigits(n: nat)
    ensures forall i :: 0 <= i < |Digits(n)| ==> IsDigit(Digits(n)[i])
    ensures Value(Digits(n)) == n
  {
    DigitsAreDigits(n);
    var s := Digits(n);
    assert s[|s| - 1] == Digit(n % 10);
    if n >= 10 {
      ValueOfDigits(n / 10);
      assert s[..|s| - 1] == Digits(n / 10);
    } else {
      assert s[..|s| - 1] == "";
    }
  }

  /** The digits a string begins with, and the rest. */
  function TakeDigits(s: string): (r: (string, string))
    ensures s == r.0 + r.1
    ensures forall i :: 0 <= i < |r.0| ==> IsDigit(r.0[i])
  {
    if s == "" || !IsDigit(s[0]) then ("", s)
    else
      var (digits, rest) := TakeDigits(s[1..]);
      ([s[0]] + digits, rest)
  }

  lemma {:induction false} TakeDigitsAppend(a: string, rest: string)
    requires (forall i :: 0 <= i < |a| ==> IsDigit(a[i])) && (rest == "" || !IsDigit(rest[0]))
    ensures TakeDigits(a + rest) == (a, rest)
  {
    if a == "" {
      assert a + rest == rest;
    } else {
      assert (a + rest)[0] == a[0] && (a + rest)[1..] == a[1..] + rest && [a[0]] + a[1..] == a;
      TakeDigitsAppend(a[1..], rest);
    }
  }

  lemma Assoc(a: string, b: string, c: string)
    ensures a + b + c == a + (b + c)
  {
  }

  lemma Regroup(a: string, b: string, c: string, d: string)
    ensures a + b + c + d == a + (b + (c + d))
  {
  }

  ghost predicate AllChars(p: char -> bool, s: string) {
    forall i :: 0 <= i < |s| ==> p(s[i])
  }

  /** The rest x of a string starts outside the class p, or is empty. */
  ghost predicate StartsOutside(p: char -> bool, x: string) {
    x == "" || !p(x[0])
  }

  /** A string splits in only one way into a longest part inside a class and a rest. */
  lemma SplitIsUnique(p: char -> bool, a: string, x: string, b: string, y: string)
    requires AllChars(p, a) && StartsOutside(p, x)
    requires AllChars(p, b) && StartsOutside(p, y)
    requires a + x == b + y
    ensures a == b && x == y
  {
    var s := a + x;
    assert s[|a|..] == x && s[|b|..] == y;
    assert forall i :: 0 <= i < |a| ==> p(s[i]);
    assert forall i :: 0 <= i < |b| ==> p(s[i]);
    assert x == "" || !p(s[|a|]);
    assert y == "" || !p(s[|b|]);
    assert (a + x)[..|a|] == a && (b + y)[..|a|] == b;
    assert (a + x)[|a|..] == x && (b + y)[|a|..] == y;
  }

  /** Two ways of cutting one string in two: the shorter head is a prefix of the longer. */
  lemma CutTwice(a: string, u: string, b: string, v: string)
    requires a + u == b + v && |a| <= |b|
    ensures a <= b && u == b[|a|..] + v
  {
    assert a == (a + u)[..|a|] == (b + v)[..|a|] == b[..|a|];
    assert u == (a + u)[|a|..] == (b + v)[|a|..] == b[|a|..] + v;
  }

  lemma {:induction false} ConcatAppend(xs: seq<string>, ys: seq<string>)
    ensures Concat(xs + ys) == Concat(xs) + Concat(ys)
  {
    if xs == [] {
      assert xs + ys == ys;
    } else {
      assert (xs + ys)[0] == xs[0] && (xs + ys)[1..] == xs[1..] + ys;
      ConcatAppend(xs[1..], ys);
    }
  }
}
