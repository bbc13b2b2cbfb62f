/**
 * The C string helpers the importer relies on: GLib's `g_strcmp0` and the
 * C library's `atoi` (section 7.22.1.2 of ISO C11, which defines `atoi` as
 * `strtol(nptr, NULL, 10)` with the leading-space, sign and digit rules of
 * section 7.22.1.4). A `char*` that may be `NULL` is an `Option<string>`.
 * Integers are unbounded: a value that does not fit an `int` is undefined
 * behaviour in C, and here it is simply the mathematical value.
 */
module CStrings {
  import opened Wrappers

  /**
   * Sign of C's `strcmp`: characters compared in order, a proper prefix is
   * smaller. The order itself is stated by `StrcmpProperPrefix`,
   * `StrcmpFirstDifference` and `StrcmpAntisymmetric`.
   */
  function Strcmp(a: string, b: string): (r: int)
    ensures -1 <= r <= 1
    ensures r == 0 <==> a == b
  {
    if a == [] then (if b == [] then 0 else -1)
    else if b == [] then 1
    else if a[0] < b[0] then -1
    else if a[0] > b[0] then 1
    else Strcmp(a[1..], b[1..])
  }

  /** A proper prefix sorts before the longer string. */
  lemma {:induction false} StrcmpProperPrefix(a: string, b: string)
    requires |a| < |b| && a == b[..|a|]
    ensures Strcmp(a, b) == -1
  {
    if a != [] {
      assert a[1..] == b[1..][..|a| - 1];
      StrcmpProperPrefix(a[1..], b[1..]);
    }
  }

  /** After a common prefix, the string with the smaller character sorts first. */
  lemma {:induction false} StrcmpFirstDifference(p: string, x: char, y: char, a: string, b: string)
    requires x < y
    ensures Strcmp(p + [x] + a, p + [y] + b) == -1
  {
    if p != [] {
      assert (p + [x] + a)[1..] == p[1..] + [x] + a;
      assert (p + [y] + b)[1..] == p[1..] + [y] + b;
      StrcmpFirstDifference(p[1..], x, y, a, b);
    } else {
      assert p + [x] + a == [x] + a;
      assert p + [y] + b == [y] + b;
    }
  }

  /** Swapping the arguments of `strcmp` negates its result. */
  lemma {:induction false} StrcmpAntisymmetric(a: string, b: string)
    ensures Strcmp(a, b) == -Strcmp(b, a)
  {
    if a != [] && b != [] && a[0] == b[0] {
      StrcmpAntisymmetric(a[1..], b[1..]);
    }
  }

  /** `g_strcmp0`: like `strcmp`, but `NULL` is allowed and sorts before every string. */
  function Strcmp0(a: Option<string>, b: Option<string>): (r: int)
    ensures -1 <= r <= 1
    ensures r == 0 <==> a == b
    ensures a.None? && b.Some? ==> r < 0
  {
    match (a, b)
    case (None, None) => 0
    case (None, Some(_)) => -1
    case (Some(_), None) => 1
    case (Some(x), Some(y)) => Strcmp(x, y)
  }

  /** The importer's boolean coercion `!g_strcmp0 (s, "true")`. */
  function IsTrue(s: Option<string>): (r: bool)
    ensures r <==> s.Some? && s.value == "true"
  {
    Strcmp0(s, Some("true")) == 0
  }

  /** `isspace` in the "C" locale. */
  predicate IsSpace(c: char) {
    c == ' ' || c == '\t' || c == '\n' || c == '\U{B}' || c == '\U{C}' || c == '\r'
  }

  predicate IsDigit(c: char) {
    '0' <= c <= '9'
  }

  predicate AllDigits(s: string) {
    forall i :: 0 <= i < |s| ==> IsDigit(s[i])
  }

  /** What is left of `s` once its leading white space is skipped. */
  function SkipSpace(s: string): (r: string)
    ensures |r| <= |s| && r == s[|s| - |r|..]
    ensures forall i :: 0 <= i < |s| - |r| ==> IsSpace(s[i])
    ensures r != [] ==> !IsSpace(r[0])
  {
    if s != [] && IsSpace(s[0]) then
      var r := SkipSpace(s[1..]);
      assert s[1..][|s| - 1 - |r|..] == s[|s| - |r|..];
      assert forall i :: 1 <= i < |s| - |r| ==> s[i] == s[1..][i - 1];
      r
    else s
  }

  /** Length of the longest prefix of `s` made of decimal digits. */
  function DigitRun(s: string): (n: nat)
    ensures n <= |s|
    ensures forall i :: 0 <= i < n ==> IsDigit(s[i])
    ensures n < |s| ==> !IsDigit(s[n])
  {
    if s != [] && IsDigit(s[0]) then 1 + DigitRun(s[1..]) else 0
  }

  function DigitValue(c: char): nat
    requires IsDigit(c)
  {
    c as int - '0' as int
  }

  function DigitChar(d: nat): (c: char)
    requires d < 10
    ensures IsDigit(c) && DigitValue(c) == d
  {
    ('0' as int + d) as char
  }

  /** The number a string of decimal digits denotes, most significant digit first. */
  function DigitsValue(s: string): nat
    requires AllDigits(s)
  {
    if s == [] then 0 else 10 * DigitsValue(s[..|s| - 1]) + DigitValue(s[|s| - 1])
  }

  /** The sign and digits `strtol` reads once white space is skipped. */
  function SignedValue(u: string): int {
    var negative := u != [] && u[0] == '-';
    var w := if u != [] && (u[0] == '-' || u[0] == '+') then u[1..] else u;
    var v: int := DigitsValue(w[..DigitRun(w)]);
    if negative then -v else v
  }

  /**
   * `atoi`: skip white space, read an optional sign and the longest run of
   * digits; 0 when there are no digits. A `NULL` argument is undefined
   * behaviour in C; the model gives 0.
   */
  function Atoi(s: Option<string>): int {
    match s
    case None => 0
    case Some(t) => SignedValue(SkipSpace(t))
  }

  /** Decimal notation of a natural number, without leading zeros. */
  function NatToString(n: nat): (s: string)
    ensures s != [] && AllDigits(s)
  {
    if n < 10 then [DigitChar(n)] else NatToString(n / 10) + [DigitChar(n % 10)]
  }

  /** Decimal notation of an integer, as `printf ("%d")` writes it. */
  function IntToString(n: int): (s: string)
    ensures s != []
  {
    if n < 0 then "-" + NatToString(-n) else NatToString(n)
  }

  lemma {:induction false} DigitsValueOfNatToString(n: nat)
    ensures DigitsValue(NatToString(n)) == n
  {
    var s := NatToString(n);
    if n >= 10 {
      DigitsValueOfNatToString(n / 10);
      assert s[..|s| - 1] == NatToString(n / 10);
    }
  }

  lemma {:induction false} DigitRunOfDigits(d: string, tail: string)
    requires AllDigits(d)
    requires tail == [] || !IsDigit(tail[0])
    ensures DigitRun(d + tail) == |d|
  {
    if d != [] {
      assert (d + tail)[1..] == d[1..] + tail;
      DigitRunOfDigits(d[1..], tail);
    } else {
      assert d + tail == tail;
    }
  }

  /** The number of a digit string, followed by any non-digit, is read back by `atoi`. */
  lemma AtoiOfNatDigits(n: nat, tail: string)
    requires tail == [] || !IsDigit(tail[0])
    ensures SignedValue(NatToString(n) + tail) == n
  {
    var d := NatToString(n);
    DigitRunOfDigits(d, tail);
    assert (d + tail)[..|d|] == d;
    DigitsValueOfNatToString(n);
  }

  /** A minus sign in front of digits negates what `strtol` reads. */
  lemma SignedValueOfNegative(w: string)
    requires w != [] && IsDigit(w[0])
    ensures SignedValue(['-'] + w) == -SignedValue(w)
  {
    assert (['-'] + w)[1..] == w;
  }

  lemma AtoiOfNegative(n: int, tail: string)
    requires n < 0
    requires tail == [] || !IsDigit(tail[0])
    ensures Atoi(Some(IntToString(n) + tail)) == n
  {
    var m := -n;
    var d := NatToString(m);
    var w := d + tail;
    var s := IntToString(n) + tail;
    assert s == ['-'] + w;
    assert s[0] == '-';
    assert SkipSpace(s) == s;
    assert w[0] == d[0];
    SignedValueOfNegative(w);
    AtoiOfNatDigits(m, tail);
  }

  lemma AtoiOfNonNegative(m: nat, tail: string)
    requires tail == [] || !IsDigit(tail[0])
    ensures Atoi(Some(IntToString(m) + tail)) == m
  {
    var d := NatToString(m);
    var w := d + tail;
    assert w[0] == d[0];
    assert SkipSpace(w) == w;
    AtoiOfNatDigits(m, tail);
  }

  /** `atoi` reads back every integer written in decimal, whatever non-digit follows it. */
  lemma AtoiOfIntToString(n: int, tail: string)
    requires tail == [] || !IsDigit(tail[0])
    ensures Atoi(Some(IntToString(n) + tail)) == n
  {
    if n < 0 {
      AtoiOfNegative(n, tail);
    } else {
      AtoiOfNonNegative(n, tail);
    }
  }

  /** Leading white space does not change what `atoi` reads. */
  lemma {:induction false} AtoiSkipsLeadingSpace(ws: string, s: string)
    requires forall i :: 0 <= i < |ws| ==> IsSpace(ws[i])
    ensures Atoi(Some(ws + s)) == Atoi(Some(s))
  {
    if ws != [] {
      assert (ws + s)[1..] == ws[1..] + s;
      AtoiSkipsLeadingSpace(ws[1..], s);
    } else {
      assert ws + s == s;
    }
  }

  /** An optional sign: empty, `"+"` or `"-"`. */
  predicate IsOptionalSign(sign: string) {
    |sign| <= 1 && (|sign| == 1 ==> sign[0] == '+' || sign[0] == '-')
  }

  lemma SkipSpaceStops(u: string)
    requires u != [] && !IsSpace(u[0])
    ensures SkipSpace(u) == u
  {
  }

  /** What `atoi` reads after white space is what `strtol` reads from the first other character on. */
  lemma AtoiAfterSpace(ws: string, sign: string, rest: string)
    requires forall i :: 0 <= i < |ws| ==> IsSpace(ws[i])
    requires IsOptionalSign(sign)
    requires sign + rest != [] && !IsSpace((sign + rest)[0])
    ensures Atoi(Some(ws + sign + rest)) == SignedValue(sign + rest)
  {
    var u := sign + rest;
    assert ws + sign + rest == ws + u;
    AtoiSkipsLeadingSpace(ws, u);
    SkipSpaceStops(u);
  }

  /** After an optional sign, `strtol` reads the digits and negates them after a minus sign. */
  lemma SignedValueAfterSign(sign: string, w: string)
    requires IsOptionalSign(sign)
    requires |sign| == 1 || w == [] || (w[0] != '+' && w[0] != '-')
    ensures var v: int := DigitsValue(w[..DigitRun(w)]);
            SignedValue(sign + w) == if |sign| == 1 && sign[0] == '-' then -v else v
  {
    if |sign| == 1 {
      assert (sign + w)[0] == sign[0];
      assert (sign + w)[1..] == w;
    } else {
      assert sign + w == w;
    }
  }

  lemma SignLiterals(sign: string)
    requires sign == "" || sign == "+" || sign == "-"
    ensures IsOptionalSign(sign)
    ensures (sign == "-") == (|sign| == 1 && sign[0] == '-')
  {
  }

  lemma DigitsThenTail(d: string, tail: string)
    requires d != [] && AllDigits(d)
    requires tail == [] || !IsDigit(tail[0])
    ensures var w := d + tail; w != [] && IsDigit(w[0]) && DigitsValue(w[..DigitRun(w)]) == DigitsValue(d)
  {
    var w := d + tail;
    assert w[0] == d[0];
    DigitRunOfDigits(d, tail);
    assert w[..|d|] == d;
  }

  lemma SignedNotSpace(sign: string, w: string)
    requires IsOptionalSign(sign)
    requires w != [] && IsDigit(w[0])
    ensures sign + w != [] && !IsSpace((sign + w)[0])
  {
    assert (sign + w)[0] == if |sign| == 1 then sign[0] else w[0];
  }

  /**
   * The rule of section 7.22.1.2 of ISO C11 in full: after white space and an
   * optional sign, `atoi` reads the longest run of digits, leading zeros
   * included, and negates it after a minus sign.
   */
  lemma AtoiOfSignedDigits(ws: string, sign: string, d: string, tail: string)
    requires forall i :: 0 <= i < |ws| ==> IsSpace(ws[i])
    requires sign == "" || sign == "+" || sign == "-"
    requires d != [] && AllDigits(d)
    requires tail == [] || !IsDigit(tail[0])
    ensures var v: int := DigitsValue(d);
            Atoi(Some(ws + sign + d + tail)) == if sign == "-" then -v else v
  {
    SignLiterals(sign);
    var w := d + tail;
    DigitsThenTail(d, tail);
    SignedNotSpace(sign, w);
    assert ws + sign + d + tail == ws + sign + w;
    AtoiAfterSpace(ws, sign, w);
    SignedValueAfterSign(sign, w);
  }

  /** Without a digit after the white space and the optional sign, `atoi` gives 0. */
  lemma AtoiWithoutDigits(ws: string, sign: string, rest: string)
    requires forall i :: 0 <= i < |ws| ==> IsSpace(ws[i])
    requires sign == "" || sign == "+" || sign == "-"
    requires rest == [] || !IsDigit(rest[0])
    requires sign == "" && rest != [] ==> !IsSpace(rest[0]) && rest[0] != '+' && rest[0] != '-'
    ensures Atoi(Some(ws + sign + rest)) == 0
  {
    assert IsOptionalSign(sign);
    if sign + rest == [] {
      assert ws + sign + rest == ws + [];
      AtoiSkipsLeadingSpace(ws, []);
    } else {
      assert (sign + rest)[0] == if |sign| == 1 then sign[0] else rest[0];
      AtoiAfterSpace(ws, sign, rest);
      SignedValueAfterSign(sign, rest);
      assert DigitRun(rest) == 0;
      assert rest[..0] == [];
    }
  }
}
