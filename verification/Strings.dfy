/** Splitting, joining and decimal text, as the Go and JavaScript library functions the sources call. */
module Strings {
  import opened Wrappers

  /** `strings.Split` on one character: the pieces between the separators, at least one. */
  function Split(s: string, c: char): (r: seq<string>)
    ensures |r| >= 1
  {
    if s == "" then [""]
    else
      var rest := Split(s[1..], c);
      if s[0] == c then [""] + rest
      else [[s[0]] + rest[0]] + rest[1..]
  }

  function Join(pieces: seq<string>, sep: string): string
  {
    if pieces == [] then ""
    else if |pieces| == 1 then pieces[0]
    else pieces[0] + sep + Join(pieces[1..], sep)
  }

  lemma {:induction false} SplitOne(a: string, c: char)
    requires c !in a
    ensures Split(a, c) == [a]
  {
    if a != "" {
      SplitOne(a[1..], c);
      assert [a[0]] + a[1..] == a;
    }
  }

  lemma {:induction false} SplitFirst(a: string, b: string, c: char)
    requires c !in a
    ensures Split(a + [c] + b, c) == [a] + Split(b, c)
  {
    var s := a + [c] + b;
    if a == "" {
      assert s[1..] == b;
    } else {
      assert s[1..] == a[1..] + [c] + b;
      SplitFirst(a[1..], b, c);
      assert Split(s[1..], c)[1..] == Split(b, c);
      assert [a[0]] + a[1..] == a;
    }
  }

  lemma {:induction false} SplitJoin(pieces: seq<string>, c: char)
    requires pieces != [] && forall p :: p in pieces ==> c !in p
    ensures Split(Join(pieces, [c]), c) == pieces
  {
    if |pieces| == 1 {
      SplitOne(pieces[0], c);
    } else {
      SplitJoin(pieces[1..], c);
      assert Join(pieces, [c]) == pieces[0] + [c] + Join(pieces[1..], [c]);
      assert [pieces[0]] + pieces[1..] == pieces;
      hide Join;
      SplitFirst(pieces[0], Join(pieces[1..], [c]), c);
    }
  }

  /** The pieces on both sides of a separator. */
  lemma {:induction false} SplitAround(a: string, b: string, c: char)
    ensures Split(a + [c] + b, c) == Split(a, c) + Split(b, c)
  {
    var s := a + [c] + b;
    if a == "" {
      assert s[1..] == b;
    } else {
      assert s[1..] == a[1..] + [c] + b && s[0] == a[0];
      SplitAround(a[1..], b, c);
    }
  }

  /** A text with one separator is its two pieces around it. */
  lemma {:induction false} SplitRejoins(s: string, c: char)
    ensures |Split(s, c)| == 1 ==> Split(s, c)[0] == s
    ensures |Split(s, c)| == 2 ==> s == Split(s, c)[0] + [c] + Split(s, c)[1]
  {
    if s != "" {
      SplitRejoins(s[1..], c);
      assert s == [s[0]] + s[1..];
    }
  }

  /** Two texts split at the first separator are equal only piece by piece. */
  lemma SplitsOnce(a: string, x: string, b: string, y: string, c: char)
    requires c !in a && c !in b && a + [c] + x == b + [c] + y
    ensures a == b && x == y
  {
    var s, t := a + [c] + x, b + [c] + y;
    assert forall i :: 0 <= i < |a| ==> s[i] == a[i] && a[i] in a;
    assert forall i :: 0 <= i < |b| ==> t[i] == b[i] && b[i] in b;
    assert s[|a|] == c && t[|b|] == c;
    assert |a| == |b|;
    assert a == s[..|a|] && b == t[..|b|];
    assert x == s[|a| + 1..] && y == t[|b| + 1..];
  }

  // ----- Order

  /** The order of texts, character by character. */
  predicate TextLess(a: string, b: string)
  {
    b != "" && (a == "" || a[0] < b[0] || (a[0] == b[0] && TextLess(a[1..], b[1..])))
  }

  /** Among texts that start with pieces of equal length, the pieces decide first. */
  lemma {:induction false} TextLessByPieces(x: string, y: string, a: string, b: string)
    requires |x| == |y|
    ensures TextLess(x + a, y + b) <==> TextLess(x, y) || (x == y && TextLess(a, b))
  {
    if x == "" {
      assert x + a == a && y + b == b;
    } else {
      assert (x + a)[1..] == x[1..] + a && (y + b)[1..] == y[1..] + b;
      TextLessByPieces(x[1..], y[1..], a, b);
      assert x == [x[0]] + x[1..] && y == [y[0]] + y[1..];
    }
  }

  // ----- Decimal numbers

  predicate IsDigit(c: char) { '0' <= c <= '9' }

  function Digit(n: nat): char
    requires n < 10
  {
    '0' + n as char
  }

  function DigitValue(c: char): (d: nat)
    requires IsDigit(c)
    ensures d < 10
  {
    (c - '0') as nat
  }

  function PrintNat(n: nat): (s: string)
    ensures s != "" && forall c :: c in s ==> IsDigit(c)
  {
    if n < 10 then [Digit(n)] else PrintNat(n / 10) + [Digit(n % 10)]
  }

  /** The value of a non-empty run of digits. */
  function DigitsValue(s: string): Option<nat>
  {
    if s == "" || !IsDigit(s[|s| - 1]) then None
    else
      var d := DigitValue(s[|s| - 1]);
      if |s| == 1 then Some(d)
      else match DigitsValue(s[..|s| - 1])
        case Some(n) => Some(10 * n + d)
        case None => None
  }

  lemma {:induction false} DigitsOfPrint(n: nat)
    ensures DigitsValue(PrintNat(n)) == Some(n)
  {
    if n >= 10 {
      DigitsOfPrint(n / 10);
      assert PrintNat(n)[..|PrintNat(n)| - 1] == PrintNat(n / 10);
    }
  }

  lemma PrintNatInjective(m: nat, n: nat)
    requires PrintNat(m) == PrintNat(n)
    ensures m == n
  {
    DigitsOfPrint(m);
    DigitsOfPrint(n);
  }

  const MAX_INT: int := 0x7fff_ffff_ffff_ffff

  /** `strconv.Atoi`: an optional sign and digits, within 64 bits. */
  function Atoi(s: string): (r: Option<int>)
    ensures r.Some? ==> -MAX_INT - 1 <= r.value <= MAX_INT
  {
    var negative := s != "" && s[0] == '-';
    var body := if s != "" && (s[0] == '-' || s[0] == '+') then s[1..] else s;
    match DigitsValue(body)
    case None => None
    case Some(n) =>
      var value: int := if negative then -(n as int) else n;
      if -MAX_INT - 1 <= value <= MAX_INT then Some(value) else None
  }

  predicate AllDigits(s: string) { s != "" && forall k :: 0 <= k < |s| ==> IsDigit(s[k]) }

  lemma {:induction false} DigitsHaveValue(s: string)
    requires AllDigits(s)
    ensures DigitsValue(s).Some?
  {
    if |s| > 1 { DigitsHaveValue(s[..|s| - 1]); }
  }

  /** Digits of equal width are ordered as their numbers are. */
  lemma {:induction false} EqualWidthOrder(x: string, y: string)
    requires AllDigits(x) && AllDigits(y) && |x| == |y|
    ensures DigitsValue(x).Some? && DigitsValue(y).Some?
    ensures TextLess(x, y) <==> DigitsValue(x).value < DigitsValue(y).value
    ensures x == y <==> DigitsValue(x) == DigitsValue(y)
  {
    DigitsHaveValue(x);
    DigitsHaveValue(y);
    var n := |x| - 1;
    if n == 0 {
      assert x == [x[0]] && y == [y[0]];
      assert x[1..] == y[1..] == "";
    } else {
      var u, v, a, b := x[..n], y[..n], [x[n]], [y[n]];
      assert x == u + a && y == v + b;
      EqualWidthOrder(u, v);
      TextLessByPieces(u, v, a, b);
      assert a[1..] == b[1..] == "";
      assert TextLess(a, b) <==> DigitValue(x[n]) < DigitValue(y[n]);
    }
  }

  /** Numerals are read with or without a sign, within 64 bits. */
  lemma SignedNumerals(n: nat)
    ensures Atoi(PrintNat(n)) == (if n <= MAX_INT then Some(n as int) else None)
    ensures Atoi("+" + PrintNat(n)) == (if n <= MAX_INT then Some(n as int) else None)
    ensures Atoi("-" + PrintNat(n)) == if n <= MAX_INT + 1 then Some(-(n as int)) else None
  {
    hide PrintNat, DigitsValue;
    var s := PrintNat(n);
    DigitsOfPrint(n);
    assert s[0] in s;
    assert ("+" + s)[1..] == s && ("-" + s)[1..] == s;
  }

  /** Numerals are decimal. */
  lemma DecimalNumerals(n: nat, d: nat)
    requires n > 0 && d < 10
    ensures PrintNat(10 * n + d) == PrintNat(n) + PrintNat(d) && PrintNat(d) == ["0123456789"[d]]
    ensures MAX_INT == 9223372036854775807
  {
  }

  const LOWER := "abcdefghijklmnopqrstuvwxyz"
  const UPPER := "ABCDEFGHIJKLMNOPQRSTUVWXYZ"
  const DIGITS := "0123456789"

  /** The letters and digits of ASCII are ranges of characters. */
  lemma Alphanumerics(c: char)
    ensures c in LOWER <==> 'a' <= c <= 'z'
    ensures c in UPPER <==> 'A' <= c <= 'Z'
    ensures c in DIGITS <==> '0' <= c <= '9'
  {
    LowerCase(c);
    UpperCase(c);
    DecimalDigits(c);
  }

  lemma LowerCase(c: char)
    ensures c in LOWER <==> 'a' <= c <= 'z'
  {
    assert forall i :: 0 <= i < 26 ==> LOWER[i] == 'a' + i as char;
    if 'a' <= c <= 'z' { assert LOWER[(c - 'a') as int] == c; }
  }

  lemma UpperCase(c: char)
    ensures c in UPPER <==> 'A' <= c <= 'Z'
  {
    assert forall i :: 0 <= i < 26 ==> UPPER[i] == 'A' + i as char;
    if 'A' <= c <= 'Z' { assert UPPER[(c - 'A') as int] == c; }
  }

  lemma DecimalDigits(c: char)
    ensures c in DIGITS <==> '0' <= c <= '9'
  {
    assert forall i :: 0 <= i < 10 ==> DIGITS[i] == '0' + i as char;
    if '0' <= c <= '9' { assert DIGITS[(c - '0') as int] == c; }
  }
}
