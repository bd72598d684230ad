/** Small pieces of JavaScript string behaviour the builder relies on:
    the decimal rendering of a non-negative integer (`String(n)` for integers
    below 10^21, which JavaScript writes as plain digits),
    the code-unit order of `<` on strings (which `Array.prototype.sort` uses by
    default), and `Array.prototype.join`. */
module JsStrings {

  /** The character of a decimal digit. */
  function DigitChar(d: nat): (c: char)
    requires d < 10
    ensures '0' <= c <= '9'
  {
    (48 + d) as char
  }

  /** The value of a decimal digit character. */
  function DigitValue(c: char): (d: nat)
    requires '0' <= c <= '9'
    ensures d < 10
    ensures DigitChar(d) == c
  {
    c as int - 48
  }

  /** The decimal digits of `n`, with no leading zero. This is `String(n)` for
      integers below 10^21; from 10^21 up JavaScript uses exponent notation. */
  function Decimal(n: nat): (s: string)
    ensures 1 <= |s|
    ensures forall i :: 0 <= i < |s| ==> '0' <= s[i] <= '9'
    ensures (|s| == 1) == (n < 10)
    decreases n
  {
    if n < 10 then [DigitChar(n)] else Decimal(n / 10) + [DigitChar(n % 10)]
  }

  /** Reads a string of decimal digits back as a number. */
  function ParseDecimal(s: string): (n: nat)
    requires forall i :: 0 <= i < |s| ==> '0' <= s[i] <= '9'
  {
    if s == [] then 0 else 10 * ParseDecimal(s[..|s| - 1]) + DigitValue(s[|s| - 1])
  }

  /** Reading back the decimal rendering gives the number again. */
  lemma {:induction false} DecimalRoundTrip(n: nat)
    ensures ParseDecimal(Decimal(n)) == n
    decreases n
  {
    var s := Decimal(n);
    if n < 10 {
      assert s[..0] == [];
    } else {
      DecimalRoundTrip(n / 10);
      assert s[..|s| - 1] == Decimal(n / 10);
    }
  }

  /** Distinct numbers have distinct decimal renderings. */
  lemma DecimalInjective(a: nat, b: nat)
    ensures Decimal(a) == Decimal(b) <==> a == b
  {
    DecimalRoundTrip(a);
    DecimalRoundTrip(b);
  }

  /** `a <= b` on JavaScript strings: `a` is a prefix of `b`, or is smaller at
      the first code unit where they differ. */
  predicate StringLe(a: string, b: string)
  {
    a == [] || (b != [] && (a[0] < b[0] || (a[0] == b[0] && StringLe(a[1..], b[1..]))))
  }

  lemma {:induction false} StringLeReflexive(a: string)
    ensures StringLe(a, a)
  {
    if a != [] {
      StringLeReflexive(a[1..]);
    }
  }

  lemma {:induction false} StringLeTotal(a: string, b: string)
    ensures StringLe(a, b) || StringLe(b, a)
  {
    if a != [] && b != [] && a[0] == b[0] {
      StringLeTotal(a[1..], b[1..]);
    }
  }

  lemma {:induction false} StringLeAntisymmetric(a: string, b: string)
    requires StringLe(a, b) && StringLe(b, a)
    ensures a == b
  {
    if a != [] {
      StringLeAntisymmetric(a[1..], b[1..]);
      assert a == [a[0]] + a[1..] && b == [b[0]] + b[1..];
    }
  }

  lemma {:induction false} StringLeTransitive(a: string, b: string, c: string)
    requires StringLe(a, b) && StringLe(b, c)
    ensures StringLe(a, c)
  {
    if a != [] && a[0] == b[0] && b[0] == c[0] {
      StringLeTransitive(a[1..], b[1..], c[1..]);
    }
  }

  /** Comparing two strings of equal length that are each extended by one
      character: the prefixes decide unless they are equal. */
  lemma {:induction false} StringLeSnoc(p: string, c: char, q: string, e: char)
    requires |p| == |q|
    ensures StringLe(p + [c], q + [e]) <==> (p != q && StringLe(p, q)) || (p == q && c <= e)
  {
    if p == [] {
      assert p + [c] == [c] && q + [e] == [e];
      assert [c][1..] == [];
    } else {
      assert (p + [c])[0] == p[0] && (p + [c])[1..] == p[1..] + [c];
      assert (q + [e])[0] == q[0] && (q + [e])[1..] == q[1..] + [e];
      StringLeSnoc(p[1..], c, q[1..], e);
      assert p == [p[0]] + p[1..] && q == [q[0]] + q[1..];
      assert p == q <==> p[0] == q[0] && p[1..] == q[1..];
    }
  }

  /** For numbers with the same number of digits, string order of their
      decimal renderings is numeric order. */
  lemma {:induction false} DecimalOrderIsNumeric(a: nat, b: nat)
    requires |Decimal(a)| == |Decimal(b)|
    ensures StringLe(Decimal(a), Decimal(b)) <==> a <= b
    decreases a
  {
    if a < 10 {
      assert b < 10;
      assert Decimal(a)[1..] == [] && Decimal(b)[1..] == [];
    } else {
      assert b >= 10;
      var p, q := Decimal(a / 10), Decimal(b / 10);
      StringLeSnoc(p, DigitChar(a % 10), q, DigitChar(b % 10));
      DecimalOrderIsNumeric(a / 10, b / 10);
      DecimalInjective(a / 10, b / 10);
      assert a == 10 * (a / 10) + a % 10 && b == 10 * (b / 10) + b % 10;
    }
  }

  /** `parts.join(sep)`. */
  function Join(sep: string, parts: seq<string>): (s: string)
    ensures |parts| > 0 ==> |parts[0]| <= |s| && s[..|parts[0]|] == parts[0]
  {
    if |parts| == 0 then ""
    else if |parts| == 1 then parts[0]
    else parts[0] + sep + Join(sep, parts[1..])
  }

  /** Appending one more part appends a separator and the part, except to an
      empty list. */
  lemma {:induction false} JoinSnoc(sep: string, parts: seq<string>, x: string)
    ensures Join(sep, parts + [x]) == if parts == [] then x else Join(sep, parts) + sep + x
    decreases |parts|
  {
    if |parts| >= 2 {
      assert (parts + [x])[1..] == parts[1..] + [x];
      JoinSnoc(sep, parts[1..], x);
    } else if |parts| == 1 {
      assert (parts + [x])[1..] == [x];
    }
  }
}
