/** Strings as Go compares and formats them. */
module Text {
  import opened Sorting

  /** Go's `<` on strings. */
  predicate LexLess(a: string, b: string) {
    if b == "" then false
    else if a == "" then true
    else a[0] < b[0] || (a[0] == b[0] && LexLess(a[1..], b[1..]))
  }

  predicate LexLe(a: string, b: string) {
    a == b || LexLess(a, b)
  }

  function Max(a: string, b: string): string {
    if LexLess(a, b) then b else a
  }

  lemma {:induction false} LexTrichotomy(a: string, b: string)
    ensures (if LexLess(a, b) then 1 else 0) + (if LexLess(b, a) then 1 else 0) + (if a == b then 1 else 0) == 1
  {
    if a != "" && b != "" {
      LexTrichotomy(a[1..], b[1..]);
      assert a == [a[0]] + a[1..] && b == [b[0]] + b[1..];
    }
  }

  lemma {:induction false} LexTransitive(a: string, b: string, c: string)
    requires LexLess(a, b) && LexLess(b, c)
    ensures LexLess(a, c)
  {
    if a != "" && a[0] == b[0] && b[0] == c[0] {
      LexTransitive(a[1..], b[1..], c[1..]);
    }
  }

  lemma LexLeTotal()
    ensures TotalPreorder(LexLe)
  {
    forall a, b ensures LexLe(a, b) || LexLe(b, a) {
      LexTrichotomy(a, b);
    }
    forall a, b, c | LexLe(a, b) && LexLe(b, c) ensures LexLe(a, c) {
      if a != b && b != c {
        LexTransitive(a, b, c);
      }
    }
  }

  /** Fixed-width prefixes decide first. */
  lemma {:induction false} LexConcat(a: string, b: string, c: string, d: string)
    requires |a| == |c|
    ensures LexLess(a + b, c + d) <==> LexLess(a, c) || (a == c && LexLess(b, d))
    ensures a + b == c + d <==> a == c && b == d
  {
    if a == "" {
      assert a + b == b && c + d == d;
    } else {
      LexConcat(a[1..], b, c[1..], d);
      assert (a + b)[1..] == a[1..] + b && (c + d)[1..] == c[1..] + d;
      assert a == [a[0]] + a[1..] && c == [c[0]] + c[1..];
      assert a + b == [a[0]] + (a[1..] + b) && c + d == [c[0]] + (c[1..] + d);
    }
  }

  // ---------------------------------------------------------------------------
  // Decimal numbers
  // ---------------------------------------------------------------------------

  function Digit(d: nat): char
    requires d < 10
  {
    '0' + d as char
  }

  function Pow10(w: nat): nat {
    if w == 0 then 1 else 10 * Pow10(w - 1)
  }

  /** The low w decimal digits of n: `%0wd` for an n that fits. */
  function Pad(n: nat, w: nat): (s: string)
    ensures |s| == w
  {
    if w == 0 then "" else Pad(n / 10, w - 1) + [Digit(n % 10)]
  }

  /** `%d` */
  function Decimal(n: nat): (s: string)
    ensures |s| > 0
  {
    if n < 10 then [Digit(n)] else Decimal(n / 10) + [Digit(n % 10)]
  }

  function Signed(n: int): string {
    if n < 0 then "-" + Decimal(-n) else Decimal(n)
  }

  lemma {:induction false} PadOrder(n: nat, m: nat, w: nat)
    requires n < Pow10(w) && m < Pow10(w)
    ensures LexLess(Pad(n, w), Pad(m, w)) <==> n < m
    ensures Pad(n, w) == Pad(m, w) <==> n == m
  {
    if w != 0 {
      PadOrder(n / 10, m / 10, w - 1);
      LexConcat(Pad(n / 10, w - 1), [Digit(n % 10)], Pad(m / 10, w - 1), [Digit(m % 10)]);
    }
  }

  /** One fixed-width number inside a longer string. */
  function Field(sep: string, n: nat, w: nat, rest: string): (s: string)
    ensures |s| == |sep| + w + |rest|
  {
    sep + Pad(n, w) + rest
  }

  lemma FieldOrder(sep: string, n: nat, m: nat, w: nat, a: string, b: string)
    requires n < Pow10(w) && m < Pow10(w)
    ensures LexLess(Field(sep, n, w, a), Field(sep, m, w, b)) <==> n < m || (n == m && LexLess(a, b))
    ensures Field(sep, n, w, a) == Field(sep, m, w, b) <==> n == m && a == b
  {
    PadOrder(n, m, w);
    LexConcat(sep + Pad(n, w), a, sep + Pad(m, w), b);
    LexConcat(sep, Pad(n, w), sep, Pad(m, w));
    LexTrichotomy(sep, sep);
  }

  lemma {:induction false} DecimalInjective(n: nat, m: nat)
    requires Decimal(n) == Decimal(m)
    ensures n == m
  {
    var a, b := Decimal(n), Decimal(m);
    assert a[|a| - 1] == Digit(n % 10) && b[|b| - 1] == Digit(m % 10);
    assert n % 10 == m % 10;
    if n >= 10 && m >= 10 {
      assert Decimal(n / 10) == a[..|a| - 1] == b[..|b| - 1] == Decimal(m / 10);
      DecimalInjective(n / 10, m / 10);
    }
  }

  lemma {:induction false} DecimalStartsWithDigit(n: nat)
    ensures '0' <= Decimal(n)[0] <= '9'
  {
    if n >= 10 {
      DecimalStartsWithDigit(n / 10);
    }
  }

  lemma SignedInjective(n: int, m: int)
    requires Signed(n) == Signed(m)
    ensures n == m
  {
    if n >= 0 { DecimalStartsWithDigit(n); }
    if m >= 0 { DecimalStartsWithDigit(m); }
    if n < 0 && m < 0 {
      assert Signed(n)[1..] == Decimal(-n) && Signed(m)[1..] == Decimal(-m);
      DecimalInjective(-n, -m);
    } else if n >= 0 && m >= 0 {
      DecimalInjective(n, m);
    }
  }

  /** A separator that the first part does not have splits a text in one way only. */
  lemma SplitAt(c: char, p: string, q: string, a: string, b: string)
    requires c !in p && c !in q
    requires p + ([c] + a) == q + ([c] + b)
    ensures p == q && a == b
  {
    var s := p + ([c] + a);
    assert s[|p|] == c && s[|q|] == c;
    assert p == s[..|p|] == q;
    assert a == s[|p| + 1..] == b;
  }

  lemma {:induction false} DecimalHasDigits(n: nat)
    ensures forall c | c in Decimal(n) :: '0' <= c <= '9'
  {
    if n >= 10 {
      DecimalHasDigits(n / 10);
    }
  }

  lemma SignedHasDigits(n: int)
    ensures forall c | c in Signed(n) :: c == '-' || '0' <= c <= '9'
  {
    DecimalHasDigits(if n < 0 then -n else n);
  }
}
