/** The JavaScript string built-ins the exporter relies on: `Array.prototype.join`,
    `split(c).pop()`, and decimal rendering of numbers; and the code-point order of names. */
module Text {

  /** `parts.join(sep)`: the parts in order, with `sep` between neighbours. */
  function Join(parts: seq<string>, sep: string): string
  {
    if |parts| == 0 then ""
    else if |parts| == 1 then parts[0]
    else parts[0] + sep + Join(parts[1..], sep)
  }

  /** Joining two non-empty lists is joining each and putting one separator between. */
  lemma {:induction false} JoinAppend(xs: seq<string>, ys: seq<string>, sep: string)
    requires xs != [] && ys != []
    ensures Join(xs + ys, sep) == Join(xs, sep) + sep + Join(ys, sep)
  {
    assert (xs + ys)[0] == xs[0];
    if |xs| == 1 {
      assert (xs + ys)[1..] == ys;
    } else {
      assert (xs + ys)[1..] == xs[1..] + ys;
      JoinAppend(xs[1..], ys, sep);
    }
  }

  /** The joined text starts with the first part. */
  lemma {:induction false} JoinStartsWithFirst(parts: seq<string>, sep: string)
    requires parts != []
    ensures |parts[0]| <= |Join(parts, sep)|
    ensures Join(parts, sep)[..|parts[0]|] == parts[0]
  {
    if |parts| > 1 {
      assert Join(parts, sep) == parts[0] + (sep + Join(parts[1..], sep));
    }
  }

  /** A joined list determines its one differing element: if two lists that agree
      everywhere except at one position join to the same text, that position agrees too. */
  lemma JoinMiddleInjective(pre: seq<string>, a: string, b: string, post: seq<string>, sep: string)
    requires Join(pre + [a] + post, sep) == Join(pre + [b] + post, sep)
    ensures a == b
  {
    var ta, tb := Join([a] + post, sep), Join([b] + post, sep);
    if pre != [] {
      assert pre + [a] + post == pre + ([a] + post);
      assert pre + [b] + post == pre + ([b] + post);
      JoinAppend(pre, [a] + post, sep);
      JoinAppend(pre, [b] + post, sep);
      var p := Join(pre, sep) + sep;
      assert p + ta == p + tb;
      assert ta == (p + ta)[|p|..];
      assert tb == (p + tb)[|p|..];
    } else {
      assert pre + [a] + post == [a] + post;
      assert pre + [b] + post == [b] + post;
    }
    assert ta == tb;
    if post != [] {
      JoinAppend([a], post, sep);
      JoinAppend([b], post, sep);
      var q := sep + Join(post, sep);
      assert Join([a], sep) == a && Join([b], sep) == b;
      assert ta == a + q && tb == b + q;
      assert |a| == |b|;
      assert a == (a + q)[..|a|];
      assert b == (b + q)[..|b|];
    } else {
      assert [a] + post == [a];
      assert [b] + post == [b];
    }
  }

  /** `s.split(c).pop()`: the text after the last `c`, or all of `s` when it has none. */
  function LastSegment(s: string, c: char): string
  {
    if s == [] then ""
    else if s[|s| - 1] == c then ""
    else LastSegment(s[..|s| - 1], c) + [s[|s| - 1]]
  }

  /** `split(c).pop()` returns a suffix free of `c`; it differs from the whole text exactly
      when the text contains `c`, and then a `c` stands right before it. */
  lemma {:induction false} LastSegmentSplit(s: string, c: char)
    ensures c !in LastSegment(s, c)
    ensures |LastSegment(s, c)| <= |s|
    ensures LastSegment(s, c) == s[|s| - |LastSegment(s, c)|..]
    ensures c in s <==> LastSegment(s, c) != s
    ensures c in s ==> |LastSegment(s, c)| < |s| && s[|s| - |LastSegment(s, c)| - 1] == c
  {
    if s == [] {
    } else if s[|s| - 1] == c {
      assert c in s;
    } else {
      var last := s[|s| - 1];
      var init := s[..|s| - 1];
      LastSegmentSplit(init, c);
      var seg := LastSegment(init, c);
      var r := seg + [last];
      assert LastSegment(s, c) == r;
      assert s == init + [last];
      assert c !in r;
      assert r == s[|s| - |r|..] by {
        assert seg == init[|init| - |seg|..];
        assert s[|s| - |r|..] == init[|init| - |seg|..] + [last];
      }
      assert c in s <==> c in init;
      if c in s {
        assert s[|s| - |r| - 1] == init[|init| - |seg| - 1];
      }
    }
  }

  predicate IsDigit(ch: char)
  {
    '0' <= ch <= '9'
  }

  predicate AllDigits(s: string)
  {
    forall i :: 0 <= i < |s| ==> IsDigit(s[i])
  }

  function DigitChar(d: nat): (ch: char)
    requires d < 10
  {
    ('0' as int + d) as char
  }

  function DigitValue(ch: char): nat
    requires IsDigit(ch)
  {
    ch as int - '0' as int
  }

  function Pow10(k: nat): nat
  {
    if k == 0 then 1 else 10 * Pow10(k - 1)
  }

  lemma Pow10Values()
    ensures Pow10(2) == 100 && Pow10(4) == 10000 && Pow10(6) == 1000000
  {
    assert Pow10(1) == 10;
    assert Pow10(3) == 1000;
    assert Pow10(5) == 100000;
  }

  /** `n` in exactly `width` decimal digits, zero-padded on the left. */
  function Padded(n: nat, width: nat): (s: string)
    requires n < Pow10(width)
    ensures |s| == width && AllDigits(s)
  {
    if width == 0 then ""
    else Padded(n / 10, width - 1) + [DigitChar(n % 10)]
  }

  /** The number a string of decimal digits denotes. */
  function ParseDigits(s: string): nat
    requires AllDigits(s)
  {
    if s == [] then 0
    else 10 * ParseDigits(s[..|s| - 1]) + DigitValue(s[|s| - 1])
  }

  /** Reading back a zero-padded rendering gives the number. */
  lemma {:induction false} PaddedRoundTrip(n: nat, width: nat)
    requires n < Pow10(width)
    ensures ParseDigits(Padded(n, width)) == n
  {
    if width > 0 {
      var s := Padded(n, width);
      PaddedRoundTrip(n / 10, width - 1);
      assert s[..|s| - 1] == Padded(n / 10, width - 1);
      assert DigitValue(s[|s| - 1]) == n % 10;
    }
  }

  /** Every string of digits is the zero-padded rendering of the number it denotes. */
  lemma {:induction false} ParsedPadsBack(s: string)
    requires AllDigits(s)
    ensures ParseDigits(s) < Pow10(|s|)
    ensures Padded(ParseDigits(s), |s|) == s
  {
    if s != [] {
      var init := s[..|s| - 1];
      ParsedPadsBack(init);
      var n := ParseDigits(s);
      assert n / 10 == ParseDigits(init) && n % 10 == DigitValue(s[|s| - 1]);
      assert s == init + [s[|s| - 1]];
    }
  }

  /** `String(n)` for a non-negative integer: its decimal digits without leading zeros. */
  function Decimal(n: nat): (s: string)
    ensures s != [] && AllDigits(s)
    ensures |s| > 1 ==> s[0] != '0'
  {
    if n < 10 then [DigitChar(n)]
    else Decimal(n / 10) + [DigitChar(n % 10)]
  }

  /** Reading back the decimal rendering gives the number. */
  lemma {:induction false} DecimalRoundTrip(n: nat)
    ensures ParseDigits(Decimal(n)) == n
  {
    var s := Decimal(n);
    if n >= 10 {
      DecimalRoundTrip(n / 10);
      assert s[..|s| - 1] == Decimal(n / 10);
    } else {
      assert s[..0] == [];
    }
  }

  /** Lexicographic order of names by code point, the order in which file listings sort them. */
  predicate TextBefore(a: string, b: string)
  {
    if a == [] then b != []
    else if b == [] then false
    else if a[0] != b[0] then a[0] < b[0]
    else TextBefore(a[1..], b[1..])
  }

  /** Comparing texts made of equally long heads compares the heads first and the tails on a tie. */
  lemma {:induction false} TextBeforeConcat(a: string, c: string, b: string, d: string)
    requires |a| == |b|
    ensures TextBefore(a + c, b + d) <==> TextBefore(a, b) || (a == b && TextBefore(c, d))
  {
    if a != [] {
      assert (a + c)[0] == a[0] && (b + d)[0] == b[0];
      assert (a + c)[1..] == a[1..] + c && (b + d)[1..] == b[1..] + d;
      TextBeforeConcat(a[1..], c, b[1..], d);
      if a[0] == b[0] {
        assert a == b <==> a[1..] == b[1..];
      }
    } else {
      assert a + c == c && b + d == d;
    }
  }

  /** Zero-padded renderings of one width sort as the numbers do. */
  lemma {:induction false} PaddedOrder(n: nat, m: nat, width: nat)
    requires n < Pow10(width) && m < Pow10(width)
    ensures TextBefore(Padded(n, width), Padded(m, width)) <==> n < m
  {
    if width > 0 {
      PaddedOrder(n / 10, m / 10, width - 1);
      var hn, hm := Padded(n / 10, width - 1), Padded(m / 10, width - 1);
      PaddedRoundTrip(n / 10, width - 1);
      PaddedRoundTrip(m / 10, width - 1);
      assert hn == hm <==> n / 10 == m / 10;
      TextBeforeConcat(hn, [DigitChar(n % 10)], hm, [DigitChar(m % 10)]);
      assert TextBefore([DigitChar(n % 10)], [DigitChar(m % 10)]) <==> n % 10 < m % 10;
      DivModOrder(n, m);
    } else {
      assert n == 0 && m == 0;
    }
  }

  lemma DivModOrder(n: nat, m: nat)
    ensures n < m <==> n / 10 < m / 10 || (n / 10 == m / 10 && n % 10 < m % 10)
  {
    assert n == 10 * (n / 10) + n % 10;
    assert m == 10 * (m / 10) + m % 10;
  }
}
