/**
 * The pieces of java.lang.String and java.lang.Integer that the app relies on:
 * decimal rendering (`String.valueOf(int)`, `"%,d"`, zero padding), `Integer.parseInt`,
 * `String.trim`, the `replaceAll("[^0-9]", "")` digit filter, and the lexicographic
 * order in which the step table sorts its date keys.
 */
module JavaText {
  import opened Wrappers
  import JavaInt

  // ---------------------------------------------------------------------------
  // Decimal digits

  predicate IsDigit(c: char) {
    '0' <= c <= '9'
  }

  predicate AllDigits(s: string) {
    forall i :: 0 <= i < |s| ==> IsDigit(s[i])
  }

  function DigitChar(d: nat): (c: char)
    requires d < 10
    ensures IsDigit(c)
  {
    ('0' as int + d) as char
  }

  function DigitOf(c: char): (d: nat)
    requires IsDigit(c)
    ensures d < 10 && DigitChar(d) == c
  {
    c as int - '0' as int
  }

  function Pow10(k: nat): (p: nat)
    ensures p >= 1
  {
    if k == 0 then 1 else 10 * Pow10(k - 1)
  }

  /** The value of a string of decimal digits, most significant digit first. */
  function DigitsValue(s: string): (v: nat)
    requires AllDigits(s)
    ensures v < Pow10(|s|)
  {
    if s == [] then 0 else DigitsValue(s[..|s| - 1]) * 10 + DigitOf(s[|s| - 1])
  }

  lemma AllDigitsAppend(a: string, b: string)
    requires AllDigits(a) && AllDigits(b)
    ensures AllDigits(a + b)
  {
    forall i | 0 <= i < |a + b|
      ensures IsDigit((a + b)[i])
    {
      if i < |a| {
        assert (a + b)[i] == a[i];
      } else {
        assert (a + b)[i] == b[i - |a|];
      }
    }
  }

  /** Digits appended after `a` shift its value left by their count. */
  lemma {:induction false} DigitsValueAppend(a: string, b: string)
    requires AllDigits(a) && AllDigits(b)
    ensures AllDigits(a + b)
    ensures DigitsValue(a + b) == DigitsValue(a) * Pow10(|b|) + DigitsValue(b)
    decreases |b|
  {
    AllDigitsAppend(a, b);
    if b == [] {
      assert a + b == a;
    } else {
      var b' := b[..|b| - 1];
      var d := DigitOf(b[|b| - 1]);
      var ab := a + b;
      assert ab[..|ab| - 1] == a + b';
      assert ab[|ab| - 1] == b[|b| - 1];
      DigitsValueAppend(a, b');
      Shift(DigitsValue(ab), DigitsValue(a + b'), DigitsValue(a), Pow10(|b'|), DigitsValue(b'), d,
            Pow10(|b|), DigitsValue(b));
    }
  }

  /** The arithmetic step of `DigitsValueAppend`, kept apart from the sequence reasoning. */
  lemma Shift(x: int, y: int, va: int, p: int, vb: int, d: int, pb: int, b: int)
    requires x == y * 10 + d && y == va * p + vb
    requires pb == 10 * p && b == vb * 10 + d
    ensures x == va * pb + b
  {
    calc {
      x;
      (va * p + vb) * 10 + d;
      va * (p * 10) + (vb * 10 + d);
      va * pb + b;
    }
  }

  // ---------------------------------------------------------------------------
  // Rendering numbers

  /**
   * The decimal digits of `x`, left-padded with zeros to at least `width` characters:
   * `String.format("%0<width>d", x)`, or `String.valueOf(x)` for width 1.
   */
  function Pad(x: nat, width: nat): (r: string)
    ensures AllDigits(r) && |r| >= 1 && |r| >= width
    decreases x + width
  {
    if x < 10 && width <= 1 then [DigitChar(x)]
    else Pad(x / 10, if width == 0 then 0 else width - 1) + [DigitChar(x % 10)]
  }

  /** Reading back a rendered number gives the number: padding zeros add nothing. */
  lemma {:induction false} PadValue(x: nat, width: nat)
    ensures DigitsValue(Pad(x, width)) == x
    decreases x + width
  {
    if !(x < 10 && width <= 1) {
      var w' := if width == 0 then 0 else width - 1;
      var head := Pad(x / 10, w');
      assert (head + [DigitChar(x % 10)])[..|head|] == head;
      PadValue(x / 10, w');
    }
  }

  /** A number below 10^width renders in exactly `width` characters. */
  lemma {:induction false} PadLength(x: nat, width: nat)
    requires width >= 1 && x < Pow10(width)
    ensures |Pad(x, width)| == width
    decreases width
  {
    if !(x < 10 && width <= 1) {
      PadLength(x / 10, width - 1);
    }
  }

  /** `String.valueOf(int)` / `Integer.toString`. */
  function IntToString(n: int): (r: string)
    ensures |r| >= 1
    ensures r[0] == '-' <==> n < 0
    ensures n >= 0 ==> AllDigits(r)
    ensures n < 0 ==> AllDigits(r[1..])
  {
    if n < 0 then "-" + Pad(-n, 1) else Pad(n, 1)
  }

  /** `String.format("%,d", n)`: the digits of `n` in groups of three separated by commas. */
  function Grouped(n: int): (r: string)
    ensures |r| >= 1
    ensures r[0] == '-' <==> n < 0
    ensures n >= 0 ==> IsDigit(r[0])
    decreases if n < 0 then -n + 1 else n
  {
    if n < 0 then "-" + Grouped(-n)
    else if n < 1000 then Pad(n, 1)
    else Grouped(n / 1000) + "," + Pad(n % 1000, 3)
  }

  // ---------------------------------------------------------------------------
  // Integer.parseInt

  /**
   * `Integer.parseInt(s)`: an optional `-` or `+` followed by one or more decimal digits
   * whose value fits in an `int`; anything else is a `NumberFormatException` (`None`).
   * Leading zeros are accepted; whitespace is not.
   */
  function ParseInt(s: string): (r: Option<int>)
    ensures r.Some? ==> JavaInt.IsInt(r.value)
    ensures s == [] || s == "-" || s == "+" ==> r == None
    ensures |s| > 0 && s[0] != '-' && s[0] != '+' && !IsDigit(s[0]) ==> r == None
    ensures (exists i :: 0 < i < |s| && !IsDigit(s[i])) ==> r == None
    ensures s != [] && AllDigits(s) ==>
              (r.Some? <==> DigitsValue(s) <= JavaInt.MAX_INT) && (r.Some? ==> r.value == DigitsValue(s))
    ensures |s| > 1 && (s[0] == '-' || s[0] == '+') && AllDigits(s[1..]) ==>
              var v: int := if s[0] == '-' then 0 - DigitsValue(s[1..]) else DigitsValue(s[1..]);
              (r.Some? <==> JavaInt.IsInt(v)) && (r.Some? ==> r.value == v)
    ensures r.Some? && r.value < 0 ==> s[0] == '-'
  {
    if s == [] then None
    else
      var body := if s[0] == '-' || s[0] == '+' then s[1..] else s;
      if body == [] || !AllDigits(body) then None
      else
        var v: int := if s[0] == '-' then 0 - DigitsValue(body) else DigitsValue(body);
        if JavaInt.IsInt(v) then Some(v) else None
  }

  /** Parsing what `String.valueOf` printed gives back the same `int`. */
  lemma ParseIntOfIntToString(n: int)
    requires JavaInt.IsInt(n)
    ensures ParseInt(IntToString(n)) == Some(n)
  {
    var digits := Pad(if n < 0 then -n else n, 1);
    PadValue(if n < 0 then -n else n, 1);
    if n < 0 {
      assert IntToString(n)[1..] == digits;
    }
  }

  // ---------------------------------------------------------------------------
  // replaceAll("[^0-9]", "")

  /** The ASCII digits of `s`, in order. */
  function StripNonDigits(s: string): (r: string)
    ensures AllDigits(r) && |r| <= |s|
  {
    if s == [] then []
    else (if IsDigit(s[0]) then [s[0]] else []) + StripNonDigits(s[1..])
  }

  lemma {:induction false} StripAppend(a: string, b: string)
    ensures StripNonDigits(a + b) == StripNonDigits(a) + StripNonDigits(b)
  {
    if a == [] {
      assert a + b == b;
    } else {
      assert (a + b)[0] == a[0] && (a + b)[1..] == a[1..] + b;
      StripAppend(a[1..], b);
    }
  }

  lemma {:induction false} StripNoDigits(s: string)
    requires forall i :: 0 <= i < |s| ==> !IsDigit(s[i])
    ensures StripNonDigits(s) == []
  {
    if s != [] {
      StripNoDigits(s[1..]);
    }
  }

  lemma {:induction false} StripDigits(s: string)
    requires AllDigits(s)
    ensures StripNonDigits(s) == s
  {
    if s != [] {
      StripDigits(s[1..]);
    }
  }

  /** Stripping the separators from a `"%,d"` rendering leaves the digits of the number. */
  lemma {:induction false} StripGrouped(n: nat)
    ensures StripNonDigits(Grouped(n)) != []
    ensures DigitsValue(StripNonDigits(Grouped(n))) == n
    decreases n
  {
    if n < 1000 {
      StripDigits(Pad(n, 1));
      PadValue(n, 1);
    } else {
      StripGrouped(n / 1000);
      StripGroupedStep(n);
      GroupValue(StripNonDigits(Grouped(n / 1000)), n / 1000, n % 1000);
    }
  }

  /** The digits of `Grouped(n)` for `n >= 1000` are those of `Grouped(n / 1000)` then the last group. */
  lemma StripGroupedStep(n: nat)
    requires n >= 1000
    ensures StripNonDigits(Grouped(n)) == StripNonDigits(Grouped(n / 1000)) + Pad(n % 1000, 3)
  {
    var g, tail := Grouped(n / 1000), Pad(n % 1000, 3);
    assert Grouped(n) == (g + ",") + tail;
    StripAppend(g + ",", tail);
    StripAppend(g, ",");
    StripNoDigits(",");
    StripDigits(tail);
    assert StripNonDigits(g + ",") == StripNonDigits(g) + [];
  }

  /** Appending the three-digit group of `r` to the digits of `q` gives the digits of `q * 1000 + r`. */
  lemma GroupValue(head: string, q: nat, r: nat)
    requires AllDigits(head) && DigitsValue(head) == q && r < 1000
    ensures AllDigits(head + Pad(r, 3))
    ensures DigitsValue(head + Pad(r, 3)) == q * 1000 + r
  {
    assert Pow10(3) == 1000;
    PadLength(r, 3);
    PadValue(r, 3);
    DigitsValueAppend(head, Pad(r, 3));
  }

  // ---------------------------------------------------------------------------
  // String.trim

  /** The characters `String.trim` removes: every code point up to and including U+0020. */
  predicate IsTrimmable(c: char) {
    c <= ' '
  }

  function TrimStart(s: string): (r: string)
    ensures r == [] || !IsTrimmable(r[0])
    ensures |r| <= |s| && r == s[|s| - |r|..]
    ensures forall i :: 0 <= i < |s| - |r| ==> IsTrimmable(s[i])
  {
    if s != [] && IsTrimmable(s[0]) then TrimStart(s[1..]) else s
  }

  function TrimEnd(s: string): (r: string)
    ensures r == [] || !IsTrimmable(r[|r| - 1])
    ensures |r| <= |s| && r == s[..|r|]
    ensures forall i :: |r| <= i < |s| ==> IsTrimmable(s[i])
  {
    if s != [] && IsTrimmable(s[|s| - 1]) then TrimEnd(s[..|s| - 1]) else s
  }

  /** Every character of `t` is one `String.trim` removes. */
  predicate AllTrimmable(t: string) {
    forall k :: 0 <= k < |t| ==> IsTrimmable(t[k])
  }

  /** `String.trim`: drops the trimmable characters at both ends and keeps the middle. */
  function Trim(s: string): (r: string)
    ensures r == [] || (!IsTrimmable(r[0]) && !IsTrimmable(r[|r| - 1]))
    ensures |r| <= |s|
    ensures exists i, j :: 0 <= i <= j <= |s| && r == s[i..j] && AllTrimmable(s[..i]) && AllTrimmable(s[j..])
  {
    TrimIsSlice(s);
    TrimEnd(TrimStart(s))
  }

  lemma TrimIsSlice(s: string)
    ensures var r := TrimEnd(TrimStart(s));
            exists i, j :: 0 <= i <= j <= |s| && r == s[i..j] && AllTrimmable(s[..i]) && AllTrimmable(s[j..])
  {
    var t := TrimStart(s);
    var r := TrimEnd(t);
    TrimStartDropsTrimmable(s);
    TrimEndDropsTrimmable(t);
    MiddleOfSuffix(s, t, r);
  }

  /** A prefix `r` of a suffix `t` of `s` is a slice of `s`, and what follows `r` in `t` ends `s`. */
  lemma MiddleOfSuffix(s: string, t: string, r: string)
    requires |t| <= |s| && t == s[|s| - |t|..]
    requires |r| <= |t| && r == t[..|r|]
    requires AllTrimmable(s[..|s| - |t|]) && AllTrimmable(t[|r|..])
    ensures exists i, j :: 0 <= i <= j <= |s| && r == s[i..j] && AllTrimmable(s[..i]) && AllTrimmable(s[j..])
  {
    var i := |s| - |t|;
    var j := i + |r|;
    assert r == s[i..j];
    assert s[j..] == t[|r|..];
  }

  lemma TrimStartDropsTrimmable(s: string)
    ensures AllTrimmable(s[..|s| - |TrimStart(s)|])
  {
    var n := |s| - |TrimStart(s)|;
    forall k | 0 <= k < n
      ensures IsTrimmable(s[..n][k])
    {
      assert s[..n][k] == s[k];
    }
  }

  lemma TrimEndDropsTrimmable(t: string)
    ensures AllTrimmable(t[|TrimEnd(t)|..])
  {
    var m := |TrimEnd(t)|;
    forall k | 0 <= k < |t| - m
      ensures IsTrimmable(t[m..][k])
    {
      assert t[m..][k] == t[m + k];
    }
  }

  /** A string with no trimmable character at either end is its own trim. */
  lemma TrimOfTrimmed(s: string)
    requires s == [] || (!IsTrimmable(s[0]) && !IsTrimmable(s[|s| - 1]))
    ensures Trim(s) == s
  {
  }

  lemma TrimIdempotent(s: string)
    ensures Trim(Trim(s)) == Trim(s)
  {
    TrimOfTrimmed(Trim(s));
  }

  // ---------------------------------------------------------------------------
  // Lexicographic order

  /**
   * Strict lexicographic order by character code, the order `ORDER BY date` uses for
   * the step table's keys (SQLite's BINARY collation on ASCII text).
   */
  predicate LexLess(a: string, b: string) {
    if a == [] then b != []
    else if b == [] then false
    else if a[0] != b[0] then a[0] < b[0]
    else LexLess(a[1..], b[1..])
  }

  lemma {:induction false} LexIrreflexive(a: string)
    ensures !LexLess(a, a)
  {
    if a != [] {
      LexIrreflexive(a[1..]);
    }
  }

  lemma {:induction false} LexAsymmetric(a: string, b: string)
    requires LexLess(a, b)
    ensures !LexLess(b, a)
  {
    if a != [] && b != [] && a[0] == b[0] {
      LexAsymmetric(a[1..], b[1..]);
    }
  }

  lemma {:induction false} LexTransitive(a: string, b: string, c: string)
    requires LexLess(a, b) && LexLess(b, c)
    ensures LexLess(a, c)
  {
    if a != [] && b != [] && c != [] && a[0] == b[0] && b[0] == c[0] {
      LexTransitive(a[1..], b[1..], c[1..]);
    }
  }

  /** Any two different keys are ordered one way or the other. */
  lemma {:induction false} LexTotal(a: string, b: string)
    requires a != b
    ensures LexLess(a, b) || LexLess(b, a)
  {
    if a != [] && b != [] && a[0] == b[0] {
      assert a == [a[0]] + a[1..] && b == [b[0]] + b[1..];
      LexTotal(a[1..], b[1..]);
    }
  }

  /** Comparing two concatenations whose first parts have equal length: the first parts decide, then the rest. */
  lemma {:induction false} LexAppend(a: string, x: string, b: string, y: string)
    requires |a| == |b|
    ensures LexLess(a + x, b + y) <==> LexLess(a, b) || (a == b && LexLess(x, y))
  {
    if a == [] {
      assert a + x == x && b + y == y;
    } else {
      assert (a + x)[1..] == a[1..] + x && (b + y)[1..] == b[1..] + y;
      LexAppend(a[1..], x, b[1..], y);
      if a[0] == b[0] && a[1..] == b[1..] {
        assert a == [a[0]] + a[1..] && b == [b[0]] + b[1..];
      }
    }
  }

  /** Zero-padded numbers of the same width sort as the numbers do. */
  lemma {:induction false} PadOrder(x: nat, y: nat, width: nat)
    requires width >= 1 && x < Pow10(width) && y < Pow10(width)
    ensures LexLess(Pad(x, width), Pad(y, width)) <==> x < y
    decreases width
  {
    if width == 1 {
      LastDigitOrder(x, y);
    } else {
      PadSplit(x, width);
      PadSplit(y, width);
      var hx, hy := Pad(x / 10, width - 1), Pad(y / 10, width - 1);
      LexAppend(hx, [DigitChar(x % 10)], hy, [DigitChar(y % 10)]);
      PadOrder(x / 10, y / 10, width - 1);
      PadInjective(x / 10, y / 10, width - 1);
      LastDigitOrder(x, y);
      DigitOrder(x, y);
    }
  }

  /** A number of `width >= 2` digits renders as its leading digits, then its last digit. */
  lemma PadSplit(x: nat, width: nat)
    requires width >= 2 && x < Pow10(width)
    ensures x / 10 < Pow10(width - 1)
    ensures Pad(x, width) == Pad(x / 10, width - 1) + [DigitChar(x % 10)]
    ensures |Pad(x / 10, width - 1)| == width - 1
  {
    DropLastDigit(x, width);
    PadLength(x / 10, width - 1);
  }

  /** One-character strings of last digits compare as the digits; for `x, y < 10` they are `Pad(x, 1)`, `Pad(y, 1)`. */
  lemma LastDigitOrder(x: nat, y: nat)
    ensures LexLess([DigitChar(x % 10)], [DigitChar(y % 10)]) <==> x % 10 < y % 10
    ensures x < 10 && y < 10 ==> (LexLess(Pad(x, 1), Pad(y, 1)) <==> x < y)
  {
    assert x < 10 ==> Pad(x, 1) == [DigitChar(x)];
    assert y < 10 ==> Pad(y, 1) == [DigitChar(y)];
  }

  /** Renderings of the same width are equal exactly when the numbers are. */
  lemma PadInjective(x: nat, y: nat, width: nat)
    ensures Pad(x, width) == Pad(y, width) <==> x == y
  {
    PadValue(x, width);
    PadValue(y, width);
  }

  lemma DropLastDigit(x: nat, width: nat)
    requires width >= 2 && x < Pow10(width)
    ensures x / 10 < Pow10(width - 1)
  {
  }

  /** Numbers compare by all but their last digit, then by the last digit. */
  lemma DigitOrder(x: nat, y: nat)
    ensures x < y <==> x / 10 < y / 10 || (x / 10 == y / 10 && x % 10 < y % 10)
  {
  }
}
