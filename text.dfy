/**
 * String helpers shared by the model: decimal rendering (`str(int)`,
 * `"%0Nd"`), decoding of digit strings, `str.join`, substring tests and
 * ASCII lower-casing.
 */
module Text {

  predicate IsDigit(c: char) { '0' <= c <= '9' }

  predicate AllDigits(s: string) { forall i :: 0 <= i < |s| ==> IsDigit(s[i]) }

  function DigitValue(c: char): (d: nat)
    requires IsDigit(c)
    ensures d < 10
  {
    (c as int) - ('0' as int)
  }

  function DigitChar(d: nat): (c: char)
    requires d < 10
    ensures IsDigit(c) && DigitValue(c) == d
  {
    ((('0' as int) + d) as char)
  }

  function Pow10(w: nat): (p: nat)
    ensures p >= 1
  {
    if w == 0 then 1 else 10 * Pow10(w - 1)
  }

  /** Decimal rendering of a natural number, as `str(n)` for `n >= 0`. */
  function NatToString(n: nat): (s: string)
    ensures 1 <= |s| && AllDigits(s)
    decreases n
  {
    if n < 10 then [DigitChar(n)] else NatToString(n / 10) + [DigitChar(n % 10)]
  }

  /** `str(i)` for any integer: a minus sign in front of negative values. */
  function IntToString(i: int): (s: string)
    ensures |s| >= 1
    ensures (s[0] == '-') <==> i < 0
    ensures AllDigits(s[1..])
  {
    if i < 0 then "-" + NatToString(-i) else NatToString(i)
  }

  /** The value of a string of decimal digits, most significant first. */
  function DigitsValue(s: string): nat
    requires AllDigits(s)
  {
    if s == [] then 0 else 10 * DigitsValue(s[..|s| - 1]) + DigitValue(s[|s| - 1])
  }

  function Repeat(c: char, k: nat): (s: string)
    ensures |s| == k && forall i :: 0 <= i < k ==> s[i] == c
  {
    if k == 0 then [] else [c] + Repeat(c, k - 1)
  }

  /** `"%0{width}d" % n`: left-padded with zeros up to `width` characters, never cut. */
  function ZeroPad(n: nat, width: nat): string
  {
    var digits := NatToString(n);
    (if |digits| < width then Repeat('0', width - |digits|) else []) + digits
  }

  /** `sep.join(items)`. */
  function Join(items: seq<string>, sep: string): string
  {
    if |items| == 0 then ""
    else if |items| == 1 then items[0]
    else Join(items[..|items| - 1], sep) + sep + items[|items| - 1]
  }

  /** The items one after the other, each preceded by `sep`. */
  function Prefixed(items: seq<string>, sep: string): string
  {
    if |items| == 0 then "" else Prefixed(items[..|items| - 1], sep) + sep + items[|items| - 1]
  }

  /** `sub in s` for Python strings. */
  predicate Contains(s: string, sub: string)
    decreases |s|
  {
    (|sub| <= |s| && s[..|sub|] == sub) || (|s| > 0 && Contains(s[1..], sub))
  }

  /** `s.endswith(suffix)`. */
  predicate EndsWith(s: string, suffix: string)
  {
    |suffix| <= |s| && s[|s| - |suffix|..] == suffix
  }

  function LowerChar(c: char): char
  {
    if 'A' <= c <= 'Z' then ((c as int) + 32) as char else c
  }

  /** `s.lower()` on the ASCII letters; other characters are kept. */
  function LowerAscii(s: string): (r: string)
    ensures |r| == |s| && forall i :: 0 <= i < |s| ==> r[i] == LowerChar(s[i])
  {
    seq(|s|, i requires 0 <= i < |s| => LowerChar(s[i]))
  }

  // ---------------------------------------------------------------------------
  // Lemmas

  lemma {:induction false} NatToStringValue(n: nat)
    ensures DigitsValue(NatToString(n)) == n
    decreases n
  {
    if n >= 10 {
      NatToStringValue(n / 10);
      var s := NatToString(n);
      assert s[..|s| - 1] == NatToString(n / 10);
    }
  }

  lemma {:induction false} NatToStringInjective(a: nat, b: nat)
    requires NatToString(a) == NatToString(b)
    ensures a == b
  {
    NatToStringValue(a);
    NatToStringValue(b);
  }

  lemma {:induction false} NatToStringLength(n: nat, w: nat)
    requires 1 <= w && n < Pow10(w)
    ensures |NatToString(n)| <= w
    decreases w
  {
    if n >= 10 {
      assert w >= 2;
      NatToStringLength(n / 10, w - 1);
    }
  }

  lemma {:induction false} LeadingZeros(k: nat, s: string)
    requires AllDigits(s)
    ensures AllDigits(Repeat('0', k) + s)
    ensures DigitsValue(Repeat('0', k) + s) == DigitsValue(s)
    decreases |s|
  {
    var z := Repeat('0', k);
    if s == [] {
      assert z + s == z;
      ZerosValue(k);
    } else {
      var init := s[..|s| - 1];
      LeadingZeros(k, init);
      assert (z + s)[..|z + s| - 1] == z + init;
    }
  }

  lemma {:induction false} ZerosValue(k: nat)
    ensures DigitsValue(Repeat('0', k)) == 0
    decreases k
  {
    if k > 0 {
      var z := Repeat('0', k);
      assert z[..k - 1] == Repeat('0', k - 1);
      ZerosValue(k - 1);
    }
  }

  /** A value below 10^width renders in exactly `width` digits and decodes back. */
  lemma ZeroPadDigits(n: nat, width: nat)
    requires 1 <= width && n < Pow10(width)
    ensures |ZeroPad(n, width)| == width
    ensures AllDigits(ZeroPad(n, width))
    ensures DigitsValue(ZeroPad(n, width)) == n
  {
    NatToStringLength(n, width);
    NatToStringValue(n);
    var digits := NatToString(n);
    var k := if |digits| < width then width - |digits| else 0;
    assert ZeroPad(n, width) == Repeat('0', k) + digits;
    LeadingZeros(k, digits);
  }

  /** Two-digit padding spelled out digit by digit. */
  lemma ZeroPad2(n: nat)
    requires n < 100
    ensures ZeroPad(n, 2) == [DigitChar(n / 10), DigitChar(n % 10)]
  {
    if n >= 10 {
      assert NatToString(n / 10) == [DigitChar(n / 10)];
    }
  }

  /** Appending one item to a non-empty join appends the separator and the item. */
  lemma JoinAppend(items: seq<string>, x: string, sep: string)
    requires |items| >= 1
    ensures Join(items + [x], sep) == Join(items, sep) + sep + x
  {
    assert (items + [x])[..|items|] == items;
  }

  /** A string contains every piece it is assembled from. */
  lemma {:induction false} ContainsMiddle(a: string, b: string, c: string)
    ensures Contains(a + b + c, b)
    decreases |a|
  {
    var s := a + b + c;
    if a == [] {
      assert s[..|b|] == b;
    } else {
      ContainsMiddle(a[1..], b, c);
      assert s[1..] == a[1..] + b + c;
    }
  }

  lemma {:induction false} ContainsLower(s: string, sub: string)
    requires Contains(s, sub)
    ensures Contains(LowerAscii(s), LowerAscii(sub))
    decreases |s|
  {
    if |sub| <= |s| && s[..|sub|] == sub {
      assert LowerAscii(s)[..|sub|] == LowerAscii(sub);
    } else {
      ContainsLower(s[1..], sub);
      assert LowerAscii(s)[1..] == LowerAscii(s[1..]);
    }
  }

  /** A separator followed by a join is each item preceded by the separator. */
  lemma {:induction false} JoinPrefixed(items: seq<string>, sep: string)
    requires |items| >= 1
    ensures sep + Join(items, sep) == Prefixed(items, sep)
    decreases |items|
  {
    if |items| == 1 {
      assert items[..0] == [];
    } else {
      JoinPrefixed(items[..|items| - 1], sep);
    }
  }

  /** A prefixed sequence splits around any one of its items. */
  lemma {:induction false} PrefixedSplit(items: seq<string>, sep: string, i: nat)
    requires i < |items|
    ensures Prefixed(items, sep) == Prefixed(items[..i], sep) + sep + items[i] + Prefixed(items[i + 1..], sep)
    decreases |items|
  {
    var n := |items|;
    var init := items[..n - 1];
    if i == n - 1 {
      assert init == items[..i];
      assert items[i + 1..] == [];
    } else {
      PrefixedSplit(init, sep, i);
      assert init[..i] == items[..i];
      assert init[i] == items[i];
      var tail := items[i + 1..];
      assert tail[..|tail| - 1] == init[i + 1..];
      assert tail[|tail| - 1] == items[n - 1];
    }
  }

  /** Each item of a prefixed sequence appears in it after the separator. */
  lemma PrefixedContains(items: seq<string>, sep: string, i: nat)
    requires i < |items|
    ensures Contains(Prefixed(items, sep), sep + items[i])
  {
    PrefixedSplit(items, sep, i);
    ContainsAround(Prefixed(items[..i], sep), sep, items[i], Prefixed(items[i + 1..], sep));
  }

  /** `ContainsMiddle` with the middle piece given in two parts. */
  lemma ContainsAround(a: string, b1: string, b2: string, c: string)
    ensures Contains(a + b1 + b2 + c, b1 + b2)
  {
    ContainsMiddle(a, b1 + b2, c);
    assert a + b1 + b2 + c == a + (b1 + b2) + c;
  }

  /** Lower-casing works character by character, so it distributes over concatenation. */
  lemma LowerAsciiConcat(a: string, b: string)
    ensures LowerAscii(a + b) == LowerAscii(a) + LowerAscii(b)
  {
  }

  /** A substring is no longer than the string holding it. */
  lemma {:induction false} ContainsLength(s: string, sub: string)
    ensures Contains(s, sub) ==> |sub| <= |s|
    decreases |s|
  {
    if |s| > 0 {
      ContainsLength(s[1..], sub);
    }
  }

  /** A prefix of `s` reaching past position `k` holds `s[k]`, so one without the character `c` stops before it. */
  lemma PrefixStopsAt(s: string, sub: string, k: nat, c: char)
    requires k < |s| && s[k] == c && c !in sub
    ensures !(k < |sub| <= |s| && s[..|sub|] == sub)
  {
    if k < |sub| <= |s| {
      assert s[..|sub|][k] == s[k];
    }
  }

  /** A string free of `c` is not found in a string that starts with `c` and is no longer than it. */
  lemma NotInMarkedTail(b: string, sub: string, c: char)
    requires 1 <= |b| <= |sub| && b[0] == c && c !in sub
    ensures !Contains(b, sub)
  {
    PrefixStopsAt(b, sub, 0, c);
    ContainsLength(b[1..], sub);
  }

  /**
   * A string free of `c` and at least as long as `a`, found in `a + t` where
   * `a` ends with `c`, is found in `t`: any occurrence starting inside `a`
   * would hold that last `c`.
   */
  lemma {:induction false} ContainsAfterMark(a: string, t: string, sub: string, c: char)
    requires 1 <= |a| <= |sub| && a[|a| - 1] == c && c !in sub
    ensures Contains(a + t, sub) ==> Contains(t, sub)
    decreases |a|
  {
    var s := a + t;
    PrefixStopsAt(s, sub, |a| - 1, c);
    assert s[1..] == a[1..] + t;
    if |a| > 1 {
      ContainsAfterMark(a[1..], t, sub, c);
    } else {
      assert a[1..] == [];
    }
  }

  /**
   * A string free of `c`, found in `q + b` where `b` starts with `c` and is no
   * longer than it, is found in `q`: an occurrence cannot hold that `c`.
   */
  lemma {:induction false} ContainsBeforeMark(q: string, b: string, sub: string, c: char)
    requires 1 <= |b| <= |sub| && b[0] == c && c !in sub
    ensures Contains(q + b, sub) ==> Contains(q, sub)
    decreases |q|
  {
    var s := q + b;
    if |q| == 0 {
      assert s == b;
      NotInMarkedTail(b, sub, c);
    } else {
      ContainsBeforeMark(q[1..], b, sub, c);
      assert s[1..] == q[1..] + b;
      PrefixStopsAt(s, sub, |q|, c);
      if |sub| <= |q| {
        assert s[..|sub|] == q[..|sub|];
      }
    }
  }

  /** A substring of a piece is a substring of the whole. */
  lemma {:induction false} ContainsInside(a: string, b: string, c: string, sub: string)
    requires Contains(b, sub)
    ensures Contains(a + b + c, sub)
    decreases |a|, |b|
  {
    var s := a + b + c;
    if a == [] {
      if |sub| <= |b| && b[..|sub|] == sub {
        assert s[..|sub|] == sub;
      } else {
        ContainsInside([], b[1..], c, sub);
        assert s[1..] == [] + b[1..] + c;
      }
    } else {
      ContainsInside(a[1..], b, c, sub);
      assert s[1..] == a[1..] + b + c;
    }
  }
}
