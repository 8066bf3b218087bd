/**
 * Amount text as the import and OCR code read it: `.replace(/[^0-9.-]/g, '')`
 * followed by `parseFloat` and `Math.abs`.
 */
module Amounts {
  import opened Common
  import opened Text

  /** The characters the cleaning step keeps. */
  predicate AmountChar(c: char) { IsDigit(c) || c == '.' || c == '-' }

  predicate IsAmountText(s: string) { forall i :: 0 <= i < |s| ==> AmountChar(s[i]) }

  /** `.replace(/[^0-9.-]/g, '')`: the digits, dots and minus signs of `s`, in order. */
  function CleanAmountText(s: string): (r: string)
    ensures IsAmountText(r)
    ensures |r| <= |s|
  {
    if s == [] then []
    else (if AmountChar(s[0]) then [s[0]] else []) + CleanAmountText(s[1..])
  }

  /** Cleaning works character by character, so it distributes over concatenation. */
  lemma {:induction false} CleanAppend(a: string, b: string)
    ensures CleanAmountText(a + b) == CleanAmountText(a) + CleanAmountText(b)
  {
    if a != [] {
      assert (a + b)[1..] == a[1..] + b;
      CleanAppend(a[1..], b);
    } else {
      assert a + b == b;
    }
  }

  /** Text already made of digits, dots and minus signs is left as it is. */
  lemma {:induction false} CleanKeepsAmountText(s: string)
    requires IsAmountText(s)
    ensures CleanAmountText(s) == s
  {
    if s != [] {
      CleanKeepsAmountText(s[1..]);
    }
  }

  /** The longest run of digits at the start of `s`. */
  function DigitPrefix(s: string): (r: string)
    ensures |r| <= |s| && r == s[..|r|] && AllDigits(r)
    ensures |r| < |s| ==> !IsDigit(s[|r|])
  {
    if s != [] && IsDigit(s[0]) then [s[0]] + DigitPrefix(s[1..]) else []
  }

  /**
   * `parseFloat` on text of digits, dots and minus signs: an optional minus, digits,
   * optionally a dot and more digits, at least one digit in all; what follows the
   * longest such prefix is ignored. `None` is NaN.
   */
  function ParseFloat(s: string): Option<real>
    requires IsAmountText(s)
  {
    if |s| > 0 && s[0] == '-' then
      match ParseUnsigned(s[1..])
      case None => None
      case Some(v) => Some(-v)
    else ParseUnsigned(s)
  }

  /** The unsigned decimal at the start of `s`: digits, then optionally a dot and digits. */
  function ParseUnsigned(s: string): Option<real> {
    var whole := DigitPrefix(s);
    var rest := s[|whole|..];
    var frac := if |rest| > 0 && rest[0] == '.' then DigitPrefix(rest[1..]) else "";
    DecimalValue(whole, frac)
  }

  /** The number `whole.frac`; NaN when both runs are empty. */
  function DecimalValue(whole: string, frac: string): Option<real>
    requires AllDigits(whole) && AllDigits(frac)
  {
    if |whole| + |frac| == 0 then None
    else Some(DigitsValue(whole) as real + Scaled(DigitsValue(frac) as real, |frac|))
  }

  function Abs(x: real): real { if x < 0.0 then -x else x }

  /**
   * `normalizeAmount` / `parseAmount` on text: clean, parse, and take the absolute
   * value; `None` when nothing numeric is left.
   */
  function ParseAmountText(s: string): (r: Option<real>)
    ensures r.Some? ==> r.value >= 0.0
  {
    match ParseFloat(CleanAmountText(s))
    case None => None
    case Some(v) => Some(Abs(v))
  }

  /** `n` units and `cents` hundredths written as `n.cc`. */
  function Money(n: nat, cents: nat): string
    requires cents < 100
  {
    NatToString(n) + "." + [DigitChar(cents / 10), DigitChar(cents % 10)]
  }

  /**
   * An amount written `n.cc`, with any currency sign, thousands text or label
   * around it that holds no digit, dot or minus, and optionally a minus sign in
   * front, is read back as the non-negative number `n + cc/100`.
   */
  lemma ParseMoney(pre: string, n: nat, cents: nat, post: string)
    requires cents < 100
    requires CleanAmountText(pre) == "" || CleanAmountText(pre) == "-"
    requires CleanAmountText(post) == ""
    ensures ParseAmountText(pre + Money(n, cents) + post) == Some(n as real + cents as real / 100.0)
  {
    var text := pre + Money(n, cents) + post;
    var neg := CleanAmountText(pre) == "-";
    CleanAroundMoney(pre, n, cents, post);
    SignedMoneyValue(neg, n, cents, text);
  }

  /** Text that cleans to `n.cc`, possibly after a minus sign, parses to `n + cc/100`. */
  lemma SignedMoneyValue(neg: bool, n: nat, cents: nat, text: string)
    requires cents < 100
    requires CleanAmountText(text) == (if neg then "-" else "") + Money(n, cents)
    ensures ParseAmountText(text) == Some(n as real + cents as real / 100.0)
  {
    var v := n as real + cents as real / 100.0;
    assert v >= 0.0;
    var w := if neg then -v else v;
    assert w == v || w == -v;
    ParseFloatOfMoney(neg, n, cents, CleanAmountText(text), w);
    ParseAmountOfSigned(text, w, v);
  }

  /** Text whose cleaned form parses to `v` or `-v`, for `v` not negative, is read as `v`. */
  lemma ParseAmountOfSigned(s: string, w: real, v: real)
    requires ParseFloat(CleanAmountText(s)) == Some(w)
    requires v >= 0.0 && (w == v || w == -v)
    ensures ParseAmountText(s) == Some(v)
  {
    ParseAmountOfParsed(s, w);
    assert Abs(w) == v;
  }

  lemma ParseAmountOfParsed(s: string, w: real)
    requires ParseFloat(CleanAmountText(s)) == Some(w)
    ensures ParseAmountText(s) == Some(Abs(w))
  {
  }

  lemma CleanAroundMoney(pre: string, n: nat, cents: nat, post: string)
    requires cents < 100
    requires CleanAmountText(post) == ""
    ensures CleanAmountText(pre + Money(n, cents) + post) == CleanAmountText(pre) + Money(n, cents)
  {
    var m := Money(n, cents);
    assert IsAmountText(m);
    CleanAppend(pre + m, post);
    CleanAppend(pre, m);
    CleanKeepsAmountText(m);
  }

  lemma ParseFloatOfMoney(neg: bool, n: nat, cents: nat, s: string, w: real)
    requires cents < 100
    requires s == (if neg then "-" else "") + Money(n, cents)
    requires w == if neg then -(n as real + cents as real / 100.0) else n as real + cents as real / 100.0
    ensures IsAmountText(s)
    ensures ParseFloat(s) == Some(w)
  {
    var m := Money(n, cents);
    assert IsAmountText(m);
    assert IsAmountText(s);
    ParseUnsignedMoney(n, cents);
    if neg {
      assert s[1..] == m;
    } else {
      assert s == m && m[0] != '-';
    }
  }

  lemma ParseUnsignedMoney(n: nat, cents: nat)
    requires cents < 100
    ensures ParseUnsigned(Money(n, cents)) == Some(n as real + cents as real / 100.0)
  {
    var d := NatToString(n);
    var f := [DigitChar(cents / 10), DigitChar(cents % 10)];
    var m := Money(n, cents);
    assert m == d + ("." + f);
    DigitRunEnds(d, "." + f);
    assert m[|d|..] == "." + f;
    assert ("." + f)[1..] == f;
    DigitRunEnds(f, "");
    assert f + "" == f;
    NatToStringRoundTrip(n);
    TwoDigitsValue(cents);
    ScaledTwice(cents as real);
    assert DecimalValue(d, f) == Some(n as real + cents as real / 100.0);
  }

  lemma TwoDigitsValue(cents: nat)
    requires cents < 100
    ensures DigitsValue([DigitChar(cents / 10), DigitChar(cents % 10)]) == cents
  {
    var f := [DigitChar(cents / 10), DigitChar(cents % 10)];
    assert DigitValue(f[0]) == cents / 10;
    assert DigitValue(f[1]) == cents % 10;
    assert f[..1] == [f[0]];
    assert [f[0]][..0] == [];
    assert DigitsValue(f[..1]) == cents / 10;
  }

  /** The digit prefix of a run of digits followed by a non-digit is that run. */
  lemma {:induction false} DigitRunEnds(d: string, rest: string)
    requires AllDigits(d)
    requires rest == [] || !IsDigit(rest[0])
    ensures DigitPrefix(d + rest) == d
  {
    if d != [] {
      assert (d + rest)[1..] == d[1..] + rest;
      DigitRunEnds(d[1..], rest);
    } else {
      assert d + rest == rest;
    }
  }
}
