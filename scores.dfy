/**
 * Relevance scores. The service prints scores with `:.3f` and reads them back
 * with `float()`; the model keeps them as integer thousandths, so that
 * `0.923` is the integer 923 and printing then parsing is exact.
 */
module Scores {
  import opened Wrappers
  import opened Text

  /** A relevance score in thousandths. */
  type Score = int

  /** `min_score=0.5`, the retriever's default threshold. */
  const DefaultMinScore: Score := 500

  /** The last `width` decimal digits of `n`, zero-padded. */
  function Digits(n: nat, width: nat): string {
    if width == 0 then [] else Digits(n / 10, width - 1) + [DigitChar(n % 10)]
  }

  /** Three digits, zero-padded: the fractional part printed by `:.3f`. */
  function Pad3(n: nat): string
    requires n < 1000
  {
    Digits(n, 3)
  }

  lemma {:induction false} DigitsSnoc(n: nat, width: nat)
    requires width > 0
    ensures |Digits(n, width)| == width
    ensures Digits(n, width)[..width - 1] == Digits(n / 10, width - 1)
    ensures Digits(n, width)[width - 1] == DigitChar(n % 10)
  {
    DigitsLength(n, width);
  }

  lemma {:induction false} DigitsLength(n: nat, width: nat)
    ensures |Digits(n, width)| == width && AllDigits(Digits(n, width))
  {
    if width > 0 {
      DigitsLength(n / 10, width - 1);
    }
  }

  /** The three padded digits read back as `n`. */
  lemma {:induction false} Pad3Value(n: nat)
    requires n < 1000
    ensures |Pad3(n)| == 3 && AllDigits(Pad3(n)) && DigitsValue(Pad3(n)) == n
  {
    ThreeDigits(n);
    DigitsLength(n, 3);
    var a, b, c := n / 10 / 10, n / 10 % 10, n % 10;
    DigitsSnoc(n, 3);
    DigitsSnoc(n / 10, 2);
    DigitsSnoc(a, 1);
    DigitCharValue(a);
    DigitCharValue(b);
    DigitCharValue(c);
    var r1, r2, r3 := Digits(a, 1), Digits(n / 10, 2), Digits(n, 3);
    assert r1[..0] == [];
    assert DigitsValue(r1) == a;
    assert DigitsValue(r2) == a * 10 + b;
    assert DigitsValue(r3) == (a * 10 + b) * 10 + c;
  }

  lemma {:induction false} ThreeDigits(n: nat)
    requires n < 1000
    ensures n / 10 / 10 == n / 100 && n / 100 < 10 && n / 100 % 10 == n / 100
    ensures (n / 100 * 10 + n / 10 % 10) * 10 + n % 10 == n
  {
    assert n == n / 10 * 10 + n % 10;
    assert n / 10 == n / 10 / 10 * 10 + n / 10 % 10;
    assert n / 10 / 10 == n / 100;
  }

  /** `:.3f` of a non-negative number of thousandths: whole part, point, three digits. */
  function Unsigned3(m: nat): string {
    NatToString(m / 1000) + "." + Pad3(m % 1000)
  }

  /** `f"{score:.3f}"` for a score that is a whole number of thousandths. */
  function FormatScore(t: Score): string {
    if t < 0 then "-" + Unsigned3(-t) else Unsigned3(t)
  }

  lemma {:induction false} Unsigned3Shape(m: nat)
    ensures var u := Unsigned3(m);
      && u != [] && IsDigit(u[0])
      && forall i :: 0 <= i < |u| ==> IsDigit(u[i]) || u[i] == '.'
  {
    var w := NatToString(m / 1000);
    var f := Pad3(m % 1000);
    NatToStringValue(m / 1000);
    Pad3Value(m % 1000);
    var u := w + "." + f;
    forall i | 0 <= i < |u| ensures IsDigit(u[i]) || u[i] == '.' {
      if i < |w| {
        assert u[i] == w[i];
      } else if i > |w| {
        assert u[i] == f[i - |w| - 1];
      }
    }
  }

  /**
   * A printed score is made of digits, a point and possibly a leading minus,
   * so it has no whitespace and no letter; a non-negative score has no minus.
   */
  lemma {:induction false} FormatScoreShape(t: Score)
    ensures var r := FormatScore(t);
      && r != []
      && (forall i :: 0 <= i < |r| ==> IsDigit(r[i]) || r[i] == '-' || r[i] == '.')
      && (t >= 0 ==> forall i :: 0 <= i < |r| ==> IsDigit(r[i]) || r[i] == '.')
  {
    if t < 0 {
      Unsigned3Shape(-t);
      var u := Unsigned3(-t);
      forall i | 0 < i < |u| + 1 ensures ("-" + u)[i] == u[i - 1] {
      }
    } else {
      Unsigned3Shape(t);
    }
  }

  /** Length of the longest prefix made of decimal digits. */
  function LeadingDigits(s: string): (k: nat)
    ensures k <= |s| && AllDigits(s[..k])
    ensures k < |s| ==> !IsDigit(s[k])
  {
    if s == [] || !IsDigit(s[0]) then 0
    else
      var k := LeadingDigits(s[1..]);
      assert s[..k + 1] == [s[0]] + s[1..][..k];
      k + 1
  }

  /** The first three fractional digits, read as thousandths; later digits are dropped. */
  function Thousandths(frac: string): nat
    requires AllDigits(frac)
  {
    var padded := frac + "000";
    assert AllDigits(padded[..3]);
    DigitsValue(padded[..3])
  }

  /** `float()` on an unsigned decimal: digits, optionally a point and more digits. */
  function ParseUnsigned(s: string): Option<Score> {
    var k := LeadingDigits(s);
    var rest := s[k..];
    if rest == [] then
      if k == 0 then None else Some(DigitsValue(s[..k]) * 1000)
    else if rest[0] != '.' || !AllDigits(rest[1..]) || (k == 0 && |rest| == 1) then
      None
    else
      Some(DigitsValue(s[..k]) * 1000 + Thousandths(rest[1..]))
  }

  /**
   * `float()` on the text after `Relevance Score:`: an optional sign, then an
   * unsigned decimal. `None` stands for the ValueError `float()` raises.
   */
  function ParseScore(s: string): Option<Score> {
    if s != [] && (s[0] == '-' || s[0] == '+') then
      match ParseUnsigned(s[1..])
      case None => None
      case Some(v) => Some(if s[0] == '-' then -v else v)
    else
      ParseUnsigned(s)
  }

  /** Reading back a printed score gives the score again. */
  lemma {:induction false} ParseFormatRoundTrip(t: Score)
    ensures ParseScore(FormatScore(t)) == Some(t)
  {
    if t < 0 {
      NegativeRoundTrip(t);
    } else {
      Unsigned3RoundTrip(t);
      Unsigned3Shape(t);
    }
  }

  lemma {:induction false} NegativeRoundTrip(t: Score)
    requires t < 0
    ensures ParseScore(FormatScore(t)) == Some(t)
  {
    var u := Unsigned3(-t);
    NegativeFormat(t);
    Unsigned3RoundTrip(-t);
    SignedParse(u, -t);
  }

  lemma NegativeFormat(t: Score)
    requires t < 0
    ensures FormatScore(t) == "-" + Unsigned3(-t)
  {
  }

  lemma {:induction false} Unsigned3RoundTrip(m: nat)
    ensures ParseUnsigned(Unsigned3(m)) == Some(m)
  {
    var q, r := m / 1000, m % 1000;
    NatToStringValue(q);
    Pad3Value(r);
    DivMod1000(m);
    PartsRoundTrip(NatToString(q), Pad3(r), m);
  }

  lemma PartsRoundTrip(whole: string, frac: string, m: nat)
    requires whole != [] && AllDigits(whole) && |frac| == 3 && AllDigits(frac)
    requires DigitsValue(whole) * 1000 + DigitsValue(frac) == m
    ensures ParseUnsigned(whole + "." + frac) == Some(m)
  {
    UnsignedRoundTrip(whole, frac);
  }

  lemma {:induction false} DivMod1000(m: nat)
    ensures m / 1000 * 1000 + m % 1000 == m
  {
  }

  lemma {:induction false} SignedParse(u: string, v: Score)
    requires ParseUnsigned(u) == Some(v)
    ensures ParseScore("-" + u) == Some(-v)
  {
    var s := "-" + u;
    assert s[0] == '-';
    assert s[1..] == u;
  }

  lemma {:induction false} UnsignedRoundTrip(whole: string, frac: string)
    requires whole != [] && AllDigits(whole) && |frac| == 3 && AllDigits(frac)
    ensures ParseUnsigned(whole + "." + frac) == Some(DigitsValue(whole) * 1000 + DigitsValue(frac))
  {
    var u := whole + "." + frac;
    var k := |whole|;
    assert u[..k] == whole;
    assert u[k] == '.';
    LeadingDigitsStopsAt(u, k);
    assert u[k + 1..] == frac;
    ParseUnsignedWithPoint(u, k);
    assert (frac + "000")[..3] == frac;
  }

  lemma {:induction false} ParseUnsignedWithPoint(s: string, k: nat)
    requires 0 < k < |s| && LeadingDigits(s) == k && s[k] == '.' && AllDigits(s[k + 1..])
    ensures ParseUnsigned(s) == Some(DigitsValue(s[..k]) * 1000 + Thousandths(s[k + 1..]))
  {
    var rest := s[k..];
    assert rest[0] == '.';
    assert rest[1..] == s[k + 1..];
  }

  lemma {:induction false} LeadingDigitsStopsAt(s: string, k: nat)
    requires k < |s| && AllDigits(s[..k]) && !IsDigit(s[k])
    ensures LeadingDigits(s) == k
  {
    if k > 0 {
      assert s[1..][..k - 1] == s[1..k];
      LeadingDigitsStopsAt(s[1..], k - 1);
    }
  }

  /**
   * The position a stable descending sort moves to the front: a maximal
   * score, and the earliest one among equal maxima.
   */
  function FirstMax(scores: seq<Score>): (k: nat)
    requires scores != []
    ensures k < |scores|
    ensures forall j :: 0 <= j < |scores| ==> scores[j] <= scores[k]
    ensures forall j :: 0 <= j < k ==> scores[j] < scores[k]
  {
    if |scores| == 1 then 0
    else
      var k := FirstMax(scores[1..]);
      if scores[1 + k] > scores[0] then 1 + k else 0
  }
}
