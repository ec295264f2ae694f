/**
 * The few Python `str` operations the service relies on, written out over
 * `seq<char>`: strip, startswith, find, split, join, replace, splitlines and
 * the decimal rendering of integers.
 */
module Text {

  /** Python's `str.isspace()`: the characters `strip()` removes. */
  predicate IsSpace(c: char) {
    var n := c as int;
    || n == 0x20 || 0x09 <= n <= 0x0D || 0x1C <= n <= 0x1F
    || n == 0x85 || n == 0xA0 || n == 0x1680 || 0x2000 <= n <= 0x200A
    || n == 0x2028 || n == 0x2029 || n == 0x202F || n == 0x205F || n == 0x3000
  }

  predicate AllSpace(s: string) {
    forall i :: 0 <= i < |s| ==> IsSpace(s[i])
  }

  predicate StartsWith(s: string, prefix: string) {
    |prefix| <= |s| && s[..|prefix|] == prefix
  }

  /** `str.strip()`: leading and trailing whitespace removed, nothing else. */
  function Strip(s: string): (r: string)
    ensures |r| <= |s|
    ensures r != [] ==> !IsSpace(r[0]) && !IsSpace(r[|r| - 1])
    ensures r == [] <==> AllSpace(s)
    decreases |s|
  {
    if s == [] then []
    else if IsSpace(s[0]) then
      var r := Strip(s[1..]);
      assert AllSpace(s[1..]) ==> AllSpace(s) by {
        if AllSpace(s[1..]) { forall i | 1 <= i < |s| ensures IsSpace(s[i]) { assert s[1..][i-1] == s[i]; } }
      }
      r
    else if IsSpace(s[|s| - 1]) then
      var r := Strip(s[..|s| - 1]);
      assert !AllSpace(s[..|s| - 1]) by { assert s[..|s|-1][0] == s[0]; }
      r
    else s
  }

  // ---------------------------------------------------------------------
  // Occurrences of a substring

  predicate IsAt(s: string, p: string, i: int) {
    0 <= i && i + |p| <= |s| && s[i..i + |p|] == p
  }

  predicate Occurs(s: string, p: string) {
    exists i :: 0 <= i <= |s| && IsAt(s, p, i)
  }

  /** `str.find()`: the index of an occurrence, or -1 when there is none (`FindIsFirst`: the first one). */
  function Find(s: string, p: string): (r: int)
    ensures -1 <= r <= |s| - |p| || r == -1
    decreases |s|
  {
    if |s| < |p| then
      -1
    else if s[..|p|] == p then
      0
    else
      var k := Find(s[1..], p);
      if k < 0 then -1 else k + 1
  }

  /** What `Find` returns, when not -1, is an occurrence. */
  lemma {:induction false} FindIsAt(s: string, p: string)
    ensures Find(s, p) >= 0 ==> IsAt(s, p, Find(s, p))
    decreases |s|
  {
    if |s| >= |p| && s[..|p|] != p {
      FindIsAt(s[1..], p);
      var k := Find(s[1..], p);
      if k >= 0 {
        assert s[1..][k..k + |p|] == s[k + 1..k + 1 + |p|];
      }
    }
  }

  /** `Find` answers -1 exactly when there is no occurrence. */
  lemma {:induction false} FindNone(s: string, p: string)
    ensures Find(s, p) == -1 <==> !Occurs(s, p)
    decreases |s|
  {
    if |s| >= |p| {
      if s[..|p|] == p {
        assert IsAt(s, p, 0);
      } else {
        FindNone(s[1..], p);
        ShiftedOccurrence(s, p);
        if Occurs(s[1..], p) {
          var j :| 0 <= j <= |s| - 1 && IsAt(s[1..], p, j);
          assert IsAt(s, p, j + 1);
        }
      }
    }
  }

  /** `Find` returns the leftmost occurrence. */
  lemma {:induction false} FindIsFirst(s: string, p: string)
    ensures forall j :: 0 <= j < Find(s, p) ==> !IsAt(s, p, j)
    decreases |s|
  {
    if |s| >= |p| && s[..|p|] != p {
      FindIsFirst(s[1..], p);
      ShiftedOccurrence(s, p);
      var k := Find(s[1..], p);
      if k >= 0 {
        forall j | 0 <= j < k + 1 ensures !IsAt(s, p, j) {
          if j > 0 {
            assert !IsAt(s[1..], p, j - 1);
          }
        }
      }
    }
  }

  lemma {:induction false} ShiftedOccurrence(s: string, p: string)
    requires |s| >= 1
    ensures forall j :: 0 <= j ==> (IsAt(s[1..], p, j) <==> IsAt(s, p, j + 1))
    ensures Occurs(s, p) && !IsAt(s, p, 0) ==> Occurs(s[1..], p)
  {
    forall j | 0 <= j ensures IsAt(s[1..], p, j) <==> IsAt(s, p, j + 1) {
      if 0 <= j && j + |p| <= |s| - 1 {
        assert s[1..][j..j + |p|] == s[j + 1..j + 1 + |p|];
      }
    }
    if Occurs(s, p) && !IsAt(s, p, 0) {
      var i :| 0 <= i <= |s| && IsAt(s, p, i);
      assert i >= 1;
      assert s[1..][i - 1..i - 1 + |p|] == s[i..i + |p|];
      assert IsAt(s[1..], p, i - 1);
    }
  }

  /** `sep.join(parts)`. */
  function Join(parts: seq<string>, sep: string): string {
    if parts == [] then []
    else if |parts| == 1 then parts[0]
    else parts[0] + sep + Join(parts[1..], sep)
  }

  /**
   * `str.split(sep)` with a non-empty separator: the pieces between the
   * occurrences found from left to right (`SplitJoin`: joining them gives
   * `s` back; `SplitPiecesAreFree`: no piece contains the separator).
   */
  function Split(s: string, sep: string): (r: seq<string>)
    requires sep != []
    ensures |r| >= 1
    decreases |s|
  {
    var i := Find(s, sep);
    if i < 0 then [s] else [s[..i]] + Split(s[i + |sep|..], sep)
  }

  /** Joining the pieces of a split with the separator restores the string. */
  lemma {:induction false} SplitJoin(s: string, sep: string)
    requires sep != []
    ensures Join(Split(s, sep), sep) == s
    decreases |s|
  {
    var i := Find(s, sep);
    if i >= 0 {
      var rest := s[i + |sep|..];
      SplitJoin(rest, sep);
      JoinCons(s[..i], Split(rest, sep), sep);
      FindIsAt(s, sep);
      AroundOccurrence(s, sep, i);
    }
  }

  lemma JoinCons(head: string, tail: seq<string>, sep: string)
    requires tail != []
    ensures Join([head] + tail, sep) == head + sep + Join(tail, sep)
  {
    assert ([head] + tail)[1..] == tail;
  }

  /** A string is the text before an occurrence, the occurrence, and the text after it. */
  lemma AroundOccurrence(s: string, p: string, i: int)
    requires IsAt(s, p, i)
    ensures s == s[..i] + p + s[i + |p|..]
  {
    assert s == s[..i] + s[i..i + |p|] + s[i + |p|..];
  }

  /** No piece of a split contains the separator. */
  lemma {:induction false} SplitPiecesAreFree(s: string, sep: string)
    requires sep != []
    ensures forall i :: 0 <= i < |Split(s, sep)| ==> !Occurs(Split(s, sep)[i], sep)
    decreases |s|
  {
    var i := Find(s, sep);
    FindNone(s, sep);
    if i >= 0 {
      SplitPiecesAreFree(s[i + |sep|..], sep);
      FindIsFirst(s, sep);
      var head := s[..i];
      forall j | 0 <= j <= |head| ensures !IsAt(head, sep, j) {
        if j + |sep| <= |head| {
          assert head[j..j + |sep|] == s[j..j + |sep|];
          assert !IsAt(s, sep, j);
        }
      }
    }
  }

  /** `str.replace(pat, repl)`: every non-overlapping occurrence, left to right. */
  function Replace(s: string, pat: string, repl: string): (r: string)
    requires pat != []
    ensures !Occurs(s, pat) ==> r == s
  {
    FindNone(s, pat);
    Join(Split(s, pat), repl)
  }

  // ---------------------------------------------------------------------
  // str.splitlines()

  /** The line boundaries of Python's `str.splitlines()`. */
  predicate IsLineBreak(c: char) {
    var n := c as int;
    || 0x0A <= n <= 0x0D || 0x1C <= n <= 0x1E || n == 0x85 || n == 0x2028 || n == 0x2029
  }

  predicate NoLineBreak(s: string) {
    forall i :: 0 <= i < |s| ==> !IsLineBreak(s[i])
  }

  /** Index of the first line boundary, or `|s|` when there is none. */
  function LineEnd(s: string): (k: nat)
    ensures k <= |s|
    ensures k < |s| ==> IsLineBreak(s[k])
    ensures NoLineBreak(s[..k])
  {
    if s == [] || IsLineBreak(s[0]) then 0
    else
      var k := LineEnd(s[1..]);
      assert s[..k + 1] == [s[0]] + s[1..][..k];
      k + 1
  }

  /** `str.splitlines()`: `\r\n` is one boundary and a final boundary adds no empty line. */
  function SplitLines(s: string): (r: seq<string>)
    ensures r == [] <==> s == []
    ensures forall i :: 0 <= i < |r| ==> NoLineBreak(r[i])
    decreases |s|
  {
    if s == [] then []
    else
      var k := LineEnd(s);
      if k == |s| then
        assert s[..k] == s;
        [s]
      else
        var next := if s[k] == '\r' && k + 1 < |s| && s[k + 1] == '\n' then k + 2 else k + 1;
        [s[..k]] + SplitLines(s[next..])
  }

  // ---------------------------------------------------------------------
  // Decimal integers

  predicate IsDigit(c: char) {
    '0' <= c <= '9'
  }

  predicate AllDigits(s: string) {
    forall i :: 0 <= i < |s| ==> IsDigit(s[i])
  }

  function DigitChar(d: nat): char
    requires d < 10
  {
    "0123456789"[d]
  }

  /** The value of a string of decimal digits (0 for the empty string). */
  function DigitsValue(s: string): nat
    requires AllDigits(s)
  {
    if s == [] then 0
    else DigitsValue(s[..|s| - 1]) * 10 + ((s[|s| - 1] as int) - ('0' as int))
  }

  /** `str(n)` for a natural number. */
  function NatToString(n: nat): string {
    if n < 10 then [DigitChar(n)] else NatToString(n / 10) + [DigitChar(n % 10)]
  }

  /** `str(n)` is a non-empty run of digits without a leading zero, whose value is `n`. */
  lemma {:induction false} NatToStringValue(n: nat)
    ensures var r := NatToString(n);
      r != [] && AllDigits(r) && DigitsValue(r) == n && (|r| > 1 ==> r[0] != '0')
  {
    var r := NatToString(n);
    if n < 10 {
      DigitCharValue(n);
      assert r[..0] == [];
    } else {
      var q := NatToString(n / 10);
      NatToStringValue(n / 10);
      DigitCharValue(n % 10);
      assert r == q + [DigitChar(n % 10)];
      assert r[..|r| - 1] == q;
      assert n / 10 * 10 + n % 10 == n;
      if |q| == 1 {
        DigitCharValue(n / 10);
      }
      assert r[0] == q[0];
    }
  }

  lemma {:induction false} DigitCharValue(d: nat)
    requires d < 10
    ensures IsDigit(DigitChar(d)) && (DigitChar(d) as int) - ('0' as int) == d
  {
  }

  /** `str(i)` for an integer. */
  function IntToString(i: int): string {
    if i < 0 then "-" + NatToString(-i) else NatToString(i)
  }
}
