/**
 * Facts about the `str` operations of `Text` that the round-trip proofs
 * combine: where `find` lands in a concatenation, how `split` on a single
 * character undoes `join`, and what `strip` does at the two ends.
 */
module TextFacts {
  import opened Text

  /** `s` does not contain the character `c`. */
  predicate Lacks(s: string, c: char) {
    forall i :: 0 <= i < |s| ==> s[i] != c
  }

  /** The last character of `p` occurs nowhere else in `p`, so `p` has no proper border. */
  predicate LastCharUnique(p: string) {
    p != [] && forall k :: 0 <= k < |p| - 1 ==> p[k] != p[|p| - 1]
  }

  // ---------------------------------------------------------------------
  // find

  /** An occurrence with none before it is what `Find` returns. */
  lemma {:induction false} FindCharacterised(s: string, p: string, r: int)
    requires IsAt(s, p, r)
    requires forall j :: 0 <= j < r ==> !IsAt(s, p, j)
    ensures Find(s, p) == r
  {
    FindIsFirst(s, p);
    FindNone(s, p);
    FindIsAt(s, p);
    assert Occurs(s, p) by {
      assert 0 <= r <= |s| && IsAt(s, p, r);
    }
  }

  /** Behind a prefix free of a borderless pattern, `find` lands right after the prefix. */
  lemma {:induction false} FindAfterFreePrefix(pre: string, p: string, rest: string)
    requires LastCharUnique(p)
    requires !Occurs(pre, p)
    ensures Find(pre + p + rest, p) == |pre|
  {
    var s := pre + p + rest;
    assert s[|pre|..|pre| + |p|] == p;
    forall j | 0 <= j < |pre| ensures !IsAt(s, p, j) {
      if j + |p| <= |pre| {
        assert s[j..j + |p|] == pre[j..j + |p|];
        assert !IsAt(pre, p, j);
      } else if j + |p| <= |s| {
        var k := j + |p| - 1 - |pre|;
        assert s[j + |p| - 1] == p[k];
        assert s[j..j + |p|][|p| - 1] == s[j + |p| - 1];
      }
    }
    FindCharacterised(s, p, |pre|);
  }

  /** Behind such a prefix, `split` cuts the prefix off as its first piece. */
  lemma SplitAfterFreePrefix(pre: string, p: string, rest: string)
    requires p != [] && LastCharUnique(p)
    requires !Occurs(pre, p)
    ensures Split(pre + p + rest, p) == [pre] + Split(rest, p)
  {
    var s := pre + p + rest;
    FindAfterFreePrefix(pre, p, rest);
    SplitAt(s, p);
    assert s[..|pre|] == pre;
    assert s[|pre| + |p|..] == rest;
  }

  lemma {:induction false} IsAtChar(s: string, c: char)
    ensures forall j :: IsAt(s, [c], j) <==> 0 <= j < |s| && s[j] == c
  {
    forall j | 0 <= j < |s| ensures IsAt(s, [c], j) <==> s[j] == c {
      assert s[j..j + 1] == [s[j]];
    }
  }

  /** A character missing from `s` has no occurrence in `s`. */
  lemma {:induction false} LacksNoOccurrence(s: string, c: char)
    requires Lacks(s, c)
    ensures !Occurs(s, [c])
  {
    IsAtChar(s, c);
  }

  /** Where `find` lands for a single character in a concatenation. */
  lemma {:induction false} FindCharConcat(a: string, b: string, c: char)
    ensures var fa, fb := Find(a, [c]), Find(b, [c]);
      Find(a + b, [c]) == if fa >= 0 then fa else if fb >= 0 then |a| + fb else -1
  {
    var s := a + b;
    var fa, fb := Find(a, [c]), Find(b, [c]);
    IsAtChar(a, c);
    IsAtChar(b, c);
    IsAtChar(s, c);
    FindIsFirst(a, [c]);
    FindIsFirst(b, [c]);
    FindNone(a, [c]);
    FindNone(b, [c]);
    FindIsAt(a, [c]);
    FindIsAt(b, [c]);
    if fa >= 0 {
      FindCharacterised(s, [c], fa);
    } else if fb >= 0 {
      forall j | 0 <= j < |a| + fb ensures !IsAt(s, [c], j) {
        if j < |a| {
          assert !IsAt(a, [c], j) by {
            assert 0 <= j <= |a|;
          }
        } else {
          assert s[j] == b[j - |a|];
        }
      }
      FindCharacterised(s, [c], |a| + fb);
    } else {
      forall j | 0 <= j <= |s| ensures !IsAt(s, [c], j) {
        if j < |a| {
          assert !IsAt(a, [c], j) by {
            assert 0 <= j <= |a|;
          }
        } else if j < |s| {
          assert s[j] == b[j - |a|];
          assert !IsAt(b, [c], j - |a|) by {
            assert 0 <= j - |a| <= |b|;
          }
        }
      }
      FindNone(s, [c]);
    }
  }

  // ---------------------------------------------------------------------
  // split on one character

  /** The first piece of a split is a prefix of the string. */
  lemma {:induction false} SplitHeadIsPrefix(s: string, sep: string)
    requires sep != []
    ensures |Split(s, sep)[0]| <= |s| && s[..|Split(s, sep)[0]|] == Split(s, sep)[0]
  {
  }

  /** `split` at the first separator. */
  lemma {:induction false} SplitAt(s: string, sep: string)
    requires sep != [] && Find(s, sep) >= 0
    ensures var f := Find(s, sep);
      Split(s, sep) == [s[..f]] + Split(s[f + |sep|..], sep)
  {
  }

  lemma {:induction false} SplitNone(s: string, sep: string)
    requires sep != [] && Find(s, sep) < 0
    ensures Split(s, sep) == [s]
  {
  }

  /** A string without the separator splits into itself alone. */
  lemma SplitFree(s: string, sep: string)
    requires sep != [] && !Occurs(s, sep)
    ensures Split(s, sep) == [s]
  {
    FindNone(s, sep);
  }

  /**
   * Splitting a concatenation on one character: the last piece of `a` and
   * the first piece of `b` fuse, every other piece is kept.
   */
  lemma {:induction false} SplitConcat(a: string, b: string, c: char)
    ensures var sa, sb := Split(a, [c]), Split(b, [c]);
      Split(a + b, [c]) == sa[..|sa| - 1] + [sa[|sa| - 1] + sb[0]] + sb[1..]
    decreases |a|
  {
    FindCharConcat(a, b, c);
    var fa, fb := Find(a, [c]), Find(b, [c]);
    if fa >= 0 {
      var t := a[fa + 1..];
      SplitConcat(t, b, c);
      SplitConcatHeadStep(a, b, c);
    } else if fb >= 0 {
      SplitConcatSepInTail(a, b, c);
    } else {
      SplitNone(a, [c]);
      SplitNone(b, [c]);
      SplitNone(a + b, [c]);
    }
  }

  /** The step of `SplitConcat` when `a` holds the separator: its first piece is kept as is. */
  lemma SplitConcatHeadStep(a: string, b: string, c: char)
    requires 0 <= Find(a, [c]) && Find(a + b, [c]) == Find(a, [c])
    requires var t, sb := a[Find(a, [c]) + 1..], Split(b, [c]);
      var st := Split(t, [c]);
      Split(t + b, [c]) == st[..|st| - 1] + [st[|st| - 1] + sb[0]] + sb[1..]
    ensures var sa, sb := Split(a, [c]), Split(b, [c]);
      Split(a + b, [c]) == sa[..|sa| - 1] + [sa[|sa| - 1] + sb[0]] + sb[1..]
  {
    var fa := Find(a, [c]);
    var t := a[fa + 1..];
    SplitConcatSepInHead(a, b, c);
    SplitAt(a, [c]);
    FuseAfterHead(a[..fa], Split(t, [c]), Split(t + b, [c]), Split(b, [c]), Split(a, [c]));
  }

  lemma {:induction false} FuseAfterHead(h: string, st: seq<string>, stb: seq<string>, sb: seq<string>, sa: seq<string>)
    requires |st| >= 1 && |sb| >= 1 && sa == [h] + st
    requires stb == st[..|st| - 1] + [st[|st| - 1] + sb[0]] + sb[1..]
    ensures [h] + stb == sa[..|sa| - 1] + [sa[|sa| - 1] + sb[0]] + sb[1..]
  {
    assert sa[..|sa| - 1] == [h] + st[..|st| - 1];
  }

  lemma {:induction false} SplitConcatSepInHead(a: string, b: string, c: char)
    requires 0 <= Find(a, [c]) < |a| && Find(a + b, [c]) == Find(a, [c])
    ensures var fa := Find(a, [c]);
      Split(a + b, [c]) == [a[..fa]] + Split(a[fa + 1..] + b, [c])
  {
    var s := a + b;
    SplitAt(s, [c]);
    var fa := Find(a, [c]);
    assert s[..fa] == a[..fa];
    assert s[fa + 1..] == a[fa + 1..] + b;
  }

  lemma {:induction false} SplitConcatSepInTail(a: string, b: string, c: char)
    requires Find(a, [c]) < 0 && Find(b, [c]) >= 0 && Find(a + b, [c]) == |a| + Find(b, [c])
    ensures var sb := Split(b, [c]);
      Split(a, [c]) == [a] && Split(a + b, [c]) == [a + sb[0]] + sb[1..]
  {
    var fb := Find(b, [c]);
    SplitNone(a, [c]);
    SplitAt(b, [c]);
    SplitAt(a + b, [c]);
    SliceAround(a, b, fb);
  }

  lemma SliceAround<T>(a: seq<T>, b: seq<T>, k: nat)
    requires k < |b|
    ensures (a + b)[..|a| + k] == a + b[..k] && (a + b)[|a| + k + 1..] == b[k + 1..]
  {
  }

  /** Splitting undoes joining when no piece contains the separator character. */
  lemma {:induction false} SplitJoinChar(parts: seq<string>, c: char)
    requires |parts| >= 1
    requires forall i :: 0 <= i < |parts| ==> Lacks(parts[i], c)
    ensures Split(Join(parts, [c]), [c]) == parts
  {
    var head := parts[0];
    LacksNoOccurrence(head, c);
    if |parts| == 1 {
      SplitFree(head, [c]);
    } else {
      var rest := Join(parts[1..], [c]);
      var s := head + [c] + rest;
      assert Join(parts, [c]) == s;
      SplitJoinChar(parts[1..], c);
      FindAfterFreePrefix(head, [c], rest);
      SplitAt(s, [c]);
      assert s[..|head|] == head;
      assert s[|head| + 1..] == rest;
      assert parts == [head] + parts[1..];
    }
  }

  // ---------------------------------------------------------------------
  // absence of a pattern

  /** A pattern with a character that `s` lacks does not occur in `s`. */
  lemma {:induction false} NoOccurrenceMissingChar(s: string, p: string, k: nat)
    requires k < |p| && Lacks(s, p[k])
    ensures !Occurs(s, p)
  {
    forall i | 0 <= i <= |s| ensures !IsAt(s, p, i) {
      if i + |p| <= |s| {
        assert s[i..i + |p|][k] == s[i + k];
      }
    }
  }

  /** A literal without the pattern's first character adds no occurrence in front of `s`. */
  lemma {:induction false} NoOccurrenceAfterLiteral(lit: string, s: string, p: string)
    requires p != [] && Lacks(lit, p[0]) && !Occurs(s, p)
    ensures !Occurs(lit + s, p)
  {
    if lit != [] {
      NoOccurrenceAfterLiteral(lit[1..], s, p);
      assert (lit + s)[1..] == lit[1..] + s;
      ShiftedOccurrence(lit + s, p);
      if |p| <= |lit + s| {
        assert (lit + s)[0..|p|][0] == lit[0];
      }
    } else {
      assert lit + s == s;
    }
  }

  /** An occurrence of a pattern without `c` cannot straddle a `c`. */
  lemma {:induction false} NoOccurrenceAcross(x: string, c: char, y: string, p: string)
    requires Lacks(p, c) && !Occurs(x, p) && !Occurs(y, p)
    ensures !Occurs(x + [c] + y, p)
  {
    var s := x + [c] + y;
    forall j | 0 <= j <= |s| ensures !IsAt(s, p, j) {
      if j + |p| <= |s| {
        if j + |p| <= |x| {
          assert s[j..j + |p|] == x[j..j + |p|];
          assert !IsAt(x, p, j);
        } else if j > |x| {
          assert s[j..j + |p|] == y[j - |x| - 1..j - |x| - 1 + |p|];
          assert !IsAt(y, p, j - |x| - 1);
        } else {
          assert s[j..j + |p|][|x| - j] == c;
        }
      }
    }
  }

  /** Joining pieces free of a pattern with a character the pattern lacks keeps it absent. */
  lemma {:induction false} NoOccurrenceInJoin(parts: seq<string>, c: char, p: string)
    requires p != [] && Lacks(p, c)
    requires forall i :: 0 <= i < |parts| ==> !Occurs(parts[i], p)
    ensures !Occurs(Join(parts, [c]), p)
  {
    if |parts| > 1 {
      NoOccurrenceInJoin(parts[1..], c, p);
      NoOccurrenceAcross(parts[0], c, Join(parts[1..], [c]), p);
    } else if parts == [] {
      assert !IsAt([], p, 0);
    }
  }

  // ---------------------------------------------------------------------
  // strip

  /** A string with a non-space character at both ends is its own strip. */
  lemma {:induction false} StripUnchanged(s: string)
    requires s != [] && !IsSpace(s[0]) && !IsSpace(s[|s| - 1])
    ensures Strip(s) == s
  {
  }

  /** Whitespace appended to `a` is removed again by `strip`. */
  lemma {:induction false} StripTrailing(a: string, w: string)
    requires AllSpace(w)
    ensures Strip(a + w) == Strip(a)
    decreases |a| + |w|
  {
    var s := a + w;
    if a == [] {
      assert s == w;
    } else if IsSpace(a[0]) {
      assert s[1..] == a[1..] + w;
      StripTrailing(a[1..], w);
    } else if w != [] {
      assert s[0] == a[0];
      assert s[..|s| - 1] == a + w[..|w| - 1];
      StripTrailing(a, w[..|w| - 1]);
    } else {
      assert s == a;
    }
  }

  /** `strip` keeps a prefix that starts and ends with non-space characters. */
  lemma {:induction false} StripKeepsPrefix(s: string, k: string)
    requires StartsWith(s, k) && k != [] && !IsSpace(k[0]) && !IsSpace(k[|k| - 1])
    ensures StartsWith(Strip(s), k)
    decreases |s|
  {
    assert s[0] == k[0];
    if IsSpace(s[|s| - 1]) {
      assert s[|k| - 1] == k[|k| - 1];
      var init := s[..|s| - 1];
      assert init[..|k|] == s[..|k|];
      StripKeepsPrefix(init, k);
    }
  }

  /** Length of `s` once its trailing whitespace is removed. */
  function TrimmedLength(s: string): (e: nat)
    ensures e <= |s| && AllSpace(s[e..])
    ensures e > 0 ==> !IsSpace(s[e - 1])
  {
    if s == [] || !IsSpace(s[|s| - 1]) then |s|
    else
      var e := TrimmedLength(s[..|s| - 1]);
      assert s[e..] == s[..|s| - 1][e..] + [s[|s| - 1]];
      e
  }

  // ---------------------------------------------------------------------
  // Text made of whole lines followed by a remainder

  lemma {:induction false} Assoc(x: string, y: string, z: string)
    ensures x + y + z == x + (y + z)
  {
  }

  /** Each of `lines` followed by a newline, then `rest`. */
  function LinesThen(lines: seq<string>, rest: string): string {
    if lines == [] then rest else lines[0] + "\n" + LinesThen(lines[1..], rest)
  }

  /** Text appended after the remainder is appended to the whole. */
  lemma {:induction false} LinesThenAppend(lines: seq<string>, rest: string, w: string)
    ensures LinesThen(lines, rest + w) == LinesThen(lines, rest) + w
  {
    if lines != [] {
      LinesThenAppend(lines[1..], rest, w);
      Assoc(lines[0] + "\n", LinesThen(lines[1..], rest), w);
    }
  }

  /** The remainder is a suffix. */
  lemma {:induction false} LinesThenEndsWith(lines: seq<string>, rest: string)
    ensures LinesThen(lines, rest) == LinesThen(lines, []) + rest
  {
    LinesThenAppend(lines, [], rest);
    assert [] + rest == rest;
  }

  /** `split('\n')` returns the lines, then the pieces of the remainder. */
  lemma {:induction false} LinesThenSplit(lines: seq<string>, rest: string)
    requires forall i :: 0 <= i < |lines| ==> Lacks(lines[i], '\n')
    ensures Split(LinesThen(lines, rest), "\n") == lines + Split(rest, "\n")
  {
    if lines != [] {
      LinesThenSplit(lines[1..], rest);
      SplitFirstLine(lines[0], LinesThen(lines[1..], rest));
      assert lines == [lines[0]] + lines[1..];
    }
  }

  lemma {:induction false} SplitFirstLine(line: string, rest: string)
    requires Lacks(line, '\n')
    ensures Split(line + "\n" + rest, "\n") == [line] + Split(rest, "\n")
  {
    var s := line + "\n" + rest;
    LacksNoOccurrence(line, '\n');
    FindAfterFreePrefix(line, "\n", rest);
    SplitAt(s, "\n");
    assert s[..|line|] == line;
    assert s[|line| + 1..] == rest;
  }

  /** A pattern without a newline occurs in no line and not in the remainder, so not at all. */
  lemma {:induction false} LinesThenNoOccurrence(lines: seq<string>, rest: string, p: string)
    requires p != [] && Lacks(p, '\n')
    requires forall i :: 0 <= i < |lines| ==> !Occurs(lines[i], p)
    requires !Occurs(rest, p)
    ensures !Occurs(LinesThen(lines, rest), p)
  {
    if lines != [] {
      LinesThenNoOccurrence(lines[1..], rest, p);
      NoOccurrenceAcross(lines[0], '\n', LinesThen(lines[1..], rest), p);
    }
  }

  /** A leading blank is stripped. */
  lemma {:induction false} StripLeadingSpace(s: string)
    ensures Strip(" " + s) == Strip(s)
  {
    assert (" " + s)[1..] == s;
  }

  /**
   * Appending whitespace to a text changes none of its lines once they are
   * stripped (it may add blank lines after them).
   */
  lemma {:induction false} SplitTrailingSpace(a: string, w: string)
    requires AllSpace(w)
    ensures |Split(a, "\n")| <= |Split(a + w, "\n")|
    ensures forall i :: 0 <= i < |Split(a, "\n")| ==> Strip(Split(a + w, "\n")[i]) == Strip(Split(a, "\n")[i])
  {
    var sa, sw := Split(a, "\n"), Split(w, "\n");
    SplitConcat(a, w, '\n');
    SplitHeadIsPrefix(w, "\n");
    assert AllSpace(sw[0]) by {
      forall i | 0 <= i < |sw[0]| ensures IsSpace(sw[0][i]) {
        assert sw[0][i] == w[i];
      }
    }
    StripFused(sa, sw[0], sw[1..], Split(a + w, "\n"));
  }

  lemma {:induction false} StripFused(sa: seq<string>, t: string, rest: seq<string>, r: seq<string>)
    requires sa != [] && AllSpace(t)
    requires r == sa[..|sa| - 1] + [sa[|sa| - 1] + t] + rest
    ensures |sa| <= |r|
    ensures forall i :: 0 <= i < |sa| ==> Strip(r[i]) == Strip(sa[i])
  {
    forall i | 0 <= i < |sa| ensures Strip(r[i]) == Strip(sa[i]) {
      if i == |sa| - 1 {
        StripTrailing(sa[i], t);
      } else {
        assert r[i] == sa[i];
      }
    }
  }

  lemma {:induction false} LacksConcat(a: string, b: string, c: char)
    requires Lacks(a, c) && Lacks(b, c)
    ensures Lacks(a + b, c)
  {
    forall i | 0 <= i < |a + b| ensures (a + b)[i] != c {
      if i >= |a| {
        assert (a + b)[i] == b[i - |a|];
      }
    }
  }

  /** Lines that start with a non-blank, followed by a remainder that ends with one, are their own strip. */
  lemma {:induction false} LinesThenStripped(lines: seq<string>, rest: string)
    requires lines != [] && lines[0] != [] && !IsSpace(lines[0][0])
    requires rest != [] && !IsSpace(rest[|rest| - 1])
    ensures Strip(LinesThen(lines, rest)) == LinesThen(lines, rest)
  {
    var l := LinesThen(lines, rest);
    LinesThenEndsWith(lines, rest);
    assert l[|l| - 1] == rest[|rest| - 1];
    assert l[0] == lines[0][0];
    StripUnchanged(l);
  }
}
