/**
 * The reranker tool: it cuts the retriever's text dump into sections at each
 * `--- Source Document` marker, parses every section into a candidate
 * (name, page, score, content), keeps the complete ones, sorts them by score
 * with a stable descending sort and renders the first.
 */
module Reranker {
  import opened Wrappers
  import opened Text
  import opened TextFacts
  import opened Scores

  const Marker := "--- Source Document"
  const NoDocuments := "No documents found"

  /** The `doc` dictionary `_parse` fills in, one optional slot per key. */
  datatype Fields = Fields(name: Option<string>, page: Option<string>, score: Option<Score>, content: Option<string>)

  const NoFields := Fields(None, None, None, None)

  /** A section that yielded a name, a score and content; the page may be missing. */
  datatype Candidate = Candidate(name: string, page: Option<string>, score: Score, content: string)

  // ---------------------------------------------------------------------
  // _parse

  /** `line.replace(key, '').strip()`. */
  function AfterKey(line: string, key: string): string
    requires key != []
  {
    Strip(Replace(line, key, ""))
  }

  /** `float(text)`, or 0.0 when `float()` raises. */
  function ScoreOrZero(text: string): Score {
    match ParseScore(text)
    case Some(v) => v
    case None => 0
  }

  /** `section[section.find('Content:') + 8:].strip()`, when the section has a `Content:`. */
  function ContentOf(section: string): Option<string> {
    var at := Find(section, "Content:");
    if at == -1 then None else Some(Strip(section[at + 8..]))
  }

  /** One turn of the loop in `_parse`: the stripped line selects which slot it overwrites. */
  function Step(section: string, doc: Fields, raw: string): (r: Fields)
    ensures !StartsWith(Strip(raw), "Document:") ==> r.name == doc.name
    ensures !StartsWith(Strip(raw), "Page:") ==> r.page == doc.page
    ensures !StartsWith(Strip(raw), "Relevance Score:") ==> r.score == doc.score
    ensures !StartsWith(Strip(raw), "Content:") ==> r.content == doc.content
    ensures (doc.name.Some? ==> r.name.Some?) && (doc.page.Some? ==> r.page.Some?)
    ensures (doc.score.Some? ==> r.score.Some?) && (doc.content.Some? ==> r.content.Some?)
  {
    var line := Strip(raw);
    if StartsWith(line, "Document:") then
      doc.(name := Some(AfterKey(line, "Document:")))
    else if StartsWith(line, "Page:") then
      doc.(page := Some(AfterKey(line, "Page:")))
    else if StartsWith(line, "Relevance Score:") then
      doc.(score := Some(ScoreOrZero(AfterKey(line, "Relevance Score:"))))
    else if StartsWith(line, "Content:") then
      match ContentOf(section)
      case Some(c) => doc.(content := Some(c))
      case None => doc
    else
      doc
  }

  /** The loop of `_parse` over `lines`, starting from `doc`. */
  function Scan(section: string, doc: Fields, lines: seq<string>): Fields {
    if lines == [] then doc
    else Step(section, Scan(section, doc, lines[..|lines| - 1]), lines[|lines| - 1])
  }

  lemma {:induction false} ScanSnoc(section: string, doc: Fields, lines: seq<string>, i: nat)
    requires i < |lines|
    ensures Scan(section, doc, lines[..i + 1]) == Step(section, Scan(section, doc, lines[..i]), lines[i])
  {
    assert lines[..i + 1][..i] == lines[..i];
  }

  /** `section.strip().split('\n')`. */
  function SectionLines(section: string): seq<string> {
    Split(Strip(section), "\n")
  }

  /** `doc if all(k in doc for k in ['name', 'content', 'score']) else None`. */
  function Complete(doc: Fields): Option<Candidate> {
    if doc.name.Some? && doc.content.Some? && doc.score.Some? then
      Some(Candidate(doc.name.value, doc.page, doc.score.value, doc.content.value))
    else
      None
  }

  /** What `_parse` returns for a section. */
  function Parse(section: string): (r: Option<Candidate>)
    ensures r.Some? ==> ContentOf(section) == Some(r.value.content)
  {
    ScanContent(section, NoFields, SectionLines(section));
    Complete(Scan(section, NoFields, SectionLines(section)))
  }

  /** One pass of the loop body of `_parse`: which slot a line overwrites, if any. */
  method ReadLine(section: string, doc: Fields, raw: string) returns (next: Fields)
    ensures next == Step(section, doc, raw)
  {
    next := doc;
    var line := Strip(raw);
    if StartsWith(line, "Document:") {
      next := doc.(name := Some(AfterKey(line, "Document:")));
    } else if StartsWith(line, "Page:") {
      next := doc.(page := Some(AfterKey(line, "Page:")));
    } else if StartsWith(line, "Relevance Score:") {
      next := doc.(score := Some(ScoreOrZero(AfterKey(line, "Relevance Score:"))));
    } else if StartsWith(line, "Content:") {
      var content := ContentOf(section);
      if content.Some? {
        next := doc.(content := content);
      }
    }
  }

  /** `_parse`: the line loop that fills and overwrites the `doc` slots. */
  method ParseSection(section: string) returns (r: Option<Candidate>)
    ensures r == Parse(section)
  {
    var lines := Split(Strip(section), "\n");
    var doc := NoFields;
    var i := 0;
    while i < |lines|
      invariant 0 <= i <= |lines|
      invariant doc == Scan(section, NoFields, lines[..i])
    {
      ScanSnoc(section, NoFields, lines, i);
      doc := ReadLine(section, doc, lines[i]);
      i := i + 1;
    }
    assert lines[..|lines|] == lines;
    r := Complete(doc);
  }

  /** Index of the last line whose stripped form starts with `key`, or -1. */
  function LastIndexWith(lines: seq<string>, key: string): (i: int)
    ensures -1 <= i < |lines|
    ensures i >= 0 ==> StartsWith(Strip(lines[i]), key)
    ensures forall j :: i < j < |lines| ==> !StartsWith(Strip(lines[j]), key)
  {
    if lines == [] then -1
    else if StartsWith(Strip(lines[|lines| - 1]), key) then |lines| - 1
    else LastIndexWith(lines[..|lines| - 1], key)
  }

  /** At most one of the four keys starts a given line. */
  lemma {:induction false} KeysExclusive(line: string)
    ensures StartsWith(line, "Document:") ==> !StartsWith(line, "Page:") && !StartsWith(line, "Relevance Score:") && !StartsWith(line, "Content:")
    ensures StartsWith(line, "Page:") ==> !StartsWith(line, "Relevance Score:") && !StartsWith(line, "Content:")
    ensures StartsWith(line, "Relevance Score:") ==> !StartsWith(line, "Content:")
  {
    if StartsWith(line, "Document:") { assert line[0] == 'D'; }
    if StartsWith(line, "Page:") { assert line[0] == 'P'; }
    if StartsWith(line, "Relevance Score:") { assert line[0] == 'R'; }
  }

  /**
   * The `name` slot holds what the LAST `Document:` line put there; a later
   * such line overwrites an earlier one, and without one the slot keeps its
   * initial value. `ScanPage`, `ScanScore` and `ScanContent` say the same of
   * the other slots.
   */
  lemma {:induction false} ScanName(section: string, doc: Fields, lines: seq<string>)
    ensures var n := LastIndexWith(lines, "Document:");
      Scan(section, doc, lines).name == if n < 0 then doc.name else Some(AfterKey(Strip(lines[n]), "Document:"))
  {
    if lines != [] {
      ScanName(section, doc, lines[..|lines| - 1]);
      LastIndexWithSnoc(lines, "Document:");
    }
  }

  lemma {:induction false} ScanPage(section: string, doc: Fields, lines: seq<string>)
    ensures var p := LastIndexWith(lines, "Page:");
      Scan(section, doc, lines).page == if p < 0 then doc.page else Some(AfterKey(Strip(lines[p]), "Page:"))
  {
    if lines != [] {
      ScanPage(section, doc, lines[..|lines| - 1]);
      KeysExclusive(Strip(lines[|lines| - 1]));
      LastIndexWithSnoc(lines, "Page:");
    }
  }

  lemma {:induction false} ScanScore(section: string, doc: Fields, lines: seq<string>)
    ensures var s := LastIndexWith(lines, "Relevance Score:");
      Scan(section, doc, lines).score ==
        if s < 0 then doc.score else Some(ScoreOrZero(AfterKey(Strip(lines[s]), "Relevance Score:")))
  {
    if lines != [] {
      ScanScore(section, doc, lines[..|lines| - 1]);
      KeysExclusive(Strip(lines[|lines| - 1]));
      LastIndexWithSnoc(lines, "Relevance Score:");
    }
  }

  /** Every `Content:` line stores the same text: what follows the section's first `Content:`. */
  lemma {:induction false} ScanContent(section: string, doc: Fields, lines: seq<string>)
    ensures var c := LastIndexWith(lines, "Content:");
      Scan(section, doc, lines).content == if c < 0 || ContentOf(section).None? then doc.content else ContentOf(section)
  {
    if lines != [] {
      ScanContent(section, doc, lines[..|lines| - 1]);
      KeysExclusive(Strip(lines[|lines| - 1]));
      LastIndexWithSnoc(lines, "Content:");
    }
  }

  lemma {:induction false} LastIndexWithSnoc(lines: seq<string>, key: string)
    requires lines != []
    ensures var init := lines[..|lines| - 1];
      LastIndexWith(lines, key) ==
        if StartsWith(Strip(lines[|lines| - 1]), key) then |lines| - 1 else LastIndexWith(init, key)
  {
  }

  /** The line that starts with `key` last is the one `LastIndexWith` finds. */
  lemma {:induction false} LastIndexAtLeast(lines: seq<string>, key: string, k: nat)
    requires k < |lines| && StartsWith(Strip(lines[k]), key)
    ensures LastIndexWith(lines, key) >= k
  {
  }

  lemma {:induction false} LastIndexCharacterised(lines: seq<string>, key: string, k: nat)
    requires k < |lines| && StartsWith(Strip(lines[k]), key)
    requires forall j :: k < j < |lines| ==> !StartsWith(Strip(lines[j]), key)
    ensures LastIndexWith(lines, key) == k
  {
  }

  /**
   * `AfterKey` reads back the value of a `key value` line: the key is removed
   * and the blank after it stripped, as long as the value neither carries
   * surrounding blanks nor contains the key.
   */
  lemma {:induction false} KeyLineValue(key: string, v: string)
    requires key != [] && !IsSpace(key[0]) && !IsSpace(key[|key| - 1])
    requires Strip(v) == v && !Occurs(v, key)
    ensures StartsWith(Strip(key + " " + v), key)
    ensures AfterKey(Strip(key + " " + v), key) == v
  {
    assert (key + " " + v)[..|key|] == key;
    StripKeepsPrefix(key + " " + v, key);
    if v == [] {
      assert key + " " + v == key + " ";
      KeyLineEmpty(key);
    } else {
      KeyLineFilled(key, v);
    }
  }

  lemma {:induction false} KeyLineEmpty(key: string)
    requires key != [] && !IsSpace(key[0]) && !IsSpace(key[|key| - 1])
    ensures AfterKey(Strip(key + " "), key) == []
  {
    StripTrailing(key, " ");
    StripUnchanged(key);
    assert key + [] == key;
    KeyRemoved(key, []);
    SplitNone([], key);
    var parts := Split(key, key);
    assert parts == ["", ""];
    assert Join(parts, "") == "" + "" + "";
  }

  lemma {:induction false} KeyLineFilled(key: string, v: string)
    requires key != [] && !IsSpace(key[0]) && !IsSpace(key[|key| - 1])
    requires v != [] && Strip(v) == v && !Occurs(v, key)
    ensures AfterKey(Strip(key + " " + v), key) == v
  {
    var line := key + " " + v;
    assert line[0] == key[0] && line[|line| - 1] == v[|v| - 1];
    StripUnchanged(line);
    KeyReplaced(key, v);
    StripLeadingSpace(v);
  }

  /** Removing the key from `key value` leaves the blank and the value. */
  lemma {:induction false} KeyReplaced(key: string, v: string)
    requires key != [] && key[0] != ' ' && !Occurs(v, key)
    ensures Replace(key + " " + v, key, "") == " " + v
  {
    Assoc(key, " ", v);
    KeyRemoved(key, " " + v);
    NoOccurrenceAfterLiteral(" ", v, key);
    SplitFree(" " + v, key);
    var parts := Split(key + " " + v, key);
    assert parts == ["", " " + v];
    assert Join(parts, "") == "" + "" + (" " + v);
  }

  /** `split` on a key at the start of the line: an empty piece, then the rest. */
  lemma {:induction false} KeyRemoved(key: string, rest: string)
    requires key != []
    ensures Split(key + rest, key) == [""] + Split(rest, key)
  {
    var line := key + rest;
    assert line[..|key|] == key;
    FindCharacterised(line, key, 0);
    SplitAt(line, key);
    assert line[|key|..] == rest;
  }

  /**
   * A section is a candidate exactly when some line carries `Document:`, some
   * line carries `Relevance Score:` and some line carries `Content:` (with the
   * section containing `Content:`); a missing `Page:` does not disqualify it.
   */
  lemma {:induction false} ParseIsComplete(section: string)
    ensures var lines := SectionLines(section);
      Parse(section).Some? <==>
        && LastIndexWith(lines, "Document:") >= 0
        && LastIndexWith(lines, "Relevance Score:") >= 0
        && LastIndexWith(lines, "Content:") >= 0
        && ContentOf(section).Some?
  {
    ScanName(section, NoFields, SectionLines(section));
    ScanScore(section, NoFields, SectionLines(section));
    ScanContent(section, NoFields, SectionLines(section));
  }

  /** An unparsable `Relevance Score:` value scores 0 instead of dropping the section. */
  lemma {:induction false} UnparsableScoreIsZero(section: string)
    requires var lines := SectionLines(section);
      var s := LastIndexWith(lines, "Relevance Score:");
      s >= 0 && ParseScore(AfterKey(Strip(lines[s]), "Relevance Score:")).None?
    ensures Scan(section, NoFields, SectionLines(section)).score == Some(0)
  {
    ScanScore(section, NoFields, SectionLines(section));
  }

  // ---------------------------------------------------------------------
  // _run

  /** `documents.split('--- Source Document')[1:]`: the text before the first marker is dropped. */
  function Sections(documents: string): seq<string> {
    Split(documents, Marker)[1..]
  }

  /** The candidates one section contributes: none when it is blank or incomplete. */
  function Keep(section: string): seq<Candidate> {
    if Strip(section) == [] then []
    else match Parse(section)
      case Some(c) => [c]
      case None => []
  }

  /** The concatenation of `f(x)` over `xs`, in order. */
  function FlatMap<A, B>(f: A -> seq<B>, xs: seq<A>): seq<B> {
    if xs == [] then [] else FlatMap(f, xs[..|xs| - 1]) + f(xs[|xs| - 1])
  }

  lemma {:induction false} FlatMapAppend<A, B>(f: A -> seq<B>, xs: seq<A>, ys: seq<A>)
    ensures FlatMap(f, xs + ys) == FlatMap(f, xs) + FlatMap(f, ys)
    decreases |ys|
  {
    if ys == [] {
      assert xs + ys == xs;
    } else {
      FlatMapAppend(f, xs, ys[..|ys| - 1]);
      assert (xs + ys)[..|xs + ys| - 1] == xs + ys[..|ys| - 1];
    }
  }

  /** When `f` yields exactly one value per element, `FlatMap` is the sequence of those values. */
  lemma {:induction false} FlatMapSingletons<A, B>(f: A -> seq<B>, xs: seq<A>, ys: seq<B>)
    requires |xs| == |ys| && forall i :: 0 <= i < |xs| ==> f(xs[i]) == [ys[i]]
    ensures FlatMap(f, xs) == ys
  {
    if xs != [] {
      var k := |xs| - 1;
      FlatMapSingletons(f, xs[..k], ys[..k]);
      assert ys == ys[..k] + [ys[k]];
    }
  }

  /** `[d for d in [self._parse(s) for s in sections if s.strip()] if d]`. */
  function Candidates(sections: seq<string>): seq<Candidate> {
    FlatMap(Keep, sections)
  }

  lemma {:induction false} CandidatesSnoc(sections: seq<string>, i: nat)
    requires 1 <= i < |sections|
    ensures Candidates(sections[1..i + 1]) == Candidates(sections[1..i]) + Keep(sections[i])
  {
    assert sections[1..i + 1][..i - 1] == sections[1..i];
  }

  function ScoresOf(cs: seq<Candidate>): (r: seq<Score>)
    ensures |r| == |cs| && forall i :: 0 <= i < |cs| ==> r[i] == cs[i].score
  {
    seq(|cs|, i requires 0 <= i < |cs| => cs[i].score)
  }

  predicate SortedDesc(cs: seq<Candidate>) {
    forall i, j :: 0 <= i < j < |cs| ==> cs[i].score >= cs[j].score
  }

  /** Places `c` in front of the first element whose score does not exceed its own. */
  function Insert(c: Candidate, sorted: seq<Candidate>): (r: seq<Candidate>)
    ensures |r| == |sorted| + 1
  {
    if sorted == [] || sorted[0].score <= c.score then [c] + sorted
    else [sorted[0]] + Insert(c, sorted[1..])
  }

  /**
   * `docs.sort(key=lambda x: x['score'], reverse=True)`: Python's stable sort,
   * highest score first (`SortIsOrderedPermutation`, `SortIsStable`).
   */
  function SortByScore(cs: seq<Candidate>): (r: seq<Candidate>)
    ensures |r| == |cs|
  {
    if cs == [] then [] else Insert(cs[0], SortByScore(cs[1..]))
  }

  lemma {:induction false} InsertIntoSorted(c: Candidate, sorted: seq<Candidate>)
    requires SortedDesc(sorted)
    ensures SortedDesc(Insert(c, sorted))
    ensures Insert(c, sorted)[0] == c || Insert(c, sorted)[0] == sorted[0]
  {
    if sorted != [] && sorted[0].score > c.score {
      InsertIntoSorted(c, sorted[1..]);
      var r := Insert(c, sorted);
      assert r == [sorted[0]] + Insert(c, sorted[1..]);
      forall i, j | 0 <= i < j < |r| ensures r[i].score >= r[j].score {
        if i == 0 {
          assert r[j] == Insert(c, sorted[1..])[j - 1];
          if j > 1 {
            assert r[1].score >= r[j].score;
          }
        }
      }
    }
  }

  lemma {:induction false} InsertPermutes(c: Candidate, sorted: seq<Candidate>)
    ensures multiset(Insert(c, sorted)) == multiset(sorted) + multiset{c}
  {
    if sorted != [] && sorted[0].score > c.score {
      InsertPermutes(c, sorted[1..]);
      assert sorted == [sorted[0]] + sorted[1..];
    }
  }

  /** The sort returns its input reordered, highest score first. */
  lemma {:induction false} SortIsOrderedPermutation(cs: seq<Candidate>)
    ensures SortedDesc(SortByScore(cs))
    ensures multiset(SortByScore(cs)) == multiset(cs)
  {
    if cs != [] {
      SortIsOrderedPermutation(cs[1..]);
      InsertIntoSorted(cs[0], SortByScore(cs[1..]));
      InsertPermutes(cs[0], SortByScore(cs[1..]));
      assert cs == [cs[0]] + cs[1..];
    }
  }

  /** The candidates with score `k`, in order. */
  function WithScore(cs: seq<Candidate>, k: Score): seq<Candidate> {
    if cs == [] then []
    else (if cs[0].score == k then [cs[0]] else []) + WithScore(cs[1..], k)
  }

  lemma {:induction false} InsertWithScore(c: Candidate, sorted: seq<Candidate>, k: Score)
    ensures WithScore(Insert(c, sorted), k) == (if c.score == k then [c] else []) + WithScore(sorted, k)
  {
    var ck := if c.score == k then [c] else [];
    if sorted == [] || sorted[0].score <= c.score {
      var r := [c] + sorted;
      assert r[0] == c && r[1..] == sorted;
      assert WithScore(r, k) == ck + WithScore(sorted, k);
    } else {
      var h, tail := sorted[0], sorted[1..];
      var ins := Insert(c, tail);
      InsertWithScore(c, tail, k);
      var r := [h] + ins;
      assert r[0] == h && r[1..] == ins;
      var hk := if h.score == k then [h] else [];
      assert WithScore(r, k) == hk + WithScore(ins, k);
      assert WithScore(sorted, k) == hk + WithScore(tail, k);
      if c.score == k {
        assert hk == [];
        assert [] + WithScore(tail, k) == WithScore(tail, k);
      } else {
        assert ck == [];
        assert [] + WithScore(ins, k) == WithScore(ins, k);
      }
    }
  }

  /** Stability: among equal scores the sort keeps the original order. */
  lemma {:induction false} SortIsStable(cs: seq<Candidate>, k: Score)
    ensures WithScore(SortByScore(cs), k) == WithScore(cs, k)
  {
    if cs != [] {
      SortIsStable(cs[1..], k);
      InsertWithScore(cs[0], SortByScore(cs[1..]), k);
    }
  }

  /** The head of the sorted list is the first candidate with the highest score. */
  lemma {:induction false} SortHeadIsFirstMax(cs: seq<Candidate>)
    requires cs != []
    ensures SortByScore(cs) != [] && SortByScore(cs)[0] == cs[FirstMax(ScoresOf(cs))]
  {
    if |cs| > 1 {
      SortHeadIsFirstMax(cs[1..]);
      assert ScoresOf(cs)[1..] == ScoresOf(cs[1..]);
    }
  }

  /** The rendered text of the chosen candidate. */
  function Render(c: Candidate): (r: string)
    ensures StartsWith(r, "Document: " + c.name)
    ensures |r| >= 12 + |c.name| + |c.content|
    ensures r[|r| - |c.content| - 2..] == "\n\n" + c.content
    ensures |r| == 12 + |c.name| + |c.content| <==> c.page.None? || c.page.value == "" || c.page.value == "N/A"
    ensures c.page.Some? && c.page.value != "" && c.page.value != "N/A" ==>
      StartsWith(r, "Document: " + c.name + "\nPage: " + c.page.value + "\n\n")
    ensures c.page.None? || c.page.value == "" || c.page.value == "N/A" ==> StartsWith(r, "Document: " + c.name + "\n\n")
  {
    "Document: " + c.name
    + (if c.page.Some? && c.page.value != "" && c.page.value != "N/A" then "\nPage: " + c.page.value else "")
    + "\n\n" + c.content
  }

  /** The reply `_run` builds from the complete candidates, in section order. */
  function Answer(cs: seq<Candidate>): (r: string)
    ensures cs == [] <==> r == NoDocuments
    ensures cs != [] ==> StartsWith(r, "Document: ")
  {
    if cs == [] then NoDocuments
    else
      var c := SortByScore(cs)[0];
      assert Render(c)[..10] == ("Document: " + c.name)[..10] == "Document: ";
      assert Render(c)[0] != NoDocuments[0];
      Render(c)
  }

  /** What `_run` returns for a text dump. */
  function Rerank(documents: string): (r: string)
    ensures r == NoDocuments <==> Candidates(Sections(documents)) == []
    ensures r != NoDocuments ==> StartsWith(r, "Document: ")
  {
    Answer(Candidates(Sections(documents)))
  }

  /**
   * `_run`: parse each non-blank section, sort the complete ones, render the
   * first. Nothing in it raises on a string, so the `Error: ` branch of the
   * source is never taken here.
   */
  method Run(documents: string) returns (result: string)
    ensures result == Rerank(documents)
  {
    var sections := Split(documents, Marker);
    var docs: seq<Candidate> := [];
    var i := 1;
    while i < |sections|
      invariant 1 <= i <= |sections|
      invariant docs == Candidates(sections[1..i])
    {
      CandidatesSnoc(sections, i);
      if Strip(sections[i]) != [] {
        var d := ParseSection(sections[i]);
        if d.Some? {
          docs := docs + [d.value];
        }
      }
      i := i + 1;
    }
    assert sections[1..i] == Sections(documents);
    if docs == [] {
      return NoDocuments;
    }
    var sorted := SortByScore(docs);
    var topDoc := sorted[0];
    result := "Document: " + topDoc.name;
    if topDoc.page.Some? && topDoc.page.value != "" && topDoc.page.value != "N/A" {
      result := result + "\nPage: " + topDoc.page.value;
    }
    result := result + "\n\n" + topDoc.content;
  }

  /**
   * The answer is the sentinel when there is no candidate, and otherwise the
   * first candidate with the highest score.
   */
  lemma {:induction false} AnswerIsFirstBest(cs: seq<Candidate>)
    ensures Answer(cs) == if cs == [] then NoDocuments else Render(cs[FirstMax(ScoresOf(cs))])
  {
    if cs != [] {
      SortHeadIsFirstMax(cs);
    }
  }

  /** The answer is either the sentinel or a rendered document, never an `Error: ` text. */
  lemma {:induction false} AnswerNeverErrors(cs: seq<Candidate>)
    ensures Answer(cs) == NoDocuments || StartsWith(Answer(cs), "Document: ")
    ensures !StartsWith(Answer(cs), "Error: ")
  {
    var r := Answer(cs);
    if cs == [] {
      assert r[0] == 'N';
    } else {
      assert r[..10][0] == 'D';
    }
  }

  /** A whitespace-only section yields no candidate. */
  lemma {:induction false} BlankKeepsNothing(blank: string)
    requires AllSpace(blank)
    ensures Keep(blank) == []
  {
  }

  lemma {:induction false} FlatMapSkip<A, B>(f: A -> seq<B>, xs: seq<A>, x: A, ys: seq<A>)
    requires f(x) == []
    ensures FlatMap(f, xs + [x] + ys) == FlatMap(f, xs + ys)
  {
    FlatMapAppend(f, xs + [x], ys);
    FlatMapAppend(f, xs, [x]);
    FlatMapAppend(f, xs, ys);
    assert [x][..0] == [];
  }

  /** Whitespace-only sections contribute nothing. */
  lemma {:induction false} BlankSectionSkipped(a: seq<string>, blank: string, b: seq<string>)
    requires AllSpace(blank)
    ensures Candidates(a + [blank] + b) == Candidates(a + b)
  {
    BlankKeepsNothing(blank);
    FlatMapSkip(Keep, a, blank, b);
  }

  /** The marker's last character occurs nowhere else in it, so occurrences cannot overlap. */
  lemma MarkerBorderless()
    ensures LastCharUnique(Marker)
  {
  }

  /** Text before the first marker is discarded. */
  lemma {:induction false} PreambleDiscarded(pre: string, rest: string)
    requires !Occurs(pre, Marker)
    ensures Sections(pre + Marker + rest) == Sections(Marker + rest)
    ensures Rerank(pre + Marker + rest) == Rerank(Marker + rest)
  {
    MarkerBorderless();
    FindAfterFreePrefix(pre, Marker, rest);
    FindAfterFreePrefix("", Marker, rest);
    assert (pre + Marker + rest)[|pre| + |Marker|..] == rest;
    assert "" + Marker + rest == Marker + rest;
    assert (Marker + rest)[|Marker|..] == rest;
  }
}
