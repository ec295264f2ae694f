/**
 * The retriever-reranker tool: the reranker applied to what the retriever
 * returns for the same query. The retriever's block format and the
 * reranker's parser meet here, so this module also proves that the parser
 * reads back what the formatter wrote: the answer is the first kept node
 * with the highest score, with its name, its page and its stripped text.
 */
module RetrieverReranker {
  import opened Wrappers
  import opened Text
  import opened TextFacts
  import opened Scores
  import opened Retriever
  import opened Reranker

  /**
   * `RetrieverRerankerTool._run`: search with the default threshold, then
   * rerank the text. A retriever error propagates; `chatId` is not used.
   */
  function RetrieveAndRerank(engine: Option<QueryEngine>, query: string, chatId: string): (r: Result<string, string>)
    ensures engine.None? <==> r == Err(NotInitialized)
    ensures r.Ok? ==> r.value == Rerank(SearchText(engine.value.query(query), DefaultMinScore))
  {
    match Search(engine, query, DefaultMinScore)
    case Err(e) => Err(e)
    case Ok(text) => Ok(Rerank(text))
  }

  /** The chat id has no influence on the result. */
  lemma {:induction false} ChatIdIgnored(engine: Option<QueryEngine>, query: string, a: string, b: string)
    ensures RetrieveAndRerank(engine, query, a) == RetrieveAndRerank(engine, query, b)
  {
  }

  /** With no node reaching the default threshold, the answer is the sentinel. */
  lemma {:induction false} NothingRelevant(engine: QueryEngine, query: string, chatId: string)
    requires forall n :: n in engine.query(query) ==> n.score < DefaultMinScore
    ensures RetrieveAndRerank(Some(engine), query, chatId) == Ok(NoDocuments)
  {
    SearchTextEmpty(engine.query(query), DefaultMinScore);
    assert Find("", Marker) == -1;
    assert Split("", Marker) == [""];
  }

  // ---------------------------------------------------------------------
  // What the formatter writes

  /** The header lines of a block once its marker is cut off. */
  function Header(docName: string, pageNumber: string, score: string): seq<string> {
    ["---", "Document: " + docName, "Page: " + pageNumber, "Relevance Score: " + score]
  }

  /** A block without its leading marker: the text of one section. */
  function TailText(docName: string, pageNumber: string, score: string, text: string): string {
    " " + LinesThen(Header(docName, pageNumber, score), "Content: " + text + "\n\n")
  }

  /** Cutting the marker off a block leaves its section text. */
  lemma {:induction false} BlockTextIsMarkerTail(d: string, p: string, f: string, x: string)
    ensures BlockText(d, p, f, x) == Marker + TailText(d, p, f, x)
  {
    var a, b, c := "Document: " + d + "\n", "Page: " + p + "\n", "Relevance Score: " + f + "\n";
    var e := "Content: " + x + "\n\n";
    var h := Header(d, p, f);
    assert LinesThen(h[4..], e) == e;
    assert LinesThen(h[3..], e) == c + e;
    assert LinesThen(h[2..], e) == b + (c + e);
    assert LinesThen(h[1..], e) == a + (b + (c + e));
    var r := a + (b + (c + e));
    assert LinesThen(h, e) == "---\n" + r;
    assert "--- Source Document ---\n" == Marker + " ---\n";
    assert " ---\n" == " " + "---\n";
    Assoc("--- Source Document ---\n" + a + b, c, e);
    Assoc("--- Source Document ---\n" + a, b, c + e);
    Assoc("--- Source Document ---\n", a, b + (c + e));
    Assoc(Marker, " ---\n", r);
    Assoc(" ", "---\n", r);
  }

  function Tail(n: ScoredNode): string {
    TailText(DocName(n.metadata), PageOf(n.metadata), FormatScore(n.score), n.text)
  }

  lemma {:induction false} BlockIsMarkerTail(n: ScoredNode)
    ensures Block(n) == Marker + Tail(n)
  {
    BlockTextIsMarkerTail(DocName(n.metadata), PageOf(n.metadata), FormatScore(n.score), n.text);
  }
  /** The tails of the given nodes, in order. */
  function Tails(nodes: seq<ScoredNode>): (r: seq<string>)
    ensures |r| == |nodes| && forall i :: 0 <= i < |nodes| ==> r[i] == Tail(nodes[i])
  {
    seq(|nodes|, i requires 0 <= i < |nodes| => Tail(nodes[i]))
  }

  /** The given section texts, each behind a marker, one after the other. */
  function Marked(tails: seq<string>): string {
    if tails == [] then [] else Marker + tails[0] + Marked(tails[1..])
  }

  lemma {:induction false} ChunkIsMarkedTail(nodes: seq<ScoredNode>, i: nat)
    requires i < |nodes|
    ensures Chunks(nodes)[i] == Marker + Tail(nodes[i])
  {
    if i < |nodes| - 1 {
      ChunkIsMarkedTail(nodes[..|nodes| - 1], i);
    } else {
      BlockIsMarkerTail(nodes[i]);
    }
  }

  lemma {:induction false} JoinMarked(chunks: seq<string>, tails: seq<string>)
    requires |chunks| == |tails|
    requires forall i :: 0 <= i < |tails| ==> chunks[i] == Marker + tails[i]
    ensures Join(chunks, "") == Marked(tails)
  {
    if tails != [] {
      JoinMarked(chunks[1..], tails[1..]);
      if |tails| == 1 {
        assert Marked(tails[1..]) == [];
      }
    }
  }

  /** The search text is the kept nodes' tails, each behind a marker. */
  lemma {:induction false} SearchTextIsMarked(nodes: seq<ScoredNode>, minScore: Score)
    ensures SearchText(nodes, minScore) == Marked(Tails(Kept(nodes, minScore)))
  {
    var kept := Kept(nodes, minScore);
    forall i | 0 <= i < |kept| ensures Chunks(kept)[i] == Marker + Tails(kept)[i] {
      ChunkIsMarkedTail(kept, i);
    }
    JoinMarked(Chunks(kept), Tails(kept));
  }

  // ---------------------------------------------------------------------
  // Cutting the search text at the markers

  lemma {:induction false} SplitMarked(t: string, tails: seq<string>)
    requires !Occurs(t, Marker)
    requires forall i :: 0 <= i < |tails| ==> !Occurs(tails[i], Marker)
    ensures Split(t + Marked(tails), Marker) == [t] + tails
    decreases |tails|
  {
    if tails == [] {
      assert t + Marked(tails) == t;
      SplitFree(t, Marker);
    } else {
      var next := tails[0];
      SplitMarkedStep(t, tails);
      SplitMarked(next, tails[1..]);
      assert tails == [next] + tails[1..];
    }
  }

  /** The text before the first marker is the first piece; the rest is split alike. */
  lemma SplitMarkedStep(t: string, tails: seq<string>)
    requires tails != [] && !Occurs(t, Marker)
    ensures Split(t + Marked(tails), Marker) == [t] + Split(tails[0] + Marked(tails[1..]), Marker)
  {
    var rest := tails[0] + Marked(tails[1..]);
    MarkedCons(t, tails);
    MarkerBorderless();
    SplitAfterFreePrefix(t, Marker, rest);
  }

  lemma MarkedCons(t: string, tails: seq<string>)
    requires tails != []
    ensures t + Marked(tails) == t + Marker + (tails[0] + Marked(tails[1..]))
  {
    var m, x, rest := Marker, tails[0], Marked(tails[1..]);
    assert Marked(tails) == m + x + rest;
    Assoc(m, x, rest);
    Assoc(t, m, x + rest);
  }

  /** Marker-free section texts behind markers are cut back into exactly those texts. */
  lemma {:induction false} SectionsOfMarked(tails: seq<string>)
    requires forall i :: 0 <= i < |tails| ==> !Occurs(tails[i], Marker)
    ensures Sections(Marked(tails)) == tails
  {
    assert !Occurs("", Marker) by {
      assert !IsAt("", Marker, 0);
    }
    SplitMarked("", tails);
    assert "" + Marked(tails) == Marked(tails);
  }

  // ---------------------------------------------------------------------
  // Reading one section back

  /** What `:.3f` prints: digits, a point and possibly a minus. */
  predicate ScoreShaped(f: string) {
    f != [] && forall i :: 0 <= i < |f| ==> IsDigit(f[i]) || f[i] == '-' || f[i] == '.'
  }

  /** A printed score has no blank at its ends and none of the letters the keys and the marker need. */
  lemma {:induction false} ScoreShapedFacts(f: string)
    requires ScoreShaped(f)
    ensures Strip(f) == f
    ensures Lacks(f, '\n') && Lacks(f, 'S') && Lacks(f, 'C') && Lacks(f, 'R')
    ensures !Occurs(f, "Relevance Score:")
  {
    StripUnchanged(f);
    NoOccurrenceMissingChar(f, "Relevance Score:", 0);
  }

  lemma {:induction false} FormatScoreShaped(t: Score)
    ensures ScoreShaped(FormatScore(t))
  {
    FormatScoreShape(t);
  }

  /** The section text of a block has no marker inside when none of the values has one. */
  lemma {:induction false} TailMarkerFree(d: string, p: string, f: string, x: string)
    requires !Occurs(d, Marker) && !Occurs(p, Marker) && !Occurs(x, Marker) && Lacks(f, 'S')
    ensures !Occurs(TailText(d, p, f, x), Marker)
  {
    var h := Header(d, p, f);
    var e := "Content: " + x + "\n\n";
    assert Marker[4] == 'S' && Marker[0] == '-';
    NoOccurrenceMissingChar("---", Marker, 4);
    NoOccurrenceAfterLiteral("Document: ", d, Marker);
    NoOccurrenceAfterLiteral("Page: ", p, Marker);
    NoOccurrenceMissingChar(f, Marker, 4);
    NoOccurrenceAfterLiteral("Relevance Score: ", f, Marker);
    NoOccurrenceAfterLiteral("Content: ", x, Marker);
    NoOccurrenceMissingChar("\n", Marker, 0);
    NoOccurrenceAcross("Content: " + x, '\n', "\n", Marker);
    Assoc("Content: " + x, "\n", "\n");
    assert e == "Content: " + x + ['\n'] + "\n";
    LinesThenNoOccurrence(h, e, Marker);
    NoOccurrenceAfterLiteral(" ", LinesThen(h, e), Marker);
  }

  /** `Content:` is first found in the block's own content line, so the content is the stripped text. */
  lemma {:induction false} TailContent(d: string, p: string, f: string, x: string)
    requires !Occurs(d, "Content:") && !Occurs(p, "Content:") && Lacks(f, 'C')
    ensures ContentOf(TailText(d, p, f, x)) == Some(Strip(x))
  {
    var pre := " " + LinesThen(Header(d, p, f), []);
    var rest := " " + x + "\n\n";
    HeaderFreeOfContent(d, p, f);
    TailAroundContent(d, p, f, x);
    ContentAfterFreePrefix(pre, rest);
    assert AllSpace("\n\n");
    StripTrailing(" " + x, "\n\n");
    StripLeadingSpace(x);
  }

  /** The header lines in front of the content line hold no `Content:`. */
  lemma {:induction false} HeaderFreeOfContent(d: string, p: string, f: string)
    requires !Occurs(d, "Content:") && !Occurs(p, "Content:") && Lacks(f, 'C')
    ensures !Occurs(" " + LinesThen(Header(d, p, f), []), "Content:")
  {
    var h := Header(d, p, f);
    NoOccurrenceMissingChar("---", "Content:", 0);
    NoOccurrenceAfterLiteral("Document: ", d, "Content:");
    NoOccurrenceAfterLiteral("Page: ", p, "Content:");
    NoOccurrenceMissingChar(f, "Content:", 0);
    NoOccurrenceAfterLiteral("Relevance Score: ", f, "Content:");
    NoOccurrenceMissingChar([], "Content:", 0);
    LinesThenNoOccurrence(h, [], "Content:");
    NoOccurrenceAfterLiteral(" ", LinesThen(h, []), "Content:");
  }

  /** The section text is the header lines, `Content:`, then the content line's remainder. */
  lemma {:induction false} TailAroundContent(d: string, p: string, f: string, x: string)
    ensures TailText(d, p, f, x) == (" " + LinesThen(Header(d, p, f), [])) + "Content:" + (" " + x + "\n\n")
  {
    var h := Header(d, p, f);
    var e := "Content: " + x + "\n\n";
    var rest := " " + x + "\n\n";
    var pre := " " + LinesThen(h, []);
    LinesThenEndsWith(h, e);
    Assoc("Content:", " ", x);
    Assoc("Content:", " " + x, "\n\n");
    assert e == "Content:" + rest;
    Assoc(" ", LinesThen(h, []), e);
    Assoc(pre, "Content:", rest);
  }

  /** After a prefix without `Content:`, the content is what follows the key, stripped. */
  lemma {:induction false} ContentAfterFreePrefix(pre: string, rest: string)
    requires !Occurs(pre, "Content:")
    ensures ContentOf(pre + "Content:" + rest) == Some(Strip(rest))
  {
    var s := pre + "Content:" + rest;
    assert LastCharUnique("Content:");
    FindAfterFreePrefix(pre, "Content:", rest);
    assert s[|pre| + 8..] == rest;
  }

  /** Stripping the section text strips the blank in front and the blanks after the content. */
  lemma {:induction false} TailStripped(d: string, p: string, f: string, x: string)
    ensures Strip(TailText(d, p, f, x)) == Strip(LinesThen(Header(d, p, f), "Content: " + x[..TrimmedLength(x)]))
  {
    var h := Header(d, p, f);
    var k := TrimmedLength(x);
    var x1, w := x[..k], x[k..];
    assert x == x1 + w;
    Assoc("Content: ", x1, w);
    var c := "Content: " + x1;
    Assoc(c, w, "\n\n");
    assert "Content: " + x + "\n\n" == c + (w + "\n\n");
    LinesThenAppend(h, c, w + "\n\n");
    StripLeadingSpace(LinesThen(h, "Content: " + x + "\n\n"));
    assert AllSpace(w + "\n\n") by {
      forall i | 0 <= i < |w + "\n\n"| ensures IsSpace((w + "\n\n")[i]) {
        if i < |w| {
          assert (w + "\n\n")[i] == w[i];
        }
      }
    }
    StripTrailing(LinesThen(h, c), w + "\n\n");
  }

  /** The lines of a section whose content is not blank: the header, the content line, the content's further lines. */
  lemma {:induction false} LinesWithContent(h: seq<string>, x: string)
    requires h != [] && h[0] == "---" && forall i :: 0 <= i < |h| ==> Lacks(h[i], '\n')
    requires x != [] && !IsSpace(x[|x| - 1])
    ensures Split(Strip(LinesThen(h, "Content: " + x)), "\n") == h + (["Content: " + Split(x, "\n")[0]] + Split(x, "\n")[1..])
  {
    LinesThenStripped(h, "Content: " + x);
    LinesThenSplit(h, "Content: " + x);
    ContentLineSplit(x);
  }

  lemma {:induction false} ContentLineSplit(x: string)
    ensures Split("Content: " + x, "\n") == ["Content: " + Split(x, "\n")[0]] + Split(x, "\n")[1..]
  {
    LacksNoOccurrence("Content: ", '\n');
    SplitFree("Content: ", "\n");
    SplitConcat("Content: ", x, '\n');
  }

  /** The lines of a section whose content is blank: the header and a bare `Content:`. */
  lemma {:induction false} LinesWithoutContent(h: seq<string>)
    requires h != [] && h[0] == "---" && forall i :: 0 <= i < |h| ==> Lacks(h[i], '\n')
    ensures Split(Strip(LinesThen(h, "Content: ")), "\n") == h + ["Content:"]
  {
    BareContentStripped(h);
    LinesThenSplit(h, "Content:");
    LacksNoOccurrence("Content:", '\n');
    SplitFree("Content:", "\n");
  }

  lemma {:induction false} BareContentStripped(h: seq<string>)
    requires h != [] && h[0] == "---"
    ensures Strip(LinesThen(h, "Content: ")) == LinesThen(h, "Content:")
  {
    var l := LinesThen(h, "Content:");
    assert "Content: " == "Content:" + " ";
    LinesThenAppend(h, "Content:", " ");
    StripTrailing(l, " ");
    LinesThenStripped(h, "Content:");
  }

  lemma {:induction false} HeaderLacksNewline(d: string, p: string, f: string)
    requires Lacks(d, '\n') && Lacks(p, '\n') && Lacks(f, '\n')
    ensures forall i :: 0 <= i < |Header(d, p, f)| ==> Lacks(Header(d, p, f)[i], '\n')
  {
    LacksConcat("Document: ", d, '\n');
    LacksConcat("Page: ", p, '\n');
    LacksConcat("Relevance Score: ", f, '\n');
  }

  /**
   * The lines of a section as a block's text makes them: the four header
   * lines, a line starting with `Content:`, then lines that once stripped
   * are the further lines of the content `x`.
   */
  predicate ContentFollowsHeader(lines: seq<string>, h: seq<string>, x: string) {
    && |h| == 4 && |lines| >= 5 && lines[..4] == h && StartsWith(lines[4], "Content:")
    && forall i :: 5 <= i < |lines| ==>
         i - 4 < |Split(x, "\n")| && Strip(lines[i]) == Strip(Split(x, "\n")[i - 4])
  }

  /** `section.strip().split('\n')` on a block's section text. */
  lemma {:induction false} TailLines(d: string, p: string, f: string, x: string)
    requires Lacks(d, '\n') && Lacks(p, '\n') && Lacks(f, '\n')
    ensures ContentFollowsHeader(SectionLines(TailText(d, p, f, x)), Header(d, p, f), x)
  {
    if TrimmedLength(x) > 0 {
      TailLinesFilled(d, p, f, x);
    } else {
      TailLinesBlank(d, p, f, x);
    }
  }

  lemma {:induction false} TailLinesFilled(d: string, p: string, f: string, x: string)
    requires Lacks(d, '\n') && Lacks(p, '\n') && Lacks(f, '\n') && TrimmedLength(x) > 0
    ensures ContentFollowsHeader(SectionLines(TailText(d, p, f, x)), Header(d, p, f), x)
  {
    var k := TrimmedLength(x);
    FilledSectionLines(d, p, f, x);
    assert x == x[..k] + x[k..];
    ContentLinesFollow(Header(d, p, f), x[..k], x[k..], SectionLines(TailText(d, p, f, x)));
  }

  lemma {:induction false} FilledSectionLines(d: string, p: string, f: string, x: string)
    requires Lacks(d, '\n') && Lacks(p, '\n') && Lacks(f, '\n') && TrimmedLength(x) > 0
    ensures var sx := Split(x[..TrimmedLength(x)], "\n");
      SectionLines(TailText(d, p, f, x)) == Header(d, p, f) + (["Content: " + sx[0]] + sx[1..])
  {
    var k := TrimmedLength(x);
    HeaderLacksNewline(d, p, f);
    TailStripped(d, p, f, x);
    LinesWithContent(Header(d, p, f), x[..k]);
  }

  /** The lines after the content line are the content's lines, up to blanks at their ends. */
  lemma {:induction false} ContentLinesFollow(h: seq<string>, x: string, w: string, lines: seq<string>)
    requires |h| == 4 && AllSpace(w)
    requires lines == h + (["Content: " + Split(x, "\n")[0]] + Split(x, "\n")[1..])
    ensures ContentFollowsHeader(lines, h, x + w)
  {
    var sx := Split(x, "\n");
    PlacedAfter(h, "Content: " + sx[0], sx[1..], lines);
    ContentLineStarts(sx[0]);
    SplitTrailingSpace(x, w);
    StrippedLater(lines, sx, Split(x + w, "\n"));
  }

  /** Lines that continue `sx` from index 5 on agree, once stripped, with `sxw`, which agrees with `sx`. */
  lemma {:induction false} StrippedLater(lines: seq<string>, sx: seq<string>, sxw: seq<string>)
    requires |sx| >= 1 && |lines| == 5 + |sx[1..]|
    requires forall i :: 4 < i < |lines| ==> lines[i] == sx[1..][i - 5]
    requires |sx| <= |sxw| && forall i :: 0 <= i < |sx| ==> Strip(sxw[i]) == Strip(sx[i])
    ensures forall i :: 5 <= i < |lines| ==> i - 4 < |sxw| && Strip(lines[i]) == Strip(sxw[i - 4])
  {
    forall i | 5 <= i < |lines| ensures i - 4 < |sxw| && Strip(lines[i]) == Strip(sxw[i - 4]) {
      assert lines[i] == sx[i - 4];
    }
  }

  lemma {:induction false} ContentLineStarts(s: string)
    ensures StartsWith("Content: " + s, "Content:")
  {
    assert ("Content: " + s)[..8] == "Content:";
  }

  lemma {:induction false} PlacedAfter(h: seq<string>, c: string, rest: seq<string>, lines: seq<string>)
    requires lines == h + ([c] + rest)
    ensures |lines| == |h| + 1 + |rest| && lines[..|h|] == h && lines[|h|] == c
    ensures forall i :: |h| < i < |lines| ==> lines[i] == rest[i - |h| - 1]
  {
    assert lines[..|h|] == h;
  }

  lemma {:induction false} TailLinesBlank(d: string, p: string, f: string, x: string)
    requires Lacks(d, '\n') && Lacks(p, '\n') && Lacks(f, '\n') && TrimmedLength(x) == 0
    ensures var lines := SectionLines(TailText(d, p, f, x));
      && |lines| == 5 && lines[..4] == Header(d, p, f) && lines[4] == "Content:"
      && ContentFollowsHeader(lines, Header(d, p, f), x)
  {
    var h := Header(d, p, f);
    var lines := SectionLines(TailText(d, p, f, x));
    BlankSectionLines(d, p, f, x);
    assert lines[..4] == h;
    assert lines[4] == "Content:";
  }

  /** With a blank content the stripped section is the header lines and a bare `Content:`. */
  lemma {:induction false} BlankSectionLines(d: string, p: string, f: string, x: string)
    requires Lacks(d, '\n') && Lacks(p, '\n') && Lacks(f, '\n') && TrimmedLength(x) == 0
    ensures SectionLines(TailText(d, p, f, x)) == Header(d, p, f) + ["Content:"]
  {
    var h := Header(d, p, f);
    HeaderLacksNewline(d, p, f);
    TailStripped(d, p, f, x);
    assert "Content: " + x[..0] == "Content: ";
    LinesWithoutContent(h);
  }

  // ---------------------------------------------------------------------
  // Which line fills which slot

  /** A line the loop of `_parse` reads as a `Document:`, `Page:` or `Relevance Score:` line. */
  predicate IsHeader(line: string) {
    StartsWith(line, "Document:") || StartsWith(line, "Page:") || StartsWith(line, "Relevance Score:")
  }

  /** No line of `text` after its first reads, once stripped, as a header line. */
  predicate Quiet(text: string) {
    forall i :: 1 <= i < |Split(text, "\n")| ==> !IsHeader(Strip(Split(text, "\n")[i]))
  }

  /** The stripped `Page:` line reads as a page line and not as a name line. */
  lemma {:induction false} PageLineKeys(p: string)
    ensures StartsWith(Strip("Page: " + p), "Page:") && !StartsWith(Strip("Page: " + p), "Document:")
  {
    assert ("Page: " + p)[..5] == "Page:";
    StripKeepsPrefix("Page: " + p, "Page:");
    KeysExclusive(Strip("Page: " + p));
  }

  /** The stripped `Relevance Score:` line reads as a score line only. */
  lemma {:induction false} ScoreLineKeys(f: string)
    ensures var line := Strip("Relevance Score: " + f);
      StartsWith(line, "Relevance Score:") && !StartsWith(line, "Document:") && !StartsWith(line, "Page:")
  {
    assert ("Relevance Score: " + f)[..16] == "Relevance Score:";
    StripKeepsPrefix("Relevance Score: " + f, "Relevance Score:");
    KeysExclusive(Strip("Relevance Score: " + f));
  }

  /** From the content line on, no line reads as a header line. */
  lemma {:induction false} NoHeaderAfterContent(lines: seq<string>, h: seq<string>, x: string)
    requires ContentFollowsHeader(lines, h, x) && Quiet(x)
    ensures forall j :: 4 <= j < |lines| ==> !IsHeader(Strip(lines[j]))
  {
    StripKeepsPrefix(lines[4], "Content:");
    KeysExclusive(Strip(lines[4]));
  }

  /** No line after the name line reads as a name line; likewise for the page and the score lines. */
  lemma {:induction false} NameLineIsLast(lines: seq<string>, d: string, p: string, f: string, x: string)
    requires ContentFollowsHeader(lines, Header(d, p, f), x) && Quiet(x)
    ensures forall j :: 1 < j < |lines| ==> !StartsWith(Strip(lines[j]), "Document:")
  {
    NoHeaderAfterContent(lines, Header(d, p, f), x);
    assert lines[2] == "Page: " + p;
    PageLineKeys(p);
    assert lines[3] == "Relevance Score: " + f;
    ScoreLineKeys(f);
  }

  lemma {:induction false} PageLineIsLast(lines: seq<string>, d: string, p: string, f: string, x: string)
    requires ContentFollowsHeader(lines, Header(d, p, f), x) && Quiet(x)
    ensures forall j :: 2 < j < |lines| ==> !StartsWith(Strip(lines[j]), "Page:")
  {
    NoHeaderAfterContent(lines, Header(d, p, f), x);
    assert lines[3] == "Relevance Score: " + f;
    ScoreLineKeys(f);
  }

  lemma {:induction false} ScoreLineIsLast(lines: seq<string>, d: string, p: string, f: string, x: string)
    requires ContentFollowsHeader(lines, Header(d, p, f), x) && Quiet(x)
    ensures forall j :: 3 < j < |lines| ==> !StartsWith(Strip(lines[j]), "Relevance Score:")
  {
    NoHeaderAfterContent(lines, Header(d, p, f), x);
  }

  lemma {:induction false} NameRead(section: string, lines: seq<string>, d: string, p: string, f: string, x: string)
    requires ContentFollowsHeader(lines, Header(d, p, f), x) && Quiet(x)
    requires Strip(d) == d && !Occurs(d, "Document:")
    ensures Scan(section, NoFields, lines).name == Some(d)
  {
    NameLineIsLast(lines, d, p, f, x);
    assert lines[1] == "Document:" + " " + d;
    KeyLineValue("Document:", d);
    LastIndexCharacterised(lines, "Document:", 1);
    ScanName(section, NoFields, lines);
  }

  lemma {:induction false} PageRead(section: string, lines: seq<string>, d: string, p: string, f: string, x: string)
    requires ContentFollowsHeader(lines, Header(d, p, f), x) && Quiet(x)
    requires Strip(p) == p && !Occurs(p, "Page:")
    ensures Scan(section, NoFields, lines).page == Some(p)
  {
    PageLineIsLast(lines, d, p, f, x);
    assert lines[2] == "Page:" + " " + p;
    KeyLineValue("Page:", p);
    LastIndexCharacterised(lines, "Page:", 2);
    ScanPage(section, NoFields, lines);
  }

  lemma {:induction false} ScoreRead(section: string, lines: seq<string>, d: string, p: string, f: string, x: string)
    requires ContentFollowsHeader(lines, Header(d, p, f), x) && Quiet(x)
    requires Strip(f) == f && !Occurs(f, "Relevance Score:")
    ensures Scan(section, NoFields, lines).score == Some(ScoreOrZero(f))
  {
    ScoreLineIsLast(lines, d, p, f, x);
    assert lines[3] == "Relevance Score:" + " " + f;
    KeyLineValue("Relevance Score:", f);
    LastIndexCharacterised(lines, "Relevance Score:", 3);
    ScanScore(section, NoFields, lines);
  }

  lemma {:induction false} ContentRead(section: string, lines: seq<string>, h: seq<string>, x: string)
    requires ContentFollowsHeader(lines, h, x) && ContentOf(section).Some?
    ensures Scan(section, NoFields, lines).content == ContentOf(section)
  {
    StripKeepsPrefix(lines[4], "Content:");
    LastIndexAtLeast(lines, "Content:", 4);
    ScanContent(section, NoFields, lines);
  }

  /** A value that fits on its line and that the reranker reads back unchanged. */
  predicate CleanValue(v: string, key: string) {
    Strip(v) == v && Lacks(v, '\n') && !Occurs(v, key) && !Occurs(v, Marker) && !Occurs(v, "Content:")
  }

  /**
   * The reranker reads back from a block's section text the name, the page,
   * the score and the stripped content that were written into it.
   */
  lemma {:induction false} ParseTail(d: string, p: string, f: string, x: string)
    requires CleanValue(d, "Document:") && CleanValue(p, "Page:") && ScoreShaped(f) && Quiet(x)
    ensures Keep(TailText(d, p, f, x)) == [Candidate(d, Some(p), ScoreOrZero(f), Strip(x))]
  {
    var section := TailText(d, p, f, x);
    var lines := SectionLines(section);
    ScoreShapedFacts(f);
    TailLines(d, p, f, x);
    NameRead(section, lines, d, p, f, x);
    PageRead(section, lines, d, p, f, x);
    ScoreRead(section, lines, d, p, f, x);
    TailContent(d, p, f, x);
    ContentRead(section, lines, Header(d, p, f), x);
    assert section[1] == '-';
  }

  // ---------------------------------------------------------------------
  // The whole pipeline

  /**
   * A node whose block the reranker reads back faithfully: its name and page
   * fit on their lines, and its text neither holds the marker nor has a later
   * line that reads as a header line.
   */
  predicate CleanNode(n: ScoredNode) {
    && CleanValue(DocName(n.metadata), "Document:")
    && CleanValue(PageOf(n.metadata), "Page:")
    && !Occurs(n.text, Marker)
    && Quiet(n.text)
  }

  /** The candidate written into a node's block. */
  function Expected(n: ScoredNode): Candidate {
    Candidate(DocName(n.metadata), Some(PageOf(n.metadata)), n.score, Strip(n.text))
  }

  /** A clean node's section yields exactly its own candidate, and holds no marker. */
  lemma {:induction false} KeepTail(n: ScoredNode)
    requires CleanNode(n)
    ensures Keep(Tail(n)) == [Expected(n)]
    ensures !Occurs(Tail(n), Marker)
  {
    var d, p, f := DocName(n.metadata), PageOf(n.metadata), FormatScore(n.score);
    FormatScoreShaped(n.score);
    ScoreShapedFacts(f);
    ParseFormatRoundTrip(n.score);
    ParseTail(d, p, f, n.text);
    TailMarkerFree(d, p, f, n.text);
  }

  function Expecteds(nodes: seq<ScoredNode>): (r: seq<Candidate>)
    ensures |r| == |nodes| && forall i :: 0 <= i < |nodes| ==> r[i] == Expected(nodes[i])
  {
    seq(|nodes|, i requires 0 <= i < |nodes| => Expected(nodes[i]))
  }

  function NodeScores(nodes: seq<ScoredNode>): (r: seq<Score>)
    ensures |r| == |nodes| && forall i :: 0 <= i < |nodes| ==> r[i] == nodes[i].score
  {
    seq(|nodes|, i requires 0 <= i < |nodes| => nodes[i].score)
  }

  /** Each clean node's section yields its candidate and holds no marker. */
  lemma {:induction false} TailsRead(nodes: seq<ScoredNode>)
    requires forall i :: 0 <= i < |nodes| ==> CleanNode(nodes[i])
    ensures forall i :: 0 <= i < |nodes| ==> Keep(Tails(nodes)[i]) == [Expecteds(nodes)[i]]
    ensures forall i :: 0 <= i < |nodes| ==> !Occurs(Tails(nodes)[i], Marker)
  {
    forall i | 0 <= i < |nodes| ensures Keep(Tails(nodes)[i]) == [Expecteds(nodes)[i]] && !Occurs(Tails(nodes)[i], Marker) {
      KeepTail(nodes[i]);
    }
  }

  /**
   * The retriever-reranker answers with the first kept node of highest score,
   * with the name, page and stripped text it was stored with, or with the
   * sentinel when no node reaches the threshold, as long as every kept node
   * is clean.
   */
  lemma {:induction false} RoundTrip(nodes: seq<ScoredNode>, minScore: Score)
    requires forall n :: n in nodes && n.score >= minScore ==> CleanNode(n)
    ensures var kept := Kept(nodes, minScore);
      Rerank(SearchText(nodes, minScore)) ==
        if kept == [] then NoDocuments else Render(Expected(kept[FirstMax(NodeScores(kept))]))
  {
    var kept := Kept(nodes, minScore);
    CandidatesOfSearch(nodes, minScore);
    AnswerIsFirstBest(Expecteds(kept));
    assert ScoresOf(Expecteds(kept)) == NodeScores(kept);
  }

  /** The reranker's candidates for a search text are the kept nodes' candidates, in order. */
  lemma {:induction false} CandidatesOfSearch(nodes: seq<ScoredNode>, minScore: Score)
    requires forall n :: n in nodes && n.score >= minScore ==> CleanNode(n)
    ensures Candidates(Sections(SearchText(nodes, minScore))) == Expecteds(Kept(nodes, minScore))
  {
    var kept := Kept(nodes, minScore);
    KeptMembers(nodes, minScore);
    forall i | 0 <= i < |kept| ensures CleanNode(kept[i]) {
      assert kept[i] in kept;
    }
    TailsRead(kept);
    SearchTextIsMarked(nodes, minScore);
    SectionsOfMarked(Tails(kept));
    FlatMapSingletons(Keep, Tails(kept), Expecteds(kept));
  }

  /** The same through the tool: with an engine whose kept nodes are clean, the tool answers with the best of them. */
  lemma {:induction false} ToolAnswersBest(engine: QueryEngine, query: string, chatId: string)
    requires forall n :: n in engine.query(query) && n.score >= DefaultMinScore ==> CleanNode(n)
    ensures var kept := Kept(engine.query(query), DefaultMinScore);
      RetrieveAndRerank(Some(engine), query, chatId) ==
        Ok(if kept == [] then NoDocuments else Render(Expected(kept[FirstMax(NodeScores(kept))])))
  {
    RoundTrip(engine.query(query), DefaultMinScore);
  }
}
