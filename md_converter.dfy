/**
 * The converter from source documents to markdown: pick the files of the
 * documents directory that have no markdown yet (or all of them when
 * forced), convert each, and write `# Source: <file name>` followed by the
 * markdown to `<md_dir>/<stem>.md`. The document converter itself is library
 * code and is handed in as a function from a file name to its markdown or
 * to the text of the exception it raised.
 */
module MdConverter {
  import opened Wrappers
  import opened Text
  import opened TextFacts
  import opened Retriever
  import opened Ingester

  /** An entry of the documents directory, in listing order. */
  datatype Entry = Entry(name: string, isFile: bool)

  /** The index of the last `c` in `s`, or -1 (`str.rfind`). */
  function RFind(s: string, c: char): (r: int)
    ensures -1 <= r < |s|
    ensures r >= 0 ==> s[r] == c
    ensures forall j :: r < j < |s| ==> s[j] != c
  {
    if s == [] then -1
    else if s[|s| - 1] == c then |s| - 1
    else RFind(s[..|s| - 1], c)
  }

  /** `Path(name).stem`: the name without its last suffix; a leading or trailing dot starts no suffix. */
  function Stem(name: string): (r: string)
    ensures StartsWith(name, r)
    ensures r != name ==> 0 < |r| < |name| - 1 && name[|r|] == '.' && Lacks(name[|r| + 1..], '.')
  {
    var i := RFind(name, '.');
    if 0 < i < |name| - 1 then
      assert Lacks(name[i + 1..], '.');
      name[..i]
    else name
  }

  /** The markdown file an entry converts to, inside the output directory. */
  function MdName(name: string): (r: string)
    ensures |r| >= 3 && r[|r| - 3..] == ".md"
    ensures StartsWith(name, r[..|r| - 3])
  {
    Stem(name) + ".md"
  }

  /** The text written for a converted file. */
  function Header(name: string, markdown: string): (r: string)
    ensures StartsWith(r, "# Source: " + name + "\n\n")
    ensures |r| == 12 + |name| + |markdown| && r[|r| - |markdown|..] == markdown
  {
    "# Source: " + name + "\n\n" + markdown
  }

  /**
   * The entries `_get_files_to_process` keeps, in listing order: regular
   * files whose markdown does not exist yet, or every regular file when
   * forced.
   */
  function Selected(entries: seq<Entry>, force: bool, existing: set<string>): (r: seq<Entry>)
    ensures |r| <= |entries|
    ensures forall e :: e in r <==> e in entries && e.isFile && (force || MdName(e.name) !in existing)
  {
    if entries == [] then []
    else
      var init := entries[..|entries| - 1];
      var e := entries[|entries| - 1];
      assert entries == init + [e];
      Selected(init, force, existing) + if e.isFile && (force || MdName(e.name) !in existing) then [e] else []
  }

  const NoSuchDirectory := "[Errno 2] No such file or directory"
  const NoNewFiles := "No new files to convert."

  /**
   * What `_convert_file` produces for one file: the text it writes, or the
   * message of the exception it catches, either from the converter or from
   * writing into a missing directory.
   */
  function Outcome(name: string, convert: string -> Result<string, string>, dirExists: bool): (r: Result<string, string>)
    ensures r.Ok? <==> convert(name).Ok? && dirExists
    ensures r.Ok? ==> StartsWith(r.value, "# Source: " + name + "\n\n")
  {
    match convert(name)
    case Err(message) => Err(message)
    case Ok(markdown) => if dirExists then Ok(Header(name, markdown)) else Err(NoSuchDirectory)
  }

  /** The line `_convert_file` prints for one file. */
  function Report(name: string, outcome: Result<string, string>): string {
    match outcome
    case Ok(_) => "\U{2705} Converted: " + name
    case Err(message) => "\U{26A0}\U{FE0F} Error converting " + name + ": " + message
  }

  /** The lines printed for a run over the selected files, one per file. */
  function Reports(files: seq<Entry>, convert: string -> Result<string, string>): (r: seq<string>)
    ensures |r| == |files|
    ensures forall k :: 0 <= k < |files| ==> r[k] == Report(files[k].name, Outcome(files[k].name, convert, true))
  {
    seq(|files|, k requires 0 <= k < |files| => Report(files[k].name, Outcome(files[k].name, convert, true)))
  }

  /** The output directory after converting `files` in order, each success overwriting its markdown file. */
  function Written(before: map<string, string>, files: seq<Entry>, convert: string -> Result<string, string>): (r: map<string, string>)
    ensures before.Keys <= r.Keys
  {
    if files == [] then before
    else
      var e := files[|files| - 1];
      var prior := Written(before, files[..|files| - 1], convert);
      match Outcome(e.name, convert, true)
      case Ok(text) => prior[MdName(e.name) := text]
      case Err(_) => prior
  }

  /** Converting one more file: its outcome decides the output directory. */
  lemma WrittenOneMore(before: map<string, string>, files: seq<Entry>, i: nat, convert: string -> Result<string, string>)
    requires i < |files|
    ensures var name := files[i].name;
      var prior := Written(before, files[..i], convert);
      Written(before, files[..i + 1], convert)
         == (match Outcome(name, convert, true) case Ok(text) => prior[MdName(name) := text] case Err(_) => prior)
  {
    var next := files[..i + 1];
    assert next[..i] == files[..i];
    assert next[i] == files[i];
  }

  /** Converting one more file adds its report line. */
  lemma ReportsOneMore(files: seq<Entry>, i: nat, convert: string -> Result<string, string>)
    requires i < |files|
    ensures var name := files[i].name;
      Reports(files[..i + 1], convert) == Reports(files[..i], convert) + [Report(name, Outcome(name, convert, true))]
  {
  }

  /**
   * A file that converts is written, whatever happened to the files around
   * it, unless a later file of the same stem overwrites it.
   */
  lemma {:induction false} EachSuccessWritten(before: map<string, string>, files: seq<Entry>, convert: string -> Result<string, string>, k: nat)
    requires k < |files| && convert(files[k].name).Ok?
    requires forall j :: k < j < |files| ==> MdName(files[j].name) != MdName(files[k].name)
    ensures var out := Written(before, files, convert);
      MdName(files[k].name) in out && out[MdName(files[k].name)] == Header(files[k].name, convert(files[k].name).value)
    decreases |files|
  {
    if k < |files| - 1 {
      var init := files[..|files| - 1];
      EachSuccessWritten(before, init, convert, k);
      assert init[k] == files[k];
    }
  }

  /** A file that fails to convert leaves the output directory as it was. */
  lemma {:induction false} FailureSkipped(before: map<string, string>, files: seq<Entry>, e: Entry, convert: string -> Result<string, string>)
    requires convert(e.name).Err?
    ensures Written(before, files + [e], convert) == Written(before, files, convert)
  {
    assert (files + [e])[..|files|] == files;
  }

  /** Only markdown files of the converted files are added; files already there are kept. */
  lemma {:induction false} WrittenKeys(before: map<string, string>, files: seq<Entry>, convert: string -> Result<string, string>)
    ensures forall n :: n in Written(before, files, convert) <==>
      n in before || exists e :: e in files && convert(e.name).Ok? && MdName(e.name) == n
    decreases |files|
  {
    if files != [] {
      var init := files[..|files| - 1];
      var e := files[|files| - 1];
      WrittenKeys(before, init, convert);
      assert files == init + [e];
    }
  }

  /** The converted text names its source, and the ingester reads that name back as `doc_source`. */
  lemma {:induction false} IngestedSourceIsFileName(name: string, markdown: string)
    requires Lacks(name, '\n') && !Occurs(name, SourceTag) && Strip(name) == name
    ensures DocSource(Header(name, markdown)) == Some(name)
  {
    var line := "# Source: " + name;
    HeaderFirstLine(name, markdown);
    TagRemoved(name);
    assert StartsWith(line, SourceTag) by {
      assert line[..|SourceTag|] == SourceTag;
    }
    StripLeadingSpace(name);
  }

  lemma {:induction false} HeaderFirstLine(name: string, markdown: string)
    requires Lacks(name, '\n')
    ensures FirstLine(Header(name, markdown)) == "# Source: " + name
  {
    var a, b := "# Source: " + name, "\n\n" + markdown;
    var h := Header(name, markdown);
    assert h == a + b;
    assert Lacks("# Source: ", '\n');
    LacksConcat("# Source: ", name, '\n');
    LacksNoOccurrence(a, '\n');
    assert Find(b, "\n") == 0 by {
      assert b[..1] == "\n";
    }
    FindCharConcat(a, b, '\n');
    SplitAt(h, "\n");
    assert h[..|a|] == a;
  }

  lemma {:induction false} TagRemoved(name: string)
    requires !Occurs(name, SourceTag)
    ensures Replace("# Source: " + name, SourceTag, []) == " " + name
  {
    TagLineSplit(name);
    assert Join([[], " " + name], []) == [] + [] + Join([" " + name], []);
  }

  /** The header line splits on the tag into nothing before it and the rest of the line. */
  lemma {:induction false} TagLineSplit(name: string)
    requires !Occurs(name, SourceTag)
    ensures Split("# Source: " + name, SourceTag) == [[], " " + name]
  {
    var line := "# Source: " + name;
    var rest := " " + name;
    assert Find(line, SourceTag) == 0 by {
      assert line[..|SourceTag|] == SourceTag;
    }
    SplitAt(line, SourceTag);
    assert line[|SourceTag|..] == rest;
    assert Lacks(" ", SourceTag[0]);
    NoOccurrenceAfterLiteral(" ", name, SourceTag);
    SplitFree(rest, SourceTag);
  }

  /** The retriever cites a chunk of a converted file by the name of the file it was converted from. */
  lemma {:induction false} CitedByFileName(metadata: map<string, MetaValue>, name: string, markdown: string)
    requires name != [] && Lacks(name, '\n') && !Occurs(name, SourceTag) && Strip(name) == name
    ensures DocName(Tagged(metadata, Header(name, markdown))) == name
  {
    IngestedSourceIsFileName(name, markdown);
  }

  /** The markdown directory: whether it exists, and its files by name. */
  class OutputDir {
    var created: bool
    var files: map<string, string>

    constructor(created: bool, files: map<string, string>)
      ensures this.created == created && this.files == files
    {
      this.created := created;
      this.files := files;
    }

    /** `mkdir(parents=True, exist_ok=True)`. */
    method Mkdir()
      modifies this
      ensures created && files == old(files)
    {
      created := true;
    }

    /** `write_text`, which fails on a missing directory. */
    method WriteText(name: string, text: string) returns (ok: bool)
      modifies this
      ensures ok == created && created == old(created)
      ensures files == if ok then old(files)[name := text] else old(files)
    {
      ok := created;
      if ok {
        files := files[name := text];
      }
    }
  }

  /** The converter, over a fixed listing of the documents directory; `console` is what it has printed. */
  class Converter {
    const docs: seq<Entry>
    const out: OutputDir
    const force: bool
    var console: seq<string>

    constructor(docs: seq<Entry>, out: OutputDir, force: bool)
      ensures this.docs == docs && this.out == out && this.force == force && console == []
    {
      this.docs := docs;
      this.out := out;
      this.force := force;
      console := [];
    }

    /** `_get_files_to_process`. */
    method FilesToProcess() returns (r: seq<Entry>)
      ensures r == Selected(docs, force, out.files.Keys)
    {
      r := [];
      for i := 0 to |docs|
        invariant r == Selected(docs[..i], force, out.files.Keys)
      {
        var filePath := docs[i];
        assert docs[..i + 1][..i] == docs[..i];
        if !filePath.isFile {
          continue;
        }
        var mdPath := MdName(filePath.name);
        if force || mdPath !in out.files {
          r := r + [filePath];
        }
      }
      assert docs[..|docs|] == docs;
    }

    /** `_convert_file`: convert, write, report; any exception is reported and turns into `false`. */
    method ConvertFile(src: Entry, convert: string -> Result<string, string>) returns (ok: bool)
      modifies this, out
      ensures var outcome := Outcome(src.name, convert, old(out.created));
        && ok == outcome.Ok?
        && out.created == old(out.created)
        && out.files == (if ok then old(out.files)[MdName(src.name) := outcome.value] else old(out.files))
        && console == old(console) + [Report(src.name, outcome)]
    {
      var converted := convert(src.name);
      if converted.Err? {
        console := console + [Report(src.name, Err(converted.error))];
        return false;
      }
      var finalContent := Header(src.name, converted.value);
      var outMd := MdName(src.name);
      ok := out.WriteText(outMd, finalContent);
      if ok {
        console := console + [Report(src.name, Ok(finalContent))];
      } else {
        console := console + [Report(src.name, Err(NoSuchDirectory))];
      }
    }

    /**
     * `convert_all`: create the output directory, select, and convert every
     * selected file in turn; a failure is reported and the loop goes on.
     * With nothing selected no conversion is attempted.
     */
    method ConvertAll(convert: string -> Result<string, string>)
      modifies this, out
      ensures out.created
      ensures var files := Selected(docs, force, old(out.files).Keys);
        if files == [] then
          out.files == old(out.files) && console == old(console) + [NoNewFiles]
        else
          && out.files == Written(old(out.files), files, convert)
          && console == old(console) + ["Converting " + NatToString(|files|) + " file(s)..."] + Reports(files, convert)
    {
      out.Mkdir();
      var files := FilesToProcess();
      if files == [] {
        console := console + [NoNewFiles];
        return;
      }
      console := console + ["Converting " + NatToString(|files|) + " file(s)..."];
      ConvertEach(files, convert);
    }

    /** The conversion loop of `convert_all`: every file is attempted, in order, whatever happened to the earlier ones. */
    method ConvertEach(files: seq<Entry>, convert: string -> Result<string, string>)
      requires out.created
      modifies this, out
      ensures out.created
      ensures out.files == Written(old(out.files), files, convert)
      ensures console == old(console) + Reports(files, convert)
    {
      for i := 0 to |files|
        invariant out.created
        invariant out.files == Written(old(out.files), files[..i], convert)
        invariant console == old(console) + Reports(files[..i], convert)
      {
        var _ := ConvertFile(files[i], convert);
        WrittenOneMore(old(out.files), files, i, convert);
        ReportsOneMore(files, i, convert);
      }
      assert files[..|files|] == files;
    }
  }
}
