/**
 * The Markdown assembly of one chunk run in download.py: each parquet file
 * of the run contributes a heading and one section per column (a few
 * bookkeeping columns skipped), or an error note when it cannot be
 * processed, followed by a horizontal rule; the rule after the last file is
 * removed before saving.
 */
module ChunkMarkdown {
  import opened Text

  datatype Option<T> = None | Some(value: T)

  /** What `df[col].to_string(index=False)` gives: the column's text, or the message of the exception it raises. */
  datatype ColumnText = Shown(text: string) | Raised(message: string)

  datatype Column = Column(name: string, text: ColumnText)

  /** A data frame as far as the assembly looks at it: its row count and its columns in order. */
  datatype Frame = Frame(rows: nat, columns: seq<Column>)

  /** What `pd.read_parquet` gives: a frame, or the message of the exception it raises. */
  datatype ReadResult = Loaded(frame: Frame) | Failed(message: string)

  datatype ParquetFile = ParquetFile(filename: string, read: ReadResult)

  /** The columns never written to the Markdown. */
  const ColsSkip: seq<string> := ["document_id", "size"]

  /** `df.empty`: no rows or no columns. */
  predicate IsEmpty(f: Frame) {
    f.rows == 0 || f.columns == []
  }

  /** `filename[0:-8]`: the name without its last eight characters, empty when it is shorter. */
  function SiteName(filename: string): (r: string)
    ensures |r| == if |filename| >= 8 then |filename| - 8 else 0
    ensures StartsWith(filename, r)
    ensures EndsWith(filename, ".parquet") ==> r + ".parquet" == filename
  {
    if |filename| >= 8 then filename[..|filename| - 8] else ""
  }

  // ---------------------------------------------------------------------
  // The document as a sequence of blocks
  // ---------------------------------------------------------------------

  /** The pieces the Markdown is appended from, in the order the source appends them. */
  datatype Block =
    | SiteHeading(site: string)
    | NoData
    | ColumnHeading(name: string)
    | ColumnBody(text: string)
    | ErrorNote(filename: string, message: string)
    | Rule

  /** The text each piece appends. */
  function BlockText(b: Block): (r: string)
    ensures r != [] && r[|r| - 1] == '\n'
  {
    match b
    case SiteHeading(site) => "## Data from Website: http://www." + site + "\n\n"
    case NoData => "_(File contains no data)_\n\n"
    case ColumnHeading(name) => "### " + name + "\n"
    case ColumnBody(text) => "```text\n" + text + "\n```\n\n"
    case ErrorNote(filename, message) => "**Error processing " + filename + ":**\n```\n" + message + "\n```\n\n"
    case Rule => "---\n\n"
  }

  /** The parts written one after the other. */
  function Concat(parts: seq<string>): string {
    if parts == [] then "" else parts[0] + Concat(parts[1..])
  }

  lemma {:induction false} ConcatAppend(a: seq<string>, b: seq<string>)
    ensures Concat(a + b) == Concat(a) + Concat(b)
  {
    if a == [] {
      assert a + b == b;
    } else {
      ConcatAppend(a[1..], b);
      assert (a + b)[1..] == a[1..] + b;
      assert (a + b)[0] == a[0];
      assert Concat(a + b) == a[0] + (Concat(a[1..]) + Concat(b));
    }
  }

  function Texts(bs: seq<Block>): (r: seq<string>)
    ensures |r| == |bs|
    ensures forall i :: 0 <= i < |bs| ==> r[i] == BlockText(bs[i])
  {
    seq(|bs|, i requires 0 <= i < |bs| => BlockText(bs[i]))
  }

  /** The Markdown text of a sequence of blocks. */
  function Render(bs: seq<Block>): string {
    Concat(Texts(bs))
  }

  lemma RenderAppend(a: seq<Block>, b: seq<Block>)
    ensures Render(a + b) == Render(a) + Render(b)
  {
    assert Texts(a + b) == Texts(a) + Texts(b);
    ConcatAppend(Texts(a), Texts(b));
  }

  lemma RenderSingle(b: Block)
    ensures Render([b]) == BlockText(b)
  {
    assert Texts([b])[1..] == [];
    assert Concat(Texts([b])) == BlockText(b) + "";
    assert BlockText(b) + "" == BlockText(b);
  }

  /** A non-empty rendering ends with a line break. */
  lemma RenderEndsWithNewline(bs: seq<Block>)
    requires bs != []
    ensures Render(bs) != [] && Render(bs)[|Render(bs)| - 1] == '\n'
  {
    var init := bs[..|bs| - 1];
    assert bs == init + [bs[|bs| - 1]];
    RenderAppend(init, [bs[|bs| - 1]]);
    RenderSingle(bs[|bs| - 1]);
  }

  /**
   * The blocks of a frame's columns from a given one on: a skipped column
   * gives nothing; any other gives its heading, then its text, or, when
   * producing the text raises, an error note, after which no further column
   * is looked at.
   */
  function ColumnBlocks(filename: string, cols: seq<Column>): seq<Block> {
    if cols == [] then []
    else if cols[0].name in ColsSkip then ColumnBlocks(filename, cols[1..])
    else
      match cols[0].text
      case Shown(text) => [ColumnHeading(cols[0].name), ColumnBody(text)] + ColumnBlocks(filename, cols[1..])
      case Raised(message) => [ColumnHeading(cols[0].name), ErrorNote(filename, message)]
  }

  /** The blocks one parquet file contributes, always closed by a rule. */
  function FileBlocks(f: ParquetFile): (r: seq<Block>)
    ensures r != [] && r[|r| - 1] == Rule
  {
    match f.read
    case Failed(message) => [ErrorNote(f.filename, message), Rule]
    case Loaded(frame) =>
      [SiteHeading(SiteName(f.filename))]
      + (if IsEmpty(frame) then [NoData] else ColumnBlocks(f.filename, frame.columns))
      + [Rule]
  }

  /** The blocks of all files of the run, in order. */
  function DocumentBlocks(files: seq<ParquetFile>): seq<Block> {
    if files == [] then [] else DocumentBlocks(files[..|files| - 1]) + FileBlocks(files[|files| - 1])
  }

  // ---------------------------------------------------------------------
  // Properties of the document
  // ---------------------------------------------------------------------

  /**
   * Every heading or text block of the columns belongs to a column that is
   * not skipped: a skipped column never gets a section.
   */
  lemma {:induction false} SkippedColumnsAbsent(filename: string, cols: seq<Column>)
    ensures forall b :: b in ColumnBlocks(filename, cols) && (b.ColumnHeading? || b.ColumnBody?) ==>
      (exists c :: c in cols && c.name !in ColsSkip &&
        (b == ColumnHeading(c.name) || (c.text.Shown? && b == ColumnBody(c.text.text))))
  {
    if cols != [] {
      SkippedColumnsAbsent(filename, cols[1..]);
      forall b | b in ColumnBlocks(filename, cols) && (b.ColumnHeading? || b.ColumnBody?)
        ensures exists c :: (c in cols && c.name !in ColsSkip &&
          (b == ColumnHeading(c.name) || (c.text.Shown? && b == ColumnBody(c.text.text))))
      {
        if b in ColumnBlocks(filename, cols[1..]) {
          var c :| c in cols[1..] && c.name !in ColsSkip &&
            (b == ColumnHeading(c.name) || (c.text.Shown? && b == ColumnBody(c.text.text)));
          assert c in cols;
        } else {
          assert cols[0] in cols;
        }
      }
    }
  }

  /**
   * When no column raises, every column not skipped gets its heading
   * followed directly by its text.
   */
  lemma {:induction false} KeptColumnsShown(filename: string, cols: seq<Column>, k: nat)
    requires k < |cols| && cols[k].name !in ColsSkip
    requires forall j :: 0 <= j < |cols| ==> cols[j].text.Shown?
    ensures exists i :: (0 <= i < |ColumnBlocks(filename, cols)| - 1 &&
      ColumnBlocks(filename, cols)[i] == ColumnHeading(cols[k].name) &&
      ColumnBlocks(filename, cols)[i + 1] == ColumnBody(cols[k].text.text))
  {
    var r := ColumnBlocks(filename, cols);
    if k == 0 {
      assert r[0] == ColumnHeading(cols[k].name) && r[1] == ColumnBody(cols[k].text.text);
    } else {
      KeptColumnsShown(filename, cols[1..], k - 1);
      var rest := ColumnBlocks(filename, cols[1..]);
      var i :| 0 <= i < |rest| - 1 && rest[i] == ColumnHeading(cols[k].name) && rest[i + 1] == ColumnBody(cols[k].text.text);
      if cols[0].name in ColsSkip {
        assert r == rest;
      } else {
        assert r == [r[0], r[1]] + rest;
        assert r[i + 2] == rest[i] && r[i + 3] == rest[i + 1];
      }
    }
  }

  /** No column heading of the whole document names a skipped column. */
  lemma {:induction false} DocumentSkipsColumns(files: seq<ParquetFile>)
    ensures forall b :: b in DocumentBlocks(files) && b.ColumnHeading? ==> b.name !in ColsSkip
  {
    if files != [] {
      var f := files[|files| - 1];
      DocumentSkipsColumns(files[..|files| - 1]);
      if f.read.Loaded? {
        SkippedColumnsAbsent(f.filename, f.read.frame.columns);
      }
    }
  }

  function RuleCount(bs: seq<Block>): nat {
    if bs == [] then 0 else RuleCount(bs[..|bs| - 1]) + (if bs[|bs| - 1] == Rule then 1 else 0)
  }

  lemma {:induction false} RuleCountAppend(a: seq<Block>, b: seq<Block>)
    ensures RuleCount(a + b) == RuleCount(a) + RuleCount(b)
  {
    if b == [] {
      assert a + b == a;
    } else {
      RuleCountAppend(a, b[..|b| - 1]);
      assert (a + b)[..|a + b| - 1] == a + b[..|b| - 1];
    }
  }

  lemma RuleCountNone(bs: seq<Block>)
    requires Rule !in bs
    ensures RuleCount(bs) == 0
  {
    if bs != [] {
      RuleCountNone(bs[..|bs| - 1]);
    }
  }

  lemma {:induction false} ColumnBlocksHaveNoRule(filename: string, cols: seq<Column>)
    ensures Rule !in ColumnBlocks(filename, cols)
  {
    if cols != [] {
      ColumnBlocksHaveNoRule(filename, cols[1..]);
    }
  }

  /** Each file is followed by exactly one rule, and the document ends with one. */
  lemma {:induction false} OneRulePerFile(files: seq<ParquetFile>)
    ensures RuleCount(DocumentBlocks(files)) == |files|
    ensures files != [] ==> DocumentBlocks(files) != [] && DocumentBlocks(files)[|DocumentBlocks(files)| - 1] == Rule
  {
    if files != [] {
      var f := files[|files| - 1];
      OneRulePerFile(files[..|files| - 1]);
      RuleCountAppend(DocumentBlocks(files[..|files| - 1]), FileBlocks(f));
      var fb := FileBlocks(f);
      var init := fb[..|fb| - 1];
      assert fb == init + [Rule];
      RuleCountAppend(init, [Rule]);
      assert RuleCount([Rule]) == 1 by {
        assert [Rule][..0] == [];
      }
      match f.read
      case Failed(message) =>
        assert init == [ErrorNote(f.filename, message)];
        RuleCountNone(init);
      case Loaded(frame) =>
        assert init == [SiteHeading(SiteName(f.filename))]
          + (if IsEmpty(frame) then [NoData] else ColumnBlocks(f.filename, frame.columns));
        ColumnBlocksHaveNoRule(f.filename, frame.columns);
        RuleCountNone(init);
    }
  }

  // ---------------------------------------------------------------------
  // Removing the final rule
  // ---------------------------------------------------------------------

  const RuleSuffix: string := "\n---\n\n"

  /** A trailing `"\n---\n\n"` loses its last five characters; any other text is kept. */
  function StripTrailingRule(md: string): (r: string)
    ensures EndsWith(md, RuleSuffix) ==> |r| == |md| - 5 && r + BlockText(Rule) == md
    ensures !EndsWith(md, RuleSuffix) ==> r == md
  {
    if EndsWith(md, RuleSuffix) then md[..|md| - 5] else md
  }

  /**
   * For a run with at least one file, exactly the rule after the last file
   * is removed: the result is the rendering of every other block.
   */
  lemma DocumentLosesOnlyFinalRule(files: seq<ParquetFile>)
    requires files != []
    ensures var bs := DocumentBlocks(files);
      bs != [] && StripTrailingRule(Render(bs)) == Render(bs[..|bs| - 1])
  {
    var bs := DocumentBlocks(files);
    OneRulePerFile(files);
    var init := bs[..|bs| - 1];
    assert bs == init + [Rule];
    RenderAppend(init, [Rule]);
    RenderSingle(Rule);
    var head := Render(init);
    assert init != [] by {
      var last := files[|files| - 1];
      assert bs == DocumentBlocks(files[..|files| - 1]) + FileBlocks(last);
      assert |FileBlocks(last)| >= 2;
    }
    RenderEndsWithNewline(init);
    RuleAfterNewline(head);
  }

  /** A rule written after a line break is a trailing `"\n---\n\n"` whose last five characters are the rule. */
  lemma RuleAfterNewline(head: string)
    requires head != [] && head[|head| - 1] == '\n'
    ensures EndsWith(head + BlockText(Rule), RuleSuffix)
    ensures (head + BlockText(Rule))[..|head| + 5 - 5] == head
  {
    var md := head + BlockText(Rule);
    assert |BlockText(Rule)| == 5;
    assert md[|md| - 6..] == [head[|head| - 1]] + BlockText(Rule);
    assert md[..|head|] == head;
  }

  // ---------------------------------------------------------------------
  // The assembly as the source runs it
  // ---------------------------------------------------------------------

  /** Two blocks followed by more render one after the other. */
  lemma RenderPair(x: Block, y: Block, rest: seq<Block>)
    ensures Render([x, y] + rest) == BlockText(x) + BlockText(y) + Render(rest)
  {
    assert [x, y] + rest == [x] + ([y] + rest);
    RenderAppend([x], [y] + rest);
    RenderAppend([y], rest);
    RenderSingle(x);
    RenderSingle(y);
  }

  /** A column whose text is produced: its heading, then its text, then the later columns. */
  lemma ShownColumnStep(md: string, name: string, text: string, rest: seq<Block>)
    ensures md + ("### " + name + "\n") + ("```text\n" + text + "\n```\n\n") + Render(rest)
      == md + Render([ColumnHeading(name), ColumnBody(text)] + rest)
  {
    RenderPair(ColumnHeading(name), ColumnBody(text), rest);
    AppendThree(md, BlockText(ColumnHeading(name)), BlockText(ColumnBody(text)), Render(rest));
  }

  /** A column whose text raises: its heading, then the error note, and nothing after. */
  lemma RaisedColumnStep(md: string, name: string, filename: string, message: string)
    ensures md + ("### " + name + "\n") + ("**Error processing " + filename + ":**\n```\n" + message + "\n```\n\n")
      == md + Render([ColumnHeading(name), ErrorNote(filename, message)])
  {
    assert [ColumnHeading(name), ErrorNote(filename, message)] == [ColumnHeading(name)] + [ErrorNote(filename, message)];
    RenderAppend([ColumnHeading(name)], [ErrorNote(filename, message)]);
    RenderSingle(ColumnHeading(name));
    RenderSingle(ErrorNote(filename, message));
  }

  /** The loop over a non-empty frame's columns, appending to the Markdown. */
  method AppendColumns(md0: string, filename: string, cols: seq<Column>) returns (md: string)
    ensures md == md0 + Render(ColumnBlocks(filename, cols))
  {
    md := md0;
    var k := 0;
    while k < |cols|
      invariant 0 <= k <= |cols|
      invariant md + Render(ColumnBlocks(filename, cols[k..])) == md0 + Render(ColumnBlocks(filename, cols))
    {
      var c := cols[k];
      assert cols[k..][1..] == cols[k + 1..];
      if c.name in ColsSkip {
        // skipped column
      } else {
        var before := md;
        md := md + ("### " + c.name + "\n");
        match c.text
        case Raised(message) =>
          md := md + ("**Error processing " + filename + ":**\n```\n" + message + "\n```\n\n");
          RaisedColumnStep(before, c.name, filename, message);
          return;
        case Shown(text) =>
          md := md + ("```text\n" + text + "\n```\n\n");
          ShownColumnStep(before, c.name, text, ColumnBlocks(filename, cols[k + 1..]));
      }
      k := k + 1;
    }
    assert cols[|cols|..] == [];
  }

  /** The text appended for a file that cannot be read. */
  lemma FailedFileRendering(md: string, f: ParquetFile)
    requires f.read.Failed?
    ensures md + ("**Error processing " + f.filename + ":**\n```\n" + f.read.message + "\n```\n\n") + "---\n\n"
      == md + Render(FileBlocks(f))
  {
    RenderAppend([ErrorNote(f.filename, f.read.message)], [Rule]);
    RenderSingle(ErrorNote(f.filename, f.read.message));
    RenderSingle(Rule);
    assert FileBlocks(f) == [ErrorNote(f.filename, f.read.message)] + [Rule];
  }

  /** Appending three texts one by one appends their concatenation. */
  lemma AppendThree(md: string, a: string, b: string, c: string)
    ensures md + a + b + c == md + (a + b + c)
  {
  }

  /** A heading, some blocks and a closing rule render one after the other. */
  lemma RenderFramed(h: Block, body: seq<Block>)
    ensures Render([h] + body + [Rule]) == BlockText(h) + Render(body) + BlockText(Rule)
  {
    RenderAppend([h] + body, [Rule]);
    RenderAppend([h], body);
    RenderSingle(h);
    RenderSingle(Rule);
  }

  /** The text appended for a file that is read and holds no data. */
  lemma EmptyFileRendering(md: string, f: ParquetFile)
    requires f.read.Loaded? && IsEmpty(f.read.frame)
    ensures md + ("## Data from Website: http://www." + SiteName(f.filename) + "\n\n")
      + "_(File contains no data)_\n\n" + "---\n\n"
      == md + Render(FileBlocks(f))
  {
    var head := SiteHeading(SiteName(f.filename));
    assert FileBlocks(f) == [head] + [NoData] + [Rule];
    RenderFramed(head, [NoData]);
    RenderSingle(NoData);
    AppendThree(md, BlockText(head), BlockText(NoData), BlockText(Rule));
  }

  /** The text appended for a file that is read and holds data. */
  lemma DataFileRendering(md: string, f: ParquetFile)
    requires f.read.Loaded? && !IsEmpty(f.read.frame)
    ensures md + ("## Data from Website: http://www." + SiteName(f.filename) + "\n\n")
      + Render(ColumnBlocks(f.filename, f.read.frame.columns)) + "---\n\n"
      == md + Render(FileBlocks(f))
  {
    var head := SiteHeading(SiteName(f.filename));
    var body := ColumnBlocks(f.filename, f.read.frame.columns);
    assert FileBlocks(f) == [head] + body + [Rule];
    RenderFramed(head, body);
    AppendThree(md, BlockText(head), Render(body), BlockText(Rule));
  }

  /** The body of the loop over the parquet files: one file's text appended to the Markdown. */
  method AppendFile(md0: string, f: ParquetFile) returns (md: string)
    ensures md == md0 + Render(FileBlocks(f))
  {
    match f.read {
      case Failed(message) =>
        md := md0 + ("**Error processing " + f.filename + ":**\n```\n" + message + "\n```\n\n");
        FailedFileRendering(md0, f);
      case Loaded(frame) =>
        md := md0 + ("## Data from Website: http://www." + SiteName(f.filename) + "\n\n");
        if IsEmpty(frame) {
          md := md + "_(File contains no data)_\n\n";
          EmptyFileRendering(md0, f);
        } else {
          md := AppendColumns(md, f.filename, frame.columns);
          DataFileRendering(md0, f);
        }
    }
    // the rule closing every file, whatever happened above
    md := md + "---\n\n";
  }

  /** The loop over the run's parquet files, building the Markdown by appending. */
  method AssembleMarkdown(files: seq<ParquetFile>) returns (md: string)
    ensures md == Render(DocumentBlocks(files))
  {
    md := "";
    for i := 0 to |files|
      invariant md == Render(DocumentBlocks(files[..i]))
    {
      assert files[..i + 1][..i] == files[..i] && files[..i + 1][i] == files[i];
      RenderAppend(DocumentBlocks(files[..i]), FileBlocks(files[i]));
      md := AppendFile(md, files[i]);
    }
    assert files[..|files|] == files;
  }

  /**
   * One run's Markdown, as saved: nothing when the run found no parquet
   * files; otherwise the assembled Markdown with its trailing rule removed.
   */
  method ChunkMarkdown(files: seq<ParquetFile>) returns (saved: Option<string>)
    ensures files == [] <==> saved == None
    ensures files != [] ==> var bs := DocumentBlocks(files);
      bs != [] && saved == Some(Render(bs[..|bs| - 1]))
  {
    if files == [] {
      return None;
    }
    var md := AssembleMarkdown(files);
    if EndsWith(md, "\n---\n\n") {
      md := md[..|md| - 5];
    }
    DocumentLosesOnlyFinalRule(files);
    saved := Some(md);
  }

  // ---------------------------------------------------------------------
  // The error branch as written
  // ---------------------------------------------------------------------

  /** How the loop over the parquet files ends. */
  datatype Outcome = Finished(md: string) | Aborted

  /** A column that is not skipped and whose text raises. */
  predicate Raises(c: Column) {
    c.name !in ColsSkip && c.text.Raised?
  }

  predicate ColumnRaises(cols: seq<Column>) {
    exists j :: 0 <= j < |cols| && Raises(cols[j])
  }

  /** A file whose processing raises: its read fails, or, in a frame with data, a column that is not skipped raises. */
  predicate FileFails(f: ParquetFile) {
    match f.read
    case Failed(_) => true
    case Loaded(frame) => !IsEmpty(frame) && ColumnRaises(frame.columns)
  }

  /**
   * The column loop as written. When producing a column's text raises, the
   * handler's first statement passes `file=` to `logger.info`, which accepts
   * no such keyword: with INFO enabled that call raises in turn and the run
   * ends; with INFO disabled the call returns at once and the error note is
   * appended.
   */
  method AppendColumnsAsWritten(md0: string, filename: string, cols: seq<Column>, infoEnabled: bool)
    returns (r: Outcome)
    ensures r.Aborted? <==> infoEnabled && ColumnRaises(cols)
    ensures r.Finished? ==> r.md == md0 + Render(ColumnBlocks(filename, cols))
  {
    var md := md0;
    var k := 0;
    while k < |cols|
      invariant 0 <= k <= |cols|
      invariant md + Render(ColumnBlocks(filename, cols[k..])) == md0 + Render(ColumnBlocks(filename, cols))
      invariant forall j :: 0 <= j < k ==> !Raises(cols[j])
    {
      var c := cols[k];
      assert cols[k..][1..] == cols[k + 1..];
      if c.name in ColsSkip {
        // skipped column
      } else {
        var before := md;
        md := md + ("### " + c.name + "\n");
        match c.text
        case Raised(message) =>
          assert Raises(cols[k]);
          if infoEnabled {
            return Aborted;
          }
          md := md + ("**Error processing " + filename + ":**\n```\n" + message + "\n```\n\n");
          RaisedColumnStep(before, c.name, filename, message);
          return Finished(md);
        case Shown(text) =>
          md := md + ("```text\n" + text + "\n```\n\n");
          ShownColumnStep(before, c.name, text, ColumnBlocks(filename, cols[k + 1..]));
      }
      k := k + 1;
    }
    assert cols[|cols|..] == [];
    return Finished(md);
  }

  /** One iteration of the file loop as written: a failing file ends the run when INFO is enabled. */
  method AppendFileAsWritten(md0: string, f: ParquetFile, infoEnabled: bool) returns (r: Outcome)
    ensures r.Aborted? <==> infoEnabled && FileFails(f)
    ensures r.Finished? ==> r.md == md0 + Render(FileBlocks(f))
  {
    var md: string;
    match f.read {
      case Failed(message) =>
        if infoEnabled {
          return Aborted;
        }
        md := md0 + ("**Error processing " + f.filename + ":**\n```\n" + message + "\n```\n\n");
        FailedFileRendering(md0, f);
      case Loaded(frame) =>
        md := md0 + ("## Data from Website: http://www." + SiteName(f.filename) + "\n\n");
        if IsEmpty(frame) {
          md := md + "_(File contains no data)_\n\n";
          EmptyFileRendering(md0, f);
        } else {
          var columns := AppendColumnsAsWritten(md, f.filename, frame.columns, infoEnabled);
          if columns.Aborted? {
            return Aborted;
          }
          md := columns.md;
          DataFileRendering(md0, f);
        }
    }
    md := md + "---\n\n";
    return Finished(md);
  }

  /**
   * The file loop as written: with INFO enabled, as the script's entry point
   * configures it, the first failing file ends the run and no error note is
   * ever written; otherwise the loop gives the assembled Markdown.
   */
  method AssembleAsWritten(files: seq<ParquetFile>, infoEnabled: bool) returns (r: Outcome)
    ensures r.Aborted? <==> infoEnabled && exists k :: 0 <= k < |files| && FileFails(files[k])
    ensures r.Finished? ==> r.md == Render(DocumentBlocks(files))
    ensures !infoEnabled ==> r == Finished(Render(DocumentBlocks(files)))
  {
    var md := "";
    for i := 0 to |files|
      invariant md == Render(DocumentBlocks(files[..i]))
      invariant infoEnabled ==> forall k :: 0 <= k < i ==> !FileFails(files[k])
    {
      DocumentStep(files, i);
      var step := AppendFileAsWritten(md, files[i], infoEnabled);
      if step.Aborted? {
        return Aborted;
      }
      forall k | 0 <= k < i + 1
        ensures infoEnabled ==> !FileFails(files[k])
      {
      }
      md := step.md;
    }
    assert files[..|files|] == files;
    return Finished(md);
  }

  /** The rendering of the first `i + 1` files extends that of the first `i`. */
  lemma DocumentStep(files: seq<ParquetFile>, i: nat)
    requires i < |files|
    ensures Render(DocumentBlocks(files[..i + 1])) == Render(DocumentBlocks(files[..i])) + Render(FileBlocks(files[i]))
  {
    assert files[..i + 1][..i] == files[..i] && files[..i + 1][i] == files[i];
    RenderAppend(DocumentBlocks(files[..i]), FileBlocks(files[i]));
  }

  /** The intended behaviour, which the model follows: a file that cannot be read gets its error note. */
  lemma {:induction false} FailedReadNoted(files: seq<ParquetFile>, k: nat)
    requires k < |files| && files[k].read.Failed?
    ensures ErrorNote(files[k].filename, files[k].read.message) in DocumentBlocks(files)
  {
    var init := files[..|files| - 1];
    var note := ErrorNote(files[k].filename, files[k].read.message);
    if k < |init| {
      FailedReadNoted(init, k);
      assert init[k] == files[k];
    } else {
      assert FileBlocks(files[k])[0] == note;
    }
  }

  /**
   * One unreadable file with INFO enabled: as written the run stops; as
   * intended the saved Markdown is the file's error note.
   */
  method UnreadableFileAbortsRun() returns (asWritten: Outcome, intended: Option<string>)
    ensures asWritten == Aborted
    ensures intended == Some(BlockText(ErrorNote("example.com.parquet", "not a parquet file")))
  {
    var f := ParquetFile("example.com.parquet", Failed("not a parquet file"));
    var note := ErrorNote(f.filename, f.read.message);
    assert FileFails([f][0]);
    asWritten := AssembleAsWritten([f], true);
    intended := ChunkMarkdown([f]);
    assert DocumentBlocks([f]) == [note, Rule] by {
      assert [f][..0] == [];
    }
    assert [note, Rule][..1] == [note];
    RenderSingle(note);
  }
}
