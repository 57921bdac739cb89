/** The file tools of packages/core/src/tools/index.ts: argument checks,
    the size-capped read, the line diff shown before a write and the preview
    truncation. The filesystem calls are parameters. */
module Tools {
  import opened Wrappers
  import opened Text
  import opened Js
  import Compiler

  /** What `fs.readFile` gives: the text, or the error's `code` and
      `message`. */
  datatype ReadOutcome = Content(text: string) | ReadError(code: string, message: string)

  type Reader = string -> ReadOutcome

  /** `fs.writeFile`: `None` on success, the error message otherwise. */
  type Writer = (string, string) -> Option<string>

  datatype ToolData = Text(text: string) | WriteData(diff: string, isNewFile: bool, preview: string)

  /** A `ToolResult`, or `Rejected` when destructuring a `null` input throws
      before any check. */
  datatype ToolResult = Success(data: ToolData) | Failure(error: string) | Rejected

  const PathRequired: string := "path is required and must be a string"
  const ContentRequired: string := "content is required and must be a string"

  /** `path` when it is a non-empty string. */
  function PathArg(input: Value): (r: Option<string>)
    ensures r.Some? <==> Get(input, "path").Some? && Get(input, "path").value.JStr? && Get(input, "path").value.s != ""
    ensures r.Some? ==> r.value == Get(input, "path").value.s
  {
    match Get(input, "path")
    case Some(JStr(s)) => if s != "" then Some(s) else None
    case _ => None
  }

  /** `content` when it is a string, the empty one included. */
  function ContentArg(input: Value): (r: Option<string>)
    ensures r.Some? <==> Get(input, "content").Some? && Get(input, "content").value.JStr?
    ensures r.Some? ==> r.value == Get(input, "content").value.s
  {
    match Get(input, "content")
    case Some(JStr(s)) => Some(s)
    case _ => None
  }

  /** `Math.ceil(words * 1.3)` in exact arithmetic, with no lower bound. */
  function TokenEstimate(text: string): (r: nat)
    ensures 10 * r >= 13 * |Words(text)| && 10 * r < 13 * |Words(text)| + 10
    ensures r == 0 <==> |Words(text)| == 0
  {
    (13 * |Words(text)| + 9) / 10
  }

  /** The compiler's estimate is this one raised to at least 1. */
  lemma CompilerEstimateIsFloored(text: string)
    ensures Compiler.EstimateTokens(text) == if TokenEstimate(text) == 0 then 1 else TokenEstimate(text)
  {
  }

  /** `MAX_SIZE`. */
  const MaxTokens: nat := 2000

  /** The marker between the kept head and tail of a large file. */
  function OmittedLine(count: int): string {
    "... (" + IntToString(count) + " lines omitted) ..."
  }

  /** `lines.slice(0, 30)`. */
  function Head(lines: seq<string>): (r: seq<string>)
    ensures |r| == if |lines| < 30 then |lines| else 30
  {
    if |lines| < 30 then lines else lines[..30]
  }

  /** `lines.slice(-30)`. */
  function Tail(lines: seq<string>): (r: seq<string>)
    ensures |r| == if |lines| < 30 then |lines| else 30
  {
    if |lines| < 30 then lines else lines[|lines| - 30..]
  }

  /** The cut of a large file: head, the omitted-lines marker (counting
      `|lines| - 60`, whatever the line count) and tail, blank-line separated. */
  function Cut(lines: seq<string>): string {
    Join(Head(lines), "\n") + "\n\n" + OmittedLine(|lines| - 60) + "\n\n" + Join(Tail(lines), "\n")
  }

  /** The body of `FileReadTool.execute` after a successful read, as
      written: a large file is cut to its first and last 30 lines whatever
      its line count. Within the token budget the file comes back whole;
      beyond it, a file of more than 60 lines gets the same cut as the
      corrected `ReadResult`, so the two differ only on large files of
      few lines. */
  function ReadAsWritten(content: string): (r: string)
    ensures TokenEstimate(content) <= MaxTokens ==> r == content
    ensures |Split(content, '\n')| > 60 ==> r == ReadResult(content)
  {
    if TokenEstimate(content) <= MaxTokens then content
    else Cut(Split(content, '\n'))
  }

  /** A large file of one long line comes back twice, with a negative
      count of omitted lines between the copies. */
  lemma {:induction false} OneLineShownTwice(content: string, omitted: int)
    requires '\n' !in content && TokenEstimate(content) > MaxTokens
    requires omitted == -59
    ensures ReadAsWritten(content) == content + "\n\n" + OmittedLine(omitted) + "\n\n" + content
  {
    var lines := Split(content, '\n');
    assert FirstIndex(content, '\n').None?;
    assert lines == [content];
    CutAsWritten(content);
    var h := Join(Head(lines), "\n");
    var t := Join(Tail(lines), "\n");
    assert h == content && t == content;
    assert |lines| - 60 == omitted;
  }

  /** The as-written read of a large file, unfolded. */
  lemma CutAsWritten(content: string)
    requires TokenEstimate(content) > MaxTokens
    ensures ReadAsWritten(content) == Cut(Split(content, '\n'))
  {
  }

  /** Such a file exists: 1540 one-letter words on one line estimate to
      2002 tokens. */
  lemma LongLineExample()
    ensures var words := seq(1540, _ => "w");
      var content := Join(words, " ");
      && '\n' !in content
      && TokenEstimate(content) == 2002
      && ReadAsWritten(content) == content + "\n\n" + OmittedLine(-59) + "\n\n" + content
  {
    var words := seq(1540, _ => "w");
    var content := Join(words, " ");
    assert forall i :: 0 <= i < |words| ==> |words[i]| > 0 && NoSep(words[i], Whitespace) by {
      forall i | 0 <= i < |words| ensures |words[i]| > 0 && NoSep(words[i], Whitespace) {
        assert words[i] == "w";
      }
    }
    FieldsOfJoin(words, Whitespace);
    assert forall i :: 0 <= i < |words| ==> '\n' !in words[i] by {
      forall i | 0 <= i < |words| ensures '\n' !in words[i] {
        assert words[i] == "w";
      }
    }
    NoNewlineInJoin(words);
    OneLineShownTwice(content, -59);
  }

  /** Joining newline-free words with spaces gives one line. */
  lemma {:induction false} NoNewlineInJoin(words: seq<string>)
    requires forall i :: 0 <= i < |words| ==> '\n' !in words[i]
    ensures '\n' !in Join(words, " ")
    decreases |words|
  {
    if |words| > 1 {
      NoNewlineInJoin(words[1..]);
    }
  }

  /** The read result with the cut applied only when there is something
      to omit: a file of at most 60 lines comes back whole. */
  function ReadResult(content: string): (r: string)
    ensures TokenEstimate(content) <= MaxTokens ==> r == content
    ensures |Split(content, '\n')| <= 60 ==> r == content
  {
    var lines := Split(content, '\n');
    if TokenEstimate(content) <= MaxTokens || |lines| <= 60 then content
    else Cut(lines)
  }

  /** A cut file reads back as its first 30 lines, a blank line, the marker
      counting the lines left out, a blank line and its last 30 lines; the
      three parts account for every line exactly once. */
  lemma CutFileLines(content: string)
    requires TokenEstimate(content) > MaxTokens && |Split(content, '\n')| > 60
    ensures var lines := Split(content, '\n');
      var omitted := |lines| - 60;
      && omitted >= 1
      && Split(ReadResult(content), '\n')
         == lines[..30] + ["", OmittedLine(omitted), ""] + lines[|lines| - 30..]
      && lines == lines[..30] + lines[30..|lines| - 30] + lines[|lines| - 30..]
      && |lines[30..|lines| - 30]| == omitted
  {
    var lines := Split(content, '\n');
    var parts := lines[..30] + ["", OmittedLine(|lines| - 60), ""] + lines[|lines| - 30..];
    CutIsJoin(lines);
    NoNewlineInParts(lines, |lines| - 60);
    SplitJoin(parts, '\n');
    ThreeParts(lines, 30, |lines| - 30);
  }

  lemma ThreeParts<T>(s: seq<T>, i: nat, j: nat)
    requires i <= j <= |s|
    ensures s == s[..i] + s[i..j] + s[j..]
  {
  }

  /** The cut text is the newline join of head, marker lines and tail. */
  lemma CutIsJoin(lines: seq<string>)
    requires |lines| > 60
    ensures Join(lines[..30] + ["", OmittedLine(|lines| - 60), ""] + lines[|lines| - 30..], "\n")
      == Cut(lines)
  {
    MarkerJoin(lines[..30], OmittedLine(|lines| - 60), lines[|lines| - 30..]);
  }

  /** Joining head, a blank line, the marker, a blank line and tail. */
  lemma MarkerJoin(head: seq<string>, marker: string, tail: seq<string>)
    requires head != [] && tail != []
    ensures Join(head + ["", marker, ""] + tail, "\n")
      == Join(head, "\n") + "\n\n" + marker + "\n\n" + Join(tail, "\n")
  {
    var mid := ["", marker, ""];
    JoinConcat(head, mid, "\n");
    JoinConcat(head + mid, tail, "\n");
    assert mid[1..] == [marker, ""];
    assert mid[1..][1..] == [""];
    assert Join(mid[1..], "\n") == marker + "\n" + "";
    assert Join(mid, "\n") == "" + "\n" + (marker + "\n" + "");
    assert Join(mid, "\n") == "\n" + marker + "\n";
  }

  /** None of the cut's lines holds a newline. */
  lemma NoNewlineInParts(lines: seq<string>, omitted: int)
    requires |lines| > 60
    requires forall i :: 0 <= i < |lines| ==> '\n' !in lines[i]
    ensures var parts := lines[..30] + ["", OmittedLine(omitted), ""] + lines[|lines| - 30..];
      forall i :: 0 <= i < |parts| ==> '\n' !in parts[i]
  {
    var parts := lines[..30] + ["", OmittedLine(omitted), ""] + lines[|lines| - 30..];
    NoNewlineInNumber(omitted);
    forall i | 0 <= i < |parts| ensures '\n' !in parts[i] {
      if i < 30 {
        assert parts[i] == lines[i];
      } else if i >= 33 {
        assert parts[i] == lines[|lines| - 30 + (i - 33)];
      } else {
        assert parts[i] in ["", OmittedLine(omitted), ""];
      }
    }
  }

  /** `FileReadTool.execute(input)`. */
  function FileRead(input: Value, read: Reader): (r: ToolResult)
    ensures input.JNull? <==> r.Rejected?
    ensures !input.JNull? && PathArg(input).None? ==> r == Failure(PathRequired)
    ensures r.Success? ==> read(PathArg(input).value).Content? && r.data == Text(ReadAsWritten(read(PathArg(input).value).text))
    ensures PathArg(input).Some? ==> var p := PathArg(input).value;
      && (read(p).Content? ==> r == Success(Text(ReadAsWritten(read(p).text))))
      && (read(p).ReadError? && read(p).code == "ENOENT" ==> r == Failure("File not found: " + p))
      && (read(p).ReadError? && read(p).code == "EISDIR" ==> r == Failure("Path is a directory: " + p))
      && (read(p).ReadError? && read(p).code != "ENOENT" && read(p).code != "EISDIR" ==>
            r == Failure("Failed to read file: " + read(p).message))
  {
    if input.JNull? then Rejected
    else match PathArg(input)
      case None => Failure(PathRequired)
      case Some(path) =>
        match read(path)
        case Content(text) => Success(Text(ReadAsWritten(text)))
        case ReadError(code, message) =>
          if code == "ENOENT" then Failure("File not found: " + path)
          else if code == "EISDIR" then Failure("Path is a directory: " + path)
          else Failure("Failed to read file: " + message)
  }

  /** An invalid `path` is refused before the filesystem is touched: the
      answer does not depend on what the reader would return. */
  lemma BadPathNeverReads(input: Value, read1: Reader, read2: Reader, write1: Writer, write2: Writer)
    requires PathArg(input).None?
    ensures FileRead(input, read1) == FileRead(input, read2)
    ensures FileWrite(input, read1) == FileWrite(input, read2)
    ensures Apply(input, write1) == Apply(input, write2)
  {
  }

  /** `lines[i]`, `undefined` past the end. */
  function LineAt(lines: seq<string>, i: nat): Option<string> {
    if i < |lines| then Some(lines[i]) else None
  }

  /** What index `i` adds to the diff body. */
  function Fragment(oldLines: seq<string>, newLines: seq<string>, i: nat): (r: string)
    ensures r == "" <==> LineAt(oldLines, i) == LineAt(newLines, i)
  {
    var o := LineAt(oldLines, i);
    var n := LineAt(newLines, i);
    if o == n then ""
    else if o.Some? && n.None? then "- " + o.value + "\n"
    else if o.None? && n.Some? then "+ " + n.value + "\n"
    else "- " + o.GetOr("undefined") + "\n+ " + n.GetOr("undefined") + "\n"
  }

  /** The fragments of indices `0 .. k - 1`, in order. */
  function DiffBody(oldLines: seq<string>, newLines: seq<string>, k: nat): string
    decreases k
  {
    if k == 0 then "" else DiffBody(oldLines, newLines, k - 1) + Fragment(oldLines, newLines, k - 1)
  }

  /** One more index adds its fragment, and nothing when its lines agree. */
  lemma DiffBodyStep(oldLines: seq<string>, newLines: seq<string>, k: nat)
    ensures LineAt(oldLines, k) != LineAt(newLines, k)
      ==> DiffBody(oldLines, newLines, k + 1) == DiffBody(oldLines, newLines, k) + Fragment(oldLines, newLines, k)
    ensures LineAt(oldLines, k) == LineAt(newLines, k)
      ==> DiffBody(oldLines, newLines, k + 1) == DiffBody(oldLines, newLines, k)
  {
    var body := DiffBody(oldLines, newLines, k);
    if LineAt(oldLines, k) == LineAt(newLines, k) {
      assert body + "" == body;
    }
  }

  function Max(a: nat, b: nat): nat {
    if a < b then b else a
  }

  /** The body is empty exactly when no index below `k` differs. */
  lemma {:induction false} DiffBodyEmpty(oldLines: seq<string>, newLines: seq<string>, k: nat)
    ensures DiffBody(oldLines, newLines, k) == ""
      <==> forall i :: 0 <= i < k ==> LineAt(oldLines, i) == LineAt(newLines, i)
    decreases k
  {
    if k > 0 {
      DiffBodyEmpty(oldLines, newLines, k - 1);
    }
  }

  /** Two line lists agree at every index below the longer length exactly
      when they are equal. */
  lemma SameLinesEverywhere(oldLines: seq<string>, newLines: seq<string>)
    ensures (forall i :: 0 <= i < Max(|oldLines|, |newLines|) ==> LineAt(oldLines, i) == LineAt(newLines, i))
      <==> oldLines == newLines
  {
    if oldLines != newLines {
      if |oldLines| != |newLines| {
        var j := if |oldLines| < |newLines| then |oldLines| else |newLines|;
        assert LineAt(oldLines, j) != LineAt(newLines, j);
      } else {
        assert !(forall j :: 0 <= j < |oldLines| ==> oldLines[j] == newLines[j]);
        var j :| 0 <= j < |oldLines| && oldLines[j] != newLines[j];
        assert LineAt(oldLines, j) != LineAt(newLines, j);
      }
    }
  }

  /** `generateDiff(oldContent, newContent, path)`: the loop computes the
      text `DiffText` defines. */
  method GenerateDiff(oldContent: string, newContent: string, path: string) returns (diff: string)
    ensures diff == DiffText(oldContent, newContent, path)
  {
    if oldContent == "" {
      return "+++ " + path + "\n" + newContent;
    }
    if oldContent == newContent {
      return "No changes to " + path;
    }
    var oldLines := Split(oldContent, '\n');
    var newLines := Split(newContent, '\n');
    var body := DiffLoop(oldLines, newLines);
    diff := "--- " + path + "\n+++ " + path + "\n" + body;
  }

  /** The loop of `generateDiff` over the line indices. */
  method DiffLoop(oldLines: seq<string>, newLines: seq<string>) returns (body: string)
    ensures body == DiffBody(oldLines, newLines, Max(|oldLines|, |newLines|))
  {
    var maxLen := Max(|oldLines|, |newLines|);
    body := "";
    var i := 0;
    while i < maxLen
      invariant 0 <= i <= maxLen
      invariant body == DiffBody(oldLines, newLines, i)
    {
      var oldLine := LineAt(oldLines, i);
      var newLine := LineAt(newLines, i);
      DiffBodyStep(oldLines, newLines, i);
      if oldLine != newLine {
        body := body + Fragment(oldLines, newLines, i);
      }
      i := i + 1;
    }
  }

  /** A changed file never diffs to a bare header, and an unchanged line
      list never yields a fragment: the body is empty exactly when the
      line lists agree. */
  lemma DiffShowsChange(oldContent: string, newContent: string)
    ensures var oldLines := Split(oldContent, '\n');
      var newLines := Split(newContent, '\n');
      && (DiffBody(oldLines, newLines, Max(|oldLines|, |newLines|)) == "" <==> oldLines == newLines)
      && (oldContent != newContent ==> DiffBody(oldLines, newLines, Max(|oldLines|, |newLines|)) != "")
  {
    var oldLines := Split(oldContent, '\n');
    var newLines := Split(newContent, '\n');
    DiffBodyEmpty(oldLines, newLines, Max(|oldLines|, |newLines|));
    SameLinesEverywhere(oldLines, newLines);
    JoinSplit(oldContent, '\n');
    JoinSplit(newContent, '\n');
  }

  /** The last line of a truncated preview, counting the lines left out. */
  function MoreLine(more: nat): string {
    "... (" + NatToString(more) + " more lines)"
  }

  /** `truncateContent(content, maxLines)`. */
  function TruncateContent(content: string, maxLines: nat): (r: string)
    ensures |Split(content, '\n')| <= maxLines ==> r == content
  {
    var lines := Split(content, '\n');
    if |lines| <= maxLines then content
    else Join(lines[..maxLines], "\n") + "\n" + MoreLine(|lines| - maxLines)
  }

  /** A truncated preview reads back as the first `maxLines` lines and a
      last line counting the rest. */
  lemma TruncatedLines(content: string, maxLines: nat)
    requires maxLines > 0 && |Split(content, '\n')| > maxLines
    ensures var lines := Split(content, '\n');
      Split(TruncateContent(content, maxLines), '\n')
        == lines[..maxLines] + [MoreLine(|lines| - maxLines)]
  {
    var lines := Split(content, '\n');
    var parts := lines[..maxLines] + [MoreLine(|lines| - maxLines)];
    NoNewlineInMore(|lines| - maxLines);
    calc {
      Split(TruncateContent(content, maxLines), '\n');
      { TruncatedIsJoin(content, maxLines); }
      Split(Join(parts, "\n"), '\n');
      { SplitPreview(lines, maxLines, MoreLine(|lines| - maxLines)); }
      parts;
    }
  }

  lemma NoNewlineInMore(more: nat)
    ensures '\n' !in MoreLine(more)
  {
    NoNewlineInNumber(more);
  }

  /** The first `k` lines and a last line, none holding a newline, split
      back apart. */
  lemma SplitPreview(lines: seq<string>, k: nat, last: string)
    requires k <= |lines|
    requires forall i :: 0 <= i < |lines| ==> '\n' !in lines[i]
    requires '\n' !in last
    ensures Split(Join(lines[..k] + [last], "\n"), '\n') == lines[..k] + [last]
  {
    var parts := lines[..k] + [last];
    forall i | 0 <= i < |parts| ensures '\n' !in parts[i] {
      if i < k {
        assert parts[i] == lines[i];
      }
    }
    SplitJoin(parts, '\n');
  }

  /** The truncated preview joins the kept lines and the count line. */
  lemma TruncatedIsJoin(content: string, maxLines: nat)
    requires maxLines > 0 && |Split(content, '\n')| > maxLines
    ensures var lines := Split(content, '\n');
      TruncateContent(content, maxLines) == Join(lines[..maxLines] + [MoreLine(|lines| - maxLines)], "\n")
  {
    var lines := Split(content, '\n');
    MoreLinesIsJoin(lines[..maxLines], |lines| - maxLines);
  }

  /** The preview is the newline join of the kept lines and the count line. */
  lemma MoreLinesIsJoin(kept: seq<string>, more: nat)
    requires kept != []
    ensures Join(kept, "\n") + "\n" + MoreLine(more) == Join(kept + [MoreLine(more)], "\n")
  {
    var last := MoreLine(more);
    JoinConcat(kept, [last], "\n");
    assert Join([last], "\n") == last;
  }

  /** `FileWriteTool.execute(input)`: the diff against the current file (an
      unreadable file counts as new and empty) and a 500-line preview. */
  function FileWrite(input: Value, read: Reader): (r: ToolResult)
    ensures input.JNull? <==> r.Rejected?
    ensures !input.JNull? && PathArg(input).None? ==> r == Failure(PathRequired)
    ensures !input.JNull? && PathArg(input).Some? && ContentArg(input).None? ==> r == Failure(ContentRequired)
    ensures r.Success? ==> r.data.WriteData? && r.data.isNewFile == read(PathArg(input).value).ReadError?
    ensures PathArg(input).Some? && ContentArg(input).Some? ==>
      var p, content := PathArg(input).value, ContentArg(input).value;
      var existing := if read(p).Content? then read(p).text else "";
      r == Success(WriteData(DiffText(existing, content, p), read(p).ReadError?, TruncateContent(content, 500)))
  {
    if input.JNull? then Rejected
    else match PathArg(input)
      case None => Failure(PathRequired)
      case Some(path) =>
        match ContentArg(input)
        case None => Failure(ContentRequired)
        case Some(content) =>
          var existing := match read(path) case Content(text) => text case ReadError(_, _) => "";
          var hasExisting := read(path).Content?;
          Success(WriteData(DiffText(existing, content, path), !hasExisting, TruncateContent(content, 500)))
  }

  /** The diff of two texts: an empty old text gives the `+++` header and
      the new text; equal texts give `No changes`; otherwise both headers
      and one entry per differing line. */
  function DiffText(oldContent: string, newContent: string, path: string): string {
    if oldContent == "" then "+++ " + path + "\n" + newContent
    else if oldContent == newContent then "No changes to " + path
    else
      var oldLines := Split(oldContent, '\n');
      var newLines := Split(newContent, '\n');
      "--- " + path + "\n+++ " + path + "\n" + DiffBody(oldLines, newLines, Max(|oldLines|, |newLines|))
  }

  /** `FileWriteTool.apply(input)`. */
  function Apply(input: Value, write: Writer): (r: ToolResult)
    ensures input.JNull? <==> r.Rejected?
    ensures !input.JNull? && PathArg(input).None? ==> r == Failure(PathRequired)
    ensures r.Success? ==> ContentArg(input).Some? && write(PathArg(input).value, ContentArg(input).value).None?
    ensures !input.JNull? && PathArg(input).Some? && ContentArg(input).None? ==> r == Failure(ContentRequired)
    ensures PathArg(input).Some? && ContentArg(input).Some? ==>
      var p, content := PathArg(input).value, ContentArg(input).value;
      && (write(p, content).None? ==> r == Success(Text("Successfully wrote " + p)))
      && (write(p, content).Some? ==> r == Failure("Failed to write file: " + write(p, content).value))
  {
    if input.JNull? then Rejected
    else match PathArg(input)
      case None => Failure(PathRequired)
      case Some(path) =>
        match ContentArg(input)
        case None => Failure(ContentRequired)
        case Some(content) =>
          match write(path, content)
          case None => Success(Text("Successfully wrote " + path))
          case Some(message) => Failure("Failed to write file: " + message)
  }
}
