/** The one-page PDF of the text fallback: content stream, string escapes, and the whole file read back. */
module BenchPdf {
  import opened Wrappers
  import opened Text
  import opened PdfFile

  // ---------------------------------------------------------------------------------------------
  // Literal strings (ISO 32000-1, section 7.3.4.2)

  /** `str.replace` of one character. */
  function Replace(s: string, c: char, sub: string): string {
    if s == "" then "" else (if s[0] == c then sub else [s[0]]) + Replace(s[1..], c, sub)
  }

  /** The three replaces, one after the other. */
  function ReplacedThrice(line: string): string {
    Replace(Replace(Replace(line, '\\', "\\\\"), '(', "\\("), ')', "\\)")
  }

  predicate Delimiter(c: char) {
    c == '\\' || c == '(' || c == ')'
  }

  /** A backslash before each backslash and parenthesis, in one pass. */
  function Escape(line: string): string {
    if line == "" then "" else (if Delimiter(line[0]) then ['\\', line[0]] else [line[0]]) + Escape(line[1..])
  }

  lemma {:induction false} ReplaceCons(s: string, c: char, sub: string)
    requires s != ""
    ensures Replace(s, c, sub) == (if s[0] == c then sub else [s[0]]) + Replace(s[1..], c, sub)
  {
  }

  lemma {:induction false} TailOfConcat(a: string, b: string)
    requires a != ""
    ensures (a + b)[1..] == a[1..] + b && (a + b)[0] == a[0]
  {
  }

  lemma {:induction false} ConcatThrice(a: string, b: string, c: string)
    ensures a + (b + c) == a + b + c
  {
  }

  lemma {:induction false} ReplaceConcat(a: string, b: string, c: char, sub: string)
    ensures Replace(a + b, c, sub) == Replace(a, c, sub) + Replace(b, c, sub)
  {
    if a == "" {
      assert a + b == b && Replace("", c, sub) == "";
    } else {
      hide Replace;
      var first := if a[0] == c then sub else [a[0]];
      ReplaceConcat(a[1..], b, c, sub);
      ReplaceCons(a, c, sub);
      ReplaceCons(a + b, c, sub);
      TailOfConcat(a, b);
      ConcatThrice(first, Replace(a[1..], c, sub), Replace(b, c, sub));
    }
  }

  lemma {:induction false} ReplaceOne(x: char, c: char, sub: string)
    ensures Replace([x], c, sub) == if x == c then sub else [x]
  {
  }

  lemma {:induction false} ReplaceTwo(x: char, y: char, c: char, sub: string)
    ensures Replace([x, y], c, sub) == Replace([x], c, sub) + Replace([y], c, sub)
  {
    ReplaceConcat([x], [y], c, sub);
    assert [x] + [y] == [x, y];
  }

  lemma {:induction false} ThriceOne(c: char)
    ensures ReplacedThrice([c]) == if Delimiter(c) then ['\\', c] else [c]
  {
    ReplaceOne(c, '\\', "\\\\");
    if c == '\\' {
      ReplaceTwo('\\', '\\', '(', "\\(");
      ReplaceOne('\\', '(', "\\(");
      ReplaceTwo('\\', '\\', ')', "\\)");
      ReplaceOne('\\', ')', "\\)");
    } else {
      ReplaceOne(c, '(', "\\(");
      if c == '(' {
        ReplaceTwo('\\', '(', ')', "\\)");
        ReplaceOne('\\', ')', "\\)");
        ReplaceOne('(', ')', "\\)");
      } else {
        ReplaceOne(c, ')', "\\)");
      }
    }
  }

  /** Done in this order, the three replaces do not disturb each other: together they escape each character once. */
  lemma {:induction false} ThriceIsEscape(line: string)
    ensures ReplacedThrice(line) == Escape(line)
  {
    if line != "" {
      var c, rest := [line[0]], line[1..];
      assert line == c + rest;
      ReplaceConcat(c, rest, '\\', "\\\\");
      var c1, r1 := Replace(c, '\\', "\\\\"), Replace(rest, '\\', "\\\\");
      ReplaceConcat(c1, r1, '(', "\\(");
      ReplaceConcat(Replace(c1, '(', "\\("), Replace(r1, '(', "\\("), ')', "\\)");
      ThriceOne(line[0]);
      ThriceIsEscape(rest);
    }
  }

  /** What a character means after a backslash; none when the backslash joins two lines. */
  function Unescaped(c: char): string {
    match c
    case 'n' => "\n"
    case 'r' => "\r"
    case 't' => "\t"
    case 'b' => [8 as char]
    case 'f' => [12 as char]
    case '\n' => ""
    case '\r' => ""
    case _ => [c]
  }

  predicate IsOctal(c: char) {
    '0' <= c <= '7'
  }

  /** How many octal digits, three at most, `s` starts with. */
  function OctalDigits(s: string, most: nat): (n: nat)
    requires most <= 3
    ensures n <= most && n <= |s| && forall i :: 0 <= i < n ==> IsOctal(s[i])
    decreases most
  {
    if most == 0 || s == "" || !IsOctal(s[0]) then 0 else 1 + OctalDigits(s[1..], most - 1)
  }

  function OctalValue(s: string): (n: nat)
    requires |s| <= 3 && forall i :: 0 <= i < |s| ==> IsOctal(s[i])
    ensures |s| == 0 ==> n == 0
    ensures |s| == 1 ==> n < 8
    ensures |s| == 2 ==> n < 64
    ensures |s| == 3 ==> n < 512
  {
    if s == "" then 0
    else
      assert IsOctal(s[|s| - 1]);
      8 * OctalValue(s[..|s| - 1]) + (s[|s| - 1] as int - '0' as int)
  }

  /** The rest of a literal string whose opening parenthesis was read: its characters and what follows it. */
  function ReadLiteral(s: string, depth: nat, read: string): Option<(string, string)>
    decreases |s|
  {
    if s == "" then None
    else if s[0] == '(' then ReadLiteral(s[1..], depth + 1, read + "(")
    else if s[0] == ')' then
      if depth == 0 then Some((read, s[1..])) else ReadLiteral(s[1..], depth - 1, read + ")")
    else if s[0] == '\\' then
      if |s| == 1 then None
      else
        var digits := OctalDigits(s[1..], 3);
        if digits > 0 then ReadLiteral(s[1 + digits..], depth, read + [(OctalValue(s[1..][..digits]) % 256) as char])
        else if s[1] == '\r' && |s| > 2 && s[2] == '\n' then ReadLiteral(s[3..], depth, read)
        else ReadLiteral(s[2..], depth, read + Unescaped(s[1]))
    else if s[0] == '\r' then
      ReadLiteral(if |s| > 1 && s[1] == '\n' then s[2..] else s[1..], depth, read + "\n")
    else ReadLiteral(s[1..], depth, read + [s[0]])
  }

  lemma {:induction false} ReadDelimiter(c: char, rest: string, read: string)
    requires Delimiter(c)
    ensures ReadLiteral(['\\', c] + rest, 0, read) == ReadLiteral(rest, 0, read + [c])
  {
    var s := ['\\', c] + rest;
    assert s[1..] == [c] + rest && s[2..] == rest;
    assert OctalDigits(s[1..], 3) == 0;
  }

  lemma {:induction false} ReadPlain(c: char, rest: string, read: string)
    requires !Delimiter(c) && c != '\r'
    ensures ReadLiteral([c] + rest, 0, read) == ReadLiteral(rest, 0, read + [c])
  {
    assert ([c] + rest)[1..] == rest;
  }

  /** Reading the escaped line between its parentheses gives the line back, and stops at the closing one. */
  lemma {:induction false} ReadOfEscape(line: string, rest: string, read: string)
    requires OneLine(line)
    ensures ReadLiteral(Escape(line) + ")" + rest, 0, read) == Some((read + line, rest))
  {
    if line == "" {
      assert Escape(line) + ")" + rest == ")" + rest;
      assert (")" + rest)[1..] == rest && read + line == read;
    } else {
      var c, tail := line[0], Escape(line[1..]) + ")" + rest;
      ReadOfEscape(line[1..], rest, read + [c]);
      assert read + [c] + line[1..] == read + line;
      var piece := if Delimiter(c) then ['\\', c] else [c];
      assert Escape(line) + ")" + rest == piece + tail;
      if Delimiter(c) {
        ReadDelimiter(c, tail, read);
      } else {
        ReadPlain(c, tail, read);
      }
    }
  }

  // ---------------------------------------------------------------------------------------------
  // The content stream

  const BEGIN := "BT /F1 14 Tf 54 740 Td 20 TL"

  function Command(line: string): string {
    "(" + ReplacedThrice(line) + ") Tj T*"
  }

  /** `sep.join(parts)` for the line feed. */
  function Join(parts: seq<string>): string {
    if parts == [] then "" else if |parts| == 1 then parts[0] else parts[0] + "\n" + Join(parts[1..])
  }

  function Commands(lines: seq<string>): seq<string> {
    if lines == [] then ["ET"] else [Command(lines[0])] + Commands(lines[1..])
  }

  function Content(lines: seq<string>): string {
    Join([BEGIN] + Commands(lines)) + "\n"
  }

  /** The strings a content stream shows, in order. */
  function Shown(s: string): seq<string>
    decreases |s|
  {
    if s == "" then []
    else if s[0] != '(' then Shown(s[1..])
    else
      match ReadLiteral(s[1..], 0, "")
      case None => []
      case Some((text, rest)) => if |rest| < |s| then [text] + Shown(rest) else []
  }

  lemma {:induction false} ShownSkips(a: string, b: string)
    requires '(' !in a
    ensures Shown(a + b) == Shown(b)
  {
    if a == "" {
      assert a + b == b;
    } else {
      ShownSkips(a[1..], b);
      assert (a + b)[1..] == a[1..] + b;
    }
  }

  lemma {:induction false} ShownCommand(line: string, rest: string)
    requires OneLine(line)
    ensures Shown(Command(line) + rest) == [line] + Shown(rest)
  {
    ThriceIsEscape(line);
    var s, tail := Command(line) + rest, " Tj T*" + rest;
    assert s[1..] == Escape(line) + ")" + tail;
    ReadOfEscape(line, tail, "");
    assert "" + line == line;
    ShownSkips(" Tj T*", rest);
  }

  lemma {:induction false} JoinStep(head: string, parts: seq<string>)
    requires parts != []
    ensures Join([head] + parts) == head + "\n" + Join(parts)
  {
    assert ([head] + parts)[1..] == parts;
  }

  lemma {:induction false} ShownCommands(lines: seq<string>)
    requires forall i :: 0 <= i < |lines| ==> OneLine(lines[i])
    ensures Shown(Join(Commands(lines)) + "\n") == lines
  {
    if lines == [] {
      assert Join(["ET"]) + "\n" == "ET\n";
      ShownSkips("ET\n", "");
      assert "ET\n" + "" == "ET\n";
    } else {
      var rest := Join(Commands(lines[1..])) + "\n";
      ShownCommands(lines[1..]);
      JoinStep(Command(lines[0]), Commands(lines[1..]));
      assert Join(Commands(lines)) + "\n" == Command(lines[0]) + ("\n" + rest);
      ShownCommand(lines[0], "\n" + rest);
      ShownSkips("\n", rest);
    }
  }

  /** The stream shows exactly the lines it was made from. */
  lemma {:induction false} ShownContent(lines: seq<string>)
    requires forall i :: 0 <= i < |lines| ==> OneLine(lines[i])
    ensures Shown(Content(lines)) == lines
  {
    JoinStep(BEGIN, Commands(lines));
    ShownCommands(lines);
    var rest := Join(Commands(lines)) + "\n";
    assert Content(lines) == (BEGIN + "\n") + rest;
    ShownSkips(BEGIN + "\n", rest);
  }

  lemma {:induction false} LinesAreSingle(text: string)
    ensures forall i :: 0 <= i < |SplitLines(text)| ==> OneLine(SplitLines(text)[i])
    decreases |text|
  {
    if text != "" {
      var n := LineEnd(text);
      LineBeforeEnd(text);
      if n < |text| {
        hide AfterBreak;
        var next := AfterBreak(text, n);
        LinesAreSingle(text[next..]);
        assert SplitLines(text) == [text[..n]] + SplitLines(text[next..]);
      } else {
        assert text[..n] == text;
      }
    }
  }

  lemma {:induction false} LineBeforeEnd(text: string)
    ensures OneLine(text[..LineEnd(text)])
  {
    var n := LineEnd(text);
    if n > 0 {
      LineBeforeEnd(text[1..]);
      assert text[..n] == [text[0]] + text[1..][..n - 1];
    }
  }

  // ---------------------------------------------------------------------------------------------
  // The file

  const HEADER := "%PDF-1.4\n%\U{e2}\U{e3}\U{cf}\U{d3}\n"
  const CATALOG := "<< /Type /Catalog /Pages 2 0 R >>"
  const PAGES := "<< /Type /Pages /Kids [3 0 R] /Count 1 >>"
  const PAGE := "<< /Type /Page /Parent 2 0 R /MediaBox [0 0 612 792] "
    + "/Resources << /Font << /F1 4 0 R >> >> /Contents 5 0 R >>"
  const FONT := "<< /Type /Font /Subtype /Type1 /BaseFont /Helvetica >>"

  function StreamObject(content: string): string {
    "<< /Length " + Decimal(|content|) + " >>\nstream\n" + content + "endstream"
  }

  function Objects(content: string): seq<string> {
    [CATALOG, PAGES, PAGE, FONT, StreamObject(content)]
  }

  function Document(text: string): string {
    File(HEADER, Objects(Content(SplitLines(text))))
  }

  predicate IsAscii(s: string) {
    forall i :: 0 <= i < |s| ==> s[i] as int < 128
  }

  /** `_single_page_text_pdf`. The one failure is a line the ASCII codec cannot encode. */
  method SinglePageTextPdf(text: string) returns (r: Result<string, string>)
    ensures r == if IsAscii(Content(SplitLines(text))) then Ok(Document(text)) else Err("UnicodeEncodeError")
  {
    var lines := SplitLines(text);
    var commands := [BEGIN];
    for i := 0 to |lines|
      invariant commands + Commands(lines[i..]) == [BEGIN] + Commands(lines)
    {
      var escaped := ReplacedThrice(lines[i]);
      CommandsStep(commands, lines, i);
      commands := commands + ["(" + escaped + ") Tj T*"];
    }
    commands := commands + ["ET"];
    var content := Join(commands) + "\n";
    if !IsAscii(content) {
      return Err("UnicodeEncodeError");
    }
    var payload := Write(HEADER, Objects(content));
    return Ok(payload);
  }

  lemma {:induction false} CommandsStep(commands: seq<string>, lines: seq<string>, i: nat)
    requires i < |lines|
    ensures commands + Commands(lines[i..]) == commands + [Command(lines[i])] + Commands(lines[i + 1..])
  {
    assert lines[i..][1..] == lines[i + 1..];
  }

  lemma {:induction false} FixedOffsets(content: string)
    ensures ShortOffsets(HEADER, Objects(content))
  {
    var objects := Objects(content);
    assert |Body(HEADER, objects, 0)| == 15;
    NextOffset(objects, 1, 100);
    NextOffset(objects, 2, 100);
    NextOffset(objects, 3, 200);
    NextOffset(objects, 4, 100);
  }

  lemma {:induction false} NextOffset(objects: seq<string>, n: nat, bound: nat)
    requires 1 <= n <= |objects| && n < 10 && |objects[n - 1]| + 20 <= bound
    ensures |Body(HEADER, objects, n)| <= |Body(HEADER, objects, n - 1)| + bound
  {
    assert |Decimal(n)| == 1;
  }

  /** Only the lines can be outside ASCII: the build fails exactly when one of them is. */
  lemma {:induction false} FailsExactlyOnNonAscii(lines: seq<string>)
    ensures IsAscii(Content(lines)) <==> forall i :: 0 <= i < |lines| ==> IsAscii(lines[i])
  {
    JoinStep(BEGIN, Commands(lines));
    CommandsAscii(lines);
    AsciiBetween(BEGIN, Join(Commands(lines)));
  }

  lemma {:induction false} AsciiBetween(a: string, b: string)
    requires IsAscii(a)
    ensures IsAscii(a + "\n" + b + "\n") <==> IsAscii(b)
  {
    AsciiConcat(a, "\n");
    AsciiConcat(a + "\n", b);
    AsciiConcat(a + "\n" + b, "\n");
  }

  lemma {:induction false} AsciiConcat(a: string, b: string)
    ensures IsAscii(a + b) <==> IsAscii(a) && IsAscii(b)
  {
    if IsAscii(a + b) {
      forall i | 0 <= i < |a| ensures a[i] as int < 128 { assert (a + b)[i] == a[i]; }
      forall i | 0 <= i < |b| ensures b[i] as int < 128 { assert (a + b)[|a| + i] == b[i]; }
    }
  }

  lemma {:induction false} EscapeAscii(line: string)
    ensures IsAscii(Escape(line)) <==> IsAscii(line)
  {
    if line != "" {
      EscapeAscii(line[1..]);
      AsciiConcat([line[0]], line[1..]);
      assert [line[0]] + line[1..] == line;
      AsciiConcat(if Delimiter(line[0]) then ['\\', line[0]] else [line[0]], Escape(line[1..]));
      assert IsAscii([line[0]]) <==> [line[0]][0] as int < 128;
      assert Delimiter(line[0]) ==> IsAscii(['\\', line[0]]);
    }
  }

  lemma {:induction false} CommandAscii(line: string)
    ensures IsAscii(Command(line)) <==> IsAscii(line)
  {
    ThriceIsEscape(line);
    EscapeAscii(line);
    AsciiConcat("(", Escape(line));
    AsciiConcat("(" + Escape(line), ") Tj T*");
  }

  lemma {:induction false} CommandsAscii(lines: seq<string>)
    ensures IsAscii(Join(Commands(lines))) <==> forall i :: 0 <= i < |lines| ==> IsAscii(lines[i])
  {
    if lines != [] {
      CommandsAscii(lines[1..]);
      CommandAscii(lines[0]);
      JoinStep(Command(lines[0]), Commands(lines[1..]));
      AsciiConcat(Command(lines[0]), "\n");
      AsciiConcat(Command(lines[0]) + "\n", Join(Commands(lines[1..])));
      assert forall i :: 1 <= i < |lines| ==> lines[i] == lines[1..][i - 1];
    }
  }

  // ---------------------------------------------------------------------------------------------
  // What a reader gets

  /** The lines a reader shows: from the end of the file to the table, to object 5, to its strings. */
  function LinesOf(file: string): Option<seq<string>> {
    match Locate(file, 5)
    case None => None
    case Some(found) =>
      match ReadStream(found)
      case None => None
      case Some(content) => Some(Shown(content))
  }

  /** Every file built reads back as the lines of the text it was built from. */
  lemma {:induction false} ReadsBack(text: string)
    ensures LinesOf(Document(text)) == Some(SplitLines(text))
  {
    hide Content;
    hide Shown;
    hide Locate;
    hide File;
    hide ReadStream;
    hide SplitLines;
    var content := Content(SplitLines(text));
    FixedOffsets(content);
    var rest := Located(HEADER, Objects(content), 5);
    StreamOf(content, "\nendobj\n" + rest);
    assert StreamObject(content) + "\nendobj\n" + rest
      == "<< /Length " + Decimal(|content|) + " >>\nstream\n" + content + "endstream" + ("\nendobj\n" + rest);
    LinesAreSingle(text);
    ShownContent(SplitLines(text));
  }

  /**
   * In every file built, `startxref` names the byte where the table starts, the table has six entries of twenty bytes,
   * and entry k names the byte where `k 0 obj` starts, followed by that object.
   */
  lemma {:induction false} TableIsExact(text: string, k: nat) returns (rows: string, rest: string)
    requires 1 <= k <= 5
    ensures var file, objects := Document(text), Objects(Content(SplitLines(text)));
      && ReadStart(file).Some?
      && ReadTable(file, ReadStart(file).value) == Some((6, rows))
      && |Entries(HEADER, objects, 5)| == 120 && Entries(HEADER, objects, 5) <= rows
      && ReadEntry(rows, k).Some? && ReadEntry(rows, k).value <= |file|
      && After(Decimal(k) + " 0 obj\n", file[ReadEntry(rows, k).value..]) == Some(objects[k - 1] + "\nendobj\n" + rest)
  {
    var content := Content(SplitLines(text));
    var objects := Objects(content);
    FixedOffsets(content);
    EntriesLength(HEADER, objects, 5);
    rows := TableReached(HEADER, objects);
    rest := ObjectReached(HEADER, objects, k);
    RowsStart(HEADER, objects, rows);
  }
}
