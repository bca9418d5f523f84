/** What the DVC pointer parser says when it refuses a file, and what of the file that can show. */
module DvcMessage {
  import opened Wrappers
  import opened Text
  import opened DvcPointer
  import opened DvcGrammar
  import Identifier

  // ---------------------------------------------------------------------------------------------
  // What a refusal is about

  /** The line a refusal names, if it names one. */
  function LineOf(p: Problem): Option<nat> {
    match p
    case NotAMapping(n) => Some(n)
    case UnknownTopLevelKey(n) => Some(n)
    case DuplicateTopLevelKey(n) => Some(n)
    case MustIntroduceList(n) => Some(n)
    case UnexpectedContent(n) => Some(n)
    case MalformedItem(n) => Some(n)
    case NotAKey(n) => Some(n)
    case UnknownEntryKey(n) => Some(n)
    case DuplicateEntryKey(n) => Some(n)
    case _ => None
  }

  /** The length a refusal gives, if it gives one. */
  function LengthOf(p: Problem): Option<nat> {
    match p
    case BadValue(WrongWidth(_, n)) => Some(n)
    case BadValue(PathTooLong(_, n)) => Some(n)
    case _ => None
  }

  /** The key whose value is refused, if one is. */
  function FieldOf(p: Problem): Option<Key> {
    match p
    case BlockScalar(key) => Some(key)
    case BadValue(problem) => Some(problem.key)
    case _ => None
  }

  /** The text of a line after any dash. */
  function FieldText(line: string): string {
    if "- " <= Strip(line) then Strip(line)[2..] else Strip(line)
  }

  /** The line reads `key: value`. */
  ghost predicate Carries(line: string, key: Key, value: string) {
    var text := FieldText(line);
    var n := Colon(text);
    n < |text| && KeyOf(Strip(text[..n])) == Some(key) && Strip(text[n + 1..]) == value
  }

  /** Line `n` is the first the machine cannot read, and `p` is what it says of it. */
  ghost predicate Stops(lines: seq<string>, n: nat, p: Problem) {
    1 <= n <= |lines| && Run(lines, n - 1).Ok? && Run(lines, n) == Err(p)
  }

  /** The length in a refusal is that of the value, without a directory's suffix where that is left out of a digest. */
  ghost predicate Measures(p: ScalarProblem, value: string) {
    match p
    case WrongWidth(key, n) =>
      n == (if EndsWith(value, ".dir") then |value| - 4 else |value|) && n !in key.Widths()
    case PathTooLong(key, n) => n == |value| > MAX_PATH
    case _ => true
  }

  // ---------------------------------------------------------------------------------------------
  // The first line that cannot be read

  lemma {:induction false} StopOf(lines: seq<string>, m: nat) returns (n: nat)
    requires m <= |lines| && Run(lines, m).Err?
    ensures n <= m && Stops(lines, n, Run(lines, m).error)
  {
    hide Step;
    if Run(lines, m - 1).Ok? {
      n := m;
    } else {
      n := StopOf(lines, m - 1);
    }
  }

  lemma {:induction false} StopsInStep(lines: seq<string>, n: nat, p: Problem)
    requires Stops(lines, n, p)
    ensures Step(Run(lines, n - 1).value, n, lines[n - 1]) == Err(p)
  {
    hide Step;
  }

  lemma {:induction false} ValueIsRefused(key: Key, value: string, p: ScalarProblem)
    requires ValueProblem(key, value) == Some(p)
    ensures p.key == key && Measures(p, value) && !GoodValue(key, value)
  {
    ValueRulesDecide(key, value);
    hide GoodValue;
  }

  lemma {:induction false} ProblemNamesKey(key: Key, value: string, p: ScalarProblem)
    requires ValueProblem(key, value) == Some(p)
    ensures p.key == key
  {
    hide IsPath;
    hide IsInteger;
    hide IsIdentifier;
    hide AllOf;
    hide EndsWith;
  }

  /** The refusal of a field's text. */
  ghost predicate Refuses(text: string, p: Problem) {
    var n := Colon(text);
    && n < |text| && FieldOf(p).Some? && KeyOf(Strip(text[..n])) == FieldOf(p)
    && (p.BlockScalar? ==> IsBlockScalar(Strip(text[n + 1..])))
    && (p.BadValue? ==> ValueProblem(FieldOf(p).value, Strip(text[n + 1..])) == Some(p.problem))
  }

  lemma {:induction false} FieldRefusal(s: State, number: nat, text: string, p: Problem)
    requires s.items != [] && Field(s, number, text) == Err(p)
    ensures LineOf(p).Some? ==> LineOf(p).value == number
    ensures FieldOf(p).Some? ==> Refuses(text, p)
  {
    hide Strip;
    hide KeyOf;
    hide IsBlockScalar;
    hide ValueProblem;
    if p.BadValue? {
      var n := Colon(text);
      ProblemNamesKey(KeyOf(Strip(text[..n])).value, Strip(text[n + 1..]), p.problem);
    }
  }

  lemma {:induction false} StepRefusal(s: State, number: nat, line: string, p: Problem)
    requires s.Valid() && Step(s, number, line) == Err(p)
    ensures LineOf(p).Some? ==> LineOf(p).value == number
    ensures FieldOf(p).Some? ==> Refuses(FieldText(line), p)
  {
    hide Strip;
    hide KeyOf;
    hide IsBlockScalar;
    hide ValueProblem;
    hide Field;
    hide Refuses;
    var stripped := Strip(line);
    if !Indented(line) && !("-" <= stripped) {
    } else if !s.inList {
    } else if "- " <= stripped {
      FieldRefusal(s.(items := s.items + [map[]], inEntry := true), number, stripped[2..], p);
    } else if !("-" <= stripped) && s.inEntry {
      FieldRefusal(s, number, stripped, p);
    }
  }

  lemma {:induction false} StoppedRefusal(lines: seq<string>, n: nat, p: Problem) returns (value: string)
    requires Stops(lines, n, p)
    ensures LineOf(p).Some? ==> LineOf(p).value == n
    ensures FieldOf(p).Some? ==> Carries(lines[n - 1], FieldOf(p).value, value)
    ensures p.BlockScalar? ==> IsBlockScalar(value)
    ensures p.BadValue? ==> Measures(p.problem, value) && !GoodValue(p.problem.key, value)
  {
    hide Step;
    hide Run;
    hide Strip;
    hide KeyOf;
    hide ValueProblem;
    hide GoodValue;
    hide IsBlockScalar;
    hide Measures;
    hide FieldText;
    value := "";
    StopsInStep(lines, n, p);
    StepRefusal(Run(lines, n - 1).value, n, lines[n - 1], p);
    if FieldOf(p).Some? {
      var text := FieldText(lines[n - 1]);
      value := Strip(text[Colon(text) + 1..]);
      if p.BadValue? {
        ValueIsRefused(FieldOf(p).value, value, p.problem);
      }
    }
  }

  /**
   * Everything a refusal says is read off the file: a line number is that of the first line the parser cannot read; a
   * key is the one that line carries; a length is that of its value; and that value breaks the rule of its key.
   */
  lemma {:induction false} RefusalIsReadOff(lines: seq<string>, stem: Option<string>, p: Problem)
    returns (n: nat, value: string)
    requires LinesProblem(lines, stem) == Some(p)
    ensures LineOf(p).Some? ==> LineOf(p) == Some(n) && Stops(lines, n, p)
    ensures FieldOf(p).Some? ==> Stops(lines, n, p) && Carries(lines[n - 1], FieldOf(p).value, value)
    ensures p.BlockScalar? ==> IsBlockScalar(value)
    ensures p.BadValue? ==> Measures(p.problem, value) && !GoodValue(p.problem.key, value)
  {
    hide Run;
    hide LinesProblem;
    hide IsBlockScalar;
    hide GoodValue;
    hide Measures;
    hide Carries;
    hide Stops;
    n, value := 0, "";
    if lines != [] && Run(lines, |lines|).Err? {
      n, value := UnreadableLine(lines, stem, p);
    } else {
      WholeFileProblem(lines, stem, p);
    }
  }

  lemma {:induction false} UnreadableLine(lines: seq<string>, stem: Option<string>, p: Problem)
    returns (n: nat, value: string)
    requires lines != [] && Run(lines, |lines|).Err? && LinesProblem(lines, stem) == Some(p)
    ensures Stops(lines, n, p) && (LineOf(p).Some? ==> LineOf(p) == Some(n))
    ensures FieldOf(p).Some? ==> Carries(lines[n - 1], FieldOf(p).value, value)
    ensures p.BlockScalar? ==> IsBlockScalar(value)
    ensures p.BadValue? ==> Measures(p.problem, value) && !GoodValue(p.problem.key, value)
  {
    hide Run;
    hide LinesProblem;
    hide IsBlockScalar;
    hide GoodValue;
    hide Measures;
    hide Carries;
    n := StopOf(lines, |lines|);
    FirstStopDecides(lines, stem);
    value := StoppedRefusal(lines, n, p);
  }

  lemma {:induction false} FirstStopDecides(lines: seq<string>, stem: Option<string>)
    requires lines != [] && Run(lines, |lines|).Err?
    ensures LinesProblem(lines, stem) == Some(Run(lines, |lines|).error)
  {
    hide Run;
  }

  /** A file whose every line can be read is refused without a line, a key or a length. */
  lemma {:induction false} WholeFileProblem(lines: seq<string>, stem: Option<string>, p: Problem)
    requires LinesProblem(lines, stem) == Some(p) && (lines == [] || Run(lines, |lines|).Ok?)
    ensures LineOf(p).None? && FieldOf(p).None?
  {
    hide Run;
    hide FirstItemProblem;
    if lines != [] {
      var items := Run(lines, |lines|).value.items;
      WholeFileRefusal(items, |items|, stem);
    }
  }

  lemma {:induction false} WholeFileRefusal(items: seq<Item>, n: nat, stem: Option<string>)
    requires n <= |items|
    ensures FirstItemProblem(items, n, stem) in {None, Some(NoPath), Some(NoChecksum), Some(NamesAnotherFile)}
  {
    if n > 0 {
      WholeFileRefusal(items, n - 1, stem);
    }
  }

  // ---------------------------------------------------------------------------------------------
  // The wording

  function Quoted(key: Key): string {
    "'" + key.Name() + "'"
  }

  function Expected(key: Key): string {
    match key
    case Md5 => "32"
    case Sha1 => "40"
    case Sha256 => "64"
    case _ => "32 or 64"
  }

  /** What is wrong with a value, where no number is given. */
  function ScalarWords(p: ScalarProblem): string {
    match p
    case ControlCharacters(_) => " contains control characters"
    case NotHexadecimal(_) => " is not hexadecimal"
    case NotAHashName(_) => " is not a DVC hash name"
    case NotAnInteger(_) => " is not an integer"
    case LeadingZero(_) => " has a leading zero"
    case IdentifierShape(_) => " is an identifier shape, not a count"
    case _ => " is not a path"
  }

  function WidthWords(key: Key): string {
    " hex characters, expected " + Expected(key)
  }

  function CapWords(): string {
    " characters, over the " + Decimal(MAX_PATH) + " cap"
  }

  function ScalarMessage(p: ScalarProblem): string {
    match p
    case WrongWidth(key, n) => Quoted(key) + " is " + Decimal(n) + WidthWords(key)
    case PathTooLong(key, n) => Quoted(key) + " is " + Decimal(n) + CapWords()
    case _ => Quoted(p.key) + ScalarWords(p)
  }

  const IN_ENTRY := " in an `outs:` entry"
  const AN_ENTRY := "an `outs:` entry"

  /** What stands after the line number. */
  function LineMessage(p: Problem): string
    requires LineOf(p).Some?
  {
    match p
    case NotAMapping(_) => "not a YAML mapping"
    case UnknownTopLevelKey(_) => "unrecognised top-level key"
    case DuplicateTopLevelKey(_) => "duplicate top-level key"
    case MustIntroduceList(_) => "'outs' must introduce a list"
    case UnexpectedContent(_) => "unexpected content"
    case MalformedItem(_) => "malformed list item"
    case NotAKey(_) => "not a key"
    case UnknownEntryKey(_) => "unrecognised key" + IN_ENTRY
    case DuplicateEntryKey(_) => "duplicate key" + IN_ENTRY
  }

  /** The string `dvc_pointer_problem` returns. */
  function Message(p: Problem): string {
    if LineOf(p).Some? then "line " + Decimal(LineOf(p).value) + ": " + LineMessage(p)
    else match p
      case EmptyFile => "empty"
      case BlockScalarAtOuts => "block scalar not allowed at 'outs'"
      case BlockScalar(key) => "block scalar not allowed at " + Quoted(key)
      case BadValue(problem) => ScalarMessage(problem)
      case NoEntries => "no `outs:` entries"
      case NoPath => AN_ENTRY + " has no `path`"
      case NoChecksum => AN_ENTRY + " has no checksum"
      case NamesAnotherFile => AN_ENTRY + " does not name the file beside it"
  }

  /** The number a message gives. */
  function NumberOf(p: Problem): Option<nat> {
    if LineOf(p).Some? then LineOf(p) else LengthOf(p)
  }

  const NINE_DIGITS := 100_000_000

  // ---------------------------------------------------------------------------------------------
  // Digits in a message

  function Tens(k: nat): nat {
    if k == 0 then 1 else 10 * Tens(k - 1)
  }

  lemma {:induction false} DecimalWidth(n: nat, k: nat)
    requires k > 0
    ensures |Decimal(n)| > k <==> n >= Tens(k)
  {
    if k > 1 && n >= 10 {
      DecimalWidth(n / 10, k - 1);
    }
    TensPositive(k - 1);
  }

  lemma {:induction false} TensPositive(k: nat)
    ensures Tens(k) >= 1
  {
    if k > 0 {
      TensPositive(k - 1);
    }
  }

  lemma {:induction false} NineDigits(n: nat)
    ensures |Decimal(n)| >= 9 <==> n >= NINE_DIGITS
  {
    DecimalWidth(n, 8);
    assert Tens(8) == NINE_DIGITS;
  }

  lemma {:induction false} AllDigitsCount(s: string)
    requires AllDigits(s)
    ensures Identifier.Digits(s) == |s| && Identifier.NoLetter(s)
  {
    if s != "" {
      AllDigitsCount(s[1..]);
    }
  }

  lemma {:induction false} AtMostOnePerCharacter(s: string)
    ensures Identifier.Digits(s) <= |s|
  {
    if s != "" {
      AtMostOnePerCharacter(s[1..]);
    }
  }

  /** A text with few digits shows no identifier. */
  lemma {:induction false} FewDigits(s: string)
    requires Identifier.Digits(s) < Identifier.IDENTIFIER_DIGITS
    ensures !Identifier.SomeWindow(s)
  {
    forall i, j | 0 <= i <= j <= |s| ensures Identifier.Digits(s[i..j]) <= Identifier.Digits(s) {
      assert s == s[..i] + s[i..j] + s[j..];
      Identifier.DigitsConcat(s[..i] + s[i..j], s[j..]);
      Identifier.DigitsConcat(s[..i], s[i..j]);
    }
  }

  lemma {:induction false} WindowInside(a: string, b: string, c: string)
    requires Identifier.SomeWindow(b)
    ensures Identifier.SomeWindow(a + b + c)
  {
    var i, j :| 0 <= i <= j <= |b| && Identifier.NoLetter(b[i..j])
      && Identifier.Digits(b[i..j]) >= Identifier.IDENTIFIER_DIGITS;
    assert (a + b + c)[|a| + i..|a| + j] == b[i..j];
  }

  /** A letter keeps the digits before it and those after it apart. */
  lemma {:induction false} LetterSplits(a: string, c: char, b: string)
    requires Identifier.IsLetter(c)
    ensures Identifier.SomeWindow(a + [c] + b) <==> Identifier.SomeWindow(a) || Identifier.SomeWindow(b)
  {
    var s := a + [c] + b;
    if Identifier.SomeWindow(a) {
      WindowInside("", a, [c] + b);
      assert "" + a + ([c] + b) == s;
    }
    if Identifier.SomeWindow(b) {
      WindowInside(a + [c], b, "");
      assert a + [c] + b + "" == s;
    }
    if Identifier.SomeWindow(s) {
      var i, j :| 0 <= i <= j <= |s| && Identifier.NoLetter(s[i..j])
        && Identifier.Digits(s[i..j]) >= Identifier.IDENTIFIER_DIGITS;
      OnOneSide(a, c, b, i, j);
    }
  }

  lemma {:induction false} OnOneSide(a: string, c: char, b: string, i: nat, j: nat)
    requires Identifier.IsLetter(c) && i <= j <= |a + [c] + b| && Identifier.NoLetter((a + [c] + b)[i..j])
    requires Identifier.Digits((a + [c] + b)[i..j]) >= Identifier.IDENTIFIER_DIGITS
    ensures Identifier.SomeWindow(a) || Identifier.SomeWindow(b)
  {
    var s, n := a + [c] + b, |a|;
    assert s[n] == c;
    forall t | i <= t < j ensures !Identifier.IsLetter(s[t]) {
      assert s[i..j][t - i] == s[t];
    }
    if j <= n {
      assert s[i..j] == a[i..j];
    } else {
      assert s[i..j] == b[i - n - 1..j - n - 1];
    }
  }

  /** A number between two texts without digits shows an identifier exactly when it has nine digits itself. */
  lemma {:induction false} NumberShows(a: string, n: nat, b: string)
    requires Identifier.Digits(a) == 0 && Identifier.Digits(b) == 0
    ensures Identifier.SomeWindow(a + Decimal(n) + b) <==> n >= NINE_DIGITS
  {
    var d := Decimal(n);
    NineDigits(n);
    AllDigitsCount(d);
    Identifier.DigitsConcat(a + d, b);
    Identifier.DigitsConcat(a, d);
    if |d| >= 9 {
      assert d[0..|d|] == d;
      assert Identifier.SomeWindow(d);
      WindowInside(a, d, b);
    } else {
      FewDigits(a + d + b);
    }
  }

  // ---------------------------------------------------------------------------------------------
  // The messages

  lemma {:induction false} QuotedHasFew(key: Key)
    ensures Identifier.Digits(Quoted(key)) <= 3
  {
    var name := key.Name();
    Identifier.DigitsConcat("'" + name, "'");
    Identifier.DigitsConcat("'", name);
    assert Identifier.Digits("'") == 0;
    if key == Sha256 {
      assert name == "sha" + "256";
      Identifier.DigitsConcat("sha", "256");
      Identifier.NoDigits("sha");
      AtMostOnePerCharacter("256");
    } else if |name| <= 3 {
      AtMostOnePerCharacter(name);
    } else {
      NameHasFew(key);
    }
  }

  lemma {:induction false} NameHasFew(key: Key)
    requires !key.Sha256?
    ensures Identifier.Digits(key.Name()) <= 3
  {
    match key
    case Md5 => AtMostOnePerCharacter("md5");
    case Sha1 =>
      assert "sha1" == "sha" + "1";
      Identifier.DigitsConcat("sha", "1");
      Identifier.NoDigits("sha");
      AtMostOnePerCharacter("1");
    case Hash => Identifier.NoDigits("hash");
    case Etag => Identifier.NoDigits("etag");
    case Checksum => Identifier.NoDigits("checksum");
    case Path => Identifier.NoDigits("path");
    case Size => Identifier.NoDigits("size");
    case NFiles => Identifier.NoDigits("nfiles");
  }

  /** A key, a number and the words that follow. */
  lemma {:induction false} MeasuredShows(key: Key, n: nat, words: string)
    requires |words| >= 2 && words[0] == ' ' && Identifier.IsLetter(words[1])
    requires Identifier.Digits(words) < Identifier.IDENTIFIER_DIGITS
    ensures Identifier.SomeWindow(Quoted(key) + " is " + Decimal(n) + words) <==> n >= NINE_DIGITS
  {
    hide Identifier.SomeWindow;
    hide Decimal;
    var q, d, rest := Quoted(key), Decimal(n), words[2..];
    QuotedHasFew(key);
    Identifier.NoDigits(" i");
    Identifier.NoDigits(" ");
    Identifier.DigitsConcat(q, " i");
    FewDigits(q + " i");
    assert words == words[..2] + rest;
    Identifier.DigitsConcat(words[..2], rest);
    FewDigits(rest);
    NumberShows(" ", n, " ");
    LetterSplits(" " + d + " ", words[1], rest);
    var tail := " " + d + " " + [words[1]] + rest;
    assert words == " " + [words[1]] + rest;
    assert tail == " " + d + words;
    LetterSplits(q + " i", 's', tail);
    assert " i" + ['s'] + " " == " is ";
    assert q + " i" + ['s'] + tail == q + " is " + d + words;
  }

  lemma {:induction false} KeyMessageShowsNone(key: Key, words: string)
    requires Identifier.Digits(words) == 0
    ensures !Identifier.SomeWindow(Quoted(key) + words)
    ensures !Identifier.SomeWindow(words + Quoted(key))
  {
    QuotedHasFew(key);
    Identifier.DigitsConcat(Quoted(key), words);
    Identifier.DigitsConcat(words, Quoted(key));
    FewDigits(Quoted(key) + words);
    FewDigits(words + Quoted(key));
  }

  lemma {:induction false} ScalarWordsHaveNone(p: ScalarProblem)
    ensures Identifier.Digits(ScalarWords(p)) == 0
  {
    hide Identifier.Digits;
    match p
    case ControlCharacters(_) => Identifier.NoDigits(" contains control characters");
    case NotHexadecimal(_) => Identifier.NoDigits(" is not hexadecimal");
    case NotAHashName(_) => Identifier.NoDigits(" is not a DVC hash name");
    case NotAnInteger(_) => Identifier.NoDigits(" is not an integer");
    case LeadingZero(_) => Identifier.NoDigits(" has a leading zero");
    case IdentifierShape(_) => Identifier.NoDigits(" is an identifier shape, not a count");
    case _ => Identifier.NoDigits(" is not a path");
  }

  lemma {:induction false} ScalarMessageShows(p: ScalarProblem)
    ensures Identifier.SomeWindow(ScalarMessage(p))
      <==> LengthOf(BadValue(p)).Some? && LengthOf(BadValue(p)).value >= NINE_DIGITS
  {
    hide Quoted;
    hide ScalarWords;
    hide WidthWords;
    hide CapWords;
    hide Identifier.SomeWindow;
    hide Identifier.Digits;
    hide Decimal;
    match p
    case WrongWidth(key, n) =>
      WidthWordsHaveFew(key);
      MeasuredShows(key, n, WidthWords(key));
    case PathTooLong(key, n) =>
      CapWordsHaveFew();
      MeasuredShows(key, n, CapWords());
    case _ =>
      ScalarWordsHaveNone(p);
      KeyMessageShowsNone(p.key, ScalarWords(p));
  }

  lemma {:induction false} ExpectedIsShort(key: Key)
    ensures |Expected(key)| <= 8
  {
  }

  lemma {:induction false} WidthWordsHaveFew(key: Key)
    ensures var words := WidthWords(key);
      && |words| >= 2 && words[0] == ' ' && Identifier.IsLetter(words[1])
      && Identifier.Digits(words) < Identifier.IDENTIFIER_DIGITS
  {
    hide Identifier.Digits;
    hide Expected;
    var words := " hex characters, expected ";
    Identifier.NoDigits(words);
    Identifier.DigitsConcat(words, Expected(key));
    ExpectedIsShort(key);
    AtMostOnePerCharacter(Expected(key));
  }

  lemma {:induction false} CapWordsHaveFew()
    ensures |CapWords()| >= 2 && CapWords()[0] == ' ' && Identifier.IsLetter(CapWords()[1])
    ensures Identifier.Digits(CapWords()) < Identifier.IDENTIFIER_DIGITS
  {
    hide Identifier.Digits;
    var words := " characters, over the ";
    Identifier.NoDigits(words);
    Identifier.NoDigits(" cap");
    DecimalWidth(MAX_PATH, 3);
    assert Tens(3) == 1000;
    AtMostOnePerCharacter(Decimal(MAX_PATH));
    Identifier.DigitsConcat(words + Decimal(MAX_PATH), " cap");
    Identifier.DigitsConcat(words, Decimal(MAX_PATH));
  }

  lemma {:induction false} LineMessageHasNone(p: Problem)
    requires LineOf(p).Some?
    ensures Identifier.Digits(": " + LineMessage(p)) == 0
  {
    LineWordsHaveNone(p);
    hide LineMessage;
    Identifier.NoDigits(": ");
    Identifier.DigitsConcat(": ", LineMessage(p));
  }

  lemma {:induction false} LineWordsHaveNone(p: Problem)
    requires LineOf(p).Some?
    ensures Identifier.Digits(LineMessage(p)) == 0
  {
    if p.NotAMapping? || p.UnknownTopLevelKey? || p.DuplicateTopLevelKey? || p.MustIntroduceList? {
      TopWordsHaveNone(p);
    } else {
      ListWordsHaveNone(p);
    }
  }

  lemma {:induction false} TopWordsHaveNone(p: Problem)
    requires p.NotAMapping? || p.UnknownTopLevelKey? || p.DuplicateTopLevelKey? || p.MustIntroduceList?
    ensures Identifier.Digits(LineMessage(p)) == 0
  {
    hide Identifier.Digits;
    match p
    case NotAMapping(_) => Identifier.NoDigits("not a YAML mapping");
    case UnknownTopLevelKey(_) => Identifier.NoDigits("unrecognised top-level key");
    case DuplicateTopLevelKey(_) => Identifier.NoDigits("duplicate top-level key");
    case MustIntroduceList(_) => Identifier.NoDigits("'outs' must introduce a list");
  }

  lemma {:induction false} ListWordsHaveNone(p: Problem)
    requires p.UnexpectedContent? || p.MalformedItem? || p.NotAKey? || p.UnknownEntryKey? || p.DuplicateEntryKey?
    ensures Identifier.Digits(LineMessage(p)) == 0
  {
    hide Identifier.Digits;
    match p
    case UnexpectedContent(_) => Identifier.NoDigits("unexpected content");
    case MalformedItem(_) => Identifier.NoDigits("malformed list item");
    case NotAKey(_) => Identifier.NoDigits("not a key");
    case UnknownEntryKey(_) => TwoParts("unrecognised key", IN_ENTRY);
    case DuplicateEntryKey(_) => TwoParts("duplicate key", IN_ENTRY);
  }

  lemma {:induction false} TwoParts(a: string, b: string)
    requires forall i :: 0 <= i < |a| ==> !IsDigit(a[i])
    requires forall i :: 0 <= i < |b| ==> !IsDigit(b[i])
    ensures Identifier.Digits(a + b) == 0
  {
    Identifier.NoDigits(a);
    Identifier.NoDigits(b);
    Identifier.DigitsConcat(a, b);
  }

  lemma {:induction false} PlainWordsHaveNone(p: Problem)
    requires LineOf(p).None? && FieldOf(p).None?
    ensures Identifier.Digits(Message(p)) == 0
  {
    if p.NoPath? || p.NoChecksum? || p.NamesAnotherFile? {
      EntryWordsHaveNone(p);
    } else {
      FileWordsHaveNone(p);
    }
  }

  lemma {:induction false} FileWordsHaveNone(p: Problem)
    requires p.EmptyFile? || p.BlockScalarAtOuts? || p.NoEntries?
    ensures Identifier.Digits(Message(p)) == 0
  {
    hide Identifier.Digits;
    match p
    case EmptyFile => Identifier.NoDigits("empty");
    case BlockScalarAtOuts => Identifier.NoDigits("block scalar not allowed at 'outs'");
    case NoEntries => Identifier.NoDigits("no `outs:` entries");
  }

  lemma {:induction false} EntryWordsHaveNone(p: Problem)
    requires p.NoPath? || p.NoChecksum? || p.NamesAnotherFile?
    ensures Identifier.Digits(Message(p)) == 0
  {
    hide Identifier.Digits;
    match p
    case NoPath => TwoParts(AN_ENTRY, " has no `path`");
    case NoChecksum => TwoParts(AN_ENTRY, " has no checksum");
    case NamesAnotherFile => TwoParts(AN_ENTRY, " does not name the file beside it");
  }

  lemma {:induction false} PlainMessageShowsNone(p: Problem)
    requires LineOf(p).None? && FieldOf(p).None?
    ensures !Identifier.SomeWindow(Message(p))
  {
    PlainWordsHaveNone(p);
    FewDigits(Message(p));
  }

  lemma {:induction false} NumberedLineShows(n: nat, p: Problem)
    requires LineOf(p).Some?
    ensures Identifier.SomeWindow("line " + Decimal(n) + ": " + LineMessage(p)) <==> n >= NINE_DIGITS
  {
    hide Identifier.SomeWindow;
    hide LineMessage;
    hide Decimal;
    LineMessageHasNone(p);
    Identifier.NoDigits("line ");
    hide Identifier.Digits;
    NumberShows("line ", n, ": " + LineMessage(p));
    assert "line " + Decimal(n) + (": " + LineMessage(p)) == "line " + Decimal(n) + ": " + LineMessage(p);
  }

  /** A refusal shows an identifier-shaped run exactly when the line or the length it gives has nine digits. */
  lemma {:induction false} MessageShows(p: Problem)
    ensures Identifier.HasIdentifier(Message(p)) <==> NumberOf(p).Some? && NumberOf(p).value >= NINE_DIGITS
  {
    hide Identifier.HasIdentifier;
    hide Identifier.SomeWindow;
    hide Identifier.Digits;
    hide LineMessage;
    hide ScalarMessage;
    hide Quoted;
    Identifier.FlagsExactlyWindows(Message(p));
    if LineOf(p).Some? {
      NumberedLineShows(LineOf(p).value, p);
    } else if FieldOf(p).None? {
      PlainMessageShowsNone(p);
    } else if p.BlockScalar? {
      Identifier.NoDigits("block scalar not allowed at ");
      KeyMessageShowsNone(p.key, "block scalar not allowed at ");
    } else {
      ScalarMessageShows(p.problem);
    }
  }

  // ---------------------------------------------------------------------------------------------
  // Numbers are bounded by the file

  lemma {:induction false} StripShortens(s: string)
    ensures |Strip(s)| <= |s| && |RStrip(s)| <= |s|
  {
    var pre, post := StripSplits(s);
    var tail := RStripSplits(s);
  }

  lemma {:induction false} SplitShortens(text: string)
    ensures |SplitLines(text)| <= |text|
    ensures forall i :: 0 <= i < |SplitLines(text)| ==> |SplitLines(text)[i]| <= |text|
    decreases |text|
  {
    hide LineEnd;
    hide AfterBreak;
    if text != "" && LineEnd(text) < |text| {
      SplitShortens(text[AfterBreak(text, LineEnd(text))..]);
    }
  }

  lemma {:induction false} SignificantShortens(raw: seq<string>, most: nat)
    requires forall i :: 0 <= i < |raw| ==> |raw[i]| <= most
    ensures |Significant(raw)| <= |raw|
    ensures forall i :: 0 <= i < |Significant(raw)| ==> |Significant(raw)[i]| <= most
  {
    if raw != [] {
      SignificantShortens(raw[1..], most);
      StripShortens(raw[0]);
    }
  }

  lemma {:induction false} LinesWithin(text: string)
    ensures |Lines(text)| <= |text|
    ensures forall i :: 0 <= i < |Lines(text)| ==> |Lines(text)[i]| <= |text|
  {
    SplitShortens(text);
    SignificantShortens(SplitLines(text), |text|);
  }

  lemma {:induction false} ValueWithin(line: string, key: Key, value: string)
    requires Carries(line, key, value)
    ensures |value| <= |line|
  {
    StripShortens(line);
    var text := FieldText(line);
    StripShortens(text[Colon(text) + 1..]);
  }

  lemma {:induction false} LengthWithin(p: ScalarProblem, value: string)
    requires Measures(p, value)
    ensures LengthOf(BadValue(p)).Some? ==> LengthOf(BadValue(p)).value <= |value|
  {
  }

  /** The number a refusal gives is no greater than the file is long. */
  lemma {:induction false} NumberWithin(text: string, stem: Option<string>, p: Problem)
    requires LinesProblem(Lines(text), stem) == Some(p)
    ensures NumberOf(p).Some? ==> NumberOf(p).value <= |text|
  {
    var lines := Lines(text);
    LinesWithin(text);
    var n, value := RefusalIsReadOff(lines, stem, p);
    hide Lines;
    hide LinesProblem;
    hide Carries;
    hide Measures;
    if p.BadValue? {
      ValueWithin(lines[n - 1], p.problem.key, value);
      LengthWithin(p.problem, value);
    }
  }

  /** No refusal of a file of fewer than a hundred million characters shows an identifier, whatever the file holds. */
  lemma {:induction false} RefusalShowsNoIdentifier(text: string, stem: Option<string>, p: Problem)
    requires LinesProblem(Lines(text), stem) == Some(p) && |text| < NINE_DIGITS
    ensures !Identifier.HasIdentifier(Message(p))
  {
    NumberWithin(text, stem, p);
    hide Lines;
    hide LinesProblem;
    hide NumberOf;
    hide Message;
    MessageShows(p);
  }
}
