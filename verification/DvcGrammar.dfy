/** What a DVC pointer is, written as a grammar, and the parser's agreement with it. */
module DvcGrammar {
  import opened Wrappers
  import opened Text
  import opened DvcPointer

  // ---------------------------------------------------------------------------------------------
  // Values

  /** Hexadecimal of an allowed width, a directory's marked with `.dir`. */
  ghost predicate Digest(key: Key, value: string) {
    exists body :: (value == body || value == body + ".dir") && |body| in key.Widths() && AllOf(body, IsHex)
  }

  /** A count: digits, no leading zero, and neither a mobile number nor an Aadhaar. */
  ghost predicate Count(value: string) {
    && 1 <= |value| <= 20 && AllOf(value, IsDigit)
    && (value[0] == '0' ==> |value| == 1)
    && |value| != 12 && !(|value| == 10 && '6' <= value[0])
  }

  /** The values a key may carry. */
  ghost predicate GoodValue(key: Key, value: string) {
    match key
    case Hash => value in HASH_NAMES
    case Path => |value| <= MAX_PATH && IsPath(value)
    case Size => Count(value)
    case NFiles => Count(value)
    case _ => Digest(key, value)
  }

  // ---------------------------------------------------------------------------------------------
  // Lines

  /** One `key: value` with the white space around its parts. */
  datatype Laid = Laid(indent: string, gap: string, key: Key, beforeColon: string, afterColon: string, value: string)

  /** An entry: the line that opens it, then the others. */
  type Entry = e: seq<Laid> | e != [] witness [Laid("", "", Path, "", "", "")]

  /** A pointer: the gap in its header, and its entries. */
  datatype Pointer = Pointer(headerGap: string, entries: seq<Entry>)

  function RenderHeader(gap: string): string {
    "outs" + gap + ":"
  }

  /** The first line of an entry is `- key: value`, the others `key: value`. */
  function RenderLine(l: Laid, opens: bool): string {
    if opens then l.indent + "- " + (l.gap + l.key.Name() + l.beforeColon) + ":" + (l.afterColon + l.value)
    else l.indent + (l.gap + l.key.Name() + l.beforeColon) + ":" + (l.afterColon + l.value)
  }

  function RenderEntry(e: seq<Laid>, n: nat): seq<string>
    requires n <= |e|
  {
    if n == 0 then [] else RenderEntry(e, n - 1) + [RenderLine(e[n - 1], n == 1)]
  }

  function RenderEntries(entries: seq<Entry>): seq<string> {
    if entries == [] then []
    else RenderEntries(entries[..|entries| - 1]) + RenderEntry(entries[|entries| - 1], |entries[|entries| - 1]|)
  }

  function Render(p: Pointer): seq<string> {
    [RenderHeader(p.headerGap)] + RenderEntries(p.entries)
  }

  /** White space where the layout has it, and the continuation lines indented. */
  ghost predicate LaidOut(l: Laid, opens: bool) {
    && Blank(l.indent) && Blank(l.gap) && Blank(l.beforeColon) && Blank(l.afterColon)
    && (!opens ==> l.indent != "" && l.gap == "")
  }

  ghost predicate GoodField(l: Laid, opens: bool) {
    LaidOut(l, opens) && GoodValue(l.key, l.value)
  }

  /** Fields with allowed values under distinct allowlisted keys. */
  ghost predicate GoodFields(e: seq<Laid>) {
    && (forall i :: 0 <= i < |e| ==> GoodField(e[i], i == 0))
    && (forall i, j :: 0 <= i < j < |e| ==> e[i].key != e[j].key)
  }

  /** An entry has a checksum, a path, and the path names the file beside the pointer. */
  ghost predicate CompleteEntry(e: seq<Laid>, stem: Option<string>) {
    && (exists i :: 0 <= i < |e| && e[i].key.CarriesDigest())
    && (exists i :: 0 <= i < |e| && e[i].key == Path && (stem.Some? ==> e[i].value == stem.value))
  }

  /** One empty `outs:` header, then one or more good, complete entries. */
  ghost predicate ValidPointer(p: Pointer, stem: Option<string>) {
    && Blank(p.headerGap) && p.entries != []
    && forall i :: 0 <= i < |p.entries| ==> GoodFields(p.entries[i]) && CompleteEntry(p.entries[i], stem)
  }

  /** The language: the line sequences some valid pointer renders to. */
  ghost predicate InLanguage(lines: seq<string>, stem: Option<string>) {
    exists p :: ValidPointer(p, stem) && Render(p) == lines
  }

  // ---------------------------------------------------------------------------------------------
  // Values agree

  lemma {:induction false} HexIsNoDirectory(b: string)
    requires AllOf(b, IsHex)
    ensures !EndsWith(b, ".dir")
  {
    if |b| >= 4 {
      assert IsHex(b[|b| - 4]);
      assert b[|b| - 4..][0] == b[|b| - 4];
    }
  }

  lemma {:induction false} DigestDecides(key: Key, value: string)
    requires key.CarriesDigest()
    ensures ChecksumProblem(key, value).None? <==> Digest(key, value)
  {
    var body := if EndsWith(value, ".dir") then value[..|value| - 4] else value;
    if EndsWith(value, ".dir") {
      assert value == body + ".dir";
    }
    if b :| (value == b || value == b + ".dir") && |b| in key.Widths() && AllOf(b, IsHex) {
      HexIsNoDirectory(b);
      if value == b + ".dir" {
        assert value[|value| - 4..] == ".dir";
        assert body == b;
      }
    }
  }

  lemma {:induction false} PlainCharacters(value: string)
    requires (exists body :: (value == body || value == body + ".dir") && AllOf(body, IsHex))
      || AllOf(value, IsDigit) || AllOf(value, PathPart)
    ensures forall i :: 0 <= i < |value| ==> value[i] as int >= 33 && value[i] != ':'
  {
    if body :| (value == body || value == body + ".dir") && AllOf(body, IsHex) {
      forall i | 0 <= i < |value| ensures value[i] as int >= 33 && value[i] != ':' {
        if i < |body| {
          assert IsHex(body[i]);
        } else {
          assert value[i] == ".dir"[i - |body|];
        }
      }
    }
  }

  lemma {:induction false} HashNamesPlain(value: string)
    requires value in HASH_NAMES
    ensures value != "" && forall i :: 0 <= i < |value| ==> value[i] as int >= 33 && value[i] != ':'
  {
  }

  /** A good value is nonempty and holds neither white space, nor control characters, nor a colon. */
  lemma {:induction false} GoodValueIsPlain(key: Key, value: string)
    requires GoodValue(key, value)
    ensures value != "" && forall i :: 0 <= i < |value| ==> value[i] as int >= 33 && value[i] != ':'
  {
    if key.CarriesDigest() {
      PlainCharacters(value);
    } else if key == Hash {
      HashNamesPlain(value);
    } else {
      PlainCharacters(value);
    }
  }

  /** The value rules accept exactly the good values; the control-character rule adds nothing. */
  lemma {:induction false} ValueRulesDecide(key: Key, value: string)
    ensures ValueProblem(key, value).None? <==> GoodValue(key, value)
  {
    if key.CarriesDigest() {
      DigestDecides(key, value);
    }
    if GoodValue(key, value) {
      GoodValueIsPlain(key, value);
    }
    assert IsInteger(value) && !(|value| > 1 && value[0] == '0') && !IsIdentifier(value) <==> Count(value) by {
      if IsInteger(value) {
        assert IsDigit(value[0]);
      }
    }
  }

  lemma {:induction false} NoBlockScalarIsGood(key: Key, value: string)
    requires GoodValue(key, value)
    ensures !IsBlockScalar(value) && Trimmed(value)
  {
    GoodValueIsPlain(key, value);
    if key.CarriesDigest() {
      GoodDigestIsLong(key, value);
    } else if key == Hash {
      assert value[0] != '|' && value[0] != '>';
    } else if key == Path {
      assert PathStart(value[0]);
    } else {
      assert IsDigit(value[0]);
    }
  }

  lemma {:induction false} GoodDigestIsLong(key: Key, value: string)
    requires GoodValue(key, value) && key.CarriesDigest()
    ensures |value| >= 32
  {
  }

  // ---------------------------------------------------------------------------------------------
  // Lines agree

  /** The dict an entry's first `n` fields build. */
  function FieldMap(e: seq<Laid>, n: nat): Item
    requires n <= |e|
  {
    if n == 0 then map[] else FieldMap(e, n - 1)[e[n - 1].key := e[n - 1].value]
  }

  function Items(entries: seq<Entry>): (r: seq<Item>)
    ensures |r| == |entries|
  {
    if entries == [] then []
    else
      var e := entries[|entries| - 1];
      Items(entries[..|entries| - 1]) + [FieldMap(e, |e|)]
  }

  /** The parser's variables after a header and some entries. */
  function StateOf(entries: seq<Entry>): State {
    State(Items(entries), entries != [], true, true)
  }

  ghost predicate NoColon(s: string) {
    ':' !in s
  }

  lemma {:induction false} KeyNameFacts(key: Key)
    ensures KeyOf(key.Name()) == Some(key)
    ensures key.Name() != "" && key.Name()[0] != '-' && NoColon(key.Name()) && Trimmed(key.Name())
  {
  }

  lemma {:induction false} KeyOfName(text: string)
    ensures KeyOf(text).Some? ==> KeyOf(text).value.Name() == text
  {
  }

  lemma {:induction false} BlankHasNoColon(s: string)
    requires Blank(s)
    ensures NoColon(s)
  {
  }

  /** The text after any dash, taken apart at its colon. */
  lemma {:induction false} PartsOfText(l: Laid, opens: bool)
    requires GoodField(l, opens)
    ensures var x, y := l.gap + l.key.Name() + l.beforeColon, l.afterColon + l.value;
      Colon(x + ":" + y) == |x| && Strip(x) == l.key.Name() && Strip(y) == l.value
  {
    KeyNameFacts(l.key);
    BlankHasNoColon(l.gap);
    BlankHasNoColon(l.beforeColon);
    var x, y := l.gap + l.key.Name() + l.beforeColon, l.afterColon + l.value;
    ColonOf(x, y);
    StripOf(l.gap, l.key.Name(), l.beforeColon);
    NoBlockScalarIsGood(l.key, l.value);
    StripOf(l.afterColon, l.value, "");
    assert y + "" == y;
  }

  /** An allowlisted key and an allowed value around the first colon. */
  ghost predicate IsFieldText(text: string, key: Key, value: string) {
    var n := Colon(text);
    && n < |text| && KeyOf(Strip(text[..n])) == Some(key) && Strip(text[n + 1..]) == value
    && ValueProblem(key, value).None?
  }

  /** The text of a laid-out field, after any dash. */
  function TextOf(l: Laid): string {
    (l.gap + l.key.Name() + l.beforeColon) + ":" + (l.afterColon + l.value)
  }

  lemma {:induction false} TextIsFieldText(l: Laid, opens: bool)
    requires GoodField(l, opens)
    ensures IsFieldText(TextOf(l), l.key, l.value) && !IsBlockScalar(l.value)
  {
    hide ValueProblem;
    hide GoodValue;
    hide IsBlockScalar;
    PartsOfText(l, opens);
    var x, y := l.gap + l.key.Name() + l.beforeColon, l.afterColon + l.value;
    var t := TextOf(l);
    assert t[..|x|] == x && t[|x| + 1..] == y;
    KeyNameFacts(l.key);
    NoBlockScalarIsGood(l.key, l.value);
    ValueRulesDecide(l.key, l.value);
  }

  lemma {:induction false} RenderIsIndentedText(l: Laid, opens: bool)
    ensures RenderLine(l, opens) == l.indent + (if opens then "- " + TextOf(l) else TextOf(l))
  {
  }

  lemma {:induction false} LastCharacter(l: Laid, opens: bool, s: string)
    requires GoodField(l, opens) && |l.value| <= |s| && s[|s| - |l.value|..] == l.value
    ensures s != "" && !IsSpace(s[|s| - 1])
  {
    GoodValueIsPlain(l.key, l.value);
    assert s[|s| - 1] == l.value[|l.value| - 1];
  }

  lemma {:induction false} StrippedLine(l: Laid, opens: bool)
    requires GoodField(l, opens)
    ensures Strip(RenderLine(l, opens)) == if opens then "- " + TextOf(l) else TextOf(l)
    ensures !opens ==> Indented(RenderLine(l, opens)) && TextOf(l)[0] != '-'
  {
    var text := TextOf(l);
    var body := if opens then "- " + text else text;
    KeyNameFacts(l.key);
    assert body[|body| - |l.value|..] == l.value;
    LastCharacter(l, opens, body);
    assert !IsSpace(body[0]) by {
      if !opens { assert body[0] == l.key.Name()[0]; }
    }
    StripOf(l.indent, body, "");
    RenderIsIndentedText(l, opens);
    assert l.indent + body + "" == RenderLine(l, opens);
  }

  /** A line that opens an entry starts a new item with its one field. */
  lemma {:induction false} StepOpens(s: State, number: nat, l: Laid)
    requires s.Valid() && s.inList && GoodField(l, true)
    ensures Step(s, number, RenderLine(l, true))
      == Ok(s.(items := s.items + [map[l.key := l.value]], inEntry := true))
  {
    hide TextOf;
    hide ValueProblem;
    hide GoodValue;
    StrippedLine(l, true);
    TextIsFieldText(l, true);
    var text := TextOf(l);
    var begun := s.(items := s.items + [map[]], inEntry := true);
    assert ("- " + text)[2..] == text && "- " <= "- " + text && "-" <= "- " + text;
    var empty: Item := map[];
    assert begun.items[|s.items| := empty[l.key := l.value]] == s.items + [map[l.key := l.value]];
  }

  /** An indented line adds its field to the last item. */
  lemma {:induction false} StepContinues(s: State, number: nat, l: Laid)
    requires s.Valid() && s.inList && s.inEntry && GoodField(l, false)
    requires l.key !in s.items[|s.items| - 1]
    ensures Step(s, number, RenderLine(l, false))
      == Ok(s.(items := s.items[|s.items| - 1 := s.items[|s.items| - 1][l.key := l.value]]))
  {
    StrippedLine(l, false);
    TextIsFieldText(l, false);
    hide TextOf;
    hide RenderLine;
    hide GoodField;
    hide Strip;
    IndentedIsField(s, number, RenderLine(l, false));
    FieldReads(s, number, TextOf(l), l.key, l.value);
  }

  lemma {:induction false} FieldReads(s: State, number: nat, text: string, key: Key, value: string)
    requires s.items != [] && IsFieldText(text, key, value) && !IsBlockScalar(value)
    requires key !in s.items[|s.items| - 1]
    ensures Field(s, number, text)
      == Ok(s.(items := s.items[|s.items| - 1 := s.items[|s.items| - 1][key := value]]))
  {
    hide ValueProblem;
    hide KeyOf;
    hide Strip;
  }

  lemma {:induction false} IndentedIsField(s: State, number: nat, line: string)
    requires s.Valid() && s.inList && s.inEntry && Indented(line)
    requires Strip(line) != "" && Strip(line)[0] != '-'
    ensures Step(s, number, line) == Field(s, number, Strip(line))
  {
  }

  lemma {:induction false} HeaderStep(gap: string)
    requires Blank(gap)
    ensures Step(START, 1, RenderHeader(gap)) == Ok(StateOf([]))
  {
    var line := RenderHeader(gap);
    var key := "outs" + gap;
    StripOf("", line, "");
    assert "" + line + "" == line;
    BlankHasNoColon(gap);
    ColonOf(key, "");
    assert key + ":" + "" == line;
    assert line[..|key|] == key && line[|key| + 1..] == "";
    StripOf("", "outs", gap);
    assert "" + "outs" + gap == key;
    StripDecides("");
    assert line[0] == 'o';
  }

  lemma {:induction false} RunPrefix(a: seq<string>, b: seq<string>, n: nat)
    requires n <= |a| && n <= |b| && forall i :: 0 <= i < n ==> a[i] == b[i]
    ensures Run(a, n) == Run(b, n)
  {
    hide Step;
    if n > 0 {
      RunPrefix(a, b, n - 1);
    }
  }

  lemma {:induction false} RunSnoc(lines: seq<string>, line: string, s: State)
    requires Run(lines, |lines|) == Ok(s)
    ensures Run(lines + [line], |lines| + 1) == Step(s, |lines| + 1, line)
  {
    RunPrefix(lines, lines + [line], |lines|);
  }

  lemma {:induction false} FieldMapKeys(e: seq<Laid>, n: nat, k: Key)
    requires n <= |e|
    ensures k in FieldMap(e, n) <==> exists i :: 0 <= i < n && e[i].key == k
  {
    if n > 0 {
      FieldMapKeys(e, n - 1, k);
    }
  }

  lemma {:induction false} FieldMapValue(e: seq<Laid>, n: nat, i: nat)
    requires i < n <= |e| && forall a, b :: 0 <= a < b < |e| ==> e[a].key != e[b].key
    ensures e[i].key in FieldMap(e, n) && FieldMap(e, n)[e[i].key] == e[i].value
  {
    if i < n - 1 {
      FieldMapValue(e, n - 1, i);
    }
  }

  ghost predicate RunsTo(lines: seq<string>, s: State) {
    s.Valid() && Run(lines, |lines|) == Ok(s)
  }

  lemma {:induction false} RunOpens(lines: seq<string>, s: State, l: Laid)
    requires RunsTo(lines, s) && s.inList && GoodField(l, true)
    ensures RunsTo(lines + [RenderLine(l, true)], s.(items := s.items + [map[l.key := l.value]], inEntry := true))
  {
    hide Step;
    RunSnoc(lines, RenderLine(l, true), s);
    StepOpens(s, |lines| + 1, l);
  }

  lemma {:induction false} RunContinues(lines: seq<string>, s: State, items: seq<Item>, current: Item, l: Laid)
    requires RunsTo(lines, s) && s.inList && s.inEntry && s.items == items + [current]
    requires GoodField(l, false) && l.key !in current
    ensures RunsTo(lines + [RenderLine(l, false)], s.(items := items + [current[l.key := l.value]]))
  {
    hide Step;
    hide RenderLine;
    hide GoodField;
    hide Run;
    RunSnoc(lines, RenderLine(l, false), s);
    StepContinues(s, |lines| + 1, l);
    assert s.items[|items| := current[l.key := l.value]] == items + [current[l.key := l.value]];
  }

  /** The state once the first `n` fields of an entry have been read. */
  function Within(s: State, e: seq<Laid>, n: nat): State
    requires n <= |e|
  {
    s.(items := s.items + [FieldMap(e, n)], inEntry := true)
  }

  lemma {:induction false} RunEntryNext(before: seq<string>, s: State, e: seq<Laid>, n: nat)
    requires 1 < n <= |e| && s.inList && GoodField(e[n - 1], false) && e[n - 1].key !in FieldMap(e, n - 1)
    requires RunsTo(before + RenderEntry(e, n - 1), Within(s, e, n - 1))
    ensures RunsTo(before + RenderEntry(e, n), Within(s, e, n))
  {
    hide Step;
    EntrySnoc(before, e, n);
    RunContinues(before + RenderEntry(e, n - 1), Within(s, e, n - 1), s.items, FieldMap(e, n - 1), e[n - 1]);
  }

  /** Running over a rendered entry builds its dict, one field at a time. */
  lemma {:induction false} RunEntry(before: seq<string>, s: State, e: seq<Laid>, n: nat)
    requires RunsTo(before, s) && s.inList && GoodFields(e) && 0 < n <= |e|
    ensures RunsTo(before + RenderEntry(e, n), Within(s, e, n))
  {
    hide Step;
    if n == 1 {
      EntrySnoc(before, e, n);
      RunOpens(before, s, e[0]);
      assert before + RenderEntry(e, 0) == before;
    } else {
      RunEntry(before, s, e, n - 1);
      FieldMapKeys(e, n - 1, e[n - 1].key);
      RunEntryNext(before, s, e, n);
    }
  }

  lemma {:induction false} EntrySnoc(before: seq<string>, e: seq<Laid>, n: nat)
    requires 0 < n <= |e|
    ensures before + RenderEntry(e, n) == before + RenderEntry(e, n - 1) + [RenderLine(e[n - 1], n == 1)]
    ensures FieldMap(e, n) == FieldMap(e, n - 1)[e[n - 1].key := e[n - 1].value]
    ensures n == 1 ==> FieldMap(e, n) == map[e[0].key := e[0].value]
  {
  }

  lemma {:induction false} RenderSnoc(gap: string, entries: seq<Entry>, e: Entry)
    ensures Render(Pointer(gap, entries + [e])) == Render(Pointer(gap, entries)) + RenderEntry(e, |e|)
  {
    assert (entries + [e])[..|entries|] == entries;
  }

  lemma {:induction false} ItemsSnoc(entries: seq<Entry>, e: Entry)
    ensures Items(entries + [e]) == Items(entries) + [FieldMap(e, |e|)]
  {
    assert (entries + [e])[..|entries|] == entries;
  }

  lemma {:induction false} ItemsAt(entries: seq<Entry>, i: nat)
    requires i < |entries|
    ensures Items(entries)[i] == FieldMap(entries[i], |entries[i]|)
  {
    if i < |entries| - 1 {
      ItemsAt(entries[..|entries| - 1], i);
    }
  }

  ghost predicate GoodPointer(gap: string, entries: seq<Entry>) {
    Blank(gap) && forall i :: 0 <= i < |entries| ==> GoodFields(entries[i])
  }

  /** The parser reads every rendered pointer, in any layout, back to its entries. */
  lemma {:induction false} RunOfRender(gap: string, entries: seq<Entry>)
    requires GoodPointer(gap, entries)
    ensures RunsTo(Render(Pointer(gap, entries)), StateOf(entries))
  {
    hide Step;
    if entries == [] {
      HeaderStep(gap);
      assert Render(Pointer(gap, [])) == [RenderHeader(gap)];
      assert Run([RenderHeader(gap)], 0) == Ok(START);
    } else {
      var init, e := entries[..|entries| - 1], entries[|entries| - 1];
      hide GoodFields;
      hide Run;
      RunOfRender(gap, init);
      RunEntry(Render(Pointer(gap, init)), StateOf(init), e, |e|);
      RenderSnoc(gap, init, e);
      ItemsSnoc(init, e);
      assert init + [e] == entries;
    }
  }

  // ---------------------------------------------------------------------------------------------
  // Accepted lines are rendered pointers

  /** What `splitlines`, `strip` and `rstrip` leave: lines that end in something visible. */
  ghost predicate IsSignificant(line: string) {
    line != "" && !IsSpace(line[|line| - 1])
  }

  lemma {:induction false} SignificantLines(raw: seq<string>)
    ensures forall i :: 0 <= i < |Significant(raw)| ==> IsSignificant(Significant(raw)[i])
  {
    if raw != [] {
      SignificantLines(raw[1..]);
      if Strip(raw[0]) != "" {
        var post := RStripSplits(raw[0]);
      }
    }
  }

  lemma {:induction false} SignificantStrip(line: string) returns (indent: string)
    requires IsSignificant(line)
    ensures line == indent + Strip(line) && Blank(indent) && IsSignificant(Strip(line)) && !IsSpace(Strip(line)[0])
    ensures indent != "" <==> Indented(line)
  {
    assert RStrip(line) == line;
    indent := LStripSplits(line);
    ConcatEnds("", indent);
    assert "" + indent == indent;
    assert Strip(line) == "" ==> line == indent;
    ConcatEnds(indent, Strip(line));
  }

  lemma {:induction false} FieldAccepts(s: State, number: nat, text: string) returns (key: Key, value: string)
    requires s.items != [] && Field(s, number, text).Ok?
    ensures IsFieldText(text, key, value) && key !in s.items[|s.items| - 1]
  {
    hide ValueProblem;
    hide IsBlockScalar;
    var n := Colon(text);
    key, value := KeyOf(Strip(text[..n])).value, Strip(text[n + 1..]);
  }

  /** Taking an accepted `key: value` text apart recovers its layout. */
  lemma {:induction false} LayText(indent: string, text: string, opens: bool, key: Key, value: string) returns (l: Laid)
    requires Blank(indent) && IsSignificant(text) && (!opens ==> indent != "" && !IsSpace(text[0]))
    requires IsFieldText(text, key, value)
    ensures GoodField(l, opens) && l.indent == indent && l.key == key && l.value == value
    ensures text == TextOf(l)
  {
    hide Strip;
    hide KeyOf;
    hide ValueProblem;
    hide GoodField;
    hide TextOf;
    var n := Colon(text);
    var x, y := text[..n], text[n + 1..];
    assert text == x + ":" + y;
    assert y != "" ==> y[|y| - 1] == text[|text| - 1];
    l := LayParts(indent, x, y, opens, key, value);
  }

  /** What stands before the colon and what stands after it. */
  lemma {:induction false} LayParts(indent: string, x: string, y: string, opens: bool, key: Key, value: string)
    returns (l: Laid)
    requires Blank(indent) && (!opens ==> indent != "" && (x == "" || !IsSpace(x[0])))
    requires y == "" || !IsSpace(y[|y| - 1])
    requires KeyOf(Strip(x)) == Some(key) && Strip(y) == value && ValueProblem(key, value).None?
    ensures GoodField(l, opens) && l.indent == indent && l.key == key && l.value == value
    ensures TextOf(l) == x + ":" + y
  {
    hide ValueProblem;
    hide GoodValue;
    hide Strip;
    hide KeyOf;
    ValueRulesDecide(key, value);
    KeyNameFacts(key);
    KeyOfName(Strip(x));
    assert x != "" by {
      if x == "" { StripDecides(x); }
    }
    var gap, beforeColon := LayKey(x, opens);
    assert y != "" by {
      GoodValueIsPlain(key, value);
      if y == "" { StripDecides(y); }
    }
    var afterColon := LayValue(key, y);
    l := Laid(indent, gap, key, beforeColon, afterColon, value);
  }

  lemma {:induction false} LayKey(x: string, opens: bool) returns (gap: string, beforeColon: string)
    requires x != "" && (!opens ==> !IsSpace(x[0]))
    ensures x == gap + Strip(x) + beforeColon && Blank(gap) && Blank(beforeColon) && (!opens ==> gap == "")
  {
    gap, beforeColon := StripSplits(x);
    ConcatEnds(gap, Strip(x) + beforeColon);
    assert x == gap + (Strip(x) + beforeColon);
  }

  lemma {:induction false} LayValue(key: Key, y: string) returns (afterColon: string)
    requires y != "" && GoodValue(key, Strip(y)) && !IsSpace(y[|y| - 1])
    ensures y == afterColon + Strip(y) && Blank(afterColon)
  {
    var post;
    afterColon, post := StripSplits(y);
    ConcatEnds(afterColon + Strip(y), post);
  }

  lemma {:induction false} LayHeader(line: string) returns (gap: string)
    requires IsSignificant(line) && Step(START, 1, line).Ok?
    ensures Blank(gap) && line == RenderHeader(gap) && Step(START, 1, line) == Ok(StateOf([]))
  {
    hide Strip;
    hide RenderHeader;
    var indent := SignificantStrip(line);
    assert indent == "" && Strip(line) == line;
    gap := LayHeaderText(line);
  }

  lemma {:induction false} LayHeaderText(line: string) returns (gap: string)
    requires IsSignificant(line) && !IsSpace(line[0])
    requires var n := Colon(line); n < |line| && Strip(line[..n]) == "outs" && Strip(line[n + 1..]) == ""
    ensures Blank(gap) && line == RenderHeader(gap)
  {
    var n := Colon(line);
    var x, y := line[..n], line[n + 1..];
    assert line == x + ":" + y;
    var pre;
    pre, gap := StripSplits(x);
    ConcatEnds(pre, Strip(x) + gap + ":" + y);
    assert line == pre + (Strip(x) + gap + ":" + y);
    StripDecides(y);
    ConcatEnds(x + ":", y);
  }

  lemma {:induction false} LayOpening(s: State, number: nat, line: string) returns (l: Laid)
    requires s.Valid() && s.inList && s.seenOuts && IsSignificant(line)
    requires "- " <= Strip(line) && Step(s, number, line).Ok?
    ensures GoodField(l, true) && line == RenderLine(l, true)
  {
    var indent := SignificantStrip(line);
    InsideTheList(s, number, line);
    var text := AfterDash(Strip(line));
    var key, value := FieldAccepts(s.(items := s.items + [map[]], inEntry := true), number, text);
    l := LayText(indent, text, true, key, value);
    RenderIsIndentedText(l, true);
  }

  lemma {:induction false} LayContinuation(s: State, number: nat, line: string) returns (l: Laid)
    requires s.Valid() && s.inList && s.seenOuts && IsSignificant(line)
    requires !("- " <= Strip(line)) && Step(s, number, line).Ok?
    ensures GoodField(l, false) && line == RenderLine(l, false)
    ensures s.inEntry && l.key !in s.items[|s.items| - 1]
  {
    var indent := SignificantStrip(line);
    InsideTheList(s, number, line);
    var key, value := FieldAccepts(s, number, Strip(line));
    l := LayText(indent, Strip(line), false, key, value);
    RenderIsIndentedText(l, false);
  }

  lemma {:induction false} InsideTheList(s: State, number: nat, line: string)
    requires s.Valid() && s.inList && s.seenOuts && Step(s, number, line).Ok?
    ensures var stripped := Strip(line);
      if "- " <= stripped
      then Step(s, number, line) == Field(s.(items := s.items + [map[]], inEntry := true), number, stripped[2..])
      else Indented(line) && s.inEntry && Step(s, number, line) == Field(s, number, stripped)
  {
    var stripped := Strip(line);
    if "- " <= stripped {
      assert stripped[..1] == "-";
    }
  }

  lemma {:induction false} AfterDash(stripped: string) returns (text: string)
    requires IsSignificant(stripped) && "- " <= stripped
    ensures stripped == "- " + text && text == stripped[2..] && IsSignificant(text)
  {
    text := stripped[2..];
    assert stripped == "- " + text;
    assert stripped[1] == ' ';
    ConcatEnds("- ", text);
  }

  // ---------------------------------------------------------------------------------------------
  // The language

  lemma {:induction false} RenderEntryPrefix(a: seq<Laid>, b: seq<Laid>, n: nat)
    requires n <= |a| && n <= |b| && forall i :: 0 <= i < n ==> a[i] == b[i]
    ensures RenderEntry(a, n) == RenderEntry(b, n) && FieldMap(a, n) == FieldMap(b, n)
  {
    if n > 0 {
      RenderEntryPrefix(a, b, n - 1);
    }
  }

  /** Adding a field to the last entry adds one line and one key. */
  lemma {:induction false} ExtendLast(gap: string, init: seq<Entry>, e: Entry, l: Laid)
    ensures Render(Pointer(gap, init + [e + [l]])) == Render(Pointer(gap, init + [e])) + [RenderLine(l, false)]
    ensures Items(init + [e + [l]]) == Items(init) + [FieldMap(e, |e|)[l.key := l.value]]
  {
    hide RenderLine;
    var e' := e + [l];
    RenderEntryPrefix(e, e', |e|);
    RenderSnoc(gap, init, e);
    RenderSnoc(gap, init, e');
    ItemsSnoc(init, e');
    assert RenderEntry(e', |e'|) == RenderEntry(e, |e|) + [RenderLine(l, false)];
  }

  lemma {:induction false} GoodFieldsSnoc(e: Entry, l: Laid)
    requires GoodFields(e) && GoodField(l, false) && l.key !in FieldMap(e, |e|)
    ensures GoodFields(e + [l])
  {
    FieldMapKeys(e, |e|, l.key);
  }

  lemma {:induction false} RunSplits(lines: seq<string>, n: nat)
    requires 0 < n <= |lines| && Run(lines, n).Ok?
    ensures Run(lines, n - 1).Ok? && Run(lines, n) == Step(Run(lines, n - 1).value, n, lines[n - 1])
  {
    hide Step;
  }

  lemma {:induction false} AcceptFirst(lines: seq<string>) returns (gap: string)
    requires lines != [] && IsSignificant(lines[0]) && Run(lines, 1).Ok?
    ensures GoodPointer(gap, []) && Render(Pointer(gap, [])) == lines[..1] && Run(lines, 1) == Ok(StateOf([]))
  {
    RunSplits(lines, 1);
    assert Run(lines, 0) == Ok(START);
    gap := LayHeader(lines[0]);
    assert lines[..1] == [lines[0]];
  }

  lemma {:induction false} AppendOpening(gap: string, entries: seq<Entry>, l: Laid) returns (after: seq<Entry>)
    requires GoodPointer(gap, entries) && GoodField(l, true)
    ensures GoodPointer(gap, after)
    ensures Render(Pointer(gap, after)) == Render(Pointer(gap, entries)) + [RenderLine(l, true)]
    ensures StateOf(after) == StateOf(entries).(items := Items(entries) + [map[l.key := l.value]], inEntry := true)
  {
    var e: Entry := [l];
    after := entries + [e];
    RenderSnoc(gap, entries, e);
    ItemsSnoc(entries, e);
    EntrySnoc([], e, 1);
    assert RenderEntry(e, 1) == [RenderLine(l, true)];
  }

  lemma {:induction false} AppendContinuation(gap: string, init: seq<Entry>, e: Entry, l: Laid)
    requires GoodPointer(gap, init + [e]) && GoodField(l, false) && l.key !in FieldMap(e, |e|)
    ensures GoodPointer(gap, init + [e + [l]])
    ensures Render(Pointer(gap, init + [e + [l]])) == Render(Pointer(gap, init + [e])) + [RenderLine(l, false)]
    ensures Items(init + [e]) == Items(init) + [FieldMap(e, |e|)]
    ensures Items(init + [e + [l]]) == Items(init) + [FieldMap(e, |e|)[l.key := l.value]]
  {
    hide GoodFields;
    hide GoodField;
    assert GoodFields(e) by { assert (init + [e])[|init|] == e; }
    GoodFieldsSnoc(e, l);
    ExtendLast(gap, init, e, l);
    ItemsSnoc(init, e);
    forall i | 0 <= i < |init| ensures GoodFields(init[i]) {
      assert (init + [e])[i] == init[i];
    }
  }

  lemma {:induction false} AcceptOpening(line: string, number: nat, gap: string, entries: seq<Entry>)
      returns (after: seq<Entry>)
    requires GoodPointer(gap, entries) && IsSignificant(line)
    requires "- " <= Strip(line) && Step(StateOf(entries), number, line).Ok?
    ensures GoodPointer(gap, after) && Render(Pointer(gap, after)) == Render(Pointer(gap, entries)) + [line]
    ensures Step(StateOf(entries), number, line) == Ok(StateOf(after))
  {
    var l := LayOpening(StateOf(entries), number, line);
    StepOpens(StateOf(entries), number, l);
    after := AppendOpening(gap, entries, l);
  }

  lemma {:induction false} AcceptContinuation(line: string, number: nat, gap: string, init: seq<Entry>, e: Entry)
      returns (after: seq<Entry>)
    requires GoodPointer(gap, init + [e]) && IsSignificant(line)
    requires !("- " <= Strip(line)) && Step(StateOf(init + [e]), number, line).Ok?
    ensures GoodPointer(gap, after) && Render(Pointer(gap, after)) == Render(Pointer(gap, init + [e])) + [line]
    ensures Step(StateOf(init + [e]), number, line) == Ok(StateOf(after))
  {
    hide Step;
    hide GoodField;
    hide Render;
    hide RenderLine;
    hide Strip;
    hide GoodFields;
    var l := LayContinuation(StateOf(init + [e]), number, line);
    StepContinues(StateOf(init + [e]), number, l);
    ItemsSnoc(init, e);
    AppendContinuation(gap, init, e, l);
    after := init + [e + [l]];
    assert Items(init + [e])[|init| := FieldMap(e, |e|)[l.key := l.value]] == Items(after);
  }

  lemma {:induction false} OpensFirst(number: nat, line: string)
    requires IsSignificant(line) && Step(StateOf([]), number, line).Ok?
    ensures "- " <= Strip(line)
  {
    InsideTheList(StateOf([]), number, line);
  }

  lemma {:induction false} AcceptLast(lines: seq<string>, n: nat, gap: string, entries: seq<Entry>)
      returns (after: seq<Entry>)
    requires 0 < n <= |lines| && IsSignificant(lines[n - 1])
    requires GoodPointer(gap, entries) && Run(lines, n - 1) == Ok(StateOf(entries)) && Run(lines, n).Ok?
    ensures GoodPointer(gap, after) && Render(Pointer(gap, after)) == Render(Pointer(gap, entries)) + [lines[n - 1]]
    ensures Run(lines, n) == Ok(StateOf(after))
  {
    hide Step;
    var line := lines[n - 1];
    if "- " <= Strip(line) {
      after := AcceptOpening(line, n, gap, entries);
    } else {
      if entries == [] {
        OpensFirst(n, line);
        assert false;
      }
      var init, e := entries[..|entries| - 1], entries[|entries| - 1];
      assert entries == init + [e];
      after := AcceptContinuation(line, n, gap, init, e);
    }
  }

  /** Whatever the parser has accepted so far is a rendered pointer, with its entries as items. */
  lemma {:induction false} AcceptedIsRendered(lines: seq<string>, n: nat) returns (gap: string, entries: seq<Entry>)
    requires 0 < n <= |lines| && Run(lines, n).Ok?
    requires forall i :: 0 <= i < |lines| ==> IsSignificant(lines[i])
    ensures GoodPointer(gap, entries) && Render(Pointer(gap, entries)) == lines[..n]
    ensures Run(lines, n) == Ok(StateOf(entries))
  {
    hide Step;
    hide Run;
    hide GoodPointer;
    hide Render;
    hide StateOf;
    if n == 1 {
      gap := AcceptFirst(lines);
      entries := [];
    } else {
      RunSplits(lines, n);
      var init;
      gap, init := AcceptedIsRendered(lines, n - 1);
      entries := AcceptLast(lines, n, gap, init);
      assert lines[..n] == lines[..n - 1] + [lines[n - 1]];
    }
  }

  lemma {:induction false} FirstProblemDecides(items: seq<Item>, n: nat, stem: Option<string>)
    requires n <= |items|
    ensures FirstItemProblem(items, n, stem).None? <==> forall i :: 0 <= i < n ==> ItemProblem(items[i], stem).None?
  {
    if n > 0 {
      FirstProblemDecides(items, n - 1, stem);
    }
  }

  lemma {:induction false} CompleteDecides(e: seq<Laid>, stem: Option<string>)
    requires GoodFields(e)
    ensures ItemProblem(FieldMap(e, |e|), stem).None? <==> CompleteEntry(e, stem)
  {
    var m := FieldMap(e, |e|);
    forall k: Key ensures k in m <==> exists i :: 0 <= i < |e| && e[i].key == k {
      FieldMapKeys(e, |e|, k);
    }
    forall i | 0 <= i < |e| ensures e[i].key in m && m[e[i].key] == e[i].value {
      FieldMapValue(e, |e|, i);
    }
  }

  lemma {:induction false} EntriesDecide(entries: seq<Entry>, stem: Option<string>)
    requires forall i :: 0 <= i < |entries| ==> GoodFields(entries[i])
    ensures FirstItemProblem(Items(entries), |entries|, stem).None?
      <==> forall i :: 0 <= i < |entries| ==> CompleteEntry(entries[i], stem)
  {
    FirstProblemDecides(Items(entries), |entries|, stem);
    forall i | 0 <= i < |entries|
      ensures ItemProblem(Items(entries)[i], stem).None? <==> CompleteEntry(entries[i], stem)
    {
      ItemsAt(entries, i);
      CompleteDecides(entries[i], stem);
    }
  }

  /** The parser accepts exactly the texts whose significant lines some valid pointer renders to. */
  lemma {:induction false} AcceptsExactlyTheLanguage(text: string, stem: Option<string>)
    ensures LinesProblem(Lines(text), stem).None? <==> InLanguage(Lines(text), stem)
  {
    var lines := Lines(text);
    SignificantLines(SplitLines(text));
    if LinesProblem(lines, stem).None? {
      var gap, entries := AcceptedIsRendered(lines, |lines|);
      assert lines[..|lines|] == lines;
      EntriesDecide(entries, stem);
      assert ValidPointer(Pointer(gap, entries), stem);
    }
    if InLanguage(lines, stem) {
      var p :| ValidPointer(p, stem) && Render(p) == lines;
      ValidIsAccepted(p, stem);
    }
  }

  /** Every valid pointer, in any layout, is accepted and read back to its entries. */
  lemma {:induction false} ValidIsAccepted(p: Pointer, stem: Option<string>)
    requires ValidPointer(p, stem)
    ensures LinesProblem(Render(p), stem).None?
    ensures Run(Render(p), |Render(p)|) == Ok(StateOf(p.entries))
  {
    RunOfRender(p.headerGap, p.entries);
    assert Pointer(p.headerGap, p.entries) == p;
    EntriesDecide(p.entries, stem);
  }

  // ---------------------------------------------------------------------------------------------
  // Printing

  /** A pointer as a text, one line feed after each line. */
  function Print(p: Pointer): string {
    JoinLines(Render(p))
  }

  /** The entries the parser holds at the end of a text. */
  function Parsed(text: string): seq<Item> {
    var lines := Lines(text);
    match Run(lines, |lines|)
    case Err(_) => []
    case Ok(s) => s.items
  }

  /** A layout that stays on its lines. */
  ghost predicate OneLineLayout(l: Laid) {
    OneLine(l.indent) && OneLine(l.gap) && OneLine(l.beforeColon) && OneLine(l.afterColon)
  }

  ghost predicate OneLineEntry(e: seq<Laid>) {
    forall i :: 0 <= i < |e| ==> OneLineLayout(e[i])
  }

  /** A line that survives the splitting and the filtering of the text it is printed in. */
  ghost predicate Survives(line: string) {
    IsSignificant(line) && OneLine(line)
  }

  ghost predicate AllSurvive(lines: seq<string>) {
    forall i :: 0 <= i < |lines| ==> Survives(lines[i])
  }

  lemma {:induction false} OneLineConcat(a: string, b: string)
    requires OneLine(a) && OneLine(b)
    ensures OneLine(a + b)
  {
  }

  lemma {:induction false} TextOnOneLine(l: Laid)
    requires GoodValue(l.key, l.value) && OneLineLayout(l)
    ensures OneLine(TextOf(l))
  {
    hide OneLine;
    NameOnOneLine(l.key);
    ValueOnOneLine(l.key, l.value);
    OneLineConcat(l.gap, l.key.Name());
    OneLineConcat(l.gap + l.key.Name(), l.beforeColon);
    OneLineConcat(l.gap + l.key.Name() + l.beforeColon, ":");
    OneLineConcat(l.afterColon, l.value);
    OneLineConcat((l.gap + l.key.Name() + l.beforeColon) + ":", l.afterColon + l.value);
  }

  lemma {:induction false} NameOnOneLine(key: Key)
    ensures OneLine(key.Name()) && OneLine(":")
  {
  }

  lemma {:induction false} ValueOnOneLine(key: Key, value: string)
    requires GoodValue(key, value)
    ensures OneLine(value)
  {
    GoodValueIsPlain(key, value);
    forall i | 0 <= i < |value| ensures !IsBreak(value[i]) { assert value[i] as int >= 33; }
  }

  lemma {:induction false} LineSurvives(l: Laid, opens: bool)
    requires GoodField(l, opens) && OneLineLayout(l)
    ensures Survives(RenderLine(l, opens))
  {
    TextOnOneLine(l);
    OneLineConcat("- ", TextOf(l));
    var body := if opens then "- " + TextOf(l) else TextOf(l);
    OneLineConcat(l.indent, body);
    RenderIsIndentedText(l, opens);
    assert (l.indent + body)[|l.indent + body| - |l.value|..] == l.value;
    LastCharacter(l, opens, l.indent + body);
  }

  lemma {:induction false} EntrySurvives(e: seq<Laid>, n: nat)
    requires GoodFields(e) && OneLineEntry(e) && n <= |e|
    ensures AllSurvive(RenderEntry(e, n))
  {
    hide GoodField;
    hide Survives;
    hide RenderLine;
    if n > 0 {
      EntrySurvives(e, n - 1);
      assert GoodField(e[n - 1], n == 1);
      LineSurvives(e[n - 1], n == 1);
      SurviveSnoc(RenderEntry(e, n - 1), RenderLine(e[n - 1], n == 1));
    }
  }

  lemma {:induction false} SurviveSnoc(lines: seq<string>, line: string)
    requires AllSurvive(lines) && Survives(line)
    ensures AllSurvive(lines + [line])
  {
  }

  lemma {:induction false} EntriesSurvive(entries: seq<Entry>)
    requires forall i :: 0 <= i < |entries| ==> GoodFields(entries[i]) && OneLineEntry(entries[i])
    ensures AllSurvive(RenderEntries(entries))
  {
    if entries != [] {
      var e := entries[|entries| - 1];
      EntriesSurvive(entries[..|entries| - 1]);
      EntrySurvives(e, |e|);
    }
  }

  lemma {:induction false} SignificantKeepsAll(lines: seq<string>)
    requires forall i :: 0 <= i < |lines| ==> IsSignificant(lines[i])
    ensures Significant(lines) == lines
  {
    if lines != [] {
      SignificantKeepsAll(lines[1..]);
      var line := lines[0];
      assert RStrip(line) == line;
      assert Strip(line) != "" by { StripDecides(line); }
      assert lines == [line] + lines[1..];
    }
  }

  lemma {:induction false} HeaderSurvives(gap: string)
    requires OneLine(gap)
    ensures Survives(RenderHeader(gap))
  {
    OneLineConcat("outs", gap);
    OneLineConcat("outs" + gap, ":");
  }

  /** Printing any valid pointer gives a text that is accepted and parses back to the same entries. */
  lemma {:induction false} PrintThenParse(p: Pointer, stem: Option<string>)
    requires ValidPointer(p, stem) && OneLine(p.headerGap)
    requires forall i :: 0 <= i < |p.entries| ==> OneLineEntry(p.entries[i])
    ensures Lines(Print(p)) == Render(p)
    ensures LinesProblem(Lines(Print(p)), stem).None?
    ensures Parsed(Print(p)) == Items(p.entries)
  {
    EntriesSurvive(p.entries);
    var lines := Render(p);
    HeaderSurvives(p.headerGap);
    assert AllSurvive(lines);
    SplitOfJoin(lines);
    SignificantKeepsAll(lines);
    ValidIsAccepted(p, stem);
  }
}
