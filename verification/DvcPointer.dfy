/** The closed line parser for DVC pointer files. */
module DvcPointer {
  import opened Wrappers
  import opened Text

  /** The keys an entry may carry. */
  datatype Key = Md5 | Sha1 | Sha256 | Hash | Etag | Checksum | Path | Size | NFiles {
    /** The key as written. */
    function Name(): string {
      match this
      case Md5 => "md5"
      case Sha1 => "sha1"
      case Sha256 => "sha256"
      case Hash => "hash"
      case Etag => "etag"
      case Checksum => "checksum"
      case Path => "path"
      case Size => "size"
      case NFiles => "nfiles"
    }

    /** The digest widths the key allows: empty for the keys that carry no digest. */
    function Widths(): set<nat> {
      match this
      case Md5 => {32}
      case Sha1 => {40}
      case Sha256 => {64}
      case Etag => {32, 64}
      case Checksum => {32, 64}
      case _ => {}
    }

    /** Membership of CHECKSUM_WIDTHS. */
    predicate CarriesDigest() {
      Md5? || Sha1? || Sha256? || Etag? || Checksum?
    }
  }

  /** Membership of DVC_ENTRY_KEYS. */
  function KeyOf(text: string): Option<Key> {
    if text == "md5" then Some(Md5)
    else if text == "sha1" then Some(Sha1)
    else if text == "sha256" then Some(Sha256)
    else if text == "hash" then Some(Hash)
    else if text == "etag" then Some(Etag)
    else if text == "checksum" then Some(Checksum)
    else if text == "path" then Some(Path)
    else if text == "size" then Some(Size)
    else if text == "nfiles" then Some(NFiles)
    else None
  }

  const HASH_NAMES: set<string> := {"md5", "sha256", "sha1", "etag", "checksum"}
  const MAX_PATH := 255

  /** Why a value is refused. No case carries the value. */
  datatype ScalarProblem =
    | ControlCharacters(key: Key)
    | WrongWidth(key: Key, length: nat)
    | NotHexadecimal(key: Key)
    | NotAHashName(key: Key)
    | NotAnInteger(key: Key)
    | LeadingZero(key: Key)
    | IdentifierShape(key: Key)
    | PathTooLong(key: Key, length: nat)
    | NotAPath(key: Key)

  /** Why a file is refused: line numbers, allowlisted keys and lengths are all a case can carry. */
  datatype Problem =
    | EmptyFile
    | NotAMapping(line: nat)
    | UnknownTopLevelKey(line: nat)
    | DuplicateTopLevelKey(line: nat)
    | BlockScalarAtOuts
    | MustIntroduceList(line: nat)
    | UnexpectedContent(line: nat)
    | MalformedItem(line: nat)
    | NotAKey(line: nat)
    | UnknownEntryKey(line: nat)
    | DuplicateEntryKey(line: nat)
    | BlockScalar(key: Key)
    | BadValue(problem: ScalarProblem)
    | NoEntries
    | NoPath
    | NoChecksum
    | NamesAnotherFile

  /** Membership of BLOCK_SCALARS: a bar or an angle, alone or with a chomping sign. */
  predicate IsBlockScalar(value: string) {
    && value != "" && (value[0] == '|' || value[0] == '>')
    && (|value| == 1 || (|value| == 2 && (value[1] == '-' || value[1] == '+')))
  }

  // ---------------------------------------------------------------------------------------------
  // Values

  predicate IsHex(c: char) {
    '0' <= c <= '9' || 'a' <= c <= 'f' || 'A' <= c <= 'F'
  }

  predicate IsAlnum(c: char) {
    IsDigit(c) || 'a' <= c <= 'z' || 'A' <= c <= 'Z'
  }

  predicate AllOf(s: string, p: char -> bool) {
    forall i :: 0 <= i < |s| ==> p(s[i])
  }

  predicate EndsWith(s: string, suffix: string) {
    |suffix| <= |s| && s[|s| - |suffix|..] == suffix
  }

  function ChecksumProblem(key: Key, value: string): Option<ScalarProblem>
    requires key.CarriesDigest()
  {
    var body := if EndsWith(value, ".dir") then value[..|value| - 4] else value;
    if |body| !in key.Widths() then Some(WrongWidth(key, |body|))
    else if !AllOf(body, IsHex) then Some(NotHexadecimal(key))
    else None
  }

  /** INTEGER. */
  predicate IsInteger(s: string) {
    1 <= |s| <= 20 && AllOf(s, IsDigit)
  }

  /** MOBILE or AADHAAR. */
  predicate IsIdentifier(s: string) {
    (|s| == 10 && '6' <= s[0] <= '9' && AllOf(s, IsDigit)) || (|s| == 12 && AllOf(s, IsDigit))
  }

  predicate PathStart(c: char) {
    IsAlnum(c) || c == '.' || c == '_'
  }

  predicate PathPart(c: char) {
    PathStart(c) || c == '/' || c == '@' || c == '+' || c == '-'
  }

  /** PATHISH. */
  predicate IsPath(s: string) {
    s != "" && PathStart(s[0]) && AllOf(s, PathPart)
  }

  /** `_scalar_problem`. */
  function ValueProblem(key: Key, value: string): Option<ScalarProblem> {
    if exists i :: 0 <= i < |value| && (value[i] as int) < 32 then Some(ControlCharacters(key))
    else match key
      case Hash => if value in HASH_NAMES then None else Some(NotAHashName(key))
      case Path =>
        if |value| > MAX_PATH then Some(PathTooLong(key, |value|))
        else if IsPath(value) then None
        else Some(NotAPath(key))
      case Size => CountProblem(key, value)
      case NFiles => CountProblem(key, value)
      case _ => ChecksumProblem(key, value)
  }

  function CountProblem(key: Key, value: string): Option<ScalarProblem> {
    if !IsInteger(value) then Some(NotAnInteger(key))
    else if |value| > 1 && value[0] == '0' then Some(LeadingZero(key))
    else if IsIdentifier(value) then Some(IdentifierShape(key))
    else None
  }

  // ---------------------------------------------------------------------------------------------
  // The line machine

  type Item = map<Key, string>

  /** The parser's variables. `inEntry` says that `current` is the last item. */
  datatype State = State(items: seq<Item>, inEntry: bool, inList: bool, seenOuts: bool) {
    ghost predicate Valid() {
      inEntry ==> items != []
    }
  }

  const START := State([], false, false, false)

  /** A line at column zero that does not open an item. */
  function TopLevel(s: State, number: nat, stripped: string): Result<State, Problem> {
    var n := Colon(stripped);
    if n == |stripped| then Err(NotAMapping(number))
    else
      var key, value := Strip(stripped[..n]), Strip(stripped[n + 1..]);
      if key != "outs" then Err(UnknownTopLevelKey(number))
      else if s.seenOuts then Err(DuplicateTopLevelKey(number))
      else if IsBlockScalar(value) then Err(BlockScalarAtOuts)
      else if value != "" then Err(MustIntroduceList(number))
      else Ok(State(s.items, false, true, true))
  }

  /** `key: value` inside the current entry. */
  function Field(s: State, number: nat, text: string): Result<State, Problem>
    requires s.items != []
  {
    var n := Colon(text);
    if n == |text| then Err(NotAKey(number))
    else
      var named, value := KeyOf(Strip(text[..n])), Strip(text[n + 1..]);
      var current := s.items[|s.items| - 1];
      if named.None? then Err(UnknownEntryKey(number))
      else
        var key := named.value;
        if key in current then Err(DuplicateEntryKey(number))
        else if IsBlockScalar(value) then Err(BlockScalar(key))
        else match ValueProblem(key, value)
          case Some(p) => Err(BadValue(p))
          case None => Ok(s.(items := s.items[|s.items| - 1 := current[key := value]]))
  }

  predicate Indented(line: string) {
    line != "" && IsSpace(line[0])
  }

  /** One turn of the loop. */
  function Step(s: State, number: nat, line: string): (r: Result<State, Problem>)
    requires s.Valid()
    ensures r.Ok? ==> r.value.Valid()
  {
    var stripped := Strip(line);
    if !Indented(line) && !("-" <= stripped) then TopLevel(s, number, stripped)
    else if !s.inList then Err(UnexpectedContent(number))
    else if "- " <= stripped then Field(s.(items := s.items + [map[]], inEntry := true), number, stripped[2..])
    else if "-" <= stripped then Err(MalformedItem(number))
    else if !s.inEntry then Err(UnexpectedContent(number))
    else Field(s, number, stripped)
  }

  function Run(lines: seq<string>, n: nat): (r: Result<State, Problem>)
    requires n <= |lines|
    ensures r.Ok? ==> r.value.Valid()
  {
    if n == 0 then Ok(START)
    else match Run(lines, n - 1)
      case Err(p) => Err(p)
      case Ok(s) => Step(s, n, lines[n - 1])
  }

  /** `set(CHECKSUM_WIDTHS) & set(item)`. */
  predicate HasDigest(item: Item) {
    exists k :: k in item && k.CarriesDigest()
  }

  /** What is missing from one parsed entry. */
  function ItemProblem(item: Item, stem: Option<string>): Option<Problem> {
    if Path !in item then Some(NoPath)
    else if !HasDigest(item) then Some(NoChecksum)
    else if stem.Some? && item[Path] != stem.value then Some(NamesAnotherFile)
    else None
  }

  function FirstItemProblem(items: seq<Item>, n: nat, stem: Option<string>): Option<Problem>
    requires n <= |items|
  {
    if n == 0 then None
    else
      var before := FirstItemProblem(items, n - 1, stem);
      if before.Some? then before else ItemProblem(items[n - 1], stem)
  }

  /** `[line.rstrip() for line in raw if line.strip()]`. */
  function Significant(raw: seq<string>): seq<string> {
    if raw == [] then []
    else (if Strip(raw[0]) != "" then [RStrip(raw[0])] else []) + Significant(raw[1..])
  }

  function Lines(text: string): seq<string> {
    Significant(SplitLines(text))
  }

  /** The verdict on the significant lines. */
  function LinesProblem(lines: seq<string>, stem: Option<string>): Option<Problem> {
    if lines == [] then Some(EmptyFile)
    else match Run(lines, |lines|)
      case Err(p) => Some(p)
      case Ok(s) => if s.items == [] then Some(NoEntries) else FirstItemProblem(s.items, |s.items|, stem)
  }

  /** The loop body: a refusal, or the variables after the line. */
  method ReadLine(s: State, number: nat, line: string) returns (problem: Option<Problem>, r: State)
    requires s.Valid()
    ensures Step(s, number, line) == if problem.Some? then Err(problem.value) else Ok(r)
  {
    r := s;
    var stripped := Strip(line);
    if !Indented(line) && !("-" <= stripped) {
      var n := Colon(stripped);
      if n == |stripped| { return Some(NotAMapping(number)), r; }
      var key, value := Strip(stripped[..n]), Strip(stripped[n + 1..]);
      if key != "outs" { return Some(UnknownTopLevelKey(number)), r; }
      if r.seenOuts { return Some(DuplicateTopLevelKey(number)), r; }
      r := r.(seenOuts := true);
      if IsBlockScalar(value) { return Some(BlockScalarAtOuts), r; }
      if value != "" { return Some(MustIntroduceList(number)), r; }
      r := r.(inList := true, inEntry := false);
      return None, r;
    }
    if !r.inList { return Some(UnexpectedContent(number)), r; }
    if "- " <= stripped {
      r := r.(items := r.items + [map[]], inEntry := true);
      stripped := stripped[2..];
    } else if "-" <= stripped {
      return Some(MalformedItem(number)), r;
    }
    if !r.inEntry { return Some(UnexpectedContent(number)), r; }
    problem, r := ReadField(r, number, stripped);
  }

  method ReadField(s: State, number: nat, text: string) returns (problem: Option<Problem>, r: State)
    requires s.items != []
    ensures Field(s, number, text) == if problem.Some? then Err(problem.value) else Ok(r)
  {
    r := s;
    var n := Colon(text);
    if n == |text| { return Some(NotAKey(number)), r; }
    var named, value := KeyOf(Strip(text[..n])), Strip(text[n + 1..]);
    var last := |r.items| - 1;
    if named.None? { return Some(UnknownEntryKey(number)), r; }
    var key := named.value;
    if key in r.items[last] { return Some(DuplicateEntryKey(number)), r; }
    if IsBlockScalar(value) { return Some(BlockScalar(key)), r; }
    var p := ValueProblem(key, value);
    if p.Some? { return Some(BadValue(p.value)), r; }
    r := r.(items := r.items[last := r.items[last][key := value]]);
    return None, r;
  }

  /** The closing loop over the parsed entries. */
  method CheckItems(items: seq<Item>, stem: Option<string>) returns (problem: Option<Problem>)
    ensures problem == FirstItemProblem(items, |items|, stem)
  {
    for i := 0 to |items|
      invariant FirstItemProblem(items, i, stem) == None
    {
      var item := items[i];
      problem := None;
      if Path !in item {
        problem := Some(NoPath);
      } else if !HasDigest(item) {
        problem := Some(NoChecksum);
      } else if stem.Some? && item[Path] != stem.value {
        problem := Some(NamesAnotherFile);
      }
      if problem.Some? {
        FirstProblemSticks(items, i + 1, |items|, stem);
        return;
      }
    }
    return None;
  }

  /** `dvc_pointer_problem`. */
  method DvcPointerProblem(text: string, stem: Option<string>) returns (problem: Option<Problem>)
    ensures problem == LinesProblem(Lines(text), stem)
  {
    var lines := Lines(text);
    if lines == [] {
      return Some(EmptyFile);
    }
    var s := START;
    for index := 0 to |lines|
      invariant s.Valid() && Run(lines, index) == Ok(s)
    {
      var p, next := ReadLine(s, index + 1, lines[index]);
      if p.Some? {
        ErrorSticks(lines, index + 1, |lines|);
        return p;
      }
      s := next;
    }
    if s.items == [] {
      return Some(NoEntries);
    }
    problem := CheckItems(s.items, stem);
  }

  lemma {:induction false} ErrorSticks(lines: seq<string>, n: nat, m: nat)
    requires n <= m <= |lines| && Run(lines, n).Err?
    ensures Run(lines, m) == Run(lines, n)
    decreases m
  {
    hide Step;
    if n < m {
      ErrorSticks(lines, n, m - 1);
    }
  }

  lemma {:induction false} FirstProblemSticks(items: seq<Item>, n: nat, m: nat, stem: Option<string>)
    requires n <= m <= |items| && FirstItemProblem(items, n, stem).Some?
    ensures FirstItemProblem(items, m, stem) == FirstItemProblem(items, n, stem)
    decreases m
  {
    if n < m {
      FirstProblemSticks(items, n, m - 1, stem);
    }
  }
}
