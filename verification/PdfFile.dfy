/**
 * The shape of a PDF file (ISO 32000-1, section 7.5): numbered objects, the cross-reference table over their byte
 * offsets, the trailer; and a reader that starts from the end of the file, as section 7.5.5 prescribes. Bytes are
 * characters below 256.
 */
module PdfFile {
  import opened Wrappers
  import opened Text

  // ---------------------------------------------------------------------------------------------
  // Decimal numbers

  function ValueOf(s: string): nat
    requires AllDigits(s)
  {
    if s == "" then 0 else 10 * ValueOf(s[..|s| - 1]) + (s[|s| - 1] as int - '0' as int)
  }

  lemma {:induction false} DecimalValue(n: nat)
    ensures ValueOf(Decimal(n)) == n
  {
    if n >= 10 {
      DecimalValue(n / 10);
      assert Decimal(n)[..|Decimal(n)| - 1] == Decimal(n / 10);
    }
  }

  function Zeros(k: nat): (s: string)
    ensures |s| == k && AllDigits(s)
  {
    if k == 0 then "" else "0" + Zeros(k - 1)
  }

  /** `{n:010d}`: at least ten digits. */
  function Padded(n: nat): (s: string)
    ensures AllDigits(s) && |s| >= 10
  {
    var d := Decimal(n);
    if |d| < 10 then Zeros(10 - |d|) + d else d
  }

  lemma {:induction false} ZerosValue(k: nat)
    ensures ValueOf(Zeros(k)) == 0
  {
    if k > 0 {
      ZerosValue(k - 1);
      ZerosEnd(k);
    }
  }

  lemma {:induction false} ZerosEnd(k: nat)
    requires k > 0
    ensures Zeros(k)[..k - 1] == Zeros(k - 1) && Zeros(k)[k - 1] == '0'
  {
    if k > 1 {
      ZerosEnd(k - 1);
      assert Zeros(k)[..k - 1] == "0" + Zeros(k - 1)[..k - 2];
    }
  }

  lemma {:induction false} LeadingZeros(k: nat, d: string)
    requires AllDigits(d)
    ensures ValueOf(Zeros(k) + d) == ValueOf(d)
  {
    if d == "" {
      assert Zeros(k) + d == Zeros(k);
      ZerosValue(k);
    } else {
      LeadingZeros(k, d[..|d| - 1]);
      assert (Zeros(k) + d)[..k + |d| - 1] == Zeros(k) + d[..|d| - 1];
    }
  }

  lemma {:induction false} PaddedValue(n: nat)
    ensures ValueOf(Padded(n)) == n
  {
    DecimalValue(n);
    LeadingZeros(if |Decimal(n)| < 10 then 10 - |Decimal(n)| else 0, Decimal(n));
  }

  lemma {:induction false} DecimalLength(n: nat, k: nat, bound: nat)
    requires k > 0 && n < bound && bound == Power10(k)
    ensures |Decimal(n)| <= k
  {
    if n >= 10 {
      assert k > 1;
      assert n / 10 < Power10(k - 1);
      DecimalLength(n / 10, k - 1, Power10(k - 1));
    }
  }

  function Power10(k: nat): nat {
    if k == 0 then 1 else 10 * Power10(k - 1)
  }

  /** Ten bytes exactly, while the number has no more than ten digits. */
  lemma {:induction false} PaddedLength(n: nat)
    requires n < 10_000_000_000
    ensures |Padded(n)| == 10
  {
    assert Power10(10) == 10_000_000_000 by {
      assert Power10(2) == 100 && Power10(4) == 10_000 && Power10(6) == 1_000_000 && Power10(8) == 100_000_000;
    }
    DecimalLength(n, 10, 10_000_000_000);
  }

  // ---------------------------------------------------------------------------------------------
  // Writing

  /** One indirect object. */
  function Object(number: nat, body: string): string {
    Decimal(number) + " 0 obj\n" + body + "\nendobj\n"
  }

  /** The file header and the first `n` objects. */
  function Body(header: string, objects: seq<string>, n: nat): string
    requires n <= |objects|
  {
    if n == 0 then header else Body(header, objects, n - 1) + Object(n, objects[n - 1])
  }

  /** Where object `number` starts. */
  function Offset(header: string, objects: seq<string>, number: nat): nat
    requires 1 <= number <= |objects|
  {
    |Body(header, objects, number - 1)|
  }

  const FREE_ENTRY := "0000000000 65535 f \n"

  function Entry(offset: nat): string {
    Padded(offset) + " 00000 n \n"
  }

  /** The free entry and the entries of the first `n` objects. */
  function Entries(header: string, objects: seq<string>, n: nat): string
    requires n <= |objects|
  {
    if n == 0 then FREE_ENTRY else Entries(header, objects, n - 1) + Entry(Offset(header, objects, n))
  }

  function XrefHeading(size: nat): string {
    "xref\n0 " + Decimal(size) + "\n"
  }

  function Trailer(size: nat, xref: nat): string {
    "trailer\n<< /Size " + Decimal(size) + " /Root 1 0 R >>\n" + StartXref(xref)
  }

  function StartXref(xref: nat): string {
    "startxref\n" + Decimal(xref) + "\n%%EOF\n"
  }

  function File(header: string, objects: seq<string>): string {
    var n := |objects|;
    var body := Body(header, objects, n);
    body + XrefHeading(n + 1) + Entries(header, objects, n) + Trailer(n + 1, |body|)
  }

  /** The writer: objects appended one by one, their offsets noted, then the table over those offsets. */
  method Write(header: string, objects: seq<string>) returns (payload: string)
    ensures payload == File(header, objects)
  {
    hide Decimal;
    hide Padded;
    payload := header;
    var offsets: seq<nat> := [0];
    for index := 0 to |objects|
      invariant payload == Body(header, objects, index)
      invariant |offsets| == index + 1
      invariant forall k :: 1 <= k <= index ==> offsets[k] == Offset(header, objects, k)
    {
      offsets := offsets + [|payload|];
      payload := payload + Object(index + 1, objects[index]);
    }
    var xrefOffset := |payload|;
    ghost var front := payload + XrefHeading(|objects| + 1);
    payload := payload + XrefHeading(|objects| + 1);
    payload := payload + FREE_ENTRY;
    for k := 1 to |offsets|
      invariant payload == front + Entries(header, objects, k - 1)
    {
      Associate(front, Entries(header, objects, k - 1), Entry(offsets[k]));
      payload := payload + Entry(offsets[k]);
    }
    payload := payload + Trailer(|objects| + 1, xrefOffset);
  }

  // ---------------------------------------------------------------------------------------------
  // Reading

  /** What is left of `s` after `p`. */
  function After(p: string, s: string): Option<string> {
    if p <= s then Some(s[|p|..]) else None
  }

  /** How many digits `s` starts with. */
  function LeadingDigits(s: string): (n: nat)
    ensures n <= |s| && AllDigits(s[..n])
  {
    if s == "" || !IsDigit(s[0]) then 0
    else
      var n := 1 + LeadingDigits(s[1..]);
      assert s[..n] == [s[0]] + s[1..][..n - 1];
      n
  }

  /** A decimal number and what follows it. */
  function ReadNumber(s: string): Option<(nat, string)> {
    var n := LeadingDigits(s);
    if n == 0 then None else Some((ValueOf(s[..n]), s[n..]))
  }

  /** Where the digits that end `s` start. */
  function DigitsStart(s: string): (n: nat)
    ensures n <= |s| && AllDigits(s[n..])
  {
    if s == "" || !IsDigit(s[|s| - 1]) then |s|
    else
      var n := DigitsStart(s[..|s| - 1]);
      assert s[n..] == s[..|s| - 1][n..] + [s[|s| - 1]];
      n
  }

  predicate EndsWith(s: string, suffix: string) {
    |suffix| <= |s| && s[|s| - |suffix|..] == suffix
  }

  /** The number between `startxref` and `%%EOF` on the last lines of a file. */
  function ReadStart(file: string): Option<nat> {
    if !EndsWith(file, "\n%%EOF\n") then None
    else
      var head := file[..|file| - 7];
      var n := DigitsStart(head);
      if n < |head| && EndsWith(head[..n], "startxref\n") then Some(ValueOf(head[n..])) else None
  }

  /** The rows of the table at `xref`: how many entries it declares, and the bytes from the first entry on. */
  function ReadTable(file: string, xref: nat): Option<(nat, string)> {
    if xref > |file| then None
    else
      match After("xref\n0 ", file[xref..])
      case None => None
      case Some(rest) =>
        match ReadNumber(rest)
        case None => None
        case Some((size, more)) => if "\n" <= more then Some((size, more[1..])) else None
  }

  /** The offset in entry `number` of a table of twenty-byte entries. */
  function ReadEntry(rows: string, number: nat): Option<nat> {
    if 20 * number + 20 > |rows| then None
    else
      var entry := rows[20 * number..20 * number + 20];
      if AllDigits(entry[..10]) && entry[10..] == " 00000 n \n" then Some(ValueOf(entry[..10])) else None
  }

  /** The bytes of object `number` on, found from the end of the file. */
  function Locate(file: string, number: nat): Option<string> {
    match ReadStart(file)
    case None => None
    case Some(xref) =>
      match ReadTable(file, xref)
      case None => None
      case Some((size, rows)) =>
        if number >= size then None
        else
          match ReadEntry(rows, number)
          case None => None
          case Some(offset) => if offset > |file| then None else After(Decimal(number) + " 0 obj\n", file[offset..])
  }

  /** The bytes of the stream object that starts here: as many as its dictionary says. */
  function ReadStream(s: string): Option<string> {
    match After("<< /Length ", s)
    case None => None
    case Some(rest) =>
      match ReadNumber(rest)
      case None => None
      case Some((length, more)) =>
        match After(" >>\nstream\n", more)
        case None => None
        case Some(data) => if length <= |data| && "endstream" <= data[length..] then Some(data[..length]) else None
  }

  // ---------------------------------------------------------------------------------------------
  // The reader finds what the writer wrote

  lemma {:induction false} AfterPrefix(p: string, rest: string)
    ensures After(p, p + rest) == Some(rest)
  {
    assert (p + rest)[|p|..] == rest;
  }

  lemma {:induction false} LeadingOf(d: string, rest: string)
    requires AllDigits(d) && (rest == "" || !IsDigit(rest[0]))
    ensures LeadingDigits(d + rest) == |d|
  {
    if d == "" {
      assert d + rest == rest;
    } else {
      LeadingOf(d[1..], rest);
      assert (d + rest)[1..] == d[1..] + rest;
    }
  }

  lemma {:induction false} NumberOf(n: nat, rest: string)
    requires rest == "" || !IsDigit(rest[0])
    ensures ReadNumber(Decimal(n) + rest) == Some((n, rest))
  {
    var d := Decimal(n);
    LeadingOf(d, rest);
    DecimalValue(n);
    assert (d + rest)[..|d|] == d && (d + rest)[|d|..] == rest;
  }

  lemma {:induction false} TrailingOf(front: string, d: string)
    requires AllDigits(d) && front != "" && !IsDigit(front[|front| - 1])
    ensures DigitsStart(front + d) == |front|
  {
    if d == "" {
      assert front + d == front;
    } else {
      TrailingOf(front, d[..|d| - 1]);
      assert (front + d)[..|front + d| - 1] == front + d[..|d| - 1];
    }
  }

  lemma {:induction false} EndsWithSuffix(front: string, suffix: string)
    ensures EndsWith(front + suffix, suffix)
    ensures (front + suffix)[..|front|] == front
  {
  }

  /** The last lines lead back to the number written there. */
  lemma {:induction false} StartOf(front: string, xref: nat)
    ensures ReadStart(front + StartXref(xref)) == Some(xref)
  {
    var s, d := "startxref\n", Decimal(xref);
    var head := front + s + d;
    assert front + StartXref(xref) == head + "\n%%EOF\n";
    EndsWithSuffix(head, "\n%%EOF\n");
    TrailingOf(front + s, d);
    EndsWithSuffix(front, s);
    assert head[..|front + s|] == front + s && head[|front + s|..] == d;
    DecimalValue(xref);
  }

  lemma {:induction false} TableOf(front: string, size: nat, rows: string)
    ensures ReadTable(front + XrefHeading(size) + rows, |front|) == Some((size, rows))
  {
    var file := front + XrefHeading(size) + rows;
    var rest := Decimal(size) + ("\n" + rows);
    assert file[|front|..] == "xref\n0 " + rest;
    AfterPrefix("xref\n0 ", rest);
    NumberOf(size, "\n" + rows);
    assert ("\n" + rows)[1..] == rows;
  }

  /** No offset needs more than ten digits, which is what keeps every entry at twenty bytes. */
  ghost predicate ShortOffsets(header: string, objects: seq<string>) {
    forall k :: 1 <= k <= |objects| ==> Offset(header, objects, k) < 10_000_000_000
  }

  lemma {:induction false} EntryLength(offset: nat)
    requires offset < 10_000_000_000
    ensures |Entry(offset)| == 20
  {
    PaddedLength(offset);
  }

  lemma {:induction false} EntriesLength(header: string, objects: seq<string>, n: nat)
    requires n <= |objects| && ShortOffsets(header, objects)
    ensures |Entries(header, objects, n)| == 20 * (n + 1)
  {
    if n > 0 {
      EntriesLength(header, objects, n - 1);
      EntryLength(Offset(header, objects, n));
    }
  }

  lemma {:induction false} SliceOfFront(a: string, b: string, i: nat, j: nat)
    requires i <= j <= |a|
    ensures (a + b)[i..j] == a[i..j]
  {
  }

  /** Entry `k` occupies bytes 20k to 20k + 20 of the table. */
  lemma {:induction false} EntryAt(header: string, objects: seq<string>, n: nat, k: nat, rest: string)
    requires 1 <= k <= n <= |objects| && ShortOffsets(header, objects)
    ensures var rows := Entries(header, objects, n) + rest;
      |rows| >= 20 * k + 20 && rows[20 * k..20 * k + 20] == Entry(Offset(header, objects, k))
  {
    var rows := Entries(header, objects, n);
    EntriesLength(header, objects, n);
    EntriesLength(header, objects, n - 1);
    SliceOfFront(rows, rest, 20 * k, 20 * k + 20);
    if k < n {
      EntryAt(header, objects, n - 1, k, Entry(Offset(header, objects, n)));
    } else {
      assert rows[20 * k..20 * k + 20] == rows[|Entries(header, objects, n - 1)|..];
    }
  }

  lemma {:induction false} EntryOffset(rows: string, k: nat, offset: nat)
    requires |rows| >= 20 * k + 20 && rows[20 * k..20 * k + 20] == Entry(offset) && offset < 10_000_000_000
    ensures ReadEntry(rows, k) == Some(offset)
  {
    PaddedLength(offset);
    PaddedValue(offset);
    assert Entry(offset)[..10] == Padded(offset) && Entry(offset)[10..] == " 00000 n \n";
  }

  /** Object `k` starts at its offset. */
  lemma {:induction false} ObjectAt(header: string, objects: seq<string>, n: nat, k: nat, tail: string)
      returns (rest: string)
    requires 1 <= k <= n <= |objects|
    ensures Offset(header, objects, k) <= |Body(header, objects, n) + tail|
    ensures (Body(header, objects, n) + tail)[Offset(header, objects, k)..] == Object(k, objects[k - 1]) + rest
  {
    var last := Object(n, objects[n - 1]);
    assert Body(header, objects, n) + tail == Body(header, objects, n - 1) + (last + tail);
    if k < n {
      rest := ObjectAt(header, objects, n - 1, k, last + tail);
    } else {
      rest := tail;
    }
  }

  /** The parts of a file, around its table. */
  lemma {:induction false} FileParts(header: string, objects: seq<string>)
      returns (body: string, rows: string, front: string)
    ensures body == Body(header, objects, |objects|)
    ensures File(header, objects) == body + XrefHeading(|objects| + 1) + rows
    ensures File(header, objects) == front + StartXref(|body|)
    ensures rows == Entries(header, objects, |objects|) + Trailer(|objects| + 1, |body|)
  {
    hide Body;
    hide Entries;
    hide XrefHeading;
    hide StartXref;
    hide Decimal;
    var n := |objects|;
    body := Body(header, objects, n);
    var entries := Entries(header, objects, n);
    rows := entries + Trailer(n + 1, |body|);
    var size := "trailer\n<< /Size " + Decimal(n + 1) + " /Root 1 0 R >>\n";
    front := body + XrefHeading(n + 1) + entries + size;
    Regroup(body + XrefHeading(n + 1), entries, size, StartXref(|body|));
  }

  lemma {:induction false} Associate(a: string, b: string, c: string)
    ensures a + b + c == a + (b + c)
  {
  }

  lemma {:induction false} Regroup(a: string, b: string, c: string, d: string)
    ensures a + b + (c + d) == (a + b + c) + d
    ensures a + b + c + d == a + (b + c + d)
  {
  }

  ghost predicate Lists(rows: string, header: string, objects: seq<string>) {
    forall k :: 1 <= k <= |objects| ==> ReadEntry(rows, k) == Some(Offset(header, objects, k))
  }

  /** The end of the file leads to the table, and the table to each offset. */
  lemma {:induction false} TableReached(header: string, objects: seq<string>) returns (rows: string)
    requires ShortOffsets(header, objects)
    ensures ReadStart(File(header, objects)) == Some(|Body(header, objects, |objects|)|)
    ensures ReadTable(File(header, objects), |Body(header, objects, |objects|)|) == Some((|objects| + 1, rows))
    ensures Lists(rows, header, objects)
  {
    var n := |objects|;
    var body: string, front: string;
    body, rows, front := FileParts(header, objects);
    StartOf(front, |body|);
    TableOf(body, n + 1, rows);
    forall k | 1 <= k <= n ensures ReadEntry(rows, k) == Some(Offset(header, objects, k)) {
      EntryAt(header, objects, n, k, Trailer(n + 1, |body|));
      EntryOffset(rows, k, Offset(header, objects, k));
    }
  }

  lemma {:induction false} ObjectReached(header: string, objects: seq<string>, k: nat) returns (rest: string)
    requires 1 <= k <= |objects|
    ensures Offset(header, objects, k) <= |File(header, objects)|
    ensures After(Decimal(k) + " 0 obj\n", File(header, objects)[Offset(header, objects, k)..])
      == Some(objects[k - 1] + "\nendobj\n" + rest)
  {
    var n := |objects|;
    var body, rows, front := FileParts(header, objects);
    Associate(body, XrefHeading(n + 1), rows);
    rest := ObjectAt(header, objects, n, k, XrefHeading(n + 1) + rows);
    var here := Decimal(k) + " 0 obj\n";
    Regroup(here, objects[k - 1], "\nendobj\n", rest);
    AfterPrefix(here, objects[k - 1] + "\nendobj\n" + rest);
  }

  /** Reading from the end of the file finds every object at the byte its entry names. */
  lemma {:induction false} Located(header: string, objects: seq<string>, k: nat) returns (rest: string)
    requires 1 <= k <= |objects| && ShortOffsets(header, objects)
    ensures Locate(File(header, objects), k) == Some(objects[k - 1] + "\nendobj\n" + rest)
  {
    hide File;
    hide Body;
    hide ReadTable;
    hide ReadStart;
    hide ReadEntry;
    hide Decimal;
    hide Locate;
    hide ShortOffsets;
    hide Entries;
    var rows := TableReached(header, objects);
    rest := ObjectReached(header, objects, k);
    ByParts(File(header, objects), |Body(header, objects, |objects|)|, rows, |objects|, k, Offset(header, objects, k),
            objects[k - 1] + "\nendobj\n" + rest);
  }

  lemma {:induction false} ByParts(file: string, xref: nat, rows: string, n: nat, k: nat, offset: nat, rest: string)
    requires ReadStart(file) == Some(xref) && ReadTable(file, xref) == Some((n + 1, rows))
    requires 1 <= k <= n && ReadEntry(rows, k) == Some(offset) && offset <= |file|
    requires After(Decimal(k) + " 0 obj\n", file[offset..]) == Some(rest)
    ensures Locate(file, k) == Some(rest)
  {
  }

  lemma {:induction false} RowsStart(header: string, objects: seq<string>, rows: string)
    requires ReadTable(File(header, objects), |Body(header, objects, |objects|)|) == Some((|objects| + 1, rows))
    ensures Entries(header, objects, |objects|) <= rows
  {
    var n := |objects|;
    var body, rows', front := FileParts(header, objects);
    TableOf(body, n + 1, rows');
  }

  /** A stream object reads back as its data when its dictionary gives the length of that data. */
  lemma {:induction false} StreamOf(data: string, rest: string)
    ensures ReadStream("<< /Length " + Decimal(|data|) + " >>\nstream\n" + data + "endstream" + rest) == Some(data)
  {
    var head, mid := "<< /Length ", " >>\nstream\n";
    var tail := data + "endstream" + rest;
    var s := head + Decimal(|data|) + mid + data + "endstream" + rest;
    assert s == head + (Decimal(|data|) + (mid + tail));
    AfterPrefix(head, Decimal(|data|) + (mid + tail));
    NumberOf(|data|, mid + tail);
    AfterPrefix(mid, tail);
    StreamByParts(s, Decimal(|data|) + (mid + tail), mid + tail, data, rest);
  }

  lemma {:induction false} StreamByParts(s: string, s1: string, s2: string, data: string, rest: string)
    requires After("<< /Length ", s) == Some(s1) && ReadNumber(s1) == Some((|data|, s2))
    requires After(" >>\nstream\n", s2) == Some(data + "endstream" + rest)
    ensures ReadStream(s) == Some(data)
  {
    hide ReadNumber;
    hide After;
    var tail := data + "endstream" + rest;
    assert tail[..|data|] == data && tail[|data|..] == "endstream" + rest;
  }
}
