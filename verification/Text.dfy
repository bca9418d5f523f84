/** Python string operations over the ASCII white space class. */
module Text {

  /** `str.isspace` on one ASCII character. */
  predicate IsSpace(c: char) {
    c == ' ' || 9 <= c as int <= 13 || 28 <= c as int <= 31
  }

  predicate IsDigit(c: char) {
    '0' <= c <= '9'
  }

  ghost predicate Blank(s: string) {
    forall i :: 0 <= i < |s| ==> IsSpace(s[i])
  }

  /** Neither end is white space. */
  ghost predicate Trimmed(s: string) {
    s == "" || (!IsSpace(s[0]) && !IsSpace(s[|s| - 1]))
  }

  function LStrip(s: string): string {
    if s != "" && IsSpace(s[0]) then LStrip(s[1..]) else s
  }

  function RStrip(s: string): string {
    if s != "" && IsSpace(s[|s| - 1]) then RStrip(s[..|s| - 1]) else s
  }

  function Strip(s: string): string {
    LStrip(RStrip(s))
  }

  lemma {:induction false} RStripSplits(s: string) returns (post: string)
    ensures s == RStrip(s) + post && Blank(post)
    ensures RStrip(s) == "" || !IsSpace(RStrip(s)[|RStrip(s)| - 1])
  {
    if s != "" && IsSpace(s[|s| - 1]) {
      var p := RStripSplits(s[..|s| - 1]);
      post := p + [s[|s| - 1]];
      assert s == s[..|s| - 1] + [s[|s| - 1]];
    } else {
      post := "";
    }
  }

  lemma {:induction false} LStripSplits(s: string) returns (pre: string)
    ensures s == pre + LStrip(s) && Blank(pre)
    ensures LStrip(s) == "" || !IsSpace(LStrip(s)[0])
  {
    if s != "" && IsSpace(s[0]) {
      var p := LStripSplits(s[1..]);
      pre := [s[0]] + p;
      assert s == [s[0]] + s[1..];
    } else {
      pre := "";
    }
  }

  /** Stripping takes white space off both ends and nothing else. */
  lemma {:induction false} StripSplits(s: string) returns (pre: string, post: string)
    ensures s == pre + Strip(s) + post && Blank(pre) && Blank(post) && Trimmed(Strip(s))
  {
    post := RStripSplits(s);
    pre := LStripSplits(RStrip(s));
    var r, t := RStrip(s), Strip(s);
    if t != "" {
      assert t[|t| - 1] == r[|r| - 1];
    }
  }

  lemma {:induction false} RStripOf(s: string, post: string)
    requires Blank(post) && (s == "" || !IsSpace(s[|s| - 1]))
    ensures RStrip(s + post) == s
  {
    if post == "" {
      assert s + post == s;
    } else {
      var init := post[..|post| - 1];
      RStripOf(s, init);
      assert (s + post)[..|s + post| - 1] == s + init;
    }
  }

  lemma {:induction false} LStripOf(pre: string, s: string)
    requires Blank(pre) && (s == "" || !IsSpace(s[0]))
    ensures LStrip(pre + s) == s
  {
    if pre == "" {
      assert pre + s == s;
    } else {
      LStripOf(pre[1..], s);
      assert (pre + s)[1..] == pre[1..] + s;
    }
  }

  lemma {:induction false} BlankStrips(s: string)
    requires Blank(s)
    ensures RStrip(s) == "" && Strip(s) == ""
  {
    RStripOf("", s);
    assert "" + s == s;
  }

  /** Any trimmed text is what stripping a padded copy of it returns. */
  lemma {:induction false} StripOf(pre: string, s: string, post: string)
    requires Blank(pre) && Blank(post) && Trimmed(s)
    ensures Strip(pre + s + post) == s
  {
    if s == "" {
      BlankStrips(pre + s + post);
    } else {
      RStripOf(pre + s, post);
      LStripOf(pre, s);
    }
  }

  /** The ends of a text built of two parts. */
  lemma {:induction false} ConcatEnds(a: string, b: string)
    ensures a != "" ==> (a + b)[0] == a[0]
    ensures b != "" ==> (a + b)[|a + b| - 1] == b[|b| - 1]
  {
  }

  /** A text is blank exactly when stripping leaves nothing, and trimmed exactly when it leaves everything. */
  lemma {:induction false} StripDecides(s: string)
    ensures Strip(s) == "" <==> Blank(s)
    ensures Strip(s) == s <==> Trimmed(s)
  {
    var pre, post := StripSplits(s);
    if Blank(s) {
      BlankStrips(s);
    }
    if Strip(s) == "" {
      assert s == pre + post;
    }
    if Trimmed(s) {
      StripOf("", s, "");
      assert "" + s + "" == s;
    }
  }

  // ---------------------------------------------------------------------------------------------
  // Decimal numbers

  function Digit(n: nat): (c: char)
    requires n < 10
    ensures IsDigit(c)
  {
    ('0' as int + n) as char
  }

  function Decimal(n: nat): (s: string)
    ensures s != "" && AllDigits(s)
  {
    if n < 10 then [Digit(n)] else Decimal(n / 10) + [Digit(n % 10)]
  }

  predicate AllDigits(s: string) {
    forall i :: 0 <= i < |s| ==> IsDigit(s[i])
  }

  // ---------------------------------------------------------------------------------------------
  // str.partition and str.splitlines

  /** The index of the first colon, or the length. */
  function Colon(s: string): (n: nat)
    ensures n <= |s|
    ensures n < |s| ==> s[n] == ':'
    ensures ':' !in s[..n]
  {
    if s == "" || s[0] == ':' then 0 else 1 + Colon(s[1..])
  }

  lemma {:induction false} ColonOf(k: string, v: string)
    requires ':' !in k
    ensures Colon(k + ":" + v) == |k|
  {
    if k != "" {
      ColonOf(k[1..], v);
      assert (k + ":" + v)[1..] == k[1..] + ":" + v;
    }
  }

  /** The characters `str.splitlines` breaks at. */
  predicate IsBreak(c: char) {
    10 <= c as int <= 13 || 28 <= c as int <= 30 || c as int == 0x85 || 0x2028 <= c as int <= 0x2029
  }

  /** The index of the first line break, or the length. */
  function LineEnd(s: string): (n: nat)
    ensures n <= |s|
    ensures n < |s| ==> IsBreak(s[n])
  {
    if s == "" || IsBreak(s[0]) then 0 else 1 + LineEnd(s[1..])
  }

  /** Where the line after the break at `n` begins: a carriage return and the line feed after it are one break. */
  function AfterBreak(s: string, n: nat): (k: nat)
    requires n < |s|
    ensures n < k <= |s|
  {
    if s[n] == '\r' && n + 1 < |s| && s[n + 1] == '\n' then n + 2 else n + 1
  }

  /** `str.splitlines`. */
  function SplitLines(s: string): seq<string> {
    if s == "" then []
    else
      var n := LineEnd(s);
      if n == |s| then [s] else [s[..n]] + SplitLines(s[AfterBreak(s, n)..])
  }

  ghost predicate OneLine(s: string) {
    forall i :: 0 <= i < |s| ==> !IsBreak(s[i])
  }

  /** Lines, each ended by a line feed. */
  function JoinLines(lines: seq<string>): string {
    if lines == [] then "" else lines[0] + "\n" + JoinLines(lines[1..])
  }

  lemma {:induction false} LineEndOf(line: string, rest: string)
    requires OneLine(line)
    ensures LineEnd(line + "\n" + rest) == |line|
  {
    if line != "" {
      LineEndOf(line[1..], rest);
      assert (line + "\n" + rest)[1..] == line[1..] + "\n" + rest;
    }
  }

  /** Splitting inverts joining. */
  lemma {:induction false} SplitOfJoin(lines: seq<string>)
    requires forall i :: 0 <= i < |lines| ==> OneLine(lines[i])
    ensures SplitLines(JoinLines(lines)) == lines
  {
    if lines != [] {
      var rest := JoinLines(lines[1..]);
      SplitOfJoin(lines[1..]);
      LineEndOf(lines[0], rest);
      var s := lines[0] + "\n" + rest;
      assert s[..|lines[0]|] == lines[0] && s[|lines[0]| + 1..] == rest;
    }
  }
}
