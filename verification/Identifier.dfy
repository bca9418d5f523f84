/** Identifier-shaped runs of digits in a name. */
module Identifier {
  import opened Text

  const IDENTIFIER_DIGITS := 9

  predicate IsLetter(c: char) {
    'a' <= c <= 'z' || 'A' <= c <= 'Z'
  }

  /** The length of the longest prefix without a letter. */
  function Run(s: string): (n: nat)
    ensures n <= |s|
    ensures forall i :: 0 <= i < n ==> !IsLetter(s[i])
    ensures n < |s| ==> IsLetter(s[n])
  {
    if s == "" || IsLetter(s[0]) then 0 else 1 + Run(s[1..])
  }

  /** The length of the longest prefix that ends in a digit. */
  function ToLastDigit(s: string): (n: nat)
    ensures n <= |s|
    ensures n > 0 ==> IsDigit(s[n - 1])
    ensures forall i :: n <= i < |s| ==> !IsDigit(s[i])
  {
    if s == "" then 0
    else if IsDigit(s[|s| - 1]) then |s|
    else ToLastDigit(s[..|s| - 1])
  }

  /**
   * What the pattern matches at the start of `s`: a digit and, greedily, everything up to the last
   * digit before a letter.
   */
  function MatchLength(s: string): (n: nat)
    requires s != "" && IsDigit(s[0])
    ensures 1 <= n <= |s|
  {
    var n := ToLastDigit(s[..Run(s)]);
    if n == 0 then 1 else n
  }

  /** `DIGIT_GROUP.findall`: the leftmost matches that do not overlap. */
  function Groups(s: string): seq<string> {
    if s == "" then []
    else if IsDigit(s[0]) then
      var n := MatchLength(s);
      [s[..n]] + Groups(s[n..])
    else Groups(s[1..])
  }

  function Digits(s: string): nat {
    if s == "" then 0 else (if IsDigit(s[0]) then 1 else 0) + Digits(s[1..])
  }

  /** `has_identifier`. */
  predicate HasIdentifier(s: string) {
    exists g :: g in Groups(s) && Digits(g) >= IDENTIFIER_DIGITS
  }

  /** A letter-free stretch. */
  ghost predicate NoLetter(s: string) {
    forall i :: 0 <= i < |s| ==> !IsLetter(s[i])
  }

  lemma {:induction false} DigitsConcat(a: string, b: string)
    ensures Digits(a + b) == Digits(a) + Digits(b)
  {
    if a == "" {
      assert a + b == b;
    } else {
      DigitsConcat(a[1..], b);
      assert (a + b)[1..] == a[1..] + b;
    }
  }

  lemma {:induction false} NoDigits(s: string)
    requires forall i :: 0 <= i < |s| ==> !IsDigit(s[i])
    ensures Digits(s) == 0
  {
    if s != "" {
      NoDigits(s[1..]);
    }
  }

  /** A match holds all the digits of the letter-free stretch it starts. */
  lemma {:induction false} MatchIsWholeRun(s: string)
    requires s != "" && IsDigit(s[0])
    ensures var n := MatchLength(s);
      && NoLetter(s[..n]) && n <= Run(s) && Digits(s[..Run(s)]) == Digits(s[..n])
      && forall i :: n <= i < Run(s) ==> !IsDigit(s[i])
  {
    var run := s[..Run(s)];
    var n := ToLastDigit(run);
    assert run[0] == s[0];
    assert n > 0;
    assert run == s[..n] + run[n..];
    DigitsConcat(s[..n], run[n..]);
    NoDigits(run[n..]);
  }

  /** A letter-free window in front of a match, or inside it, holds no more digits than the match. */
  lemma {:induction false} WindowWithinRun(s: string, j: nat)
    requires s != "" && IsDigit(s[0]) && j <= |s| && NoLetter(s[..j])
    ensures Digits(s[..j]) <= Digits(s[..MatchLength(s)])
  {
    MatchIsWholeRun(s);
    var run := Run(s);
    assert forall k :: 0 <= k < j ==> s[..j][k] == s[k];
    assert s[..run] == s[..j] + s[j..run];
    DigitsConcat(s[..j], s[j..run]);
  }

  /** Some letter-free window of the text has at least nine digits. */
  ghost predicate SomeWindow(s: string) {
    exists i, j :: 0 <= i <= j <= |s| && NoLetter(s[i..j]) && Digits(s[i..j]) >= IDENTIFIER_DIGITS
  }

  /** `g` stands in `s`, with no letter in it. */
  ghost predicate IsWindow(s: string, g: string) {
    exists i, j :: 0 <= i <= j <= |s| && NoLetter(s[i..j]) && s[i..j] == g
  }

  lemma {:induction false} SliceOfTail(s: string, n: nat, i: nat, j: nat)
    requires n <= |s| && i <= j <= |s| - n
    ensures s[n..][i..j] == s[n + i..n + j]
  {
  }

  lemma {:induction false} WindowOfTail(s: string, n: nat, g: string)
    requires n <= |s| && IsWindow(s[n..], g)
    ensures IsWindow(s, g)
  {
    var t := s[n..];
    var i, j :| 0 <= i <= j <= |t| && NoLetter(t[i..j]) && t[i..j] == g;
    SliceOfTail(s, n, i, j);
    WindowAt(s, n + i, n + j, g);
  }

  lemma {:induction false} WindowAt(s: string, i: nat, j: nat, g: string)
    requires i <= j <= |s| && NoLetter(g) && s[i..j] == g
    ensures IsWindow(s, g)
  {
    hide NoLetter;
  }

  lemma {:induction false} GroupIsWindow(s: string, g: string)
    requires g in Groups(s)
    ensures IsWindow(s, g)
  {
    if IsDigit(s[0]) {
      var n := MatchLength(s);
      MatchIsWholeRun(s);
      if g == s[..n] {
        assert s[0..n] == g;
      } else {
        hide IsWindow;
        GroupIsWindow(s[n..], g);
        WindowOfTail(s, n, g);
      }
    } else {
      hide IsWindow;
      GroupIsWindow(s[1..], g);
      WindowOfTail(s, 1, g);
    }
  }

  /** A window that begins before a match ends lies in the stretch the match covers. */
  lemma {:induction false} WindowMeetsMatch(s: string, i: nat, j: nat)
    requires s != "" && IsDigit(s[0]) && i <= j <= |s| && NoLetter(s[i..j]) && i < MatchLength(s)
    ensures Digits(s[..MatchLength(s)]) >= Digits(s[i..j])
  {
    var n := MatchLength(s);
    MatchIsWholeRun(s);
    forall t | 0 <= t < j ensures !IsLetter(s[..j][t]) {
      if t < n {
        assert s[..n][t] == s[t];
      } else {
        assert s[i..j][t - i] == s[t];
      }
    }
    WindowWithinRun(s, j);
    assert s[..j] == s[..i] + s[i..j];
    DigitsConcat(s[..i], s[i..j]);
  }

  lemma {:induction false} TailGroup(s: string, n: nat, g: string)
    requires s != "" && n == if IsDigit(s[0]) then MatchLength(s) else 1
    requires g in Groups(s[n..])
    ensures g in Groups(s)
  {
  }

  lemma {:induction false} ShiftWindow(s: string, n: nat, i: nat, j: nat)
    requires n <= i <= j <= |s|
    ensures s[n..][i - n..j - n] == s[i..j]
  {
  }

  /** Every letter-free window with a digit is dominated by some group. */
  lemma {:induction false} WindowHasGroup(s: string, i: nat, j: nat) returns (g: string)
    requires i <= j <= |s| && NoLetter(s[i..j]) && Digits(s[i..j]) > 0
    ensures g in Groups(s) && Digits(g) >= Digits(s[i..j])
    decreases |s|, 1
  {
    var n := if IsDigit(s[0]) then MatchLength(s) else 1;
    if i >= n {
      ShiftWindow(s, n, i, j);
      g := WindowHasGroup(s[n..], i - n, j - n);
      TailGroup(s, n, g);
    } else if IsDigit(s[0]) {
      WindowMeetsMatch(s, i, j);
      g := s[..n];
      assert g == Groups(s)[0];
    } else {
      g := WindowAfterFirst(s, j);
    }
  }

  lemma {:induction false} WindowAfterFirst(s: string, j: nat) returns (g: string)
    requires 0 < j <= |s| && !IsDigit(s[0]) && NoLetter(s[0..j]) && Digits(s[0..j]) > 0
    ensures g in Groups(s) && Digits(g) >= Digits(s[0..j])
    decreases |s|, 0
  {
    assert s[0..j] == [s[0]] + s[1..j];
    assert Digits(s[0..j]) == Digits(s[1..j]);
    ShiftWindow(s, 1, 1, j);
    assert NoLetter(s[1..j]) by {
      forall t | 0 <= t < |s[1..j]| ensures !IsLetter(s[1..j][t]) { assert s[1..j][t] == s[0..j][t + 1]; }
    }
    g := WindowHasGroup(s[1..], 0, j - 1);
    TailGroup(s, 1, g);
  }

  /** The greedy pattern flags a name exactly when nine digits stand in it with no letter between them. */
  lemma {:induction false} FlagsExactlyWindows(s: string)
    ensures HasIdentifier(s) <==> SomeWindow(s)
  {
    if HasIdentifier(s) {
      var g :| g in Groups(s) && Digits(g) >= IDENTIFIER_DIGITS;
      GroupIsWindow(s, g);
    }
    if SomeWindow(s) {
      var i, j :| 0 <= i <= j <= |s| && NoLetter(s[i..j]) && Digits(s[i..j]) >= IDENTIFIER_DIGITS;
      var g := WindowHasGroup(s, i, j);
    }
  }
}
