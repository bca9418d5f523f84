/** Well-formed UTF-8 (RFC 3629, section 4), over characters that stand for bytes. */
module Utf8 {

  predicate IsTail(c: char) {
    0x80 <= c as int <= 0xBF
  }

  /** The width of the character `s` begins with, or zero when it begins with none. */
  function Width(s: string): (w: nat)
    ensures w <= |s| && w <= 4
    ensures w > 0 ==> !IsTail(s[0])
    ensures forall i :: 0 < i < w ==> IsTail(s[i])
    ensures forall i :: 0 <= i < w ==> s[i] as int < 256
  {
    if s == "" then 0
    else
      var b := s[0] as int;
      if b < 0x80 then 1
      else if 0xC2 <= b <= 0xDF && |s| >= 2 && IsTail(s[1]) then 2
      else if 0xE0 <= b <= 0xEF && |s| >= 3 && IsTail(s[1]) && IsTail(s[2])
        && (b == 0xE0 ==> s[1] as int >= 0xA0) && (b == 0xED ==> s[1] as int <= 0x9F) then 3
      else if 0xF0 <= b <= 0xF4 && |s| >= 4 && IsTail(s[1]) && IsTail(s[2]) && IsTail(s[3])
        && (b == 0xF0 ==> s[1] as int >= 0x90) && (b == 0xF4 ==> s[1] as int <= 0x8F) then 4
      else 0
  }

  predicate WellFormed(s: string) {
    s == "" || (Width(s) > 0 && WellFormed(s[Width(s)..]))
  }

  lemma {:induction false} WidthOfPrefix(a: string, b: string)
    requires Width(a) > 0
    ensures Width(a + b) == Width(a)
  {
    assert forall i :: 0 <= i < |a| ==> (a + b)[i] == a[i];
  }

  lemma {:induction false} DropJoined(a: string, b: string, w: nat)
    requires w <= |a|
    ensures (a + b)[w..] == a[w..] + b
  {
  }

  lemma {:induction false} WellFormedFrom(s: string, w: nat)
    requires 0 < w == Width(s) && WellFormed(s[w..])
    ensures WellFormed(s)
  {
  }

  /** Two texts after one another. */
  lemma {:induction false} JoinWellFormed(a: string, b: string)
    requires WellFormed(a) && WellFormed(b)
    ensures WellFormed(a + b)
  {
    if a == "" {
      assert a + b == b;
    } else {
      WidthOfPrefix(a, b);
      hide Width;
      hide IsTail;
      JoinWellFormed(a[Width(a)..], b);
      DropJoined(a, b, Width(a));
      hide WellFormed;
      WellFormedFrom(a + b, Width(a));
    }
  }

  /** The encoding synchronizes itself: from any byte that is not a tail on, a well-formed text is well-formed. */
  lemma {:induction false} SuffixWellFormed(a: string, b: string)
    requires WellFormed(a + b) && b != "" && !IsTail(b[0])
    ensures WellFormed(b)
  {
    if a == "" {
      assert a + b == b;
    } else {
      var s, w := a + b, Width(a + b);
      assert s[|a|] == b[0];
      assert w <= |a|;
      assert s[w..] == a[w..] + b;
      SuffixWellFormed(a[w..], b);
    }
  }

  lemma {:induction false} BeginsNoTail(s: string)
    requires WellFormed(s) && s != ""
    ensures !IsTail(s[0])
  {
  }

  lemma {:induction false} AreBytes(s: string)
    requires WellFormed(s)
    ensures forall i :: 0 <= i < |s| ==> s[i] as int < 256
  {
    if s != "" {
      var w := Width(s);
      AreBytes(s[w..]);
      assert forall i :: w <= i < |s| ==> s[i] == s[w..][i - w];
    }
  }

  lemma {:induction false} AsciiWellFormed(s: string)
    requires forall i :: 0 <= i < |s| ==> s[i] as int < 0x80
    ensures WellFormed(s)
  {
    if s != "" {
      assert Width(s) == 1;
      AsciiWellFormed(s[1..]);
    }
  }
}
