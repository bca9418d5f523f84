/** Finding Terraform plan members in archives, damaged or not. */
module PlanArchive {
  import opened Wrappers
  import opened Orders

  type Byte = b: int | 0 <= b < 256

  const MAGIC: seq<Byte> := [0x50, 0x4B, 3, 4]
  const NAME_LENGTH_OFFSET := 26
  const NAME_OFFSET := 30
  const SLASH: Byte := 0x2F

  const PLAN_MEMBERS: set<string> := {"tfstate", "tfstate-prev", "tfplan"}

  predicate MagicAt(data: seq<Byte>, p: nat) {
    p + 4 <= |data| && data[p..p + 4] == MAGIC
  }

  /** `data.find(ZIP_MAGIC, start)`. */
  method Find(data: seq<Byte>, start: nat) returns (p: int)
    ensures p == -1 ==> forall q: nat :: start <= q ==> !MagicAt(data, q)
    ensures p != -1 ==> start <= p && MagicAt(data, p) && forall q: nat :: start <= q < p ==> !MagicAt(data, q)
  {
    p := start;
    while p + 4 <= |data|
      invariant start <= p && forall q: nat :: start <= q < p ==> !MagicAt(data, q)
      decreases |data| - p
    {
      if data[p..p + 4] == MAGIC {
        return;
      }
      p := p + 1;
    }
    p := -1;
  }

  /** `raw.decode("utf-8", "replace")`, as far as it matters here: an ASCII byte is itself. */
  function Decode(raw: seq<Byte>): (s: string)
    ensures |s| == |raw|
  {
    seq(|raw|, i requires 0 <= i < |raw| => if raw[i] < 128 then raw[i] as char else '\U{FFFD}')
  }

  /** `name.rsplit("/", 1)[-1]`. */
  function AfterLastSlash(name: string): (base: string)
    ensures '/' !in base
  {
    if name == "" then ""
    else
      var init, c := name[..|name| - 1], name[|name| - 1];
      if c == '/' then "" else AfterLastSlash(init) + [c]
  }

  /** `int.from_bytes(…, "little")` of two bytes. */
  function LittleEndian(low: Byte, high: Byte): nat {
    low as int + 256 * (high as int)
  }

  /** What one local header says: the plan member it declares in full, if it does. */
  function MemberAt(data: seq<Byte>, p: nat): Option<string> {
    var nameEnd := p + NAME_OFFSET;
    if nameEnd > |data| then None
    else
      var length := LittleEndian(data[p + NAME_LENGTH_OFFSET], data[p + NAME_LENGTH_OFFSET + 1]);
      if nameEnd + length > |data| then None
      else
        var name := Decode(data[nameEnd..nameEnd + length]);
        if name != "" && name[|name| - 1] == '/' then None
        else if AfterLastSlash(name) in PLAN_MEMBERS then Some(AfterLastSlash(name))
        else None
  }

  ghost predicate FoundBefore(data: seq<Byte>, limit: int, base: string) {
    exists p: nat :: p < limit && MagicAt(data, p) && MemberAt(data, p) == Some(base)
  }

  /** Between one header and the next there is no other. */
  lemma {:induction false} OneMoreHeader(data: seq<Byte>, position: nat, limit: int, base: string)
    requires position < limit && MagicAt(data, position)
    requires forall p: nat :: position < p < limit ==> !MagicAt(data, p)
    ensures FoundBefore(data, limit, base)
      <==> FoundBefore(data, position, base) || MemberAt(data, position) == Some(base)
  {
    hide MemberAt;
    hide MagicAt;
    if FoundBefore(data, limit, base) {
      var p: nat :| p < limit && MagicAt(data, p) && MemberAt(data, p) == Some(base);
      assert p <= position;
    }
    if FoundBefore(data, position, base) {
      var p: nat :| p < position && MagicAt(data, p) && MemberAt(data, p) == Some(base);
    }
  }

  /** `damaged_plan_members`. */
  method DamagedPlanMembers(data: seq<Byte>) returns (r: seq<string>)
    ensures Sorted(r, StringLeq) && Distinct(r)
    ensures forall base :: base in r <==> FoundBefore(data, |data|, base)
  {
    var found: set<string> := {};
    var position := Find(data, 0);
    ghost var seen := if position == -1 then |data| else position;
    while position != -1
      invariant position == -1 ==> seen == |data|
      invariant position != -1 ==> position == seen && MagicAt(data, position)
      invariant 0 <= seen <= |data|
      invariant forall base :: base in found <==> FoundBefore(data, seen, base)
      decreases |data| - seen, position + 1
    {
      hide MemberAt;
      ghost var before := found;
      var m := MemberAt(data, position);
      if m.Some? {
        found := found + {m.value};
      }
      var next := Find(data, position + 1);
      ghost var limit := if next == -1 then |data| else next;
      forall base ensures base in found <==> FoundBefore(data, limit, base) {
        OneMoreHeader(data, position, limit, base);
      }
      position, seen := next, limit;
    }
    StringOrder();
    r := SortedSet(found, StringLeq);
    forall base ensures base in r <==> base in found {
      assert base in Elements(r) <==> base in found;
    }
  }

  // ---------------------------------------------------------------------------------------------
  // What there is to find

  /** The bytes of an ASCII name. */
  function Ascii(s: string): (r: seq<Byte>)
    requires forall i :: 0 <= i < |s| ==> (s[i] as int) < 128
    ensures |r| == |s|
  {
    seq(|s|, i requires 0 <= i < |s| => s[i] as int)
  }

  /**
   * A local file header with its whole name, as section 4.3.7 of PKWARE APPNOTE.TXT lays it out:
   * signature, 22 bytes of fields, the name length, the extra length, and the name `dir` + `base`.
   */
  datatype Header = Header(before: seq<Byte>, fields: seq<Byte>, low: Byte, high: Byte, extra: seq<Byte>,
                           dir: seq<Byte>, rest: seq<Byte>)

  ghost predicate WellFormed(h: Header, base: string) {
    && |h.fields| == 22 && |h.extra| == 2 && LittleEndian(h.low, h.high) == |h.dir| + |base|
    && (h.dir != [] ==> h.dir[|h.dir| - 1] == SLASH)
  }

  function Layout(h: Header, base: seq<Byte>): seq<Byte> {
    h.before + (MAGIC + h.fields + [h.low, h.high] + h.extra) + (h.dir + base) + h.rest
  }

  /** The bytes hold, anywhere, the header of a plan member and all of its name. */
  ghost predicate Carries(data: seq<Byte>, base: string) {
    && base in PLAN_MEMBERS
    && (forall i :: 0 <= i < |base| ==> (base[i] as int) < 128)
    && exists h :: WellFormed(h, base) && data == Layout(h, Ascii(base))
  }

  lemma {:induction false} LastSlashOf(dir: string, base: string)
    requires '/' !in base && (dir != "" ==> dir[|dir| - 1] == '/')
    ensures AfterLastSlash(dir + base) == base
  {
    if base == "" {
      assert dir + base == dir;
    } else {
      var init := base[..|base| - 1];
      LastSlashOf(dir, init);
      assert (dir + base)[..|dir + base| - 1] == dir + init;
      assert base == init + [base[|base| - 1]];
    }
  }

  lemma {:induction false} LastSlashSplits(name: string) returns (dir: string)
    ensures name == dir + AfterLastSlash(name) && (dir != "" ==> dir[|dir| - 1] == '/')
  {
    if name == "" {
      dir := "";
    } else if name[|name| - 1] == '/' {
      dir := name;
    } else {
      dir := LastSlashSplits(name[..|name| - 1]);
      assert name == name[..|name| - 1] + [name[|name| - 1]];
    }
  }

  lemma {:induction false} DecodeConcat(a: seq<Byte>, b: seq<Byte>)
    ensures Decode(a + b) == Decode(a) + Decode(b)
  {
  }

  lemma {:induction false} DecodeAscii(s: string)
    requires forall i :: 0 <= i < |s| ==> (s[i] as int) < 128
    ensures Decode(Ascii(s)) == s
  {
  }

  lemma {:induction false} DecodeOfName(dir: seq<Byte>, base: string)
    requires dir != [] ==> dir[|dir| - 1] == SLASH
    requires forall i :: 0 <= i < |base| ==> (base[i] as int) < 128
    ensures Decode(dir + Ascii(base)) == Decode(dir) + base
    ensures dir != [] ==> Decode(dir)[|dir| - 1] == '/'
  {
    DecodeConcat(dir, Ascii(base));
    DecodeAscii(base);
  }

  /** Where a header is laid out, the scanner reads its member. */
  lemma {:induction false} LaidOutIsRead(h: Header, base: string)
    requires WellFormed(h, base) && base in PLAN_MEMBERS
    requires forall i :: 0 <= i < |base| ==> (base[i] as int) < 128
    ensures var data := Layout(h, Ascii(base)); MagicAt(data, |h.before|) && MemberAt(data, |h.before|) == Some(base)
  {
    var data, p := Layout(h, Ascii(base)), |h.before|;
    var raw := h.dir + Ascii(base);
    assert data[p..p + 4] == MAGIC;
    assert data[p + 26] == h.low && data[p + 27] == h.high;
    assert data[p + 30..p + 30 + |raw|] == raw;
    DecodeOfName(h.dir, base);
    LastSlashOf(Decode(h.dir), base);
    hide Layout;
    hide Ascii;
    hide AfterLastSlash;
    assert Decode(raw)[|raw| - 1] == base[|base| - 1];
  }

  /** The raw name of a plan member ends in the member's own bytes, after a slash if after anything. */
  lemma {:induction false} NameSplits(raw: seq<Byte>, base: string) returns (k: nat)
    requires AfterLastSlash(Decode(raw)) == base && forall i :: 0 <= i < |base| ==> (base[i] as int) < 128
    ensures k <= |raw| && raw == raw[..k] + Ascii(base) && (k > 0 ==> raw[k - 1] == SLASH)
  {
    hide AfterLastSlash;
    var dir := LastSlashSplits(Decode(raw));
    k := |dir|;
    DecodeTail(raw, dir, base);
    if k > 0 {
      assert Decode(raw)[k - 1] == dir[k - 1];
    }
    assert raw == raw[..k] + raw[k..];
  }

  lemma {:induction false} DecodeTail(raw: seq<Byte>, dir: string, base: string)
    requires Decode(raw) == dir + base
    ensures |dir| <= |raw| && Decode(raw[|dir|..]) == base
  {
    forall i | 0 <= i < |base| ensures Decode(raw[|dir|..])[i] == base[i] {
      assert Decode(raw)[|dir| + i] == base[i] && raw[|dir|..][i] == raw[|dir| + i];
    }
  }

  lemma {:induction false} HeaderBytes(data: seq<Byte>, p: nat)
    requires MagicAt(data, p) && p + 30 <= |data|
    ensures data[p..p + 30] == MAGIC + data[p + 4..p + 26] + [data[p + 26], data[p + 27]] + data[p + 28..p + 30]
  {
    assert data[p..p + 30] == data[p..p + 4] + data[p + 4..p + 26] + data[p + 26..p + 28] + data[p + 28..p + 30];
  }

  lemma {:induction false} AssembleHeader(data: seq<Byte>, p: nat, base: string) returns (h: Header)
    requires MagicAt(data, p) && p + 30 <= |data|
    requires forall i :: 0 <= i < |base| ==> (base[i] as int) < 128
    requires var n := LittleEndian(data[p + 26], data[p + 27]);
      p + 30 + n <= |data| && AfterLastSlash(Decode(data[p + 30..p + 30 + n])) == base
    ensures WellFormed(h, base) && data == Layout(h, Ascii(base))
  {
    var n := LittleEndian(data[p + 26], data[p + 27]);
    var raw, rest := data[p + 30..p + 30 + n], data[p + 30 + n..];
    var k := NameSplits(raw, base);
    h := Header(data[..p], data[p + 4..p + 26], data[p + 26], data[p + 27], data[p + 28..p + 30], raw[..k], rest);
    HeaderBytes(data, p);
    ThreeCuts(data, p, p + 30, p + 30 + n);
  }

  lemma {:induction false} ThreeCuts(data: seq<Byte>, a: nat, b: nat, c: nat)
    requires a <= b <= c <= |data|
    ensures data == data[..a] + data[a..b] + data[b..c] + data[c..]
  {
  }

  /** Where the scanner reads a member, a header is laid out. */
  lemma {:induction false} ReadIsLaidOut(data: seq<Byte>, p: nat, base: string)
    requires MagicAt(data, p) && MemberAt(data, p) == Some(base)
    ensures Carries(data, base)
  {
    var h := AssembleHeader(data, p, base);
  }

  /** The scan reports exactly the plan members the bytes carry. */
  lemma {:induction false} ScanFindsExactly(data: seq<Byte>, base: string)
    ensures FoundBefore(data, |data|, base) <==> Carries(data, base)
  {
    if FoundBefore(data, |data|, base) {
      var p: nat :| p < |data| && MagicAt(data, p) && MemberAt(data, p) == Some(base);
      ReadIsLaidOut(data, p, base);
    }
    if Carries(data, base) {
      var h :| WellFormed(h, base) && data == Layout(h, Ascii(base));
      LaidOutIsRead(h, base);
      assert |h.before| < |data|;
    }
  }

  /** Bytes put before or after an archive never hide a member. */
  lemma {:induction false} CarriesIsMonotone(pre: seq<Byte>, data: seq<Byte>, post: seq<Byte>, base: string)
    requires Carries(data, base)
    ensures Carries(pre + data + post, base)
  {
    var h :| WellFormed(h, base) && data == Layout(h, Ascii(base));
    var h' := h.(before := pre + h.before, rest := h.rest + post);
    assert pre + data + post == Layout(h', Ascii(base));
  }

  /** A cut that leaves the header and name of a member in place leaves it found. */
  lemma {:induction false} TruncationKeepsWholeNames(h: Header, base: string, n: nat)
    requires WellFormed(h, base) && base in PLAN_MEMBERS
    requires forall i :: 0 <= i < |base| ==> (base[i] as int) < 128
    requires n <= |h.rest|
    ensures var data := Layout(h, Ascii(base)); Carries(data[..|data| - |h.rest| + n], base)
  {
    var h' := h.(rest := h.rest[..n]);
    var data := Layout(h, Ascii(base));
    assert data[..|data| - |h.rest| + n] == Layout(h', Ascii(base));
  }

  // ---------------------------------------------------------------------------------------------
  // Whole blobs

  /** `Path(name).name`: the last component that is neither empty nor a dot. */
  function PathName(name: string): string
    decreases |name|
  {
    var last := AfterLastSlash(name);
    if last != "" && last != "." then last
    else if |last| >= |name| then ""
    else PathName(name[..|name| - |last| - 1])
  }

  /** `_plan_members_in`, as a set. */
  function MembersIn(entries: seq<(string, bool)>): set<string> {
    set e | e in entries && !e.1 && PathName(e.0) in PLAN_MEMBERS :: PathName(e.0)
  }

  /** `plan_members_of_blob`; `entries` is what `zipfile` lists, or None when it will not open. */
  method PlanMembersOfBlob(data: seq<Byte>, entries: Option<seq<(string, bool)>>) returns (r: seq<string>)
    ensures Sorted(r, StringLeq) && Distinct(r)
    ensures forall base :: base in r <==>
      Carries(data, base) || (entries.Some? && base in MembersIn(entries.value) && exists p: nat :: MagicAt(data, p))
  {
    var p := Find(data, 0);
    forall base ensures Carries(data, base) ==> exists p: nat :: MagicAt(data, p) {
      ScanFindsExactly(data, base);
    }
    if p == -1 {
      return [];
    }
    assert MagicAt(data, p);
    var found := DamagedPlanMembers(data);
    forall base ensures base in found <==> Carries(data, base) {
      ScanFindsExactly(data, base);
    }
    if entries.None? || entries.value == [] {
      return found;
    }
    var union := MembersIn(entries.value) + Elements(found);
    StringOrder();
    r := SortedSet(union, StringLeq);
    forall base ensures base in r <==> base in union {
      assert base in Elements(r) <==> base in union;
    }
  }
}
