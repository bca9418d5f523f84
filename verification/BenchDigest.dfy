/** The digest that identifies a staged sample, and which samples it tells apart. Characters stand for bytes. */
module BenchDigest {
  import opened Wrappers
  import opened Orders
  import opened Utf8

  const DIGEST_SIZE := 32

  /** The bytes the hasher sees: the manifest, if any, then each name followed by its digest. */
  function Stream(manifest: Option<string>, names: seq<string>, hashes: map<string, string>): string
    requires forall n :: n in names ==> n in hashes
  {
    if names == [] then manifest.Coalesce("")
    else
      var last := names[|names| - 1];
      Stream(manifest, names[..|names| - 1], hashes) + (last + hashes[last])
  }

  /** The hasher is fed the names in the order given. */
  method Feed(manifest: Option<string>, names: seq<string>, hashes: map<string, string>) returns (fed: string)
    requires forall n :: n in names ==> n in hashes
    ensures fed == Stream(manifest, names, hashes)
  {
    fed := manifest.Coalesce("");
    for k := 0 to |names|
      invariant fed == Stream(manifest, names[..k], hashes)
    {
      assert names[..k + 1][..k] == names[..k];
      fed := fed + (names[k] + hashes[names[k]]);
    }
    assert names[..|names|] == names;
  }

  /** `_document_sample_digest`: names in sorted order, everything fed to one hasher. */
  method SampleDigest(manifest: Option<string>, hashes: map<string, string>, hash: string -> string)
    returns (digest: string, names: seq<string>)
    ensures Sorted(names, StringLeq) && Distinct(names) && Elements(names) == hashes.Keys
    ensures forall n :: n in names ==> n in hashes
    ensures digest == hash(Stream(manifest, names, hashes))
  {
    StringOrder();
    names := SortedSet(hashes.Keys, StringLeq);
    assert forall n :: n in names ==> n in Elements(names);
    var fed := Feed(manifest, names, hashes);
    digest := hash(fed);
  }

  lemma {:induction false} EntryOf(manifest: Option<string>, names: seq<string>, hashes: map<string, string>, n: string)
    returns (before: string, after: string)
    requires n in names && forall n :: n in names ==> n in hashes
    ensures Stream(manifest, names, hashes) == before + (n + hashes[n]) + after
  {
    var front, last := names[..|names| - 1], names[|names| - 1];
    if n == last {
      before, after := Stream(manifest, front, hashes), "";
    } else {
      assert n in front;
      before, after := EntryOf(manifest, front, hashes, n);
      after := after + (last + hashes[last]);
    }
  }

  ghost predicate FullDigests(names: seq<string>, hashes: map<string, string>) {
    forall n :: n in names ==> n in hashes && |hashes[n]| == DIGEST_SIZE
  }

  ghost predicate SameLengths(a: seq<string>, b: seq<string>) {
    |a| == |b| && forall i :: 0 <= i < |a| ==> |a[i]| == |b[i]|
  }

  lemma {:induction false} EqualParts(a: string, b: string, c: string, d: string)
    requires a + b == c + d && |b| == |d|
    ensures a == c && b == d
  {
    assert a == (a + b)[..|a|] && c == (c + d)[..|c|];
    assert b == (a + b)[|a|..] && d == (c + d)[|c|..];
  }

  lemma {:induction false} StreamSnoc(m: Option<string>, names: seq<string>, hashes: map<string, string>)
    requires names != [] && forall n :: n in names ==> n in hashes
    ensures var last := names[|names| - 1];
      Stream(m, names, hashes) == Stream(m, names[..|names| - 1], hashes) + (last + hashes[last])
  {
  }

  lemma {:induction false} OneMoreEntry(a: string, x: string, h: string, b: string, y: string, g: string)
    requires |x| == |y| && |h| == |g|
    ensures a + (x + h) == b + (y + g) <==> a == b && x == y && h == g
  {
    if a + (x + h) == b + (y + g) {
      EqualParts(a, x + h, b, y + g);
      EqualParts(x, h, y, g);
    }
  }

  /**
   * Where the names have the same lengths, two samples are fed alike exactly when manifests, names and digests agree.
   */
  lemma {:induction false} StreamTellsApart(
    m: Option<string>, names: seq<string>, hashes: map<string, string>,
    m': Option<string>, names': seq<string>, hashes': map<string, string>)
    requires FullDigests(names, hashes) && FullDigests(names', hashes') && SameLengths(names, names')
    ensures Stream(m, names, hashes) == Stream(m', names', hashes')
      <==> m.Coalesce("") == m'.Coalesce("") && names == names' && forall n :: n in names ==> hashes[n] == hashes'[n]
  {
    if names != [] {
      var k := |names| - 1;
      var x, y := names[k], names'[k];
      StreamTellsApart(m, names[..k], hashes, m', names'[..k], hashes');
      assert names == names[..k] + [x] && names' == names'[..k] + [y];
      StreamSnoc(m, names, hashes);
      StreamSnoc(m', names', hashes');
      hide Stream;
      OneMoreEntry(Stream(m, names[..k], hashes), x, hashes[x], Stream(m', names'[..k], hashes'), y, hashes'[y]);
    }
  }

  // ---------------------------------------------------------------------------------------------
  // Taking a stream apart

  /** Every manifest fed is fed first. */
  lemma {:induction false} AfterManifest(m: Option<string>, names: seq<string>, hashes: map<string, string>)
    requires forall n :: n in names ==> n in hashes
    ensures Stream(m, names, hashes) == m.Coalesce("") + Stream(None, names, hashes)
  {
    if names != [] {
      AfterManifest(m, names[..|names| - 1], hashes);
    }
  }

  /**
   * Two manifests of which neither begins the other, as no JSON object begins another; or one and the same, or none.
   */
  ghost predicate Comparable(m: Option<string>, m': Option<string>) {
    m == m' || (m.Some? && m'.Some? && !(m.value <= m'.value) && !(m'.value <= m.value))
  }

  /** Streams that agree come from the same manifest, and agree after it. */
  lemma {:induction false} ManifestsAgree(
    m: Option<string>, names: seq<string>, hashes: map<string, string>,
    m': Option<string>, names': seq<string>, hashes': map<string, string>)
    requires Comparable(m, m')
    requires (forall n :: n in names ==> n in hashes) && forall n :: n in names' ==> n in hashes'
    requires Stream(m, names, hashes) == Stream(m', names', hashes')
    ensures m == m' && Stream(None, names, hashes) == Stream(None, names', hashes')
  {
    AfterManifest(m, names, hashes);
    AfterManifest(m', names', hashes');
    BeginsOrIsBegun(m.Coalesce(""), Stream(None, names, hashes), m'.Coalesce(""), Stream(None, names', hashes'));
  }

  lemma {:induction false} BeginsOrIsBegun(a: string, b: string, c: string, d: string)
    requires a + b == c + d
    ensures a <= c || c <= a
    ensures a == c ==> b == d
  {
    assert forall i :: 0 <= i < |a| ==> a[i] == (a + b)[i];
    assert forall i :: 0 <= i < |c| ==> c[i] == (c + d)[i];
    assert b == (a + b)[|a|..] && d == (c + d)[|c|..];
  }

  /** The stream without its last digest. */
  function Body(names: seq<string>, hashes: map<string, string>): string
    requires names != [] && forall n :: n in names ==> n in hashes
  {
    if |names| == 1 then names[0] else names[0] + hashes[names[0]] + Body(names[1..], hashes)
  }

  lemma {:induction false} StreamIsBody(names: seq<string>, hashes: map<string, string>)
    requires names != [] && forall n :: n in names ==> n in hashes
    ensures Stream(None, names, hashes) == Body(names, hashes) + hashes[names[|names| - 1]]
  {
    var last := names[|names| - 1];
    if |names| == 1 {
      assert names[..0] == [];
    } else {
      var front := names[..|names| - 1];
      StreamIsBody(front, hashes);
      BodySnoc(front, last, hashes);
      assert names == front + [last];
    }
  }

  lemma {:induction false} BodySnoc(front: seq<string>, last: string, hashes: map<string, string>)
    requires front != [] && last in hashes && forall n :: n in front ==> n in hashes
    ensures Body(front + [last], hashes) == Body(front, hashes) + hashes[front[|front| - 1]] + last
  {
    var names := front + [last];
    if |front| == 1 {
      assert names[1..] == [last];
    } else {
      BodySnoc(front[1..], last, hashes);
      assert names[1..] == front[1..] + [last];
    }
  }

  /** Equal streams of samples that are not empty have the same body and the same last digest. */
  lemma {:induction false} BodiesAgree(
    names: seq<string>, hashes: map<string, string>, names': seq<string>, hashes': map<string, string>)
    requires FullDigests(names, hashes) && FullDigests(names', hashes') && names != []
    requires Stream(None, names, hashes) == Stream(None, names', hashes')
    ensures names' != [] && Body(names, hashes) == Body(names', hashes')
    ensures hashes[names[|names| - 1]] == hashes'[names'[|names'| - 1]]
  {
    StreamIsBody(names, hashes);
    if names' != [] {
      StreamIsBody(names', hashes');
      EqualParts(Body(names, hashes), hashes[names[|names| - 1]], Body(names', hashes'), hashes'[names'[|names'| - 1]]);
    }
  }

  lemma {:induction false} BodiesGiveStreams(
    names: seq<string>, hashes: map<string, string>, names': seq<string>, hashes': map<string, string>)
    requires FullDigests(names, hashes) && FullDigests(names', hashes') && names != [] && names' != []
    requires Body(names, hashes) == Body(names', hashes')
    requires hashes[names[|names| - 1]] == hashes'[names'[|names'| - 1]]
    ensures Stream(None, names, hashes) == Stream(None, names', hashes')
  {
    StreamIsBody(names, hashes);
    StreamIsBody(names', hashes');
  }

  /** A body of one name only, read as the body of several: the first name, a digest, and another body. */
  lemma {:induction false} OneNameRead(n: string, names: seq<string>, hashes: map<string, string>)
    requires FullDigests(names, hashes) && |names| >= 2 && Body(names, hashes) == n
    ensures var j, rest := |names[0]|, Body(names[1..], hashes);
      j + DIGEST_SIZE + |rest| == |n| && n[..j] == names[0] && n[j + DIGEST_SIZE..] == rest
      && n[j..j + DIGEST_SIZE] == hashes[names[0]]
  {
  }

  // ---------------------------------------------------------------------------------------------
  // Samples of any names

  /** Distinct names in order, a full digest for each. */
  ghost predicate Sample(names: seq<string>, hashes: map<string, string>) {
    Sorted(names, StringLeq) && Distinct(names) && FullDigests(names, hashes)
  }

  ghost predicate SameSample(
    names: seq<string>, hashes: map<string, string>, names': seq<string>, hashes': map<string, string>)
    requires FullDigests(names, hashes) && FullDigests(names', hashes')
  {
    names == names' && forall n :: n in names ==> hashes[n] == hashes'[n]
  }

  /** No other sample, under this manifest or a comparable one, is fed alike. */
  ghost predicate ToldApart(m: Option<string>, names: seq<string>, hashes: map<string, string>)
    requires FullDigests(names, hashes)
  {
    forall m', names', hashes' ::
      (Comparable(m, m') && Sample(names', hashes') && Stream(m, names, hashes) == Stream(m', names', hashes')) ==>
        m == m' && SameSample(names, hashes, names', hashes')
  }

  lemma {:induction false} OneLongName(names: seq<string>, hashes: map<string, string>) returns (n: string, h: string)
    requires FullDigests(names, hashes) && |names| >= 2
    ensures Sample([n], map[n := h]) && Stream(None, names, hashes) == Stream(None, [n], map[n := h])
    ensures n == Body(names, hashes)
  {
    n, h := Body(names, hashes), hashes[names[|names| - 1]];
    BodiesGiveStreams(names, hashes, [n], map[n := h]);
  }

  /** Under any manifest, samples fed alike without one are fed alike. */
  lemma {:induction false} NotApart(
    m: Option<string>, names: seq<string>, hashes: map<string, string>,
    names': seq<string>, hashes': map<string, string>)
    requires FullDigests(names, hashes) && Sample(names', hashes') && names != names'
    requires Stream(None, names, hashes) == Stream(None, names', hashes')
    ensures !ToldApart(m, names, hashes)
  {
    AfterManifest(m, names, hashes);
    AfterManifest(m, names', hashes');
  }

  lemma {:induction false} SeveralNotApart(m: Option<string>, names: seq<string>, hashes: map<string, string>)
    requires Sample(names, hashes) && |names| >= 2
    ensures !ToldApart(m, names, hashes)
  {
    var n, h := OneLongName(names, hashes);
    NotApart(m, names, hashes, [n], map[n := h]);
  }

  lemma {:induction false} LongNotApart(m: Option<string>, n: string, hashes: map<string, string>)
    requires FullDigests([n], hashes) && |n| > DIGEST_SIZE
    ensures !ToldApart(m, [n], hashes)
  {
    var rest := n[DIGEST_SIZE..];
    var names' := ["", rest];
    var hashes' := map["" := n[..DIGEST_SIZE], rest := hashes[n]];
    assert names'[1..] == [rest];
    assert Body(names', hashes') == "" + n[..DIGEST_SIZE] + rest == n;
    BodiesGiveStreams([n], hashes, names', hashes');
    NotApart(m, [n], hashes, names', hashes');
  }

  lemma {:induction false} BodyIsLong(names: seq<string>, hashes: map<string, string>)
    requires FullDigests(names, hashes) && Distinct(names) && |names| >= 2
    ensures |Body(names, hashes)| > DIGEST_SIZE
  {
    assert names[0] != names[1];
    assert names[1..][0] == names[1];
  }

  /** One name, read as a sample: that sample, unless it is read as several. */
  lemma {:induction false} OneNameApart(
    n: string, hashes: map<string, string>, names': seq<string>, hashes': map<string, string>)
    requires FullDigests([n], hashes) && FullDigests(names', hashes') && |names'| < 2
    requires Stream(None, [n], hashes) == Stream(None, names', hashes')
    ensures SameSample([n], hashes, names', hashes')
  {
    BodiesAgree([n], hashes, names', hashes');
    assert names' == [n];
  }

  lemma {:induction false} EmptyApart(names': seq<string>, hashes': map<string, string>)
    requires FullDigests(names', hashes') && Stream(None, names', hashes') == ""
    ensures names' == []
  {
    if names' != [] {
      StreamIsBody(names', hashes');
      assert false;
    }
  }

  /**
   * The digest's stream tells a sample from every other exactly when it has no file, or one whose name is no longer
   * than a digest. The condition does not depend on the manifest or on the digests.
   */
  lemma {:induction false} ToldApartExactly(m: Option<string>, names: seq<string>, hashes: map<string, string>)
    requires Sample(names, hashes)
    ensures ToldApart(m, names, hashes) <==> |names| == 0 || (|names| == 1 && |names[0]| <= DIGEST_SIZE)
  {
    if |names| >= 2 {
      SeveralNotApart(m, names, hashes);
    } else if |names| == 1 && |names[0]| > DIGEST_SIZE {
      assert names == [names[0]];
      LongNotApart(m, names[0], hashes);
    } else {
      forall m', names', hashes' | Comparable(m, m') && Sample(names', hashes')
        && Stream(m, names, hashes) == Stream(m', names', hashes')
        ensures m == m' && SameSample(names, hashes, names', hashes')
      {
        ManifestsAgree(m, names, hashes, m', names', hashes');
        ShortApart(names, hashes, names', hashes');
      }
    }
  }

  lemma {:induction false} ShortApart(
    names: seq<string>, hashes: map<string, string>, names': seq<string>, hashes': map<string, string>)
    requires FullDigests(names, hashes) && |names| <= 1 && (|names| == 1 ==> |names[0]| <= DIGEST_SIZE)
    requires Sample(names', hashes') && Stream(None, names, hashes) == Stream(None, names', hashes')
    ensures SameSample(names, hashes, names', hashes')
  {
    if names == [] {
      EmptyApart(names', hashes');
    } else {
      assert names == [names[0]];
      BodiesAgree(names, hashes, names', hashes');
      if |names'| >= 2 {
        BodyIsLong(names', hashes');
      } else {
        OneNameApart(names[0], hashes, names', hashes');
      }
    }
  }

  // ---------------------------------------------------------------------------------------------
  // Samples of file names

  const NUL := 0 as char

  /** A name a directory can hold, as the hasher gets it: UTF-8 without a separator, and one the harness would list. */
  predicate FileName(n: string, listed: string -> bool) {
    n != "" && WellFormed(n) && NUL !in n && '/' !in n && listed(n)
  }

  /** Being listed depends on how a name ends. */
  ghost predicate ByEnding(listed: string -> bool) {
    forall p, n :: listed(n) ==> listed(p + n)
  }

  const SUFFIXES := {".pdf", ".png", ".jpg", ".jpeg", ".tiff", ".tif", ".bmp", ".gif"}

  function Lower(s: string): (r: string)
    ensures |r| == |s|
  {
    seq(|s|, i requires 0 <= i < |s| => if 'A' <= s[i] <= 'Z' then s[i] - 'A' + 'a' else s[i])
  }

  /** The files the harness stages: `path.suffix.lower()` is supported. A name that is all suffix has none. */
  predicate Staged(n: string) {
    exists x :: x in SUFFIXES && |x| < |n| && Lower(n[|n| - |x|..]) == x
  }

  lemma {:induction false} StagedByEnding()
    ensures ByEnding(Staged)
  {
    forall p, n: string | Staged(n) ensures Staged(p + n) {
      var x :| x in SUFFIXES && |x| < |n| && Lower(n[|n| - |x|..]) == x;
      assert (p + n)[|p + n| - |x|..] == n[|n| - |x|..];
    }
  }

  ghost predicate Bytes(s: string) {
    forall i :: 0 <= i < |s| ==> s[i] as int < 256
  }

  ghost predicate FileNames(names: seq<string>, listed: string -> bool) {
    Sorted(names, StringLeq) && Distinct(names) && forall n :: n in names ==> FileName(n, listed)
  }

  /** A sample of files, each with the bytes of its digest. */
  ghost predicate FileSample(names: seq<string>, hashes: map<string, string>, listed: string -> bool) {
    FileNames(names, listed) && FullDigests(names, hashes) && forall n :: n in names ==> Bytes(hashes[n])
  }

  /** Whatever the digests of these files, no other sample of files is fed alike. */
  ghost predicate AlwaysApart(m: Option<string>, names: seq<string>, listed: string -> bool) {
    forall hashes, m', names', hashes' ::
      (FileSample(names, hashes, listed) && FileSample(names', hashes', listed) && Comparable(m, m')
       && Stream(m, names, hashes) == Stream(m', names', hashes')) ==>
        m == m' && SameSample(names, hashes, names', hashes')
  }

  /** The name reads as one name, as many bytes as a digest has, and another name. */
  predicate SplitsAt(n: string, j: nat, listed: string -> bool) {
    && j + DIGEST_SIZE < |n| && FileName(n[..j], listed) && FileName(n[j + DIGEST_SIZE..], listed)
    && n[..j] != n[j + DIGEST_SIZE..] && StringLeq(n[..j], n[j + DIGEST_SIZE..])
  }

  predicate Splits(n: string, listed: string -> bool) {
    exists j :: 0 <= j < |n| && SplitsAt(n, j, listed)
  }

  const FILLER: string := seq(DIGEST_SIZE, i => 'a')

  lemma {:induction false} FillerIsPlain()
    ensures |FILLER| == DIGEST_SIZE && Bytes(FILLER) && WellFormed(FILLER) && NUL !in FILLER && '/' !in FILLER
  {
    assert forall i :: 0 <= i < |FILLER| ==> FILLER[i] == 'a';
    AsciiWellFormed(FILLER);
  }

  /** Names joined by digests that could be part of a name make a name. */
  lemma {:induction false} BodyIsName(names: seq<string>, hashes: map<string, string>, listed: string -> bool)
    requires names != [] && FullDigests(names, hashes) && ByEnding(listed)
    requires forall n :: n in names ==> FileName(n, listed)
    requires forall n :: n in names ==> WellFormed(hashes[n]) && NUL !in hashes[n] && '/' !in hashes[n]
    ensures FileName(Body(names, hashes), listed)
  {
    if |names| > 1 {
      var a, h, rest := names[0], hashes[names[0]], Body(names[1..], hashes);
      BodyIsName(names[1..], hashes, listed);
      JoinWellFormed(a, h);
      JoinWellFormed(a + h, rest);
      assert listed((a + h) + rest);
    }
  }

  /** Two files or more: the one file whose name is all of the stream but its last digest. */
  lemma {:induction false} FilesRunTogether(names: seq<string>, hashes: map<string, string>, listed: string -> bool)
    returns (n: string, h: string)
    requires FileSample(names, hashes, listed) && |names| >= 2 && ByEnding(listed)
    requires forall n :: n in names ==> WellFormed(hashes[n]) && NUL !in hashes[n] && '/' !in hashes[n]
    ensures FileSample([n], map[n := h], listed) && [n] != names
    ensures Stream(None, names, hashes) == Stream(None, [n], map[n := h])
  {
    n, h := OneLongName(names, hashes);
    BodyIsName(names, hashes, listed);
    StreamIsBody(names, hashes);
    StreamIsBody([n], map[n := h]);
    BodiesAgree(names, hashes, [n], map[n := h]);
  }

  lemma {:induction false} NotAlwaysApart(
    m: Option<string>, names: seq<string>, hashes: map<string, string>,
    names': seq<string>, hashes': map<string, string>,
    listed: string -> bool)
    requires FileSample(names, hashes, listed) && FileSample(names', hashes', listed) && names != names'
    requires Stream(None, names, hashes) == Stream(None, names', hashes')
    ensures !AlwaysApart(m, names, listed)
  {
    AfterManifest(m, names, hashes);
    AfterManifest(m, names', hashes');
  }

  lemma {:induction false} SeveralFilesNotApart(m: Option<string>, names: seq<string>, listed: string -> bool)
    requires FileNames(names, listed) && |names| >= 2 && ByEnding(listed)
    ensures !AlwaysApart(m, names, listed)
  {
    FillerIsPlain();
    var hashes := map n | n in names :: FILLER;
    var n, h := FilesRunTogether(names, hashes, listed);
    NotAlwaysApart(m, names, hashes, [n], map[n := h], listed);
  }

  lemma {:induction false} TwoFiles(a: string, h: string, b: string, g: string, listed: string -> bool)
    requires FileName(a, listed) && FileName(b, listed) && a != b && StringLeq(a, b)
    requires |h| == DIGEST_SIZE && |g| == DIGEST_SIZE && Bytes(h) && Bytes(g)
    ensures FileSample([a, b], map[a := h, b := g], listed)
    ensures Body([a, b], map[a := h, b := g]) == a + h + b
  {
    hide FileName;
    hide StringLeq;
    assert [a, b][1..] == [b];
  }

  lemma {:induction false} Cut(n: string, j: nat)
    requires WellFormed(n) && j + DIGEST_SIZE < |n|
    ensures n == n[..j] + n[j..j + DIGEST_SIZE] + n[j + DIGEST_SIZE..]
    ensures |n[j..j + DIGEST_SIZE]| == DIGEST_SIZE && Bytes(n[j..j + DIGEST_SIZE])
  {
    AreBytes(n);
  }

  lemma {:induction false} SplitNotApart(m: Option<string>, n: string, j: nat, listed: string -> bool)
    requires FileName(n, listed) && SplitsAt(n, j, listed)
    ensures !AlwaysApart(m, [n], listed)
  {
    Cut(n, j);
    FillerIsPlain();
    hide FILLER;
    hide FileName;
    hide Bytes;
    hide StringLeq;
    hide AlwaysApart;
    hide WellFormed;
    PairNotApart(m, n, n[..j], n[j..j + DIGEST_SIZE], n[j + DIGEST_SIZE..], FILLER, listed);
  }

  lemma {:induction false} PairNotApart(
    m: Option<string>, n: string, a: string, h: string, b: string, g: string, listed: string -> bool)
    requires FileName(n, listed) && FileName(a, listed) && FileName(b, listed) && a != b && StringLeq(a, b)
    requires |h| == DIGEST_SIZE && |g| == DIGEST_SIZE && Bytes(h) && Bytes(g) && n == a + h + b
    ensures !AlwaysApart(m, [n], listed)
  {
    hide FileName;
    hide StringLeq;
    hide Stream;
    TwoFiles(a, h, b, g, listed);
    BodyOfOne(n, map[n := g]);
    hide Body;
    BodiesGiveStreams([n], map[n := g], [a, b], map[a := h, b := g]);
    NotAlwaysApart(m, [n], map[n := g], [a, b], map[a := h, b := g], listed);
  }

  lemma {:induction false} BodyOfOne(n: string, hashes: map<string, string>)
    requires n in hashes
    ensures Body([n], hashes) == n
  {
  }

  // ---------------------------------------------------------------------------------------------
  // Reading one file name as several

  lemma {:induction false} LeqExtended(a: string, b: string, c: string)
    requires StringLeq(a, b)
    ensures StringLeq(a, b + c)
  {
    if a != [] {
      assert (b + c)[1..] == b[1..] + c;
    }
    if a != [] && a[0] == b[0] {
      LeqExtended(a[1..], b[1..], c);
    }
  }

  lemma {:induction false} LeqReflexive(a: string)
    ensures StringLeq(a, a)
  {
    if a != [] {
      LeqReflexive(a[1..]);
    }
  }

  lemma {:induction false} Regroup(a: string, b: string, c: string)
    ensures a + b + c == a + (b + c)
  {
  }

  /** A body begins with its first name and ends with its last. */
  lemma {:induction false} BodyEnds(names: seq<string>, hashes: map<string, string>)
      returns (after: string, before: string)
    requires names != [] && forall n :: n in names ==> n in hashes
    ensures Body(names, hashes) == names[0] + after
    ensures Body(names, hashes) == before + names[|names| - 1]
  {
    if |names| == 1 {
      after, before := "", "";
    } else {
      var x, h, rest, last := names[0], hashes[names[0]], Body(names[1..], hashes), names[|names| - 1];
      var a, b := BodyEnds(names[1..], hashes);
      assert Body(names, hashes) == x + h + rest && names[1..][|names| - 2] == last;
      hide Body;
      after, before := h + rest, x + h + b;
      Regroup(x, h, rest);
      Regroup(x + h, b, last);
    }
  }

  /** What is left of a file name after its first name and digest is a file name too, and comes later. */
  lemma {:induction false} SplitByReading(
    n: string, names: seq<string>, hashes: map<string, string>, listed: string -> bool)
    requires FileName(n, listed) && FileSample(names, hashes, listed) && ByEnding(listed)
    requires |names| >= 2 && Body(names, hashes) == n
    ensures Splits(n, listed)
  {
    var j, rest := |names[0]|, Body(names[1..], hashes);
    OneNameRead(n, names, hashes);
    var after, before := BodyEnds(names[1..], hashes);
    assert names[1..][0] == names[1] && names[1..][|names| - 2] == names[|names| - 1];
    RestIsName(n, j + DIGEST_SIZE, names[1], after, before, names[|names| - 1], listed);
    RestIsLater(names[0], names[1], after);
    assert SplitsAt(n, j, listed);
  }

  lemma {:induction false} RestIsName(
    n: string, k: nat, first: string, after: string, before: string, last: string, listed: string -> bool)
    requires FileName(n, listed) && FileName(first, listed) && FileName(last, listed) && ByEnding(listed)
    requires k <= |n| && n[k..] == first + after && n[k..] == before + last
    ensures FileName(n[k..], listed)
  {
    BeginsNoTail(first);
    assert n == n[..k] + n[k..] && n[k..][0] == first[0];
    SuffixWellFormed(n[..k], n[k..]);
    assert listed(before + last);
    assert forall c :: c in n[k..] ==> c in n;
  }

  lemma {:induction false} RestIsLater(a: string, b: string, after: string)
    requires StringLeq(a, b) && a != b
    ensures StringLeq(a, b + after) && a != b + after
  {
    LeqExtended(a, b, after);
    if a == b + after {
      LeqReflexive(b);
      LeqExtended(b, b, after);
      StringLeqAntisymmetric(a, b);
    }
  }

  lemma {:induction false} FilesApart(
    names: seq<string>, hashes: map<string, string>, names': seq<string>, hashes': map<string, string>,
    listed: string -> bool)
    requires FileSample(names, hashes, listed) && FileSample(names', hashes', listed) && ByEnding(listed)
    requires |names| <= 1 && (|names| == 1 ==> !Splits(names[0], listed))
    requires Stream(None, names, hashes) == Stream(None, names', hashes')
    ensures SameSample(names, hashes, names', hashes')
  {
    if names == [] {
      EmptyApart(names', hashes');
    } else {
      assert names == [names[0]];
      BodiesAgree(names, hashes, names', hashes');
      if |names'| >= 2 {
        SplitByReading(names[0], names', hashes', listed);
      } else {
        OneNameApart(names[0], hashes, names', hashes');
      }
    }
  }

  /**
   * Of samples of files: whatever their digests, the stream tells them from every other sample of files exactly when
   * there is no file, or one whose name does not itself read as a name, a digest and a later name.
   */
  lemma {:induction false} AlwaysApartExactly(m: Option<string>, names: seq<string>, listed: string -> bool)
    requires FileNames(names, listed) && ByEnding(listed)
    ensures AlwaysApart(m, names, listed) <==> |names| == 0 || (|names| == 1 && !Splits(names[0], listed))
  {
    if |names| >= 2 {
      SeveralFilesNotApart(m, names, listed);
    } else if |names| == 1 && Splits(names[0], listed) {
      var j :| 0 <= j < |names[0]| && SplitsAt(names[0], j, listed);
      assert names == [names[0]];
      SplitNotApart(m, names[0], j, listed);
    } else {
      forall hashes, m', names', hashes' |
        FileSample(names, hashes, listed) && FileSample(names', hashes', listed) && Comparable(m, m')
        && Stream(m, names, hashes) == Stream(m', names', hashes')
        ensures m == m' && SameSample(names, hashes, names', hashes')
      {
        ManifestsAgree(m, names, hashes, m', names', hashes');
        FilesApart(names, hashes, names', hashes', listed);
      }
    }
  }
}
