/** Reading a container back: the header and each section as they were built. */
module ContainerReader {
  import opened Bytes
  import opened Container
  import opened Results
  import opened Strings

  datatype Contents = Contents(major: nat, minor: nat, patch: nat, ranges: seq<Range>)

  function HeaderOf(codec: Codec, bytes: seq<Byte>): Result<Contents, Code> {
    var version, end := Get(bytes, 8, 12), Get(bytes, HEADER_END_LOCATION, 8);
    if Get(bytes, 0, 8) != MAGIC then Err(InvalidArgument)
    else if |version| != 12 || |end| != 8 then Err(InvalidArgument)
    else
      var ranges :- codec.decode(Get(bytes, HEADER_BEGIN, FromLittle(end) - HEADER_BEGIN));
      Ok(Contents(FromLittle(version[..4]), FromLittle(version[4..8]), FromLittle(version[8..]), ranges))
  }

  function SectionOf(bytes: seq<Byte>, r: Range): seq<Byte> { Get(bytes, r.begin, r.end - r.begin) }

  /** `read_litertlm_header`, on a file just opened. */
  method ReadHeader(stream: Stream, codec: Codec) returns (r: Result<Contents, Code>)
    modifies stream`pos
    ensures r == HeaderOf(codec, stream.bytes)
  {
    stream.Seek(0);
    var magic := stream.Read(8);
    if magic != MAGIC { return Err(InvalidArgument); }
    assert stream.pos == 8;
    var version := stream.Read(12);
    if |version| != 12 { return Err(InvalidArgument); }
    stream.Seek(HEADER_END_LOCATION);
    var end := stream.Read(8);
    if |end| != 8 { return Err(InvalidArgument); }
    var headerEndOffset := FromLittle(end);
    stream.Seek(HEADER_BEGIN);
    var headerData := stream.Read(headerEndOffset - HEADER_BEGIN);
    var ranges := codec.decode(headerData);
    if ranges.Err? { return Err(ranges.error); }
    return Ok(Contents(FromLittle(version[..4]), FromLittle(version[4..8]), FromLittle(version[8..]), ranges.value));
  }

  /** The section reads of `_dump_section_content`. */
  method ReadSection(stream: Stream, range: Range) returns (data: seq<Byte>)
    modifies stream`pos
    ensures data == SectionOf(stream.bytes, range)
  {
    stream.Seek(range.begin);
    data := stream.Read(range.end - range.begin);
  }

  // ---- the layout --------------------------------------------------------------------------------

  predicate Fits(codec: Codec, sections: seq<seq<Byte>>) {
    HEADER_BEGIN + |codec.encode(Ranges(sections))| <= BLOCK_SIZE
  }

  /** Where the section after the first `k` begins, or the end of the last block. */
  function Begin(sections: seq<seq<Byte>>, k: nat): nat
    requires k <= |sections|
  {
    BLOCK_SIZE + |Body(sections[..k])|
  }

  lemma {:induction false} BodyPrefix(sections: seq<seq<Byte>>, k: nat)
    requires k <= |sections|
    ensures Body(sections[..k]) <= Body(sections)
  {
    hide PaddingNeeded, Zeros;
    if k == |sections| {
      assert sections[..k] == sections;
    } else {
      var n := |sections| - 1;
      BodyPrefix(sections[..n], k);
      assert sections[..n][..k] == sections[..k];
    }
  }

  lemma {:induction false} RangeAt(sections: seq<seq<Byte>>, k: nat)
    requires k < |sections|
    ensures Ranges(sections)[k] == Range(Begin(sections, k), Begin(sections, k) + |sections[k]|)
  {
    hide Body;
    var n := |sections| - 1;
    if k < n {
      RangeAt(sections[..n], k);
      assert sections[..n][..k] == sections[..k];
    }
  }

  /** A section, and the zeros after it up to the next block, in the body. */
  lemma BodyHolds(sections: seq<seq<Byte>>, k: nat)
    requires k < |sections|
    ensures var b, at, next := Body(sections), Begin(sections, k) - BLOCK_SIZE, Begin(sections, k + 1) - BLOCK_SIZE;
            && at + |sections[k]| <= next < at + |sections[k]| + BLOCK_SIZE && next <= |b|
            && b[at..at + |sections[k]|] == sections[k]
            && forall i :: at + |sections[k]| <= i < next ==> b[i] == 0
  {
    hide PaddingNeeded;
    assert sections[..k + 1][..k] == sections[..k];
    BodyPrefix(sections, k + 1);
    var before := Body(sections[..k]) + sections[k];
    assert Body(sections[..k + 1]) == before + Zeros(PaddingNeeded(|before|, BLOCK_SIZE));
    assert before[|Body(sections[..k])|..] == sections[k];
    assert before <= Body(sections);
  }

  /** What a build leaves: the header, zeros to the end of the first block, the body, and whatever
      there was beyond it. */
  lemma {:induction false} BuiltIs(codec: Codec, sections: seq<seq<Byte>>, before: seq<Byte>)
    requires Fits(codec, sections)
    ensures var f, h := Built(codec, sections, before), Header(codec.encode(Ranges(sections)));
            && |f| >= BLOCK_SIZE + |Body(sections)|
            && h <= f
            && (forall i :: |h| <= i < BLOCK_SIZE ==> f[i] == 0)
            && f[BLOCK_SIZE..BLOCK_SIZE + |Body(sections)|] == Body(sections)
            && f[BLOCK_SIZE + |Body(sections)|..] ==
               if |before| > BLOCK_SIZE + |Body(sections)| then before[BLOCK_SIZE + |Body(sections)|..] else []
  {
    hide Body, Header, Ranges;
    PutTwice(before, Zeros(BLOCK_SIZE), Body(sections), Header(codec.encode(Ranges(sections))));
  }

  lemma PutTwice(before: seq<Byte>, first: seq<Byte>, body: seq<Byte>, header: seq<Byte>)
    requires 0 < |header| <= |first|
    ensures var f := Put(Put(before, 0, first + body), 0, header);
            && |f| >= |first| + |body|
            && header <= f
            && f[|header|..|first|] == first[|header|..]
            && f[|first|..|first| + |body|] == body
            && f[|first| + |body|..] == if |before| > |first| + |body| then before[|first| + |body|..] else []
  {
    hide Put;
    var tail := if |before| > |first| + |body| then before[|first| + |body|..] else [];
    PutAtStart(before, first + body);
    var g := first + body + tail;
    PutAtStart(g, header);
    assert g[|header|..] == first[|header|..] + (body + tail);
    FourParts(header, first[|header|..], body, tail);
    Assoc(header, first[|header|..], body + tail);
    Assoc(header + first[|header|..], body, tail);
  }

  lemma PutAtStart(bytes: seq<Byte>, x: seq<Byte>)
    requires x != []
    ensures Put(bytes, 0, x) == x + (if |bytes| > |x| then bytes[|x|..] else [])
  {
    if |bytes| == |x| { assert bytes[|x|..] == []; }
    assert bytes[..0] + x == x;
  }

  lemma FourParts(a: seq<Byte>, b: seq<Byte>, c: seq<Byte>, d: seq<Byte>)
    ensures var f := a + b + c + d;
            && a <= f && f[|a|..|a| + |b|] == b && f[|a| + |b|..|a| + |b| + |c|] == c && f[|a| + |b| + |c|..] == d
  {
  }

  /** The sections lie in whole blocks after the first, in order and apart. */
  lemma RangesApart(sections: seq<seq<Byte>>, k: nat)
    requires k < |sections|
    ensures var r := Ranges(sections);
            && r[0].begin == BLOCK_SIZE
            && r[k].begin % BLOCK_SIZE == 0
            && r[k].end == r[k].begin + |sections[k]|
            && (k + 1 < |sections| ==> r[k].end <= r[k + 1].begin < r[k].end + BLOCK_SIZE)
            && r[k].end <= BLOCK_SIZE + |Body(sections)|
  {
    hide Ranges, Body;
    RangeAt(sections, k);
    RangeAt(sections, 0);
    FirstBegins(sections);
    BodyHolds(sections, k);
    if k + 1 < |sections| { RangeAt(sections, k + 1); }
    AddBlock(|Body(sections[..k])|, BLOCK_SIZE);
  }

  /** Each section is where its range says. */
  lemma {:induction false} SectionReadBack(codec: Codec, sections: seq<seq<Byte>>, before: seq<Byte>, k: nat)
    requires Fits(codec, sections) && k < |sections|
    ensures SectionOf(Built(codec, sections, before), Ranges(sections)[k]) == sections[k]
  {
    hide Built, Ranges, Body, Header;
    var f, b, at := Built(codec, sections, before), Body(sections), Begin(sections, k);
    BuiltIs(codec, sections, before);
    RangeAt(sections, k);
    BodyHolds(sections, k);
    SliceOfSlice(f, b, BLOCK_SIZE, at - BLOCK_SIZE, at - BLOCK_SIZE + |sections[k]|);
    SectionGot(f, Ranges(sections)[k]);
  }

  lemma SliceOfSlice(f: seq<Byte>, b: seq<Byte>, start: nat, i: nat, j: nat)
    requires i <= j <= |b| && start + |b| <= |f| && f[start..start + |b|] == b
    ensures f[start + i..start + j] == b[i..j]
    ensures forall k :: start <= k < start + |b| ==> f[k] == b[k - start]
  {
    forall k | start <= k < start + |b| ensures f[k] == b[k - start] {
      assert f[start..start + |b|][k - start] == b[k - start];
    }
  }

  /** Between a section and the next block there are only zeros. */
  lemma {:induction false} GapIsZero(codec: Codec, sections: seq<seq<Byte>>, before: seq<Byte>, k: nat, i: nat)
    requires Fits(codec, sections) && k < |sections|
    requires Ranges(sections)[k].end <= i < (if k + 1 < |sections| then Ranges(sections)[k + 1].begin
             else BLOCK_SIZE + |Body(sections)|)
    ensures i < |Built(codec, sections, before)| && Built(codec, sections, before)[i] == 0
  {
    hide Built, Ranges, Body, Header;
    var f, b := Built(codec, sections, before), Body(sections);
    BuiltIs(codec, sections, before);
    RangeAt(sections, k);
    BodyHolds(sections, k);
    if k + 1 < |sections| { RangeAt(sections, k + 1); } else { assert sections[..k + 1] == sections; }
    SliceOfSlice(f, b, BLOCK_SIZE, 0, 0);
    assert b[i - BLOCK_SIZE] == 0;
  }

  lemma FirstBegins(sections: seq<seq<Byte>>)
    ensures Begin(sections, 0) == BLOCK_SIZE
  {
    assert sections[..0] == [];
  }

  lemma SectionGot(f: seq<Byte>, r: Range)
    requires r.begin <= r.end <= |f|
    ensures SectionOf(f, r) == f[r.begin..r.end]
  {
  }

  /** Reading the header back gives the version and the ranges that were written. */
  lemma HeaderReadBack(codec: Codec, sections: seq<seq<Byte>>, before: seq<Byte>)
    requires Faithful(codec) && Fits(codec, sections)
    ensures HeaderOf(codec, Built(codec, sections, before)) == Ok(Contents(MAJOR, MINOR, PATCH, Ranges(sections)))
  {
    hide Built, Ranges, Body, Header, ToLittle, FromLittle, Pow256, Version, Zeros;
    var f, data := Built(codec, sections, before), codec.encode(Ranges(sections));
    var end := HEADER_BEGIN + |data|;
    BuiltIs(codec, sections, before);
    SmallFits(end, 8);
    LittleRoundTrip(end, 8);
    HeaderParts(f, data);
    VersionParts();
  }

  lemma {:induction false} HeaderParts(f: seq<Byte>, data: seq<Byte>)
    requires HEADER_BEGIN + |data| <= BLOCK_SIZE && HEADER_BEGIN + |data| < Pow256(8)
    requires Header(data) <= f
    ensures Get(f, 0, 8) == MAGIC
    ensures Get(f, 8, 12) == Version()
    ensures Get(f, HEADER_END_LOCATION, 8) == ToLittle(HEADER_BEGIN + |data|, 8)
    ensures Get(f, HEADER_BEGIN, |data|) == data
  {
    hide ToLittle, Pow256, Version;
    FiveParts(f, MAGIC, Version(), Zeros(4), ToLittle(HEADER_BEGIN + |data|, 8), data);
  }

  lemma FiveParts(f: seq<Byte>, a: seq<Byte>, b: seq<Byte>, c: seq<Byte>, d: seq<Byte>, e: seq<Byte>)
    requires a + b + c + d + e <= f
    requires |a| == 8 && |b| == 12 && |c| == 4 && |d| == 8
    ensures Get(f, 0, 8) == a && Get(f, 8, 12) == b && Get(f, 24, 8) == d && Get(f, 32, |e|) == e
  {
    var h := a + b + c + d + e;
    assert f[0..8] == h[0..8] == a;
    assert f[8..20] == h[8..20] == b;
    assert f[24..32] == h[24..32] == d;
    assert f[32..32 + |e|] == h[32..] == e;
  }

  lemma VersionParts()
    ensures FromLittle(Version()[..4]) == MAJOR && FromLittle(Version()[4..8]) == MINOR
            && FromLittle(Version()[8..]) == PATCH
  {
    hide ToLittle, FromLittle, Pow256;
    SmallFits(MAJOR, 4); SmallFits(MINOR, 4); SmallFits(PATCH, 4);
    LittleRoundTrip(MAJOR, 4); LittleRoundTrip(MINOR, 4); LittleRoundTrip(PATCH, 4);
    var v := Version();
    assert v[..4] == ToLittle(MAJOR, 4) && v[4..8] == ToLittle(MINOR, 4) && v[8..] == ToLittle(PATCH, 4);
  }

  /** Whatever was in the stream before: what is built into it is read back, the same sections in
      order. */
  lemma RoundTrip(codec: Codec, sections: seq<seq<Byte>>, before: seq<Byte>)
    requires Faithful(codec) && Fits(codec, sections)
    ensures var f := Built(codec, sections, before);
            var contents := HeaderOf(codec, f);
            && contents.Ok? && |contents.value.ranges| == |sections|
            && forall k :: 0 <= k < |sections| ==> SectionOf(f, contents.value.ranges[k]) == sections[k]
  {
    hide Built, HeaderOf, SectionOf, Header, Faithful;
    HeaderReadBack(codec, sections, before);
    forall k | 0 <= k < |sections|
      ensures SectionOf(Built(codec, sections, before), Ranges(sections)[k]) == sections[k]
    {
      SectionReadBack(codec, sections, before, k);
    }
  }

  // ---- byte by byte ------------------------------------------------------------------------------

  /** A built file begins with the letters LITERTLM, the version 1.5.0 in three numbers of four bytes, four zeros
      and, in eight bytes, the place where the header ends; its data begin at byte 32, and the sections at byte
      16384. */
  lemma {:induction false} HeaderBytes(codec: Codec, sections: seq<seq<Byte>>, before: seq<Byte>)
    requires Fits(codec, sections)
    ensures var f, data := Built(codec, sections, before), codec.encode(Ranges(sections));
            && |f| >= 16384 && 32 + |data| <= 16384 && 32 + |data| < Pow256(8)
            && f[0..8] == [76, 73, 84, 69, 82, 84, 76, 77]
            && f[8..24] == [1, 0, 0, 0, 5, 0, 0, 0, 0, 0, 0, 0, 0, 0, 0, 0]
            && f[24..32] == ToLittle(32 + |data|, 8)
            && f[32..32 + |data|] == data
            && (sections != [] ==> Ranges(sections)[0].begin == 16384)
  {
    hide Built, Header, Ranges, Body, ToLittle, Pow256, Zeros;
    var f, data := Built(codec, sections, before), codec.encode(Ranges(sections));
    BuiltIs(codec, sections, before);
    SmallFits(32 + |data|, 8);
    HeaderParts(f, data);
    VersionBytes();
    GapBytes(f, data);
    if sections != [] {
      RangeAt(sections, 0);
      FirstBegins(sections);
    }
  }

  lemma VersionBytes()
    ensures Version() == [1, 0, 0, 0, 5, 0, 0, 0, 0, 0, 0, 0]
  {
    SmallFits(MAJOR, 4); SmallFits(MINOR, 4); SmallFits(PATCH, 4);
    FourBytes(1);
    FourBytes(5);
    FourBytes(0);
  }

  lemma FourBytes(n: nat)
    requires n < 256
    ensures n < Pow256(4) && ToLittle(n, 4) == [n, 0, 0, 0]
  {
    SmallFits(n, 4);
    SmallFits(0, 3);
    SmallFits(0, 2);
    assert Pow256(1) == 256 * Pow256(0) && Pow256(0) == 1;
    assert ToLittle(0, 1) == [0] + ToLittle(0, 0) == [0];
    assert ToLittle(0, 2) == [0] + ToLittle(0, 1);
    assert ToLittle(0, 3) == [0] + ToLittle(0, 2);
    assert ToLittle(n, 4) == [n % 256] + ToLittle(n / 256, 3);
  }

  lemma {:induction false} GapBytes(f: seq<Byte>, data: seq<Byte>)
    requires HEADER_BEGIN + |data| <= BLOCK_SIZE && HEADER_BEGIN + |data| < Pow256(8)
    requires Header(data) <= f && Version() == [1, 0, 0, 0, 5, 0, 0, 0, 0, 0, 0, 0]
    ensures |f| >= 32 && f[8..24] == [1, 0, 0, 0, 5, 0, 0, 0, 0, 0, 0, 0, 0, 0, 0, 0]
  {
    hide ToLittle, Pow256, Version;
    var h := Header(data);
    assert h == MAGIC + Version() + Zeros(4) + ToLittle(HEADER_BEGIN + |data|, 8) + data;
    assert Zeros(4) == [0, 0, 0, 0];
    MiddlePart(f, MAGIC, Version(), Zeros(4), ToLittle(HEADER_BEGIN + |data|, 8), data);
  }

  lemma MiddlePart(f: seq<Byte>, a: seq<Byte>, b: seq<Byte>, c: seq<Byte>, d: seq<Byte>, e: seq<Byte>)
    requires a + b + c + d + e <= f && |a| == 8 && |b| == 12 && |c| == 4 && |d| == 8
    ensures |f| >= 32 && f[8..24] == b + c
  {
    var h := a + b + c + d + e;
    assert f[8..24] == h[8..24] == b + c;
  }

  lemma PartOf(bytes: seq<Byte>, from: nat, to: nat, i: nat, j: nat)
    requires from <= to <= |bytes| && i <= j <= to - from
    ensures bytes[from..to][i..j] == bytes[from + i..from + j]
    ensures i == 0 ==> bytes[from..to][..j] == bytes[from..from + j]
    ensures j == to - from ==> bytes[from..to][i..] == bytes[from + i..to]
  {
    var a, b := bytes[from..to][i..j], bytes[from + i..from + j];
    forall k | 0 <= k < |a| ensures a[k] == b[k] { assert a[k] == bytes[from..to][i + k] == bytes[from + (i + k)]; }
    assert a == b;
  }

  /** A header is read exactly from a file of at least 32 bytes that begins with the eight letters and whose data can
      be decoded: those up to the place at byte 24 if it lies after byte 31 and within the file, else all from byte
      32 on.  Whatever is not read is an error, of the wrong letters or of the file's length before the data's. */
  lemma {:induction false} HeaderReadIff(codec: Codec, bytes: seq<Byte>)
    ensures var r := HeaderOf(codec, bytes);
            if |bytes| < 32 || bytes[0..8] != [76, 73, 84, 69, 82, 84, 76, 77] then r == Err(InvalidArgument)
            else
              var end := FromLittle(bytes[24..32]);
              var decoded := codec.decode(if 32 <= end <= |bytes| then bytes[32..end] else bytes[32..]);
              if decoded.Err? then r == Err(decoded.error)
              else
                r == Ok(Contents(FromLittle(bytes[8..12]), FromLittle(bytes[12..16]), FromLittle(bytes[16..20]),
                                 decoded.value))
  {
    hide FromLittle;
    if |bytes| >= 32 {
      PartOf(bytes, 8, 20, 0, 4);
      PartOf(bytes, 8, 20, 4, 8);
      PartOf(bytes, 8, 20, 8, 12);
      assert |bytes| == 32 ==> bytes[32..] == [];
    }
  }
}
