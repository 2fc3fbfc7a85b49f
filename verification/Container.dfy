/** The block-aligned container: its builder (`litertlm_builder.py`) and its reader
    (`litertlm_peek.py`). */
module Container {
  import opened Bytes
  import opened Results
  import opened Strings

  const BLOCK_SIZE: nat := 16384
  const HEADER_BEGIN: nat := 32
  const HEADER_END_LOCATION: nat := 24
  const MAGIC: seq<Byte> := [0x4C, 0x49, 0x54, 0x45, 0x52, 0x54, 0x4C, 0x4D]
  const MAJOR: nat := 1
  const MINOR: nat := 5
  const PATCH: nat := 0

  datatype Range = Range(begin: nat, end: nat)

  /** The flatbuffer that holds the metadata and the sections' ranges, written and read. */
  datatype Codec = Codec(encode: seq<Range> -> seq<Byte>, decode: seq<Byte> -> Result<seq<Range>, Code>)

  ghost predicate Faithful(codec: Codec) {
    forall ranges {:trigger codec.encode(ranges)} :: codec.decode(codec.encode(ranges)) == Ok(ranges)
  }

  // ---- the layout ------------------------------------------------------------------------------

  function PaddingNeeded(pos: nat, block: nat): (n: nat)
    requires block > 0
    ensures n < block && (pos + n) % block == 0
  {
    var n := (block - pos % block) % block;
    Aligns(pos, block);
    n
  }

  lemma {:induction false} Aligns(pos: nat, block: nat)
    requires block > 0
    ensures var n := (block - pos % block) % block; 0 <= n < block && (pos + n) % block == 0
  {
    var r, q := pos % block, pos / block;
    assert pos == q * block + r;
    if r == 0 {
      assert (block - r) % block == 0;
    } else {
      assert (block - r) % block == block - r;
      MultipleMod(q + 1, block);
      assert pos + (block - r) == (q + 1) * block;
    }
  }

  lemma {:induction false} MultipleMod(k: nat, block: nat)
    requires block > 0
    ensures (k * block) % block == 0
  {
    if k > 0 {
      MultipleMod(k - 1, block);
      assert k * block == (k - 1) * block + block;
      AddBlock((k - 1) * block, block);
    }
  }

  lemma {:induction false} AddBlock(n: nat, block: nat)
    requires block > 0
    ensures (n + block) % block == n % block
  {
    DivModUnique(n + block, n / block + 1, n % block, block);
  }

  lemma {:induction false} DivModUnique(x: nat, q: nat, r: nat, block: nat)
    requires block > 0 && x == q * block + r && r < block
    ensures x / block == q && x % block == r
  {
    var d := q - x / block;
    assert d * block == q * block - (x / block) * block;
    Product(d, block);
  }

  lemma Product(d: int, block: int)
    requires block > 0
    ensures d >= 1 ==> d * block >= block
    ensures d <= -1 ==> d * block <= -block
  {
  }

  /** The sections after the first block, each padded to whole blocks. */
  function Body(sections: seq<seq<Byte>>): (b: seq<Byte>)
    ensures |b| % BLOCK_SIZE == 0
  {
    if sections == [] then []
    else
      var n := |sections| - 1;
      var before := Body(sections[..n]) + sections[n];
      before + Zeros(PaddingNeeded(|before|, BLOCK_SIZE))
  }

  function Ranges(sections: seq<seq<Byte>>): (r: seq<Range>)
    ensures |r| == |sections|
  {
    if sections == [] then []
    else
      var n := |sections| - 1;
      var begin := BLOCK_SIZE + |Body(sections[..n])|;
      Ranges(sections[..n]) + [Range(begin, begin + |sections[n]|)]
  }

  function Version(): (v: seq<Byte>)
    ensures |v| == 12
  {
    SmallFits(MAJOR, 4); SmallFits(MINOR, 4); SmallFits(PATCH, 4);
    ToLittle(MAJOR, 4) + ToLittle(MINOR, 4) + ToLittle(PATCH, 4)
  }

  lemma SmallFits(n: nat, width: nat)
    requires n < 0x10000 && width >= 2
    ensures n < Pow256(width)
  {
    assert Pow256(2) == 256 * Pow256(1) && Pow256(1) == 256 * Pow256(0);
    Pow256Grows(2, width);
  }

  /** The header as it stands before the place of its end is written. */
  function Unfinished(data: seq<Byte>): seq<Byte> { MAGIC + Version() + Zeros(12) + data }

  function Header(data: seq<Byte>): (h: seq<Byte>)
    requires HEADER_BEGIN + |data| <= BLOCK_SIZE
    ensures |h| == HEADER_BEGIN + |data|
  {
    SmallFits(HEADER_BEGIN + |data|, 8);
    MAGIC + Version() + Zeros(4) + ToLittle(HEADER_BEGIN + |data|, 8) + data
  }

  /** What is in a stream after a build, over what was there before. */
  function Built(codec: Codec, sections: seq<seq<Byte>>, before: seq<Byte>): seq<Byte>
    requires HEADER_BEGIN + |codec.encode(Ranges(sections))| <= BLOCK_SIZE
  {
    Put(Put(before, 0, Zeros(BLOCK_SIZE) + Body(sections)), 0, Header(codec.encode(Ranges(sections))))
  }

  // ---- the builder -----------------------------------------------------------------------------

  method WritePadding(stream: Stream, block: nat)
    requires block > 0
    modifies stream
    ensures stream.bytes == Put(old(stream.bytes), old(stream.pos), Zeros(PaddingNeeded(old(stream.pos), block)))
    ensures stream.pos == old(stream.pos) + PaddingNeeded(old(stream.pos), block)
  {
    var currentPos := stream.Tell();
    var paddingNeeded := (block - (currentPos % block)) % block;
    Aligns(currentPos, block);
    if paddingNeeded > 0 {
      stream.Write(Zeros(paddingNeeded));
    }
  }

  lemma PaddingAfterBlock(n: nat)
    ensures PaddingNeeded(BLOCK_SIZE + n, BLOCK_SIZE) == PaddingNeeded(n, BLOCK_SIZE)
  {
    AddBlock(n, BLOCK_SIZE);
  }

  method Build(stream: Stream, sections: seq<seq<Byte>>, codec: Codec) returns (error: Option<Code>)
    modifies stream
    ensures error.None? <==> HEADER_BEGIN + |codec.encode(Ranges(sections))| <= BLOCK_SIZE
    ensures error.None? ==> stream.bytes == Built(codec, sections, old(stream.bytes))
    ensures error.Some? ==> stream.bytes == Put(Put(old(stream.bytes), 0, Zeros(BLOCK_SIZE) + Body(sections)), 0,
                                                Unfinished(codec.encode(Ranges(sections))))
  {
    hide Put, Unfinished, Header, Body, Ranges;
    ghost var before := stream.bytes;
    stream.Seek(0);
    stream.Write(Zeros(BLOCK_SIZE));
    var offsets: seq<Range> := [];
    NoSections();
    assert Zeros(BLOCK_SIZE) + [] == Zeros(BLOCK_SIZE);
    assert sections[..0] == [];
    var k := 0;
    while k < |sections|
      invariant 0 <= k <= |sections|
      invariant stream.pos == BLOCK_SIZE + |Body(sections[..k])|
      invariant stream.bytes == Put(before, 0, Zeros(BLOCK_SIZE) + Body(sections[..k]))
      invariant offsets == Ranges(sections[..k])
    {
      ghost var written := Zeros(BLOCK_SIZE) + Body(sections[..k]);
      assert |written| == BLOCK_SIZE + |Body(sections[..k])|;
      var startOffset := stream.Tell();
      stream.Write(sections[k]);
      PutAppend(before, written, sections[k]);
      var endOffset := stream.Tell();
      offsets := offsets + [Range(startOffset, endOffset)];
      ghost var padding := Zeros(PaddingNeeded(stream.pos, BLOCK_SIZE));
      WritePadding(stream, BLOCK_SIZE);
      PutAppend(before, written + sections[k], padding);
      OneMoreSection(sections, k);
      k := k + 1;
    }
    assert sections[..k] == sections;
    error := WriteHeader(stream, codec.encode(offsets));
  }

  lemma NoSections()
    ensures Body([]) == [] && Ranges([]) == []
  {
  }

  lemma {:induction false} OneMoreSection(sections: seq<seq<Byte>>, k: nat)
    requires k < |sections|
    ensures var written, start := Zeros(BLOCK_SIZE) + Body(sections[..k]), BLOCK_SIZE + |Body(sections[..k])|;
            var padding := PaddingNeeded(start + |sections[k]|, BLOCK_SIZE);
            && Zeros(BLOCK_SIZE) + Body(sections[..k + 1]) == (written + sections[k]) + Zeros(padding)
            && |Body(sections[..k + 1])| == |Body(sections[..k])| + |sections[k]| + padding
            && Ranges(sections[..k + 1]) == Ranges(sections[..k]) + [Range(start, start + |sections[k]|)]
  {
    hide PaddingNeeded, Zeros;
    assert sections[..k + 1][..k] == sections[..k];
    var b := Body(sections[..k]);
    PaddingAfterBlock(|b + sections[k]|);
    var padding := Zeros(PaddingNeeded(|b + sections[k]|, BLOCK_SIZE));
    Assoc(Zeros(BLOCK_SIZE), b + sections[k], padding);
    Assoc(Zeros(BLOCK_SIZE), b, sections[k]);
  }

  method WriteHeader(stream: Stream, data: seq<Byte>) returns (error: Option<Code>)
    modifies stream
    ensures error == if HEADER_BEGIN + |data| > BLOCK_SIZE then Some(InvalidArgument) else None
    ensures error.Some? ==> stream.bytes == Put(old(stream.bytes), 0, Unfinished(data))
    ensures error.None? ==> stream.bytes == Put(old(stream.bytes), 0, Header(data))
  {
    hide Put, Header, ToLittle, Pow256, Version;
    ghost var before := stream.bytes;
    stream.Seek(0);
    stream.Write(MAGIC);
    SmallFits(MAJOR, 4); SmallFits(MINOR, 4); SmallFits(PATCH, 4);
    stream.Write(ToLittle(MAJOR, 4));
    PutAppend(before, MAGIC, ToLittle(MAJOR, 4));
    stream.Write(ToLittle(MINOR, 4));
    PutAppend(before, MAGIC + ToLittle(MAJOR, 4), ToLittle(MINOR, 4));
    stream.Write(ToLittle(PATCH, 4));
    PutAppend(before, MAGIC + ToLittle(MAJOR, 4) + ToLittle(MINOR, 4), ToLittle(PATCH, 4));
    VersionIs();
    assert stream.bytes == Put(before, 0, MAGIC + Version());
    assert PaddingNeeded(20, HEADER_BEGIN) == 12;
    WritePadding(stream, HEADER_BEGIN);
    PutAppend(before, MAGIC + Version(), Zeros(12));
    stream.Write(data);
    PutAppend(before, MAGIC + Version() + Zeros(12), data);
    var headerEndOffset := stream.Tell();
    if headerEndOffset > BLOCK_SIZE {
      return Some(InvalidArgument);
    }
    SmallFits(headerEndOffset, 8);
    stream.Seek(HEADER_END_LOCATION);
    stream.Write(ToLittle(headerEndOffset, 8));
    HeaderFinished(before, data);
    return None;
  }

  lemma VersionIs()
    ensures 4 <= 4 && 0 < Pow256(4) && MAJOR < Pow256(4) && MINOR < Pow256(4) && PATCH < Pow256(4)
    ensures MAGIC + Version() == MAGIC + ToLittle(MAJOR, 4) + ToLittle(MINOR, 4) + ToLittle(PATCH, 4)
  {
    SmallFits(MAJOR, 4); SmallFits(MINOR, 4); SmallFits(PATCH, 4);
  }

  lemma {:induction false} HeaderFinished(before: seq<Byte>, data: seq<Byte>)
    requires HEADER_BEGIN + |data| <= BLOCK_SIZE && HEADER_BEGIN + |data| < Pow256(8)
    ensures Put(Put(before, 0, Unfinished(data)), HEADER_END_LOCATION, ToLittle(HEADER_BEGIN + |data|, 8)) ==
            Put(before, 0, Header(data))
  {
    hide ToLittle, Pow256, Version, Put, Zeros, Unfinished;
    var start, y := MAGIC + Version() + Zeros(4), ToLittle(HEADER_BEGIN + |data|, 8);
    UnfinishedIs(data);
    PutInside(before, Unfinished(data), HEADER_END_LOCATION, y);
    PutMiddle(start, Zeros(8), data, y);
  }

  lemma UnfinishedIs(data: seq<Byte>)
    ensures Unfinished(data) == MAGIC + Version() + Zeros(4) + Zeros(8) + data
  {
    hide Version;
    assert Zeros(12) == Zeros(4) + Zeros(8);
    Assoc(MAGIC + Version(), Zeros(4), Zeros(8));
  }
}
