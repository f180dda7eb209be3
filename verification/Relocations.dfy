/** Proving that no base relocation touches the requested code ranges. Only blocks whose page lies near a
    range are read entry by entry; skipping the others must not miss a field that starts on one page and
    ends on the next (Microsoft PE Format, section ".reloc Section (Image Only)"). */
module Relocations {
  import opened LoadedImage

  const CHUNK: nat := 512
  const CODE_LIMIT: nat := 65536
  const METADATA_LIMIT: nat := 1024 * 1024

  /** What header inspection found; `sectionCount` may exceed the sections kept. */
  datatype Metadata = Metadata(valid: bool, machine: nat, sectionCount: nat)
  datatype CodeRange = CodeRange(rva: nat, size: nat)
  datatype Error = NoError | BadMetadata | BadSection | OverlappingSections | BadRangeCount | BadRange | OverlappingRanges | BeyondImage |
                   AllowanceExhausted | Unreadable | EscapesDirectory | BadDirectory | RangeInDirectory | Misaligned |
                   BadBlock | UnsupportedKind | FieldBeyondImage | RangeTouched

  /** A relocation block as its eight header bytes describe it. */
  datatype Block = Block(at: nat, page: nat, size: nat)

  function U16(b: seq<byte>, at: nat): nat
    requires at + 2 <= |b|
  {
    (b[at] as int) + 256 * (b[at + 1] as int)
  }

  function U32(b: seq<byte>, at: nat): nat
    requires at + 4 <= |b|
  {
    U16(b, at) + 65536 * U16(b, at + 2)
  }

  predicate Within(rva: int, size: nat, begin: nat, extent: nat) {
    rva >= begin && rva - begin <= extent && size <= extent - (rva - begin)
  }

  predicate Overlap(a: nat, aSize: nat, b: nat, bSize: nat) {
    aSize != 0 && bSize != 0 && a < b + bSize && b < a + aSize
  }

  // ----- what relocations do -----

  function BlockAt(image: Image, at: nat): Block
    requires at + 8 <= |image.bytes|
  {
    Block(at, U32(image.bytes, at), U32(image.bytes, at + 4))
  }

  predicate BlockOk(image: Image, b: Block, end: nat) {
    b.page % 4096 == 0 && b.page < |image.bytes| && b.size >= 8 && b.size % 2 == 0 && b.at % 4 == 0 && b.at + b.size <= end
  }

  /** The directory is exactly this list of consecutive blocks. */
  ghost predicate Tiles(image: Image, start: nat, end: nat, blocks: seq<Block>) {
    && end <= |image.bytes|
    && (forall k | 0 <= k < |blocks| :: BlockOk(image, blocks[k], end) && blocks[k] == BlockAt(image, blocks[k].at))
    && (forall k | 0 <= k < |blocks| :: Continues(start, blocks, k))
    && end == if blocks == [] then start else blocks[|blocks| - 1].at + blocks[|blocks| - 1].size
  }

  /** The k-th block begins where the one before ends. */
  predicate Continues(start: nat, blocks: seq<Block>, k: nat)
    requires k < |blocks|
  {
    blocks[k].at == if k == 0 then start else blocks[k - 1].at + blocks[k - 1].size
  }

  function Entries(b: Block): nat
    requires b.size >= 8
  {
    (b.size - 8) / 2
  }

  function EntryOf(image: Image, b: Block, i: nat): nat
    requires b.size >= 8 && i < Entries(b) && b.at + b.size <= |image.bytes|
  {
    U16(image.bytes, b.at + 8 + 2 * i)
  }

  function Kind(entry: nat): nat { entry / 4096 }

  /** HIGHLOW rewrites four bytes and DIR64 eight. */
  function Width(kind: nat): nat { if kind == 3 then 4 else if kind == 10 then 8 else 0 }

  /** The field this entry relocates shares no byte with any requested range. */
  predicate Clear(page: nat, entry: nat, ranges: seq<CodeRange>) {
    forall r | 0 <= r < |ranges| :: !Overlap(page + entry % 4096, Width(Kind(entry)), ranges[r].rva, ranges[r].size)
  }

  /** The bytes an entry rewrites: four for kind 3 and eight for kind 10, from its offset in the page on. */
  predicate Rewrites(page: nat, entry: nat, x: nat) {
    || (entry / 4096 == 3 && page + entry % 4096 <= x < page + entry % 4096 + 4)
    || (entry / 4096 == 10 && page + entry % 4096 <= x < page + entry % 4096 + 8)
  }

  predicate InSome(ranges: seq<CodeRange>, x: nat) {
    exists r | 0 <= r < |ranges| :: ranges[r].rva <= x < ranges[r].rva + ranges[r].size
  }

  /** An entry is clear exactly when no byte it rewrites lies in a range. */
  lemma ClearExactly(page: nat, entry: nat, ranges: seq<CodeRange>)
    ensures Clear(page, entry, ranges) <==> forall x: nat | Rewrites(page, entry, x) :: !InSome(ranges, x)
  {
    var site, width := page + entry % 4096, Width(Kind(entry));
    if !Clear(page, entry, ranges) {
      var r :| 0 <= r < |ranges| && Overlap(site, width, ranges[r].rva, ranges[r].size);
      var x := if site < ranges[r].rva then ranges[r].rva else site;
      assert Rewrites(page, entry, x) && ranges[r].rva <= x < ranges[r].rva + ranges[r].size;
    }
    if x: nat :| Rewrites(page, entry, x) && InSome(ranges, x) {
      var r :| 0 <= r < |ranges| && ranges[r].rva <= x < ranges[r].rva + ranges[r].size;
      assert Overlap(site, width, ranges[r].rva, ranges[r].size);
    }
  }

  /** What is wrong with one entry. */
  predicate EntryFlaw(e: Error, image: Image, page: nat, entry: nat, ranges: seq<CodeRange>) {
    match e
    case UnsupportedKind => Kind(entry) != 0 && Kind(entry) != 3 && Kind(entry) != 10
    case FieldBeyondImage => (Kind(entry) == 3 || Kind(entry) == 10) && page + entry % 4096 + Width(Kind(entry)) > |image.bytes|
    case RangeTouched => !Clear(page, entry, ranges)
    case _ => false
  }

  /** Padding, or a supported field inside the image and clear of the ranges. */
  predicate EntryFine(image: Image, page: nat, entry: nat, ranges: seq<CodeRange>) {
    Kind(entry) == 0 ||
    ((Kind(entry) == 3 || Kind(entry) == 10) && page + entry % 4096 + Width(Kind(entry)) <= |image.bytes| && Clear(page, entry, ranges))
  }

  lemma FlawOrFine(e: Error, image: Image, page: nat, entry: nat, ranges: seq<CodeRange>)
    ensures EntryFine(image, page, entry, ranges) ==> Clear(page, entry, ranges) && !EntryFlaw(e, image, page, entry, ranges)
  {
  }

  ghost predicate BlockFlaw(e: Error, image: Image, b: Block, ranges: seq<CodeRange>) {
    b.size >= 8 && b.at + b.size <= |image.bytes| &&
    exists i | 0 <= i < Entries(b) :: EntryFlaw(e, image, b.page, EntryOf(image, b, i), ranges)
  }

  ghost predicate BlockFine(image: Image, b: Block, ranges: seq<CodeRange>) {
    b.size >= 8 && b.at + b.size <= |image.bytes| && forall i | 0 <= i < Entries(b) :: EntryFine(image, b.page, EntryOf(image, b, i), ranges)
  }

  lemma FineIsClear(e: Error, image: Image, b: Block, ranges: seq<CodeRange>)
    requires BlockFine(image, b, ranges)
    ensures BlockClear(image, b, ranges) && !BlockFlaw(e, image, b, ranges)
  {
    hide Clear, Entries, EntryOf, Width;
    forall i | 0 <= i < Entries(b)
      ensures Clear(b.page, EntryOf(image, b, i), ranges) && !EntryFlaw(e, image, b.page, EntryOf(image, b, i), ranges)
    {
      FlawOrFine(e, image, b.page, EntryOf(image, b, i), ranges);
    }
  }

  /** Every entry of every block near a range is fine. */
  ghost predicate AllFine(image: Image, blocks: seq<Block>, ranges: seq<CodeRange>) {
    forall k | 0 <= k < |blocks| && Relevant(blocks[k].page, ranges) :: BlockFine(image, blocks[k], ranges)
  }

  /** What the source accepts: no relocations at all, or an aligned directory in readable data, apart from the ranges,
      that blocks tile, of which those near a range hold only fine entries. */
  ghost predicate Acceptable(image: Image, directory: nat, directorySize: nat, ranges: seq<CodeRange>) {
    (directory == 0 && directorySize == 0) ||
    (&& directory != 0 && directorySize >= 8 && directory % 4 == 0 && SectionRange(image, directory, directorySize, false)
     && (forall r | 0 <= r < |ranges| :: !Overlap(ranges[r].rva, ranges[r].size, directory, directorySize))
     && exists blocks :: Tiles(image, directory, directory + directorySize, blocks) && AllFine(image, blocks, ranges))
  }

  /** No block can stand here. */
  ghost predicate NoBlock(image: Image, at: nat, end: nat) {
    at < end <= |image.bytes| && (at + 8 > end || !BlockOk(image, BlockAt(image, at), end))
  }

  /** Why the blocks of a directory are refused. */
  ghost predicate Refuted(e: Error, image: Image, start: nat, end: nat, ranges: seq<CodeRange>) {
    match e
    case Misaligned => Untiled(image, start, end)
    case BadBlock => Untiled(image, start, end)
    case EscapesDirectory => Untiled(image, start, end)
    case _ => exists prefix: seq<Block>, b: Block :: Spoiled(e, image, start, end, prefix, b, ranges)
  }

  /** Blocks tile the directory up to a place where none can stand. */
  ghost predicate Untiled(image: Image, start: nat, end: nat) {
    exists prefix: seq<Block>, at: nat :: Tiles(image, start, at, prefix) && NoBlock(image, at, end)
  }

  /** After some blocks comes one near a range with a flaw. */
  ghost predicate Spoiled(e: Error, image: Image, start: nat, end: nat, prefix: seq<Block>, b: Block, ranges: seq<CodeRange>) {
    && Tiles(image, start, b.at, prefix) && b.at + 8 <= |image.bytes| && b == BlockAt(image, b.at) && b.at < end
    && Relevant(b.page, ranges) && BlockFlaw(e, image, b, ranges)
  }

  /** A directory is tiled in at most one way: any tiling begins with the blocks already found, and goes on. */
  lemma {:induction false} TilesAlong(image: Image, start: nat, at: nat, end: nat, prefix: seq<Block>, blocks: seq<Block>)
    requires Tiles(image, start, at, prefix) && Tiles(image, start, end, blocks) && at < end
    ensures |prefix| < |blocks| && blocks[|prefix|].at == at
    decreases |prefix|
  {
    hide BlockAt;
    if prefix != [] {
      var n := |prefix| - 1;
      var last := prefix[n];
      assert BlockOk(image, last, at);
      TilesShorter(image, start, at, prefix);
      TilesAlong(image, start, last.at, end, prefix[..n], blocks);
      assert blocks[n] == BlockAt(image, last.at) == last;
      assert at == last.at + last.size;
      if |blocks| > n + 1 { assert Continues(start, blocks, n + 1); }
    } else {
      TilesFirst(image, start, end, blocks);
    }
  }

  lemma TilesFirst(image: Image, start: nat, end: nat, blocks: seq<Block>)
    requires Tiles(image, start, end, blocks) && start < end
    ensures blocks != [] && blocks[0].at == start
  {
    assert blocks != [] ==> Continues(start, blocks, 0);
  }

  lemma TilesShorter(image: Image, start: nat, end: nat, blocks: seq<Block>)
    requires Tiles(image, start, end, blocks) && blocks != []
    ensures Tiles(image, start, blocks[|blocks| - 1].at, blocks[..|blocks| - 1])
  {
    hide BlockAt;
    var n := |blocks| - 1;
    forall k | 0 <= k < n ensures BlockOk(image, blocks[k], blocks[n].at) {
      TilesOrder(start, blocks, k, n);
      assert BlockOk(image, blocks[k], end);
    }
    assert forall k | 0 <= k < n :: blocks[..n][k] == blocks[k];
    assert forall k | 0 <= k < n :: Continues(start, blocks, k) ==> Continues(start, blocks[..n], k);
    assert Continues(start, blocks, n);
    assert BlockOk(image, blocks[n], end);
  }

  lemma {:induction false} TilesOrder(start: nat, blocks: seq<Block>, k: nat, n: nat)
    requires k < n < |blocks| && forall j | 0 <= j < |blocks| :: Continues(start, blocks, j)
    ensures blocks[k].at + blocks[k].size <= blocks[n].at
    decreases n
  {
    assert Continues(start, blocks, n);
    if k + 1 < n { TilesOrder(start, blocks, k, n - 1); }
  }

  /** A refusal refutes every tiling with fine entries. */
  lemma RefutedExactly(e: Error, image: Image, start: nat, end: nat, ranges: seq<CodeRange>, blocks: seq<Block>)
    requires Refuted(e, image, start, end, ranges) && Tiles(image, start, end, blocks)
    ensures !AllFine(image, blocks, ranges)
  {
    hide Tiles, BlockFlaw, BlockFine, BlockAt, BlockOk, Relevant;
    if Untiled(image, start, end) {
      var prefix: seq<Block>, at: nat :| Tiles(image, start, at, prefix) && NoBlock(image, at, end);
      TilesAlong(image, start, at, end, prefix, blocks);
      TilesMember(image, start, end, blocks, |prefix|);
      assert false;
    } else {
      var prefix: seq<Block>, b: Block :| Spoiled(e, image, start, end, prefix, b, ranges);
      TilesAlong(image, start, b.at, end, prefix, blocks);
      TilesMember(image, start, end, blocks, |prefix|);
      if BlockFine(image, b, ranges) { FineIsClear(e, image, b, ranges); }
    }
  }

  lemma TilesMember(image: Image, start: nat, end: nat, blocks: seq<Block>, k: nat)
    requires Tiles(image, start, end, blocks) && k < |blocks|
    ensures end <= |image.bytes| && blocks[k].at + 8 <= end && BlockOk(image, blocks[k], end) && blocks[k] == BlockAt(image, blocks[k].at)
  {
  }

  /** No HIGHLOW or DIR64 entry of this block touches any range. */
  ghost predicate BlockClear(image: Image, b: Block, ranges: seq<CodeRange>) {
    b.size >= 8 && b.at + b.size <= |image.bytes| && forall i | 0 <= i < Entries(b) :: Clear(b.page, EntryOf(image, b, i), ranges)
  }

  ghost predicate Untouched(image: Image, blocks: seq<Block>, ranges: seq<CodeRange>) {
    forall k | 0 <= k < |blocks| :: BlockClear(image, blocks[k], ranges)
  }

  /** A range a relocated field of this page can reach: the page itself and seven bytes beyond. */
  predicate Relevant(page: nat, ranges: seq<CodeRange>) {
    exists r | 0 <= r < |ranges| :: Overlap(page, 4096 + 7, ranges[r].rva, ranges[r].size)
  }

  /** Skipping is sound: no entry whatsoever of an irrelevant page can touch a range. */
  lemma SkippedIsClear(page: nat, entry: nat, ranges: seq<CodeRange>)
    requires !Relevant(page, ranges)
    ensures Clear(page, entry, ranges)
  {
    forall r | 0 <= r < |ranges| ensures !Overlap(page + entry % 4096, Width(Kind(entry)), ranges[r].rva, ranges[r].size) {
      assert !Overlap(page, 4096 + 7, ranges[r].rva, ranges[r].size);
    }
  }

  /** Seven bytes of margin are needed: with six, a DIR64 field at the last byte of the page is missed. */
  lemma SevenIsNeeded(page: nat)
    ensures var r := [CodeRange(page + 4096 + 6, 1)];
            !Overlap(page, 4096 + 6, r[0].rva, r[0].size) && !Clear(page, 10 * 4096 + 4095, r)
  {
    var r := [CodeRange(page + 4096 + 6, 1)];
    assert Kind(10 * 4096 + 4095) == 10;
    assert Overlap(page + 4095, 8, r[0].rva, r[0].size);
  }

  // ----- validation of the request -----

  predicate Holds(image: Image, s: Section, rva: int, size: nat, code: bool) {
    && s.readable && !s.writable && (code ==> s.executable && !s.discardable) && Within(rva, size, s.rva, s.size)
  }

  /** Readable data, or static executable code, inside one section. */
  predicate SectionRange(image: Image, rva: int, size: nat, code: bool) {
    size != 0 && Within(rva, size, 0, |image.bytes|) &&
    exists k | 0 <= k < |image.sections| :: Holds(image, image.sections[k], rva, size, code)
  }

  predicate RangeOk(image: Image, r: CodeRange) { 0 < r.size <= 8192 && SectionRange(image, r.rva, r.size, true) }

  function Total(ranges: seq<CodeRange>): nat {
    if ranges == [] then 0 else Total(ranges[..|ranges| - 1]) + ranges[|ranges| - 1].size
  }

  /** A sane AMD64 image of at most 2 GiB with one to 96 sections. */
  predicate MetadataOk(metadata: Metadata, image: Image) {
    && metadata.valid && metadata.machine == 0x8664 && 0 < |image.bytes| <= 0x8000_0000
    && 0 < |image.sections| <= metadata.sectionCount <= 96
  }

  predicate ValidRequest(metadata: Metadata, image: Image, ranges: seq<CodeRange>) {
    && MetadataOk(metadata, image)
    && (forall k | 0 <= k < |image.sections| :: Within(image.sections[k].rva, image.sections[k].size, 0, |image.bytes|))
    && (forall j, k | 0 <= j < k < |image.sections| ::
          !Overlap(image.sections[k].rva, image.sections[k].size, image.sections[j].rva, image.sections[j].size))
    && 0 < |ranges| <= 32 && Total(ranges) <= 65536
    && (forall k | 0 <= k < |ranges| :: RangeOk(image, ranges[k]))
    && (forall j, k | 0 <= j < k < |ranges| :: !Overlap(ranges[k].rva, ranges[k].size, ranges[j].rva, ranges[j].size))
  }

  lemma {:induction false} TotalGrows(ranges: seq<CodeRange>, k: nat)
    requires k <= |ranges|
    ensures Total(ranges[..k]) <= Total(ranges)
  {
    if k < |ranges| {
      TotalGrows(ranges[..|ranges| - 1], k);
      assert ranges[..|ranges| - 1][..k] == ranges[..k];
    } else {
      assert ranges[..k] == ranges;
    }
  }

  class Parser {
    const metadata: Metadata
    const image: Image
    const ranges: seq<CodeRange>
    const reader: Reader
    var error: Error
    var metadataBytes: nat
    var readFailures: nat
    var relocationEntries: nat
    var relocationBlocks: nat
    var relocationBlocksSkipped: nat

    /** Addresses of the entries examined, in order. */
    ghost var visited: seq<nat>

    constructor (metadata: Metadata, image: Image, ranges: seq<CodeRange>, reader: Reader)
      ensures this.metadata == metadata && this.image == image && this.ranges == ranges && this.reader == reader && error == NoError && visited == []
      ensures relocationEntries == 0 && relocationBlocks == 0 && relocationBlocksSkipped == 0 && metadataBytes == 0
    {
      this.metadata, this.image, this.ranges, this.reader, error, visited := metadata, image, ranges, reader, NoError, [];
      metadataBytes, readFailures, relocationEntries, relocationBlocks, relocationBlocksSkipped := 0, 0, 0, 0, 0;
    }

    method Fail(e: Error) returns (ok: bool)
      requires e != NoError
      modifies this`error
      ensures error == e && !ok
    {
      error := e;
      ok := false;
    }

    /** Sections inside the image and apart from each other. */
    method ValidateSections() returns (ok: bool)
      requires error == NoError
      modifies this`error
      ensures ok <==> error == NoError
      ensures ok <==> (forall k | 0 <= k < |image.sections| :: Within(image.sections[k].rva, image.sections[k].size, 0, |image.bytes|)) &&
                      (forall j, k | 0 <= j < k < |image.sections| ::
                         !Overlap(image.sections[k].rva, image.sections[k].size, image.sections[j].rva, image.sections[j].size))
    {
      for index := 0 to |image.sections|
        invariant error == NoError
        invariant forall k | 0 <= k < index :: Within(image.sections[k].rva, image.sections[k].size, 0, |image.bytes|)
        invariant forall j, k | 0 <= j < k < index ::
                    !Overlap(image.sections[k].rva, image.sections[k].size, image.sections[j].rva, image.sections[j].size)
      {
        var section := image.sections[index];
        if !Within(section.rva, section.size, 0, |image.bytes|) {
          ok := Fail(BadSection);
          return;
        }
        for previous := 0 to index
          invariant error == NoError
          invariant forall j | 0 <= j < previous :: !Overlap(section.rva, section.size, image.sections[j].rva, image.sections[j].size)
        {
          if Overlap(section.rva, section.size, image.sections[previous].rva, image.sections[previous].size) {
            ok := Fail(OverlappingSections);
            return;
          }
        }
      }
      ok := true;
    }

    /** One to 32 separate ranges of static code, at most 65536 bytes together. */
    method ValidateRanges() returns (ok: bool)
      requires error == NoError
      modifies this`error
      ensures ok <==> error == NoError
      ensures ok <==> 0 < |ranges| <= 32 && Total(ranges) <= CODE_LIMIT && (forall k | 0 <= k < |ranges| :: RangeOk(image, ranges[k])) &&
                      (forall j, k | 0 <= j < k < |ranges| :: !Overlap(ranges[k].rva, ranges[k].size, ranges[j].rva, ranges[j].size))
    {
      hide SectionRange;
      if |ranges| == 0 || |ranges| > 32 {
        ok := Fail(BadRangeCount);
        return;
      }
      var total := 0;
      for index := 0 to |ranges|
        invariant error == NoError && total == Total(ranges[..index]) <= CODE_LIMIT
        invariant forall k | 0 <= k < index :: RangeOk(image, ranges[k])
        invariant forall j, k | 0 <= j < k < index :: !Overlap(ranges[k].rva, ranges[k].size, ranges[j].rva, ranges[j].size)
      {
        var range := ranges[index];
        assert ranges[..index + 1][..index] == ranges[..index];
        TotalGrows(ranges, index + 1);
        if range.size == 0 || range.size > 8192 || range.size > CODE_LIMIT - total || !SectionRange(image, range.rva, range.size, true) {
          ok := Fail(BadRange);
          return;
        }
        total := total + range.size;
        for previous := 0 to index
          invariant error == NoError
          invariant forall j | 0 <= j < previous :: !Overlap(range.rva, range.size, ranges[j].rva, ranges[j].size)
        {
          if Overlap(range.rva, range.size, ranges[previous].rva, ranges[previous].size) {
            ok := Fail(OverlappingRanges);
            return;
          }
        }
      }
      assert ranges[..|ranges|] == ranges;
      ok := true;
    }

    method Validate() returns (ok: bool)
      requires error == NoError
      modifies this`error
      ensures ok <==> error == NoError
      ensures ok <==> ValidRequest(metadata, image, ranges)
    {
      if !metadata.valid || metadata.machine != 0x8664 || |image.bytes| == 0 || |image.bytes| > 0x8000_0000 ||
         |image.sections| == 0 || |image.sections| > metadata.sectionCount || metadata.sectionCount == 0 || metadata.sectionCount > 96
      {
        ok := Fail(BadMetadata);
        return;
      }
      ok := ValidateSections();
      if ok { ok := ValidateRanges(); }
    }

    /** The reader refused, or more than a mebibyte of metadata would be read. */
    ghost predicate Troubled(e: Error, spent: nat) {
      (e == Unreadable && !Willing(reader)) || (e == AllowanceExhausted && spent > 1048576)
    }

    /** Reads through whatever windows the reader grants, within the metadata allowance. */
    method Exact(rva: int, size: nat) returns (ok: bool, bytes: seq<byte>)
      requires error == NoError
      modifies this`error, this`metadataBytes, this`readFailures
      ensures ok <==> error == NoError
      ensures ok ==> 0 <= rva && rva + size <= |image.bytes| && bytes == image.bytes[rva..rva + size]
      ensures !ok ==> Troubled(error, old(metadataBytes) + size) || (error == BeyondImage && !Within(rva, size, 0, |image.bytes|))
      ensures metadataBytes == old(metadataBytes) + if error in {BeyondImage, AllowanceExhausted} then 0 else size
      ensures readFailures == old(readFailures) + if error == Unreadable then 1 else 0
    {
      var calls: nat := 0;
      bytes := [];
      if !Within(rva, size, 0, |image.bytes|) {
        ok := Fail(BeyondImage);
        return;
      }
      if size + metadataBytes > METADATA_LIMIT {
        ok := Fail(AllowanceExhausted);
        return;
      }
      metadataBytes := metadataBytes + size;
      while |bytes| < size
        invariant |bytes| <= size && bytes == image.bytes[rva..rva + |bytes|] && error == NoError
        invariant metadataBytes == old(metadataBytes) + size && readFailures == old(readFailures)
      {
        var at := rva + |bytes|;
        var window := reader(calls, at, size - |bytes|);
        calls := calls + 1;
        if !window.readable || window.size == 0 || window.size > size - |bytes| || !window.copied {
          assert !Granted(reader(calls - 1, at, size - |bytes|), size - |bytes|);
          readFailures := readFailures + 1;
          ok := Fail(Unreadable);
          return;
        }
        var offered := window.size;
        assert image.bytes[rva..at] + image.bytes[at..at + offered] == image.bytes[rva..at + offered];
        bytes := bytes + image.bytes[at..at + offered];
      }
      ok := true;
    }

    method RelocationData(directory: nat, directorySize: nat, rva: nat, size: nat) returns (ok: bool, bytes: seq<byte>)
      requires error == NoError
      modifies this`error, this`metadataBytes, this`readFailures
      ensures ok <==> error == NoError
      ensures ok ==> rva + size <= |image.bytes| && bytes == image.bytes[rva..rva + size]
      ensures !ok ==> (Troubled(error, old(metadataBytes) + size) && Within(rva, size, directory, directorySize)) ||
                      (error == EscapesDirectory && !(Within(rva, size, directory, directorySize) && SectionRange(image, rva, size, false)))
      ensures old(metadataBytes) <= metadataBytes <= old(metadataBytes) + size
    {
      bytes := [];
      if !Within(rva, size, directory, directorySize) || !SectionRange(image, rva, size, false) {
        ok := Fail(EscapesDirectory);
        return;
      }
      ok, bytes := Exact(rva, size);
    }

    /** One entry of a read block. */
    method CheckEntry(page: nat, entry: nat) returns (ok: bool)
      requires error == NoError
      modifies this`error, this`relocationEntries
      ensures ok <==> error == NoError
      ensures ok <==> EntryFine(image, page, entry, ranges)
      ensures !ok ==> EntryFlaw(error, image, page, entry, ranges)
      ensures relocationEntries == old(relocationEntries) + 1
    {
      relocationEntries := relocationEntries + 1;
      var kind := entry / 4096;
      if kind == 0 { return true; }
      var width;
      if kind == 3 {
        width := 4;
      } else if kind == 10 {
        width := 8;
      } else {
        ok := Fail(UnsupportedKind);
        return;
      }
      var site := page + entry % 4096;
      if !Within(site, width, 0, |image.bytes|) {
        ok := Fail(FieldBeyondImage);
        return;
      }
      for r := 0 to |ranges|
        invariant error == NoError && relocationEntries == old(relocationEntries) + 1
        invariant forall k | 0 <= k < r :: !Overlap(site, width, ranges[k].rva, ranges[k].size)
      {
        if Overlap(site, width, ranges[r].rva, ranges[r].size) {
          ok := Fail(RangeTouched);
          return;
        }
      }
      ok := true;
    }

    /** The addresses of consecutive entries. */
    static function Addresses(start: nat, count: nat): (r: seq<nat>)
      ensures |r| == count && forall i | 0 <= i < count :: r[i] == start + 2 * i
    {
      seq(count, i requires 0 <= i => start + 2 * i)
    }

    static lemma AddressesJoin(start: nat, a: nat, b: nat)
      ensures Addresses(start, a) + Addresses(start + 2 * a, b) == Addresses(start, a + b)
    {
    }

    /** The entries of one chunk of a block, from entry `first` on. */
    method CheckChunk(b: Block, ghost first: nat, count: nat, bytes: seq<byte>) returns (ok: bool)
      requires error == NoError && b.size >= 8 && b.at + b.size <= |image.bytes| && first + count <= Entries(b)
      requires |bytes| == 2 * count && bytes == image.bytes[b.at + 8 + 2 * first..b.at + 8 + 2 * (first + count)]
      modifies this`error, this`relocationEntries, this`visited
      ensures ok <==> error == NoError
      ensures ok ==> forall i | first <= i < first + count :: EntryFine(image, b.page, EntryOf(image, b, i), ranges)
      ensures ok ==> visited == old(visited) + Addresses(b.at + 8 + 2 * first, count)
      ensures relocationEntries - old(relocationEntries) == |visited| - |old(visited)|
      ensures !ok ==> BlockFlaw(error, image, b, ranges)
    {
      hide EntryFine, EntryFlaw;
      ok := true;
      for index := 0 to count
        invariant error == NoError && ok
        invariant forall i | first <= i < first + index :: EntryFine(image, b.page, EntryOf(image, b, i), ranges)
        invariant visited == old(visited) + Addresses(b.at + 8 + 2 * first, index)
        invariant relocationEntries - old(relocationEntries) == |visited| - |old(visited)|
      {
        var entry := U16(bytes, 2 * index);
        assert bytes[2 * index] == image.bytes[b.at + 8 + 2 * (first + index)];
        assert bytes[2 * index + 1] == image.bytes[b.at + 8 + 2 * (first + index) + 1];
        assert entry == EntryOf(image, b, first + index);
        visited := visited + [b.at + 8 + 2 * first + 2 * index];
        assert Addresses(b.at + 8 + 2 * first, index + 1) == Addresses(b.at + 8 + 2 * first, index) + [b.at + 8 + 2 * first + 2 * index];
        ok := CheckEntry(b.page, entry);
        if !ok { return; }
      }
    }

    /** Every entry of a relevant block, 512 bytes at a time. */
    method CheckBlock(directory: nat, directorySize: nat, b: Block) returns (ok: bool)
      requires error == NoError && b.size >= 8 && b.size % 2 == 0 && b.at + b.size <= |image.bytes|
      requires directory <= b.at && b.at + b.size <= directory + directorySize && SectionRange(image, directory, directorySize, false)
      modifies this`error, this`metadataBytes, this`readFailures, this`relocationEntries, this`visited
      ensures ok <==> error == NoError
      ensures ok ==> BlockFine(image, b, ranges)
      ensures ok ==> visited == old(visited) + Addresses(b.at + 8, Entries(b))
      ensures relocationEntries - old(relocationEntries) == |visited| - |old(visited)|
      ensures !ok ==> BlockFlaw(error, image, b, ranges) || Troubled(error, old(metadataBytes) + b.size - 8)
      ensures old(metadataBytes) <= metadataBytes <= old(metadataBytes) + b.size - 8
    {
      hide EntryFine, EntryFlaw, EntryOf, SectionRange, Relevant, Width, Entries;
      ok := true;
      EntriesFill(b);
      var consumed := 8;
      ghost var done: nat := 0;
      while consumed < b.size
        invariant consumed == 8 + 2 * done <= b.size && done <= Entries(b) && error == NoError && ok
        invariant forall i | 0 <= i < done :: EntryFine(image, b.page, EntryOf(image, b, i), ranges)
        invariant visited == old(visited) + Addresses(b.at + 8, done)
        invariant old(metadataBytes) <= metadataBytes <= old(metadataBytes) + consumed - 8
        invariant relocationEntries - old(relocationEntries) == |visited| - |old(visited)|
        decreases b.size - consumed
      {
        var size := if CHUNK < b.size - consumed then CHUNK else b.size - consumed;
        var bytes;
        PartRange(image, directory, directorySize, b.at + consumed, size);
        ok, bytes := RelocationData(directory, directorySize, b.at + consumed, size);
        if !ok { return; }
        AddressesJoin(b.at + 8, done, size / 2);
        ok := CheckChunk(b, done, size / 2, bytes);
        if !ok { return; }
        consumed := consumed + size;
        done := done + size / 2;
      }
    }

    /** Part of a section range is one. */
    static lemma PartRange(image: Image, rva: nat, size: nat, part: nat, partSize: nat)
      requires SectionRange(image, rva, size, false) && rva <= part && part + partSize <= rva + size && partSize != 0
      ensures SectionRange(image, part, partSize, false)
    {
      var k :| 0 <= k < |image.sections| && Holds(image, image.sections[k], rva, size, false);
      assert Holds(image, image.sections[k], part, partSize, false);
    }

    static lemma EntriesFill(b: Block)
      requires b.size >= 8 && b.size % 2 == 0
      ensures b.size == 8 + 2 * Entries(b)
    {
    }

    /** Every block of the directory: its header is checked, and its entries when its page is near a range. */
    method RelocationBlocks(directory: nat, directorySize: nat) returns (ok: bool, ghost blocks: seq<Block>)
      requires error == NoError && directory + directorySize <= |image.bytes| && SectionRange(image, directory, directorySize, false)
      modifies this`error, this`metadataBytes, this`readFailures, this`relocationEntries, this`relocationBlocks,
               this`relocationBlocksSkipped, this`visited
      ensures ok <==> error == NoError
      ensures ok ==> Tiles(image, directory, directory + directorySize, blocks)
      ensures ok ==> Untouched(image, blocks, ranges) && AllFine(image, blocks, ranges)
      ensures ok ==> relocationBlocks == old(relocationBlocks) + |blocks|
      ensures ok ==> visited == old(visited) + ReadEntries(blocks, ranges)
      ensures !ok ==> Refuted(error, image, directory, directory + directorySize, ranges) ||
                      Troubled(error, old(metadataBytes) + directorySize)
    {
      hide BlockClear, BlockFine, BlockFlaw, U32, Relevant, Tiles, Untouched, ReadEntries, AllFine, Refuted, SectionRange, NoBlock;
      NoBlocks(image, directory, ranges);
      blocks := [];
      var offset := 0;
      while offset < directorySize
        invariant 0 <= offset <= directorySize && error == NoError
        invariant Tiles(image, directory, directory + offset, blocks)
        invariant Untouched(image, blocks, ranges) && AllFine(image, blocks, ranges)
        invariant old(metadataBytes) <= metadataBytes <= old(metadataBytes) + offset
        invariant relocationBlocks == old(relocationBlocks) + |blocks| && visited == old(visited) + ReadEntries(blocks, ranges)
        decreases directorySize - offset
      {
        var b;
        ok, b := ReadBlock(directory, directorySize, offset);
        if !ok {
          if error in {Misaligned, BadBlock, EscapesDirectory} {
            UntiledRefutes(error, image, directory, directory + offset, directory + directorySize, blocks, ranges);
          }
          return;
        }
        relocationBlocks := relocationBlocks + 1;
        ghost var before := visited;
        if Relevant(b.page, ranges) {
          ok := CheckBlock(directory, directorySize, b);
          if !ok {
            if BlockFlaw(error, image, b, ranges) {
              FlawRefutes(error, image, directory, directory + directorySize, blocks, b, ranges);
            }
            return;
          }
          FineIsClear(NoError, image, b, ranges);
        } else {
          relocationBlocksSkipped := relocationBlocksSkipped + 1;
          SkippedBlock(image, b, ranges);
        }
        OneMoreBlock(image, directory, directory + offset, blocks, b, ranges);
        ReadOneMore(blocks, b, ranges);
        blocks := blocks + [b];
        offset := offset + b.size;
      }
      ok := true;
    }

    static lemma UntiledRefutes(e: Error, image: Image, start: nat, at: nat, end: nat, prefix: seq<Block>, ranges: seq<CodeRange>)
      requires Tiles(image, start, at, prefix) && NoBlock(image, at, end) && e in {Misaligned, BadBlock, EscapesDirectory}
      ensures Refuted(e, image, start, end, ranges)
    {
      hide Tiles, NoBlock;
    }

    static lemma FlawRefutes(e: Error, image: Image, start: nat, end: nat, prefix: seq<Block>, b: Block, ranges: seq<CodeRange>)
      requires Tiles(image, start, b.at, prefix) && b.at + 8 <= |image.bytes| && b == BlockAt(image, b.at) && b.at < end
      requires Relevant(b.page, ranges) && BlockFlaw(e, image, b, ranges)
      ensures Refuted(e, image, start, end, ranges)
    {
      hide Tiles, Relevant;
      assert Spoiled(e, image, start, end, prefix, b, ranges);
    }

    static lemma NoBlocks(image: Image, start: nat, ranges: seq<CodeRange>)
      requires start <= |image.bytes|
      ensures Tiles(image, start, start, []) && Untouched(image, [], ranges) && AllFine(image, [], ranges) && ReadEntries([], ranges) == []
    {
    }

    method ReadBlock(directory: nat, directorySize: nat, offset: nat) returns (ok: bool, b: Block)
      requires error == NoError && directory + directorySize <= |image.bytes| && offset < directorySize
      requires SectionRange(image, directory, directorySize, false)
      modifies this`error, this`metadataBytes, this`readFailures
      ensures ok <==> error == NoError
      ensures ok ==> b.at == directory + offset && b.at + 8 <= |image.bytes| && b == BlockAt(image, b.at)
      ensures ok ==> BlockOk(image, b, directory + directorySize)
      ensures !ok ==> (Troubled(error, old(metadataBytes) + 8) && offset + 8 <= directorySize) ||
                      (error in {Misaligned, BadBlock, EscapesDirectory} && NoBlock(image, directory + offset, directory + directorySize))
      ensures old(metadataBytes) <= metadataBytes <= old(metadataBytes) + 8
    {
      b := Block(directory + offset, 0, 0);
      if b.at % 4 != 0 {
        ok := Fail(Misaligned);
        return;
      }
      var header;
      if offset + 8 <= directorySize { PartRange(image, directory, directorySize, b.at, 8); }
      ok, header := RelocationData(directory, directorySize, b.at, 8);
      if !ok { return; }
      HeaderBytes(image, b.at, header);
      b := Block(b.at, U32(header, 0), U32(header, 4));
      if b.page % 4096 != 0 || b.page >= |image.bytes| || b.size < 8 || b.size % 2 != 0 || b.size > directorySize - offset {
        ok := Fail(BadBlock);
      }
    }

    static lemma HeaderBytes(image: Image, at: nat, header: seq<byte>)
      requires at + 8 <= |image.bytes| && header == image.bytes[at..at + 8]
      ensures U32(header, 0) == U32(image.bytes, at) && U32(header, 4) == U32(image.bytes, at + 4)
    {
      assert forall k | 0 <= k < 8 :: header[k] == image.bytes[at + k];
    }

    static lemma SkippedBlock(image: Image, b: Block, ranges: seq<CodeRange>)
      requires !Relevant(b.page, ranges) && b.size >= 8 && b.at + b.size <= |image.bytes|
      ensures BlockClear(image, b, ranges)
    {
      forall i | 0 <= i < Entries(b) ensures Clear(b.page, EntryOf(image, b, i), ranges) {
        SkippedIsClear(b.page, EntryOf(image, b, i), ranges);
      }
    }

    static lemma OneMoreBlock(image: Image, start: nat, end: nat, blocks: seq<Block>, b: Block, ranges: seq<CodeRange>)
      requires Tiles(image, start, end, blocks) && Untouched(image, blocks, ranges)
      requires b.at == end && b.at + 8 <= |image.bytes| && b == BlockAt(image, end) && BlockOk(image, b, end + b.size) && end + b.size <= |image.bytes|
      requires BlockClear(image, b, ranges) && AllFine(image, blocks, ranges) && (Relevant(b.page, ranges) ==> BlockFine(image, b, ranges))
      ensures Tiles(image, start, end + b.size, blocks + [b]) && Untouched(image, blocks + [b], ranges) && AllFine(image, blocks + [b], ranges)
    {
      hide BlockClear, U32, BlockFine, Relevant;
      var c := blocks + [b];
      assert forall k | 0 <= k < |c| :: c[k] == if k < |blocks| then blocks[k] else b;
      forall k | 0 <= k < |c| ensures Continues(start, c, k) {
        assert k < |blocks| ==> Continues(start, blocks, k);
      }
    }

    /** The directory must be readable aligned data apart from the ranges; an absent directory relocates nothing. */
    method CheckRelocations(directory: nat, directorySize: nat) returns (ok: bool, ghost blocks: seq<Block>)
      requires error == NoError
      modifies this`error, this`metadataBytes, this`readFailures, this`relocationEntries, this`relocationBlocks,
               this`relocationBlocksSkipped, this`visited
      ensures ok <==> error == NoError
      ensures ok ==> (directory == 0 && directorySize == 0 && blocks == []) ||
                     (directory != 0 && Tiles(image, directory, directory + directorySize, blocks) &&
                      Untouched(image, blocks, ranges) &&
                      forall r | 0 <= r < |ranges| :: !Overlap(ranges[r].rva, ranges[r].size, directory, directorySize))
      ensures ok ==> visited == old(visited) + ReadEntries(blocks, ranges)
      ensures ok <==> !Troubled(error, old(metadataBytes) + directorySize) && Acceptable(image, directory, directorySize, ranges)
      ensures !ok ==> Troubled(error, old(metadataBytes) + directorySize) || Justified(error, directory, directorySize)
    {
      hide Tiles, Untouched, AllFine, Refuted, SectionRange;
      blocks := [];
      if directory == 0 && directorySize == 0 { return true, []; }
      if directory == 0 || directorySize < 8 || directory % 4 != 0 || !SectionRange(image, directory, directorySize, false) {
        ok := Fail(BadDirectory);
        return;
      }
      if r :| 0 <= r < |ranges| && Overlap(ranges[r].rva, ranges[r].size, directory, directorySize) {
        ok := Fail(RangeInDirectory);
        return;
      }
      SectionInside(image, directory, directorySize);
      ok, blocks := RelocationBlocks(directory, directorySize);
      if !ok && !Troubled(error, old(metadataBytes) + directorySize) {
        RefutedKind(error, image, directory, directory + directorySize, ranges);
        RefusedDirectory(error, image, directory, directorySize, ranges);
      }
    }

    /** What a refusal says about the directory. */
    ghost predicate Justified(e: Error, directory: nat, directorySize: nat) {
      match e
      case BadDirectory => directory == 0 || directorySize < 8 || directory % 4 != 0 || !SectionRange(image, directory, directorySize, false)
      case RangeInDirectory => exists r | 0 <= r < |ranges| :: Overlap(ranges[r].rva, ranges[r].size, directory, directorySize)
      case _ => Refuted(e, image, directory, directory + directorySize, ranges)
    }

    static lemma SectionInside(image: Image, rva: nat, size: nat)
      requires SectionRange(image, rva, size, false)
      ensures rva + size <= |image.bytes|
    {
    }

    static lemma RefutedKind(e: Error, image: Image, start: nat, end: nat, ranges: seq<CodeRange>)
      requires Refuted(e, image, start, end, ranges)
      ensures e in {Misaligned, BadBlock, EscapesDirectory, UnsupportedKind, FieldBeyondImage, RangeTouched}
    {
      hide Tiles, Clear;
    }

    static lemma RefusedDirectory(e: Error, image: Image, directory: nat, directorySize: nat, ranges: seq<CodeRange>)
      requires directory != 0 && Refuted(e, image, directory, directory + directorySize, ranges)
      ensures !Acceptable(image, directory, directorySize, ranges)
    {
      hide Tiles, AllFine, Refuted, SectionRange;
      forall blocks | Tiles(image, directory, directory + directorySize, blocks) ensures !AllFine(image, blocks, ranges) {
        RefutedExactly(e, image, directory, directory + directorySize, ranges, blocks);
      }
    }
  }

  /** The entry addresses of the blocks that are read, in order. */
  function ReadEntries(blocks: seq<Block>, ranges: seq<CodeRange>): seq<nat> {
    if blocks == [] then []
    else
      var b := blocks[|blocks| - 1];
      ReadEntries(blocks[..|blocks| - 1], ranges) +
      if Relevant(b.page, ranges) && b.size >= 8 then Parser.Addresses(b.at + 8, Entries(b)) else []
  }

  lemma ReadOneMore(blocks: seq<Block>, b: Block, ranges: seq<CodeRange>)
    ensures ReadEntries(blocks + [b], ranges) ==
            ReadEntries(blocks, ranges) + if Relevant(b.page, ranges) && b.size >= 8 then Parser.Addresses(b.at + 8, Entries(b)) else []
  {
    assert (blocks + [b])[..|blocks|] == blocks;
  }
}
