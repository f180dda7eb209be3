/** The carry-over scan of static data: sections are read in chunks of 32768 bytes into one buffer, the last
    bytes of each chunk are kept so that no aligned window crossing a chunk boundary is lost. */
module RttiScan {
  import opened LoadedImage

  const CHUNK: nat := 32768
  const WIDEST: nat := 24
  const READ_LIMIT: nat := 131072

  datatype Visited = Visited(at: nat, bytes: seq<byte>)

  predicate StaticData(s: Section) { s.readable && !s.writable && !s.executable && !s.discardable }

  predicate ImageOk(image: Image) {
    forall k | 0 <= k < |image.sections| :: image.sections[k].rva + image.sections[k].size <= |image.bytes|
  }

  /** The two scans: 24-byte windows on 4-byte boundaries, 8-byte windows on 8-byte boundaries. */
  predicate Shape(width: nat, alignment: nat) { (width == 24 && alignment == 4) || (width == 8 && alignment == 8) }

  predicate Aligned(p: nat, alignment: nat)
    requires alignment > 0
  {
    p % alignment == 0
  }

  /** A whole aligned window inside [lo, hi). */
  predicate IsWindow(p: nat, lo: nat, hi: nat, width: nat, alignment: nat)
    requires alignment > 0
  {
    lo <= p && Aligned(p, alignment) && p + width <= hi
  }

  /** The bytes seen are the image's. */
  predicate Faithful(image: Image, v: Visited, width: nat) {
    v.at + width <= |image.bytes| && v.bytes == image.bytes[v.at..v.at + width]
  }

  /** Every aligned window of [lo, hi) once, in order, with the image's bytes. */
  ghost predicate AllWindows(image: Image, v: seq<Visited>, lo: nat, hi: nat, width: nat, alignment: nat)
    requires alignment > 0
  {
    && (forall k | 0 <= k < |v| :: IsWindow(v[k].at, lo, hi, width, alignment) && Faithful(image, v[k], width))
    && (forall j, k | 0 <= j < k < |v| :: v[j].at < v[k].at)
    && (forall p: nat | IsWindow(p, lo, hi, width, alignment) :: exists k :: 0 <= k < |v| && v[k].at == p)
  }

  /** Windows before `next` are visited and the next one starts at `next`. */
  ghost predicate Before(image: Image, v: seq<Visited>, lo: nat, next: nat, width: nat, alignment: nat)
    requires alignment > 0
  {
    && Aligned(next, alignment) && lo <= next
    && (forall k | 0 <= k < |v| :: lo <= v[k].at < next && Aligned(v[k].at, alignment) && Faithful(image, v[k], width))
    && (forall j, k | 0 <= j < k < |v| :: v[j].at < v[k].at)
    && (forall p: nat | lo <= p < next && Aligned(p, alignment) :: exists k :: 0 <= k < |v| && v[k].at == p)
  }

  /** The window before `next`, if there is one, ends by `hi`. */
  predicate Tight(lo: nat, next: nat, hi: nat, width: nat, alignment: nat) {
    next < lo + alignment || next + width <= hi + alignment
  }

  function FirstAt(start: nat, alignment: nat): nat
    requires alignment > 0
  {
    (alignment - start % alignment) % alignment
  }

  lemma FirstAligned(start: nat, alignment: nat, next: nat)
    requires alignment == 4 || alignment == 8
    requires Aligned(next, alignment) && start <= next < start + alignment
    ensures start + FirstAt(start, alignment) == next
  {
    if alignment == 4 { NextFour(start, next); } else { NextEight(start, next); }
  }

  lemma NextFour(start: nat, next: nat)
    requires next % 4 == 0 && start <= next < start + 4
    ensures start + (4 - start % 4) % 4 == next
  {
  }

  lemma NextEight(start: nat, next: nat)
    requires next % 8 == 0 && start <= next < start + 8
    ensures start + (8 - start % 8) % 8 == next
  {
  }

  lemma FirstIsAligned(start: nat, alignment: nat)
    requires alignment == 4 || alignment == 8
    ensures Aligned(start + FirstAt(start, alignment), alignment) && FirstAt(start, alignment) < alignment
  {
  }

  lemma NothingBefore(image: Image, lo: nat, width: nat, alignment: nat)
    requires alignment == 4 || alignment == 8
    ensures Before(image, [], lo, lo + FirstAt(lo, alignment), width, alignment)
  {
    hide FirstAt, Aligned;
    FirstIsAligned(lo, alignment);
    forall p: nat | lo <= p < lo + FirstAt(lo, alignment) ensures !Aligned(p, alignment) {
      if Aligned(p, alignment) { FirstAligned(lo, alignment, p); }
    }
  }

  lemma OneMore(image: Image, v: seq<Visited>, lo: nat, next: nat, width: nat, alignment: nat)
    requires (alignment == 4 || alignment == 8) && Before(image, v, lo, next, width, alignment) && next + width <= |image.bytes|
    ensures Before(image, v + [Visited(next, image.bytes[next..next + width])], lo, next + alignment, width, alignment)
  {
    hide Aligned, Faithful;
    var n := v + [Visited(next, image.bytes[next..next + width])];
    AlignedNext(next, alignment);
    NewIsFaithful(image, next, width);
    forall p: nat | lo <= p < next + alignment && Aligned(p, alignment) ensures exists k :: 0 <= k < |n| && n[k].at == p {
      Seen(image, v, lo, next, width, alignment, p);
    }
  }

  lemma NewIsFaithful(image: Image, next: nat, width: nat)
    requires next + width <= |image.bytes|
    ensures Faithful(image, Visited(next, image.bytes[next..next + width]), width)
  {
  }

  lemma Seen(image: Image, v: seq<Visited>, lo: nat, next: nat, width: nat, alignment: nat, p: nat)
    requires (alignment == 4 || alignment == 8) && Before(image, v, lo, next, width, alignment) && next + width <= |image.bytes|
    requires lo <= p < next + alignment && Aligned(p, alignment)
    ensures var n := v + [Visited(next, image.bytes[next..next + width])]; exists k :: 0 <= k < |n| && n[k].at == p
  {
    hide Aligned, Faithful;
    var n := v + [Visited(next, image.bytes[next..next + width])];
    if p < next {
      var k :| 0 <= k < |v| && v[k].at == p;
      assert n[k].at == p;
    } else {
      AlignedGap(next, p, alignment);
      assert n[|v|].at == p;
    }
  }

  lemma AlignedNext(p: nat, alignment: nat)
    requires (alignment == 4 || alignment == 8) && Aligned(p, alignment)
    ensures Aligned(p + alignment, alignment)
  {
  }

  lemma AlignedGap(a: nat, b: nat, alignment: nat)
    requires (alignment == 4 || alignment == 8) && Aligned(a, alignment) && Aligned(b, alignment) && a <= b < a + alignment
    ensures a == b
  {
  }

  lemma BeforeIsAll(image: Image, v: seq<Visited>, lo: nat, next: nat, hi: nat, width: nat, alignment: nat)
    requires (alignment == 4 || alignment == 8) && Before(image, v, lo, next, width, alignment) && next + width > hi
    requires Tight(lo, next, hi, width, alignment)
    ensures AllWindows(image, v, lo, hi, width, alignment)
  {
    hide Aligned;
    forall k | 0 <= k < |v| ensures v[k].at + width <= hi {
      LastFits(v[k].at, next, alignment);
    }
  }

  lemma LastFits(p: nat, next: nat, alignment: nat)
    requires (alignment == 4 || alignment == 8) && Aligned(p, alignment) && Aligned(next, alignment) && p < next
    ensures p + alignment <= next
  {
  }

  class Resolver {
    const image: Image
    const reader: Reader
    const accepts: (nat, seq<byte>) -> bool
    var readCalls: nat
    var readBytes: nat
    var scannedBytes: nat

    /** The windows visited, section by section. */
    ghost var visits: seq<seq<Visited>>

    constructor (image: Image, reader: Reader, accepts: (nat, seq<byte>) -> bool)
      ensures this.image == image && this.reader == reader && this.accepts == accepts && visits == [] && scannedBytes == 0
    {
      this.image, this.reader, this.accepts, visits := image, reader, accepts, [];
      readCalls, readBytes, scannedBytes := 0, 0, 0;
    }

    /** The reader refused, or its 131072 calls are used up. */
    ghost predicate Unread()
      reads this`readCalls
    {
      readCalls >= 131072 || !Willing(reader)
    }

    /** The visitor took every one of these windows. */
    predicate Taken(v: seq<Visited>) {
      forall k | 0 <= k < |v| :: accepts(v[k].at, v[k].bytes)
    }

    /** The visitor took every window but the last. */
    predicate Declined(v: seq<Visited>) {
      v != [] && Taken(v[..|v| - 1]) && !accepts(v[|v| - 1].at, v[|v| - 1].bytes)
    }

    /** Fills part of the buffer through whatever windows the reader grants. */
    method Read(rva: nat, buffer: array<byte>, start: nat, count: nat) returns (ok: bool)
      requires rva + count <= |image.bytes| && start + count <= buffer.Length
      modifies buffer, this`readCalls, this`readBytes
      ensures buffer[..start] == old(buffer[..start])
      ensures ok ==> buffer[start..start + count] == image.bytes[rva..rva + count] && readBytes == old(readBytes) + count
      ensures !ok ==> count == 0 || Unread()
    {
      if count == 0 { return false; }
      var offset := 0;
      while offset < count
        invariant 0 <= offset <= count
        invariant forall k | 0 <= k < start :: buffer[k] == old(buffer[k])
        invariant forall k | start <= k < start + offset :: buffer[k] == image.bytes[rva + (k - start)]
        invariant readBytes == old(readBytes) + offset
      {
        if readCalls >= READ_LIMIT { return false; }
        var maximum := if CHUNK < count - offset then CHUNK else count - offset;
        var window := reader(readCalls, rva + offset, maximum);
        if !window.readable || window.size == 0 || window.size > maximum { return false; }
        readCalls := readCalls + 1;
        readBytes := readBytes + window.size;
        if !window.copied {
          assert !Granted(reader(readCalls - 1, rva + offset, maximum), maximum);
          return false;
        }
        Copy(buffer, start + offset, rva + offset, window.size);
        offset := offset + window.size;
      }
      ok := true;
    }

    method Copy(buffer: array<byte>, at: nat, rva: nat, count: nat)
      requires rva + count <= |image.bytes| && at + count <= buffer.Length
      modifies buffer
      ensures forall k | 0 <= k < at :: buffer[k] == old(buffer[k])
      ensures forall k | at <= k < at + count :: buffer[k] == image.bytes[rva + (k - at)]
    {
      forall k | at <= k < at + count { buffer[k] := image.bytes[rva + (k - at)]; }
    }

    /** Moves the last bytes of the buffer's content to its front. */
    method Keep(buffer: array<byte>, size: nat, carry: nat)
      requires carry <= size <= buffer.Length
      modifies buffer
      ensures buffer[..carry] == old(buffer[size - carry..size])
    {
      forall k | 0 <= k < carry { buffer[k] := buffer[size - carry + k]; }
    }

    /** Visits the windows now complete in the buffer. */
    method VisitChunk(buffer: array<byte>, start: nat, size: nat, carry: nat, width: nat, alignment: nat, ghost lo: nat, ghost next: nat)
      returns (ok: bool, ghost next': nat)
      requires Shape(width, alignment) && visits != [] && size <= buffer.Length && carry < width
      requires start + size <= |image.bytes| && buffer[..size] == image.bytes[start..start + size]
      requires Before(image, visits[|visits| - 1], lo, next, width, alignment) && start <= next < start + alignment
      requires Taken(visits[|visits| - 1])
      modifies this`visits
      ensures |visits| == |old(visits)| && visits[..|visits| - 1] == old(visits)[..|visits| - 1]
      ensures if ok then Taken(visits[|visits| - 1]) else Declined(visits[|visits| - 1])
      ensures ok ==> Before(image, visits[|visits| - 1], lo, next', width, alignment) && start + size < next' + width
      ensures ok ==> next <= next' && (next' == next || next' + width <= start + size + alignment)
    {
      hide Before, FirstAt, Aligned;
      var n := |visits| - 1;
      NextAligned(image, visits[n], lo, next, width, alignment);
      FirstAligned(start, alignment, next);
      next' := next;
      var i := FirstAt(start, alignment);
      while i + width <= size
        invariant next' == start + i && next <= next' && (next' == next || next' + width <= start + size + alignment)
        invariant |visits| == n + 1 && visits[..n] == old(visits)[..n] && Before(image, visits[n], lo, next', width, alignment)
        invariant Taken(visits[n])
        decreases size - i
      {
        if i + width > carry {
          var window := TakeWindow(buffer, start, size, i, width);
          OneMore(image, visits[n], lo, next', width, alignment);
          ghost var taken := visits[n];
          visits := visits[n := visits[n] + [Visited(start + i, window)]];
          if !accepts(start + i, window) {
            assert visits[n][..|visits[n]| - 1] == taken;
            return false, next';
          }
        }
        i := i + alignment;
        next' := next' + alignment;
      }
      ok := true;
    }

    method TakeWindow(buffer: array<byte>, start: nat, size: nat, i: nat, width: nat) returns (window: seq<byte>)
      requires size <= buffer.Length && i + width <= size && start + size <= |image.bytes|
      requires buffer[..size] == image.bytes[start..start + size]
      ensures window == image.bytes[start + i..start + i + width]
    {
      window := buffer[i..i + width];
      forall k | 0 <= k < width ensures window[k] == image.bytes[start + i + k] {
        assert window[k] == buffer[..size][i + k] == image.bytes[start..start + size][i + k];
      }
    }

    static lemma NextAligned(image: Image, v: seq<Visited>, lo: nat, next: nat, width: nat, alignment: nat)
      requires alignment > 0 && Before(image, v, lo, next, width, alignment)
      ensures Aligned(next, alignment) && lo <= next
    {
    }

    /** One section, chunk by chunk. */
    method ScanSection(s: Section, width: nat, alignment: nat, buffer: array<byte>) returns (ok: bool)
      requires Shape(width, alignment) && s.rva + s.size <= |image.bytes| && buffer.Length == CHUNK + WIDEST
      modifies this, buffer
      ensures |visits| == |old(visits)| + 1 && visits[..|old(visits)|] == old(visits)
      ensures if ok then Taken(visits[|old(visits)|]) else Unread() || Declined(visits[|old(visits)|])
      ensures ok ==> AllWindows(image, visits[|old(visits)|], s.rva, s.rva + s.size, width, alignment)
      ensures ok ==> scannedBytes == old(scannedBytes) + s.size
    {
      hide Before, FirstAt, AllWindows;
      ghost var n, next: nat := |visits|, s.rva + FirstAt(s.rva, alignment);
      visits := visits + [[]];
      NothingBefore(image, s.rva, width, alignment);
      FirstIsAligned(s.rva, alignment);
      var carry, offset := 0, 0;
      while offset < s.size
        invariant 0 <= offset <= s.size && Ready(s, buffer, offset, carry, width)
        invariant |visits| == n + 1 && visits[..n] == old(visits) && scannedBytes == old(scannedBytes) + offset
        invariant Before(image, visits[n], s.rva, next, width, alignment) && Pending(s.rva, next, offset, width, alignment)
        invariant Taken(visits[n])
        decreases s.size - offset
      {
        var count := if CHUNK < s.size - offset then CHUNK else s.size - offset;
        scannedBytes := scannedBytes + count;
        ok, carry, next := ScanChunk(s, width, alignment, buffer, offset, count, carry, next);
        if !ok { return; }
        offset := offset + count;
      }
      BeforeIsAll(image, visits[n], s.rva, next, s.rva + s.size, width, alignment);
      ok := true;
    }

    /** The bytes carried over are the last ones before `offset`. */
    predicate Ready(s: Section, buffer: array<byte>, offset: nat, carry: nat, width: nat)
      reads buffer
    {
      && carry == (if offset < width then offset else width - 1) && s.rva + offset <= |image.bytes| && carry <= buffer.Length
      && buffer[..carry] == image.bytes[s.rva + offset - carry..s.rva + offset]
    }

    /** The next window is not complete at `offset`, and the one before it, if any, is. */
    static predicate Pending(lo: nat, next: nat, offset: nat, width: nat, alignment: nat) {
      next + width > lo + offset && Tight(lo, next, lo + offset, width, alignment)
    }

    /** Reads one chunk behind the carried bytes, visits what is now complete, and keeps the tail. */
    method ScanChunk(s: Section, width: nat, alignment: nat, buffer: array<byte>, offset: nat, count: nat, carry: nat, ghost next: nat)
      returns (ok: bool, carry': nat, ghost next': nat)
      requires Shape(width, alignment) && s.rva + s.size <= |image.bytes| && buffer.Length == CHUNK + WIDEST
      requires 0 < count <= CHUNK && offset + count <= s.size && Ready(s, buffer, offset, carry, width) && visits != []
      requires Before(image, visits[|visits| - 1], s.rva, next, width, alignment) && Pending(s.rva, next, offset, width, alignment)
      requires Taken(visits[|visits| - 1])
      modifies this`readCalls, this`readBytes, this`visits, buffer
      ensures |visits| == |old(visits)| && visits[..|visits| - 1] == old(visits)[..|visits| - 1]
      ensures if ok then Taken(visits[|visits| - 1]) else Unread() || Declined(visits[|visits| - 1])
      ensures ok ==> Ready(s, buffer, offset + count, carry', width)
      ensures ok ==> Before(image, visits[|visits| - 1], s.rva, next', width, alignment) && Pending(s.rva, next', offset + count, width, alignment)
    {
      hide Before, Aligned, Pending, Ready;
      carry', next' := carry, next;
      var size, start;
      ok, start, size := Fill(s, width, buffer, offset, count, carry);
      if !ok { return; }
      NextAligned(image, visits[|visits| - 1], s.rva, next, width, alignment);
      PendingStart(s.rva, next, offset, carry, width, alignment);
      ok, next' := VisitChunk(buffer, start, size, carry, width, alignment, s.rva, next);
      if !ok { return; }
      PendingAfter(s.rva, next, next', offset, count, width, alignment);
      carry' := CarryOver(s, width, buffer, offset + count, start, size);
    }

    static lemma PendingStart(lo: nat, next: nat, offset: nat, carry: nat, width: nat, alignment: nat)
      requires Pending(lo, next, offset, width, alignment) && lo <= next && width > 0
      requires carry == if offset < width then offset else width - 1
      ensures lo + offset - carry <= next < lo + offset - carry + alignment
    {
    }

    static lemma PendingAfter(lo: nat, next: nat, next': nat, offset: nat, count: nat, width: nat, alignment: nat)
      requires Pending(lo, next, offset, width, alignment) && next <= next' && next' + width > lo + offset + count
      requires next' == next || next' + width <= lo + offset + count + alignment
      ensures Pending(lo, next', offset + count, width, alignment)
    {
    }

    method Fill(s: Section, width: nat, buffer: array<byte>, offset: nat, count: nat, carry: nat) returns (ok: bool, start: nat, size: nat)
      requires 0 < width <= WIDEST && s.rva + s.size <= |image.bytes| && buffer.Length == CHUNK + WIDEST
      requires 0 < count <= CHUNK && offset + count <= s.size && Ready(s, buffer, offset, carry, width)
      modifies this`readCalls, this`readBytes, buffer
      ensures carry == (if offset < width then offset else width - 1) && start == s.rva + offset - carry && size == carry + count
      ensures size <= buffer.Length && start + size <= |image.bytes|
      ensures ok ==> buffer[..size] == image.bytes[start..start + size]
      ensures !ok ==> Unread()
    {
      size, start := carry + count, s.rva + offset - carry;
      ok := Read(s.rva + offset, buffer, carry, count);
      if ok { Assembled(buffer[..size], image.bytes, start, carry, size, buffer[..carry], buffer[carry..carry + count]); }
    }

    method CarryOver(s: Section, width: nat, buffer: array<byte>, offset: nat, start: nat, size: nat) returns (carry: nat)
      requires 0 < width && size <= buffer.Length && start + size == s.rva + offset <= |image.bytes| && size <= offset
      requires size >= width || size == offset
      requires buffer[..size] == image.bytes[start..start + size]
      modifies buffer
      ensures Ready(s, buffer, offset, carry, width)
    {
      carry := if width - 1 < size then width - 1 else size;
      Tail(image.bytes, start, size, carry);
      KeepTail(buffer[..size], buffer[size - carry..size], size, carry);
      Keep(buffer, size, carry);
    }

    static lemma KeepTail(all: seq<byte>, tail: seq<byte>, size: nat, carry: nat)
      requires |all| == size && carry <= size && |tail| == carry && forall k | 0 <= k < carry :: tail[k] == all[size - carry + k]
      ensures tail == all[size - carry..size]
    {
    }

    static lemma Assembled(all: seq<byte>, bytes: seq<byte>, start: nat, carry: nat, size: nat, front: seq<byte>, back: seq<byte>)
      requires carry <= size && start + size <= |bytes| && |all| == size && all == front + back && |front| == carry
      requires front == bytes[start..start + carry] && back == bytes[start + carry..start + size]
      ensures all == bytes[start..start + size]
    {
    }

    static lemma Tail(bytes: seq<byte>, start: nat, size: nat, carry: nat)
      requires carry <= size && start + size <= |bytes|
      ensures bytes[start..start + size][size - carry..size] == bytes[start + size - carry..start + size]
    {
    }

    /** Every static data section; other sections are not touched. Only the reader, its allowance of calls, or the
        visitor stops the scan, and a finished one showed the visitor everything and had it all taken. */
    method Scan(width: nat, alignment: nat) returns (ok: bool)
      requires Shape(width, alignment) && ImageOk(image) && visits == []
      modifies this
      ensures if ok then forall k | 0 <= k < |visits| :: Taken(visits[k]) else Unread() || (visits != [] && Declined(visits[|visits| - 1]))
      ensures ok ==> |visits| == |image.sections| && forall k | 0 <= k < |visits| ::
                if StaticData(image.sections[k])
                then AllWindows(image, visits[k], image.sections[k].rva, image.sections[k].rva + image.sections[k].size, width, alignment)
                else visits[k] == []
    {
      hide AllWindows;
      var buffer := new byte[CHUNK + WIDEST];
      for k := 0 to |image.sections|
        invariant |visits| == k
        invariant forall j | 0 <= j < k ::
                    if StaticData(image.sections[j])
                    then AllWindows(image, visits[j], image.sections[j].rva, image.sections[j].rva + image.sections[j].size, width, alignment)
                    else visits[j] == []
        invariant forall j | 0 <= j < k :: Taken(visits[j])
      {
        ghost var before := visits;
        if StaticData(image.sections[k]) {
          ok := ScanSection(image.sections[k], width, alignment, buffer);
          if !ok { return; }
          assert forall j | 0 <= j < k :: visits[j] == before[j] by { assert visits[..k] == before; }
        } else {
          visits := visits + [[]];
        }
      }
      ok := true;
    }
  }
}
