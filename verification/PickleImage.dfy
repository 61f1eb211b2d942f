/** Whole pickles as bytes: a header whose first word is the payload size, then
    the payload.  Models the read-only constructor, PeekNext and FindNext, on
    arbitrary bytes. */
module PickleImage {
  import Alignment
  import opened Bits
  import opened Options
  import opened PickleFormat

  /** sizeof(Pickle::Header) */
  const HEADER: nat := 4

  /** header_->payload_size */
  function PayloadField(b: seq<byte>): (n: nat)
    requires |b| >= HEADER
    ensures n < 0x1_0000_0000
  {
    var b0: int, b1: int, b2: int, b3: int := b[0], b[1], b[2], b[3];
    b0 + 0x100 * (b1 + 0x100 * (b2 + 0x100 * b3))
  }

  /** The bytes of one pickle with this header size. */
  predicate IsImage(headerSize: nat, b: seq<byte>) {
    HEADER <= headerSize <= |b| && PayloadField(b) == |b| - headerSize
  }

  lemma StoredField(b: seq<byte>, n: nat)
    requires n < 0x1_0000_0000 && |b| >= HEADER && b[..4] == LittleEndian(n, 4)
    ensures PayloadField(b) == n
  {
    UnsignedRoundTrip(n, 4);
    var f := b[..4];
    assert f[1..][1..][1..][1..] == [];
    assert f[1..][0] == b[1] && f[1..][1..][0] == b[2] && f[1..][1..][1..][0] == b[3];
    assert FromLittleEndian(f) == b[0] + 0x100 * FromLittleEndian(f[1..]);
    assert FromLittleEndian(f[1..]) == b[1] + 0x100 * FromLittleEndian(f[1..][1..]);
    assert FromLittleEndian(f[1..][1..]) == b[2] + 0x100 * FromLittleEndian(f[1..][1..][1..]);
  }

  // ------------------------------------------------- the read-only constructor

  /** header_size_ as Pickle(const char*, int) deduces it; 0 rejects the data. */
  function DeducedHeader(b: seq<byte>, len: int32): nat
    requires len <= |b|
  {
    var h0 := if len >= HEADER then (len - PayloadField(b)) % 0x1_0000_0000 else 0;
    var h1 := if h0 > len % 0x1_0000_0000 then 0 else h0;
    if h1 != Align4(h1) then 0 else h1
  }

  /** The data is accepted exactly when the payload it claims leaves room for an
      aligned header, and then header and payload make up its length. */
  lemma AcceptedIffHeaderFits(b: seq<byte>, len: int32)
    requires len <= |b|
    ensures DeducedHeader(b, len) != 0 <==>
            HEADER <= len && PayloadField(b) < len && (len - PayloadField(b)) % 4 == 0
    ensures DeducedHeader(b, len) != 0 ==>
            HEADER <= DeducedHeader(b, len) && DeducedHeader(b, len) + PayloadField(b) == len
  {
    if len >= HEADER {
      var p := PayloadField(b);
      Modulo32(len - p);
      Modulo32(len);
      MultipleOf4(if p <= len then len - p else 0);
    }
  }

  lemma Modulo32(x: int)
    requires -0x1_0000_0000 <= x < 0x1_0000_0000
    ensures x % 0x1_0000_0000 == if x < 0 then x + 0x1_0000_0000 else x
  {
  }

  lemma MultipleOf4(h: nat)
    ensures h == Align4(h) <==> h % 4 == 0
  {
  }

  lemma ImageIsAccepted(headerSize: nat, b: seq<byte>)
    requires IsImage(headerSize, b) && headerSize % 4 == 0 && |b| <= INT_MAX
    ensures DeducedHeader(b, |b|) == headerSize
  {
    AcceptedIffHeaderFits(b, |b|);
  }

  // ------------------------------------------------------ PeekNext and FindNext

  /** The size the header claims, saturating at the largest size_t. */
  function PeekNext(headerSize: nat, range: seq<byte>, sizeMax: nat): Option<nat>
    requires HEADER <= headerSize <= sizeMax
  {
    if |range| < HEADER || |range| < headerSize then None
    else if PayloadField(range) > sizeMax - headerSize then Some(sizeMax)
    else Some(headerSize + PayloadField(range))
  }

  /** As soon as the header of a pickle has arrived, PeekNext tells the total size
      of the pickle, and before that nothing. */
  lemma PeekNextTellsTotalSize(headerSize: nat, image: seq<byte>, n: nat, sizeMax: nat)
    requires IsImage(headerSize, image) && n <= |image| <= sizeMax
    ensures PeekNext(headerSize, image[..n], sizeMax) == if n >= headerSize then Some(|image|) else None
  {
    if n >= HEADER { assert image[..n][..4] == image[..4]; }
  }

  /** On arbitrary bytes it tells the size that the header claims, or the largest
      size_t exactly when that size is not below it. */
  lemma PeekNextSaturatesIff(headerSize: nat, range: seq<byte>, sizeMax: nat)
    requires HEADER <= headerSize <= sizeMax
    ensures PeekNext(headerSize, range, sizeMax) == None <==> |range| < headerSize
    ensures PeekNext(headerSize, range, sizeMax) == Some(sizeMax) <==>
            |range| >= headerSize && headerSize + PayloadField(range) >= sizeMax
    ensures |range| >= headerSize && headerSize + PayloadField(range) < sizeMax ==>
            PeekNext(headerSize, range, sizeMax) == Some(headerSize + PayloadField(range))
  {
  }

  /** The offset just past the first pickle, if all of it is there. */
  function FindNext(headerSize: nat, range: seq<byte>, sizeMax: nat): (r: Option<nat>)
    requires HEADER <= headerSize <= sizeMax
    ensures r.Some? ==> r.value <= |range|
  {
    var size := PeekNext(headerSize, range, sizeMax);
    if size.None? || size.value > |range| then None else size
  }

  /** FindNext finds n exactly when the first n bytes are a whole pickle; a
      range is always shorter than the largest size_t. */
  lemma FindNextFindsWholePickles(headerSize: nat, range: seq<byte>, sizeMax: nat, n: nat)
    requires HEADER <= headerSize <= sizeMax && |range| < sizeMax
    ensures FindNext(headerSize, range, sizeMax) == Some(n) <==>
            n <= |range| && IsImage(headerSize, range[..n])
  {
    if n <= |range| && n >= HEADER { assert range[..n][..4] == range[..4]; }
  }

  lemma ProperPrefixIsRejected(headerSize: nat, image: seq<byte>, n: nat, sizeMax: nat)
    requires IsImage(headerSize, image) && n < |image| < sizeMax
    ensures FindNext(headerSize, image[..n], sizeMax) == None
  {
    if n >= HEADER { assert image[..n][..4] == image[..4]; }
  }

  /** The pickles that repeated FindNext steps over. */
  function StepThrough(headerSize: nat, range: seq<byte>, sizeMax: nat): seq<seq<byte>>
    requires HEADER <= headerSize <= sizeMax
    decreases |range|
  {
    var next := FindNext(headerSize, range, sizeMax);
    if next.None? || next.value == 0 then []
    else [range[..next.value]] + StepThrough(headerSize, range[next.value..], sizeMax)
  }

  /** Over pickles laid end to end, FindNext stops at every boundary and only
      there, up to a last one that is cut short. */
  lemma {:induction false} StepsThroughBoundaries(headerSize: nat, images: seq<seq<byte>>, cut: seq<byte>, sizeMax: nat)
    requires forall i :: 0 <= i < |images| ==> IsImage(headerSize, images[i])
    requires HEADER <= headerSize < sizeMax && |Flat(images) + cut| < sizeMax
    requires FindNext(headerSize, cut, sizeMax).None?
    ensures StepThrough(headerSize, Flat(images) + cut, sizeMax) == images
    decreases |images|
  {
    if images == [] {
      assert Flat(images) + cut == cut;
    } else {
      var first, rest := images[0], Flat(images[1..]) + cut;
      assert Flat(images) + cut == first + rest;
      assert (first + rest)[..|first|] == first && (first + rest)[|first|..] == rest;
      FindNextFindsWholePickles(headerSize, first + rest, sizeMax, |first|);
      StepsThroughBoundaries(headerSize, images[1..], cut, sizeMax);
      assert [first] + images[1..] == images;
    }
  }

  // ------------------------------------------------------------------ growth

  /** Align(n, kPayloadUnit) */
  function AlignUnit(n: nat): (r: nat)
    ensures n <= r < n + 64 && r % 64 == 0
  {
    64 * ((n + 63) / 64)
  }

  /** Align(n, kPickleHeapAlign) */
  function AlignHeap(n: nat): nat {
    4096 * ((n + 4095) / 4096)
  }

  lemma PowersOfAlignments()
    ensures Pow2(2) == 4 && Pow2(6) == 64 && Pow2(12) == 4096
  {
    Pow2Adds(2, 4);
    Pow2Adds(6, 6);
  }

  lemma AlignedOnWords(n: nat, k: nat, alignment: nat, words: nat)
    requires k <= 64 && alignment == Pow2(k) && words == Pow2(64)
    ensures 0 < alignment <= words && Alignment.MaskedAlign(n, alignment, words) == Align(n, alignment) % words
  {
    Alignment.MaskedIsMultiple(n, k, 64);
  }

  /** The alignments of fields, units and heap pages are what bits::Align, with
      its mask, computes in words of 64 bits. */
  lemma AlignmentsAreAlign(n: nat, words: nat)
    requires words == Pow2(64)
    ensures Align4(n) == Align(n, 4) && AlignUnit(n) == Align(n, 64) && AlignHeap(n) == Align(n, 4096)
    ensures words >= 4096
    ensures Alignment.MaskedAlign(n, 4, words) == Align4(n) % words
    ensures Alignment.MaskedAlign(n, 64, words) == AlignUnit(n) % words
    ensures Alignment.MaskedAlign(n, 4096, words) == AlignHeap(n) % words
  {
    PowersOfAlignments();
    AlignedOnWords(n, 2, 4, words);
    AlignedOnWords(n, 6, 64, words);
    AlignedOnWords(n, 12, 4096, words);
  }

  /** The capacity to which ClaimUninitializedBytesInternal resizes. */
  function GrownCapacity(capacity: nat, newSize: nat): nat {
    var doubled := if capacity * 2 > 4096 then AlignHeap(capacity * 2) - 64 else capacity * 2;
    AlignUnit(if doubled > newSize then doubled else newSize)
  }

  /** Growing makes room and, in spite of the rounding down, grows by half. */
  lemma GrowthIsGeometric(capacity: nat, newSize: nat)
    requires capacity < newSize
    ensures var c := GrownCapacity(capacity, newSize);
      newSize <= c <= 3 * newSize + 4096 && 3 * capacity <= 2 * c
  {
  }

  lemma ReserveIsGeometric(capacity: nat, newSize: nat)
    requires capacity < newSize
    ensures var c := AlignUnit(capacity * 2 + newSize);
      newSize <= c <= 3 * newSize + 4096 && 3 * capacity <= 2 * c
  {
  }
}
