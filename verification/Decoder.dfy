/** The memory-mapped decoder: a first-match search through overlapping segments. */
module Decoder {
  import opened PimDef

  datatype AccessType = NONE | SRAM | DRAM | FUNC

  /** Segments are half-open; each is as large as the DRAM base times eight, so they overlap. */
  datatype Segment = Segment(kind: AccessType, base: nat, size: nat) {
    predicate Contains(a: nat) {
      base <= a < base + size
    }
  }

  const SEG_SIZE: nat := DRAM_BASE * 8

  const SEGMENTS: seq<Segment> := [
    Segment(DRAM, DRAM_BASE, SEG_SIZE),
    Segment(SRAM, SRAM_BASE, SEG_SIZE),
    Segment(FUNC, FUNC_BASE, SEG_SIZE)
  ]

  function FirstMatch(segs: seq<Segment>, a: nat): AccessType {
    if segs == [] then NONE
    else if segs[0].Contains(a) then segs[0].kind
    else FirstMatch(segs[1..], a)
  }

  /** The address map the list amounts to: list order cuts the overlaps. */
  function Decode(a: nat): AccessType {
    if a < FUNC_BASE then NONE
    else if a < SRAM_BASE then FUNC
    else if a < DRAM_BASE then SRAM
    else if a < DRAM_BASE + SEG_SIZE then DRAM
    else NONE
  }

  predicate IsIO(a: nat) {
    Decode(a) == FUNC || Decode(a) == SRAM
  }

  lemma SegmentsArePartition(a: nat)
    ensures FirstMatch(SEGMENTS, a) == Decode(a)
  {
    assert SEGMENTS[1..] == [SEGMENTS[1], SEGMENTS[2]];
    assert SEGMENTS[1..][1..] == [SEGMENTS[2]];
    assert SEGMENTS[2].kind == FUNC;
    assert FirstMatch([SEGMENTS[2]], a) == if SEGMENTS[2].Contains(a) then FUNC else NONE;
  }

  /** Addresses of one 1 KiB window decode alike, so a range inside a window stays in SRAM. */
  lemma WindowStaysSram(a: nat, k: nat)
    requires Decode(a) == SRAM && a % SRAM_SIZE + k < SRAM_SIZE
    ensures Decode(a + k) == SRAM && (a + k) % SRAM_SIZE == a % SRAM_SIZE + k
  {
    assert (a + k) / SRAM_SIZE == a / SRAM_SIZE;
  }

  datatype DecodeInfo = DecodeInfo(isIO: bool, isDRAM: bool, kind: AccessType)

  class PimDecoder {
    var segs: seq<Segment>

    ghost predicate Valid()
      reads this
    {
      segs == SEGMENTS
    }

    constructor ()
      ensures Valid()
    {
      segs := [];
      new;
      segs := segs + [Segment(DRAM, DRAM_BASE, SEG_SIZE)];
      segs := segs + [Segment(SRAM, SRAM_BASE, SEG_SIZE)];
      segs := segs + [Segment(FUNC, FUNC_BASE, SEG_SIZE)];
    }

    method DecodeAddr(a: nat) returns (info: DecodeInfo)
      requires Valid()
      ensures info == DecodeInfo(IsIO(a), Decode(a) == DRAM, Decode(a))
    {
      var kind := NONE;
      var i := 0;
      while i < |segs|
        invariant i <= |segs|
        invariant kind == NONE
        invariant FirstMatch(segs[i..], a) == FirstMatch(segs, a)
      {
        assert segs[i..][1..] == segs[i + 1..];
        if segs[i].Contains(a) {
          kind := segs[i].kind;
          break;
        }
        i := i + 1;
      }
      SegmentsArePartition(a);
      info := DecodeInfo(kind == FUNC || kind == SRAM, kind == DRAM, kind);
    }
  }
}
