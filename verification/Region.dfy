/** The controller's address region: interleaved chunks, their dense local image, and the
    clamping of a region to the memory behind it. */
module Region {
  import opened PimDef
  import opened Quotients

  const REGION_MAX: nat := TWO64 - 1
  const PRIVATE_MEM_OFFSET: nat := 0

  /** end is inclusive; size and step are both zero when the region is contiguous. */
  datatype Region = Region(start: nat, end: nat, size: nat, step: nat) {
    predicate Valid() {
      start <= end <= REGION_MAX && size <= step && (size == 0 ==> step == 0)
    }

    predicate Owns(a: nat)
      requires Valid()
    {
      start <= a <= end && (size == 0 || (a - start) % step < size)
    }

    /** The range is owned and lies inside one chunk. */
    predicate OwnsRange(a: nat, n: nat)
      requires Valid()
    {
      Owns(a) && a + n <= end + 1 && (size == 0 || (a - start) % step + n <= size)
    }

    function Total(): nat
      requires Valid()
    {
      end - start + 1
    }

    /** One past the largest local address an owned address can have. */
    function Extent(): nat
      requires Valid()
    {
      PRIVATE_MEM_OFFSET
      + if size == 0 then Total() else Total() / step * size + Min(size, Total() % step)
    }
  }

  function ToLocal(r: Region, a: nat): nat
    requires r.Valid() && r.start <= a
  {
    if r.size == 0 then a - r.start + PRIVATE_MEM_OFFSET
    else
      var shift := a - r.start;
      shift / r.step * r.size + shift % r.step + PRIVATE_MEM_OFFSET
  }

  function ToGlobal(r: Region, l: nat): nat
    requires r.Valid() && PRIVATE_MEM_OFFSET <= l
  {
    var a := l - PRIVATE_MEM_OFFSET;
    if r.size == 0 then a + r.start
    else a / r.size * r.step + a % r.size + r.start
  }

  // ---- pairs of a chunk number and an offset

  /** Replacing the step by a smaller chunk size keeps the order of (chunk, offset) pairs. */
  lemma PairOrder(p: nat, a: nat, q: nat, b: nat, size: nat, step: nat)
    requires p * step + a < q * step + b && a < size <= step && b < size
    ensures p * size + a < q * size + b
  {
    if p < q {
      Mono(p + 1, q, size);
    } else if q < p {
      Mono(q + 1, p, step);
    }
  }

  /** Every (chunk, offset) pair below the total lies below the matching dense bound. */
  lemma PairBound(p: nat, a: nat, q: nat, b: nat, size: nat, step: nat)
    requires p * step + a < q * step + b && a < size <= step && b < step
    ensures p * size + a < q * size + Min(size, b)
  {
    if p < q {
      Mono(p + 1, q, size);
    } else if q < p {
      Mono(q + 1, p, step);
    }
  }

  /** And back: a pair below the dense bound lies below the total. */
  lemma PairBoundBack(p: nat, a: nat, q: nat, b: nat, size: nat, step: nat)
    requires p * size + a < q * size + Min(size, b) && a < size <= step
    ensures p * step + a < q * step + b
  {
    if p < q {
      Mono(p + 1, q, step);
    } else if q < p {
      Mono(q + 1, p, size);
    }
  }

  // ---- the two translations

  /** Global undoes local on owned addresses. */
  lemma GlobalOfLocal(r: Region, a: nat)
    requires r.Valid() && r.Owns(a)
    ensures ToGlobal(r, ToLocal(r, a)) == a
  {
    if r.size > 0 {
      GlobalOfPair(r, (a - r.start) / r.step, (a - r.start) % r.step);
      Euclid(a - r.start, r.step);
    }
  }

  lemma GlobalOfPair(r: Region, q: nat, o: nat)
    requires r.Valid() && r.size > 0 && o < r.size
    ensures ToGlobal(r, q * r.size + o + PRIVATE_MEM_OFFSET) == q * r.step + o + r.start
  {
    DivMod(q, r.size, o);
  }

  lemma DenseOrder(x: nat, y: nat, size: nat, step: nat)
    requires x < y && 0 < size <= step && x % step < size && y % step < size
    ensures x / step * size + x % step < y / step * size + y % step
  {
    Euclid(x, step);
    Euclid(y, step);
    PairOrder(x / step, x % step, y / step, y % step, size, step);
  }

  lemma OrderKept(r: Region, a: nat, b: nat)
    requires r.Valid() && r.Owns(a) && r.Owns(b) && a < b
    ensures ToLocal(r, a) < ToLocal(r, b)
  {
    if r.size > 0 {
      DenseOrder(a - r.start, b - r.start, r.size, r.step);
    }
  }

  /** Consecutive bytes of a chunk stay consecutive, and owned. */
  lemma ChunkKept(r: Region, a: nat, n: nat, k: nat)
    requires r.Valid() && r.OwnsRange(a, n) && k < n
    ensures r.Owns(a + k) && ToLocal(r, a + k) == ToLocal(r, a) + k
  {
    if r.size > 0 {
      var x := a - r.start;
      SameQuotient(x, k, r.step);
    }
  }

  lemma DenseBound(x: nat, t: nat, size: nat, step: nat)
    requires x < t && 0 < size <= step && x % step < size
    ensures x / step * size + x % step < t / step * size + Min(size, t % step)
  {
    Euclid(x, step);
    Euclid(t, step);
    PairBound(x / step, x % step, t / step, t % step, size, step);
  }

  lemma BelowExtent(r: Region, a: nat)
    requires r.Valid() && r.Owns(a)
    ensures ToLocal(r, a) < r.Extent()
  {
    if r.size > 0 {
      DenseBound(a - r.start, r.Total(), r.size, r.step);
    }
  }

  /** The address at offset o of chunk q. */
  lemma At(r: Region, q: nat, o: nat) returns (a: nat)
    requires r.Valid() && o < r.size && q * r.step + o < r.Total()
    ensures a == r.start + q * r.step + o && r.Owns(a)
    ensures ToLocal(r, a) == q * r.size + o + PRIVATE_MEM_OFFSET
  {
    a := r.start + q * r.step + o;
    DivMod(q, r.step, o);
  }

  lemma DenseReach(l: nat, t: nat, size: nat, step: nat)
    requires 0 < size <= step && l < t / step * size + Min(size, t % step)
    ensures l / size * step + l % size < t
  {
    Euclid(l, size);
    Euclid(t, step);
    PairBoundBack(l / size, l % size, t / step, t % step, size, step);
  }

  /** Local undoes global on the dense local range: every local address below the extent is
      the image of an owned address. */
  lemma LocalOfGlobal(r: Region, l: nat)
    requires r.Valid() && PRIVATE_MEM_OFFSET <= l < r.Extent()
    ensures r.Owns(ToGlobal(r, l)) && ToLocal(r, ToGlobal(r, l)) == l
  {
    if r.size > 0 {
      DenseReach(l, r.Total(), r.size, r.step);
      Euclid(l, r.size);
      var a := At(r, l / r.size, l % r.size);
    }
  }

  /** The owned addresses translate onto exactly the addresses below the extent. */
  lemma DenseRange(r: Region, l: nat)
    requires r.Valid()
    ensures PRIVATE_MEM_OFFSET <= l < r.Extent() <==> exists a: nat :: r.Owns(a) && ToLocal(r, a) == l
  {
    if l < r.Extent() {
      LocalOfGlobal(r, l);
    }
    if a: nat :| r.Owns(a) && ToLocal(r, a) == l {
      BelowExtent(r, a);
    }
  }

  /** The extent is tight: some owned address translates to the one just below it. */
  lemma ExtentReached(r: Region) returns (a: nat)
    requires r.Valid()
    ensures r.Owns(a) && ToLocal(r, a) + 1 == r.Extent()
  {
    if r.size == 0 {
      a := r.end;
    } else {
      Euclid(r.Total(), r.step);
      a := ExtentReachedBy(r, r.Total() / r.step, r.Total() % r.step);
    }
  }

  lemma ExtentReachedBy(r: Region, s: nat, m: nat) returns (a: nat)
    requires r.Valid() && r.size > 0 && r.Total() == s * r.step + m && m < r.step
    ensures r.Owns(a) && ToLocal(r, a) + 1 == s * r.size + Min(r.size, m) + PRIVATE_MEM_OFFSET
  {
    if m > 0 {
      a := At(r, s, Min(r.size, m) - 1);
    } else {
      Mono(1, s, r.step);
      a := At(r, s - 1, r.size - 1);
    }
  }

  // ---- clamping to the memory

  /** The size the clamping works with: a full 64-bit region is not incremented. */
  function CountedSize(r: Region): nat
    requires r.Valid()
  {
    if r.end - r.start != REGION_MAX then r.end - r.start + 1 else REGION_MAX
  }

  predicate Shrinks(r: Region, memSize: nat)
    requires r.Valid()
  {
    if r.size > 0 then CountedSize(r) / r.step * r.size > memSize else CountedSize(r) > memSize
  }

  predicate HoldsAChunk(r: Region, memSize: nat) {
    0 < memSize && r.size <= memSize
  }

  function Adjust(r: Region, memSize: nat): Region
    requires r.Valid() && HoldsAChunk(r, memSize)
  {
    if !Shrinks(r, memSize) then r
    else if r.size > 0 then
      Euclid(memSize, r.size);
      Mono(1, memSize / r.size, r.step);
      r.(end := r.start + memSize / r.size * r.step - 1)
    else r.(end := r.start + memSize - 1)
  }

  lemma ShrunkSteps(memSize: nat, size: nat, counted: nat, step: nat)
    requires 0 < size <= step && size <= memSize < counted / step * size
    ensures 1 <= memSize / size < counted / step
    ensures memSize / size * step <= counted && memSize / size * size <= memSize
  {
    Euclid(memSize, size);
    Euclid(counted, step);
    if memSize / size >= counted / step {
      Mono(counted / step, memSize / size, size);
    }
    Mono(memSize / size, counted / step, step);
  }

  /** A shrunk region is a valid, smaller region whose every address fits the memory. */
  lemma ShrunkFits(r: Region, memSize: nat)
    requires r.Valid() && HoldsAChunk(r, memSize) && Shrinks(r, memSize)
    ensures Adjust(r, memSize).Valid() && Adjust(r, memSize).end <= r.end
    ensures Adjust(r, memSize).Extent() <= memSize
  {
    if r.size > 0 {
      var n := memSize / r.size;
      ShrunkSteps(memSize, r.size, CountedSize(r), r.step);
      Mono(1, n, r.step);
      DivMod(n, r.step, 0);
      assert Adjust(r, memSize).Total() == n * r.step;
    }
  }

  /** And it is the largest such region: a contiguous one fills the memory, an interleaved one
      lacks less than a chunk of it and is a whole number of steps. */
  lemma ShrunkIsLargest(r: Region, memSize: nat)
    requires r.Valid() && HoldsAChunk(r, memSize) && Shrinks(r, memSize)
    ensures var t := Adjust(r, memSize);
            && t.Valid() && t.Extent() <= memSize
            && (r.size == 0 ==> t.Extent() == memSize)
            && (r.size > 0 ==> memSize < t.Extent() + r.size && t.Total() % r.step == 0)
  {
    ShrunkFits(r, memSize);
    if r.size > 0 {
      var n := memSize / r.size;
      Mono(1, n, r.step);
      DivMod(n, r.step, 0);
      Euclid(memSize, r.size);
      assert Adjust(r, memSize).Total() == n * r.step;
    }
  }

  /** Clamping moves the end only, and that exactly when what is counted does not fit: all of a
      contiguous region, the whole steps' chunks of an interleaved one; of a region of 2^64
      bytes all but one are counted. */
  lemma AdjustChangesIff(r: Region, memSize: nat)
    requires r.Valid() && HoldsAChunk(r, memSize)
    ensures var t, counted := Adjust(r, memSize), Min(r.end - r.start + 1, TWO64 - 1);
            && t.start == r.start && t.size == r.size && t.step == r.step && t.end <= r.end
            && (t == r <==> if r.size == 0 then counted <= memSize else counted / r.step * r.size <= memSize)
  {
    if Shrinks(r, memSize) {
      ShrunkFits(r, memSize);
      if r.size > 0 {
        ShrunkSteps(memSize, r.size, CountedSize(r), r.step);
        Euclid(CountedSize(r), r.step);
        Mono(memSize / r.size + 1, CountedSize(r) / r.step, r.step);
      }
    }
  }

  lemma FewSteps(counted: nat, memSize: nat, size: nat, step: nat)
    requires 0 < size <= step && counted <= memSize / size * step
    ensures counted / step * size <= memSize
  {
    QuotientBelow(counted, memSize / size, step);
    Mono(counted / step, memSize / size, size);
    Euclid(memSize, size);
  }

  /** A shrunk region has nothing left to shrink. */
  lemma ShrunkSettles(r: Region, memSize: nat)
    requires r.Valid() && HoldsAChunk(r, memSize) && Shrinks(r, memSize)
    ensures Adjust(r, memSize).Valid() && !Shrinks(Adjust(r, memSize), memSize)
  {
    ShrunkFits(r, memSize);
    if r.size > 0 {
      FewSteps(CountedSize(Adjust(r, memSize)), memSize, r.size, r.step);
    }
  }

  /** Clamping twice is clamping once. */
  lemma AdjustIdempotent(r: Region, memSize: nat)
    requires r.Valid() && HoldsAChunk(r, memSize)
    ensures Adjust(r, memSize).Valid()
    ensures Adjust(Adjust(r, memSize), memSize) == Adjust(r, memSize)
  {
    hide Shrinks;
    if Shrinks(r, memSize) {
      ShrunkSettles(r, memSize);
    }
  }

  /** Without shrinking, the partial last step that is not counted is worth at most one
      chunk beyond the memory. */
  lemma AtMostOneChunkOver(r: Region, memSize: nat)
    requires r.Valid() && HoldsAChunk(r, memSize) && !Shrinks(r, memSize) && memSize < REGION_MAX
    ensures r.Extent() <= memSize + r.size
  {
    if r.size > 0 {
      var t := r.Total();
      Euclid(t, r.step);
      Euclid(CountedSize(r), r.step);
      if CountedSize(r) < t {
        assert t == CountedSize(r) + 1;
        LastPartialStep(CountedSize(r) / r.step, CountedSize(r) % r.step, t / r.step, t % r.step, r.size, r.step);
      }
    }
  }

  lemma LastPartialStep(p: nat, a: nat, q: nat, b: nat, size: nat, step: nat)
    requires q * step + b == p * step + a + 1 && a < step && b < step && 0 < size <= step
    ensures q * size + Min(size, b) <= p * size + size
  {
    if q > p + 1 {
      Mono(p + 2, q, step);
    } else if q <= p {
      Mono(q, p, size);
    }
  }

  ghost predicate AllFit(r: Region, memSize: nat)
    requires r.Valid()
  {
    forall a: nat :: r.Owns(a) ==> ToLocal(r, a) < memSize
  }

  /** Exactly when clamping makes every owned address fit the memory: when it shrank the
      region, or when the region's extent fitted already. */
  lemma AdjustedFitsIff(r: Region, memSize: nat)
    requires r.Valid() && HoldsAChunk(r, memSize)
    ensures Adjust(r, memSize).Valid()
    ensures AllFit(Adjust(r, memSize), memSize) <==> Shrinks(r, memSize) || r.Extent() <= memSize
  {
    var t := Adjust(r, memSize);
    if Shrinks(r, memSize) {
      ShrunkFits(r, memSize);
    }
    if t.Extent() <= memSize {
      forall a: nat | t.Owns(a)
        ensures ToLocal(t, a) < memSize
      {
        BelowExtent(t, a);
      }
    } else {
      var a := ExtentReached(t);
    }
  }

  /** The slack is real: a region of one and a half steps over a memory of one chunk. */
  lemma PartialStepOverruns()
    ensures var r := Region(0, 11, 4, 8);
            r.Valid() && HoldsAChunk(r, 4) && Adjust(r, 4) == r && r.Owns(8) && ToLocal(r, 8) == 4
  {
  }

  lemma Steeper(q: nat, size: nat, step: nat)
    requires q > 0 && size < step
    ensures q * size < q * step
  {
  }

  /** Translating an address to global once more gives it back exactly when the region starts
      at zero and has no gaps, or the address is in its first chunk. */
  lemma GlobalAgainIff(r: Region, a: nat)
    requires r.Valid() && PRIVATE_MEM_OFFSET <= a
    ensures ToGlobal(r, a) == a <==> r.start == 0 && (r.size == r.step || a < r.size)
  {
    if r.size > 0 {
      Euclid(a, r.size);
      if a < r.size {
        DivMod(0, r.size, a);
      } else if r.size < r.step {
        assert a / r.size > 0;
        Steeper(a / r.size, r.size, r.step);
      }
    }
  }

  /** Over a whole region: translating to global twice is harmless for every owned address
      if and only if the region starts at zero and has no gaps, or has just one chunk. */
  lemma TwiceGlobalIff(r: Region)
    requires r.Valid()
    ensures (forall a: nat :: r.Owns(a) ==> ToGlobal(r, ToGlobal(r, ToLocal(r, a))) == a)
       <==> r.start == 0 && (r.size == r.step || r.end < r.step)
  {
    forall a: nat | r.Owns(a)
      ensures ToGlobal(r, ToGlobal(r, ToLocal(r, a))) == ToGlobal(r, a)
      ensures ToGlobal(r, a) == a <==> r.start == 0 && (r.size == r.step || a < r.size)
      ensures r.start == 0 && 0 < r.size && r.end < r.step ==> a < r.size
    {
      GlobalOfLocal(r, a);
      GlobalAgainIff(r, a);
      if r.start == 0 && 0 < r.size && r.end < r.step {
        DivMod(0, r.step, a);
      }
    }
    OwnsStarts(r);
  }

  lemma OwnsStarts(r: Region)
    requires r.Valid()
    ensures r.Owns(r.start)
    ensures 0 < r.size && r.start + r.step <= r.end ==> r.Owns(r.start + r.step)
  {
    if r.size > 0 {
      DivMod(0, r.step, 0);
      DivMod(1, r.step, 0);
    }
  }
}
