/** What a transfer does to memory: the chunk-by-chunk form the engines follow,
    the whole-range form a caller expects, and exactly when the two agree. */
module Transfer {
  import opened PimDef
  import opened Bytes

  /** The two byte memories a transfer may touch. */
  datatype Space = Dram | Sram

  datatype Loc = Loc(space: Space, off: nat) {
    function Plus(n: nat): Loc {
      Loc(space, off + n)
    }
  }

  datatype Mem = Mem(dram: seq<byte>, sram: seq<byte>) {
    function Bank(s: Space): seq<byte> {
      if s == Dram then dram else sram
    }

    function WithBank(s: Space, b: seq<byte>): Mem {
      if s == Dram then this.(dram := b) else this.(sram := b)
    }
  }

  predicate SameSize(m: Mem, n: Mem) {
    |m.dram| == |n.dram| && |m.sram| == |n.sram|
  }

  predicate InBank(m: Mem, l: Loc, n: nat) {
    l.off + n <= |m.Bank(l.space)|
  }

  function Splice(b: seq<byte>, a: nat, d: seq<byte>): (r: seq<byte>)
    requires a + |d| <= |b|
    ensures |r| == |b|
    ensures forall i :: 0 <= i < |b| ==> r[i] == if a <= i < a + |d| then d[i - a] else b[i]
  {
    b[..a] + d + b[a + |d|..]
  }

  function Load(m: Mem, l: Loc, n: nat): (d: seq<byte>)
    requires InBank(m, l, n)
    ensures |d| == n
  {
    m.Bank(l.space)[l.off..l.off + n]
  }

  function Store(m: Mem, l: Loc, d: seq<byte>): (r: Mem)
    requires InBank(m, l, |d|)
    ensures SameSize(m, r)
  {
    m.WithBank(l.space, Splice(m.Bank(l.space), l.off, d))
  }

  /** What happens to a chunk between the read and the write. */
  datatype Xform = Keep | Times(scalar: word)

  function Apply(x: Xform, d: seq<byte>): (r: seq<byte>)
    requires x.Times? ==> |d| % 8 == 0
    ensures |r| == |d|
  {
    if x.Keep? then d else Scale(x.scalar, d)
  }

  datatype Plan = Plan(dst: Loc, src: Loc, words: nat, xform: Xform) {
    function Bytes(): (n: nat)
      ensures n % 8 == 0
    {
      8 * words
    }

    /** The next chunk, at most 64 words. */
    function Chunk(): (n: nat)
      ensures n % 8 == 0 && n <= Bytes()
    {
      8 * Min(CHUNK_WORDS, words)
    }

    /** What is left after the next chunk. */
    function Rest(): (r: Plan)
      ensures r.Bytes() + Chunk() == Bytes()
    {
      Plan(dst.Plus(Chunk()), src.Plus(Chunk()), words - Min(CHUNK_WORDS, words), xform)
    }
  }

  predicate Fits(m: Mem, p: Plan) {
    InBank(m, p.dst, p.Bytes()) && InBank(m, p.src, p.Bytes())
  }

  function OneChunk(m: Mem, p: Plan): (r: Mem)
    requires Fits(m, p)
    ensures SameSize(m, r)
  {
    Store(m, p.dst, Apply(p.xform, Load(m, p.src, p.Chunk())))
  }

  /** Read a chunk whole, write it whole, then go on to the next. */
  function Chunked(m: Mem, p: Plan): (r: Mem)
    requires Fits(m, p)
    ensures SameSize(m, r)
    decreases p.words
  {
    if p.words == 0 then m else Chunked(OneChunk(m, p), p.Rest())
  }

  /** Read the whole source, then write the whole destination. */
  function Whole(m: Mem, p: Plan): (r: Mem)
    requires Fits(m, p)
    ensures SameSize(m, r)
  {
    Store(m, p.dst, Apply(p.xform, Load(m, p.src, p.Bytes())))
  }

  /** The destination does not run into source bytes that a later chunk still reads. */
  predicate SafeOverlap(p: Plan) {
    || p.dst.space != p.src.space
    || p.dst.off <= p.src.off
    || p.dst.off >= p.src.off + p.Bytes()
    || p.Bytes() <= 8 * CHUNK_WORDS
  }

  /** How many bytes of the source's end the destination overlaps. */
  function Overlap(p: Plan): nat
    requires !SafeOverlap(p)
  {
    p.src.off + p.Bytes() - p.dst.off
  }

  /** Multiplying by a loses the high o bytes of a word: a is a multiple of 256 to the o. */
  predicate Drops(a: word, o: nat) {
    a % Pow256(Min(8, o)) == 0
  }

  /** Besides a safe overlap: a multiplication that drops, of every word, what the first chunk
      may have overwritten of the last one. An overlap of eight bytes leaves only scalar zero. */
  predicate Harmless(p: Plan) {
    SafeOverlap(p) || (p.xform.Times? && Drops(p.xform.scalar, Overlap(p)))
  }

  predicate Disjoint(l: Loc, n: nat, k: Loc, m: nat) {
    l.space != k.space || l.off + n <= k.off || k.off + m <= l.off
  }

  /** A range touching neither the source nor the destination. */
  predicate Apart(l: Loc, n: nat, p: Plan) {
    Disjoint(l, n, p.src, p.Bytes()) && Disjoint(l, n, p.dst, p.Bytes())
  }

  lemma LoadStoreApart(m: Mem, l: Loc, d: seq<byte>, k: Loc, n: nat)
    requires InBank(m, l, |d|) && InBank(m, k, n) && Disjoint(l, |d|, k, n)
    ensures Load(Store(m, l, d), k, n) == Load(m, k, n)
  {
  }

  lemma StoresCommute(m: Mem, l: Loc, d: seq<byte>, k: Loc, e: seq<byte>)
    requires InBank(m, l, |d|) && InBank(m, k, |e|) && Disjoint(l, |d|, k, |e|)
    ensures Store(Store(m, l, d), k, e) == Store(Store(m, k, e), l, d)
  {
    if l.space == k.space {
      SplicesCommute(m.Bank(l.space), l.off, d, k.off, e);
    }
    hide Splice;
  }

  lemma SplicesCommute(b: seq<byte>, i: nat, d: seq<byte>, j: nat, e: seq<byte>)
    requires i + |d| <= |b| && j + |e| <= |b| && (i + |d| <= j || j + |e| <= i)
    ensures Splice(Splice(b, i, d), j, e) == Splice(Splice(b, j, e), i, d)
  {
    hide Splice;
  }

  lemma StoreConcat(m: Mem, l: Loc, d: seq<byte>, e: seq<byte>)
    requires InBank(m, l, |d| + |e|)
    ensures Store(Store(m, l, d), l.Plus(|d|), e) == Store(m, l, d + e)
  {
    SpliceConcat(m.Bank(l.space), l.off, d, e);
    hide Splice;
  }

  lemma SpliceConcat(b: seq<byte>, i: nat, d: seq<byte>, e: seq<byte>)
    requires i + |d| + |e| <= |b|
    ensures Splice(Splice(b, i, d), i + |d|, e) == Splice(b, i, d + e)
  {
    hide Splice;
    var x, y := Splice(Splice(b, i, d), i + |d|, e), Splice(b, i, d + e);
    forall k | 0 <= k < |b|
      ensures x[k] == y[k]
    {
    }
    assert x == y;
  }

  lemma ApplyConcat(x: Xform, a: seq<byte>, b: seq<byte>)
    requires |a| % 8 == 0 && |b| % 8 == 0
    ensures Apply(x, a + b) == Apply(x, a) + Apply(x, b)
  {
    if x.Times? {
      ScaleConcat(x.scalar, a, b);
    }
  }

  /** Writes by others that stay clear of both ranges slide past the transfer. */
  lemma {:induction false} ChunkedCommutes(m: Mem, p: Plan, l: Loc, d: seq<byte>)
    requires Fits(m, p) && InBank(m, l, |d|) && Apart(l, |d|, p)
    ensures Chunked(Store(m, l, d), p) == Store(Chunked(m, p), l, d)
    decreases p.words
  {
    if p.words > 0 {
      var n := p.Chunk();
      LoadStoreApart(m, l, d, p.src, n);
      StoresCommute(m, l, d, p.dst, Apply(p.xform, Load(m, p.src, n)));
      ChunkedCommutes(OneChunk(m, p), p.Rest(), l, d);
    }
  }

  /** No byte outside the destination changes, whatever the overlap. */
  lemma {:induction false} ChunkedFrame(m: Mem, p: Plan, l: Loc, n: nat)
    requires Fits(m, p) && InBank(m, l, n) && Disjoint(l, n, p.dst, p.Bytes())
    ensures Load(Chunked(m, p), l, n) == Load(m, l, n)
    decreases p.words
  {
    if p.words > 0 {
      LoadStoreApart(m, p.dst, Apply(p.xform, Load(m, p.src, p.Chunk())), l, n);
      ChunkedFrame(OneChunk(m, p), p.Rest(), l, n);
    }
  }

  lemma DropsAll(a: word, o: nat)
    requires o >= 8
    ensures Drops(a, o) <==> a == 0
  {
    Pow256Of8();
  }

  lemma HarmlessRest(p: Plan)
    requires Harmless(p) && p.words > 0
    ensures Harmless(p.Rest())
  {
    assert p.Chunk() + p.Rest().Bytes() == p.Bytes();
    hide Drops;
    if !SafeOverlap(p) && Overlap(p) >= 8 {
      DropsAll(p.xform.scalar, Overlap(p));
      if !SafeOverlap(p.Rest()) {
        ZeroDrops(Overlap(p.Rest()));
      }
    }
  }

  lemma ZeroDrops(o: nat)
    ensures Drops(0, o)
  {
  }

  /** The first chunk leaves what the later ones make of the rest of the source as it was. */
  lemma RestUndisturbed(m: Mem, p: Plan)
    requires Fits(m, p) && Harmless(p) && p.words > 0
    ensures var r := p.Rest();
            Apply(p.xform, Load(OneChunk(m, p), r.src, r.Bytes())) == Apply(p.xform, Load(m, r.src, r.Bytes()))
  {
    var r := p.Rest();
    if SafeOverlap(p) {
      if r.words > 0 {
        assert p.Chunk() == 8 * CHUNK_WORDS;
        LoadStoreApart(m, p.dst, Apply(p.xform, Load(m, p.src, p.Chunk())), r.src, r.Bytes());
      }
    } else {
      OverlapForgotten(m, p);
    }
  }

  lemma OverlapForgotten(m: Mem, p: Plan)
    requires Fits(m, p) && Harmless(p) && !SafeOverlap(p)
    ensures var r := p.Rest();
            Apply(p.xform, Load(OneChunk(m, p), r.src, r.Bytes())) == Apply(p.xform, Load(m, r.src, r.Bytes()))
  {
    var r := p.Rest();
    var d, e := Load(OneChunk(m, p), r.src, r.Bytes()), Load(m, r.src, r.Bytes());
    if Overlap(p) >= 8 {
      DropsAll(p.xform.scalar, Overlap(p));
      hide Load, OneChunk, Drops, Scale;
      ScaleByZero(d);
      ScaleByZero(e);
    } else {
      OnlyTailChanges(m, p);
      hide Load, OneChunk, Pow256, Scale, SafeOverlap;
      ScaleForgets(p.xform.scalar, d, e, Overlap(p));
    }
  }

  lemma OnlyTailChanges(m: Mem, p: Plan)
    requires Fits(m, p) && !SafeOverlap(p) && Overlap(p) < 8
    ensures var r := p.Rest();
            var d, e := Load(OneChunk(m, p), r.src, r.Bytes()), Load(m, r.src, r.Bytes());
            Overlap(p) <= |d| && d[..|d| - Overlap(p)] == e[..|d| - Overlap(p)]
  {
    hide Apply;
    assert p.Chunk() == 512;
  }

  lemma LoadConcat(m: Mem, l: Loc, a: nat, b: nat)
    requires InBank(m, l, a + b)
    ensures Load(m, l, a) + Load(m, l.Plus(a), b) == Load(m, l, a + b)
  {
  }

  /** The whole form is one chunk followed by the rest, all read beforehand. */
  lemma WholeSplits(m: Mem, p: Plan)
    requires Fits(m, p) && p.words > 0
    ensures Whole(m, p) == Store(OneChunk(m, p), p.Rest().dst, Apply(p.xform, Load(m, p.Rest().src, p.Rest().Bytes())))
  {
    hide Splice, Load, Store, Scale;
    var r := p.Rest();
    var first, later := Load(m, p.src, p.Chunk()), Load(m, r.src, r.Bytes());
    assert p.Chunk() + r.Bytes() == p.Bytes();
    LoadConcat(m, p.src, p.Chunk(), r.Bytes());
    ApplyConcat(p.xform, first, later);
    StoreConcat(m, p.dst, Apply(p.xform, first), Apply(p.xform, later));
  }

  lemma StoreNothing(m: Mem, l: Loc)
    requires InBank(m, l, 0)
    ensures Store(m, l, []) == m
  {
    assert Splice(m.Bank(l.space), l.off, []) == m.Bank(l.space);
  }

  /** When the overlap is harmless, chunk by chunk is as good as all at once. */
  lemma {:induction false} HarmlessChunkedIsWhole(m: Mem, p: Plan)
    requires Fits(m, p) && Harmless(p)
    ensures Chunked(m, p) == Whole(m, p)
    decreases p.words
  {
    if p.words == 0 {
      StoreNothing(m, p.dst);
      assert Apply(p.xform, Load(m, p.src, 0)) == [];
    } else {
      HarmlessRest(p);
      HarmlessChunkedIsWhole(OneChunk(m, p), p.Rest());
      RestUndisturbed(m, p);
      WholeSplits(m, p);
    }
  }

  // ---- a memory on which a harmful overlap shows

  function ZeroMem(d: nat, s: nat): Mem {
    Mem(Zeros(d), Zeros(s))
  }

  lemma ApplyZeros(x: Xform, n: nat)
    requires n % 8 == 0
    ensures Apply(x, Zeros(n)) == Zeros(n)
  {
    if x.Times? {
      ScaleZeros(x.scalar, n);
    }
  }

  lemma {:induction false} ZeroMemStays(d: nat, s: nat, p: Plan)
    requires Fits(ZeroMem(d, s), p)
    ensures Chunked(ZeroMem(d, s), p) == ZeroMem(d, s)
    decreases p.words
  {
    if p.words > 0 {
      var m := ZeroMem(d, s);
      assert Load(m, p.src, p.Chunk()) == Zeros(p.Chunk());
      ApplyZeros(p.xform, p.Chunk());
      assert OneChunk(m, p).dram == m.dram && OneChunk(m, p).sram == m.sram;
      ZeroMemStays(d, s, p.Rest());
    }
  }

  function RoundUp8(n: nat): nat {
    (n + 7) / 8 * 8
  }

  /** A source byte that an unsafe overlap loses: the first chunk overwrites it before a later
      one reads it. Where it can be, it is the low byte of its word. */
  function LostByte(p: Plan): nat
    requires !SafeOverlap(p)
  {
    var delta := p.dst.off - p.src.off;
    if delta < 512 then 512 else if p.Bytes() - delta >= 8 then RoundUp8(delta) else delta
  }

  lemma LostByteIsLost(p: Plan)
    requires !SafeOverlap(p)
    ensures var q, delta := LostByte(p), p.dst.off - p.src.off;
            512 <= q < p.Bytes() && delta <= q < delta + 512 && q % 8 == 8 - Min(8, Overlap(p))
  {
  }

  function Witness(d: nat, s: nat, p: Plan): Mem
    requires Fits(ZeroMem(d, s), p) && !SafeOverlap(p)
  {
    LostByteIsLost(p);
    Store(ZeroMem(d, s), p.src.Plus(LostByte(p)), [1])
  }

  lemma FirstChunkErases(d: nat, s: nat, p: Plan)
    requires Fits(ZeroMem(d, s), p) && !SafeOverlap(p)
    ensures OneChunk(Witness(d, s, p), p) == ZeroMem(d, s)
  {
    LostByteIsLost(p);
    hide LostByte;
    var m, zero := Witness(d, s, p), ZeroMem(d, s);
    var n := p.Chunk();
    assert n == 512;
    LoadStoreApart(zero, p.src.Plus(LostByte(p)), [1], p.src, n);
    assert Load(m, p.src, n) == Zeros(n);
    ApplyZeros(p.xform, n);
    var b := Splice(m.Bank(p.dst.space), p.dst.off, Zeros(n));
    assert b == zero.Bank(p.dst.space);
  }

  lemma LoadStoreSame(m: Mem, l: Loc, d: seq<byte>)
    requires InBank(m, l, |d|)
    ensures Load(Store(m, l, d), l, |d|) == d
  {
  }

  lemma WitnessBytes(d: nat, s: nat, p: Plan)
    requires Fits(ZeroMem(d, s), p) && !SafeOverlap(p)
    ensures var data := Load(Witness(d, s, p), p.src, p.Bytes());
            forall i :: 0 <= i < |data| ==> data[i] == if i == LostByte(p) then 1 else 0
  {
    LostByteIsLost(p);
    hide LostByte;
  }

  lemma ScaledWordShows(a: word, data: seq<byte>, k: nat)
    requires |data| % 8 == 0 && 8 * k + 8 <= |data| && (a * WordAt(data, k)) % TWO64 != 0
    ensures Scale(a, data) != Zeros(|data|)
  {
    ScaleWords(a, data, k);
    FromBytesZeros(8);
    hide Scale, FromBytes;
    assert Zeros(|data|)[8 * k..8 * k + 8] == Zeros(8);
  }

  /** Scaled by a scalar that does not drop it, a lone byte leaves its word non-zero. */
  lemma LoneByteShows(a: word, data: seq<byte>, q: nat, o: nat)
    requires |data| % 8 == 0 && q < |data| && q % 8 == 8 - Min(8, o) && !Drops(a, o)
    requires forall i :: 0 <= i < |data| ==> data[i] == if i == q then 1 else 0
    ensures Scale(a, data) != Zeros(|data|)
  {
    var k := q / 8;
    var w := data[8 * k..8 * k + 8];
    OneAmongZeros(w, q % 8);
    ScalarShows(a, Min(8, o));
    hide Scale, Pow256, FromBytes, Drops;
    assert WordAt(data, k) == Pow256(8 - Min(8, o));
    ScaledWordShows(a, data, k);
  }

  lemma LostByteShows(p: Plan, data: seq<byte>)
    requires !Harmless(p) && |data| == p.Bytes()
    requires forall i :: 0 <= i < |data| ==> data[i] == if i == LostByte(p) then 1 else 0
    ensures Apply(p.xform, data) != Zeros(|data|)
  {
    LostByteIsLost(p);
    hide LostByte, Drops, Scale;
    if p.xform.Times? {
      LoneByteShows(p.xform.scalar, data, LostByte(p), Overlap(p));
    } else {
      assert data[LostByte(p)] == 1;
    }
  }

  lemma WholeKeepsLostByte(d: nat, s: nat, p: Plan)
    requires Fits(ZeroMem(d, s), p) && !Harmless(p)
    ensures Whole(Witness(d, s, p), p) != ZeroMem(d, s)
  {
    var m := Witness(d, s, p);
    var data := Load(m, p.src, p.Bytes());
    WitnessBytes(d, s, p);
    LostByteShows(p, data);
    LoadStoreSame(m, p.dst, Apply(p.xform, data));
    LoadZeros(d, s, p.dst, p.Bytes());
    hide LostByte, Witness, Apply, Harmless, SafeOverlap, Load, Store, Splice;
  }

  lemma LoadZeros(d: nat, s: nat, l: Loc, n: nat)
    requires InBank(ZeroMem(d, s), l, n)
    ensures Load(ZeroMem(d, s), l, n) == Zeros(n)
  {
  }

  lemma HarmfulOverlapShows(d: nat, s: nat, p: Plan)
    requires Fits(ZeroMem(d, s), p) && !Harmless(p)
    ensures SameSize(Witness(d, s, p), ZeroMem(d, s))
    ensures Chunked(Witness(d, s, p), p) != Whole(Witness(d, s, p), p)
  {
    LostByteIsLost(p);
    FirstChunkErases(d, s, p);
    ZeroMemStays(d, s, p.Rest());
    assert Chunked(Witness(d, s, p), p) == ZeroMem(d, s);
    WholeKeepsLostByte(d, s, p);
  }

  /** The exact condition, for any transfer: the chunked form is the whole form on every memory
      of the given sizes if and only if the overlap is harmless. */
  lemma ChunkedIsWholeIff(d: nat, s: nat, p: Plan)
    requires Fits(ZeroMem(d, s), p)
    ensures Harmless(p) <==>
            forall m: Mem :: SameSize(m, ZeroMem(d, s)) ==> Chunked(m, p) == Whole(m, p)
  {
    hide Chunked, Whole, Harmless, Witness;
    if Harmless(p) {
      forall m: Mem | SameSize(m, ZeroMem(d, s))
        ensures Chunked(m, p) == Whole(m, p)
      {
        HarmlessChunkedIsWhole(m, p);
      }
    } else {
      SafeIsHarmless(p);
      HarmfulOverlapShows(d, s, p);
    }
  }

  lemma SafeIsHarmless(p: Plan)
    ensures SafeOverlap(p) ==> Harmless(p)
    ensures p.xform == Keep ==> (Harmless(p) <==> SafeOverlap(p))
  {
  }

  /** For copies: the destination starts no later than the source, or past it, or elsewhere,
      or all is one chunk. */
  lemma CopyIsMemmoveIff(d: nat, s: nat, p: Plan)
    requires p.xform == Keep && Fits(ZeroMem(d, s), p)
    ensures SafeOverlap(p) <==>
            forall m: Mem :: SameSize(m, ZeroMem(d, s)) ==> Chunked(m, p) == Whole(m, p)
  {
    hide Chunked, Whole, SafeOverlap;
    SafeIsHarmless(p);
    ChunkedIsWholeIff(d, s, p);
  }

  /** For multiplications, each by its own scalar: the same, or the scalar is a multiple of 256
      to the number of bytes, at most eight, by which the destination overlaps the source. */
  lemma MultiplyIsWholeIff(d: nat, s: nat, p: Plan, a: word)
    requires p.xform == Times(a) && Fits(ZeroMem(d, s), p)
    ensures (SafeOverlap(p) || a % Pow256(Min(8, Overlap(p))) == 0) <==>
            forall m: Mem :: SameSize(m, ZeroMem(d, s)) ==> Chunked(m, p) == Whole(m, p)
  {
    hide Chunked, Whole;
    ChunkedIsWholeIff(d, s, p);
  }

  /** What a caller of the copy sees. */
  lemma CopyResult(m: Mem, p: Plan)
    requires Fits(m, p) && Harmless(p) && p.xform == Keep
    ensures Load(Chunked(m, p), p.dst, p.Bytes()) == Load(m, p.src, p.Bytes())
  {
    HarmlessChunkedIsWhole(m, p);
    LoadStoreSame(m, p.dst, Load(m, p.src, p.Bytes()));
  }

  lemma MultiplyBytes(m: Mem, p: Plan)
    requires Fits(m, p) && Harmless(p) && p.xform.Times?
    ensures Load(Chunked(m, p), p.dst, p.Bytes()) == Scale(p.xform.scalar, Load(m, p.src, p.Bytes()))
  {
    hide Chunked, Harmless;
    HarmlessChunkedIsWhole(m, p);
    LoadStoreSame(m, p.dst, Apply(p.xform, Load(m, p.src, p.Bytes())));
  }

  /** What a caller of the multiplication sees, word by word. */
  lemma MultiplyResult(m: Mem, p: Plan, k: nat)
    requires Fits(m, p) && Harmless(p) && p.xform.Times? && k < p.words
    ensures WordAt(Load(Chunked(m, p), p.dst, p.Bytes()), k)
         == (p.xform.scalar * WordAt(Load(m, p.src, p.Bytes()), k)) % TWO64
  {
    hide Chunked, Load, Splice, Harmless;
    MultiplyBytes(m, p);
    ScaleWords(p.xform.scalar, Load(m, p.src, p.Bytes()), k);
  }
}
