/** What a call means, in terms of its eight parameters and the bytes of the memories. */
module CallMeaning {
  import opened PimDef
  import opened Bytes
  import opened Transfer
  import opened DmaSpec
  import opened DmaProof
  import opened Driver
  import opened HostAccess

  /** The n bytes from an address on: where the range starts decides between the scratchpad,
      whose kilobyte repeats, and DRAM. */
  function BytesFrom(m: Mem, a: nat, n: nat): (d: seq<byte>)
    requires if InScratchpad(a) then a % 1024 + n <= |m.sram| else a + n <= |m.dram|
    ensures |d| == n
  {
    if InScratchpad(a) then m.sram[a % 1024..a % 1024 + n] else m.dram[a..a + n]
  }

  predicate HasRange(m: Mem, a: nat, n: nat) {
    if InScratchpad(a) then a % 1024 + n <= |m.sram| else a + n <= |m.dram|
  }

  /** Which calls are legal: a positive multiple of eight bytes, params[2] of a copy and
      params[3] of a multiplication, at addresses params[0] and params[1]. */
  lemma LegalIff(m: Mem, fn: Fn, p: Params)
    requires |m.sram| == 1024
    ensures LegalCall(m, F1, p) <==>
              && p[2] > 0 && p[2] % 8 == 0 && !InFuncPage(p[0]) && !InFuncPage(p[1])
              && HasRange(m, p[0], p[2]) && HasRange(m, p[1], p[2])
    ensures LegalCall(m, U5, p) <==>
              p[3] > 0 && p[3] % 8 == 0 && p[0] + p[3] <= |m.dram| && p[1] + p[3] <= |m.dram|
  {
  }

  lemma WholePatches(m: Mem, q: Plan)
    requires Fits(m, q)
    ensures var d := Apply(q.xform, m.Bank(q.src.space)[q.src.off..q.src.off + q.Bytes()]);
            Whole(m, q) == if q.dst.space == Dram then Mem(Patched(m.dram, q.dst.off, d), m.sram)
                           else Mem(m.dram, Patched(m.sram, q.dst.off, d))
  {
    var d := Load(m, q.src, q.Bytes());
    var e := Apply(q.xform, d);
    hide Apply;
    assert Splice(m.Bank(q.dst.space), q.dst.off, e) == Patched(m.Bank(q.dst.space), q.dst.off, e);
  }

  /** F1 puts the params[2] bytes from params[1] on to params[0]; the rest of that memory, and
      the other memory, stay. */
  lemma CopyMeans(m: Mem, p: Params)
    requires LegalCall(m, F1, p)
    ensures HasRange(m, p[0], p[2]) && HasRange(m, p[1], p[2])
    ensures Fits(m, Invocation(F1, p).Plan())
    ensures Whole(m, Invocation(F1, p).Plan()) ==
              if InScratchpad(p[0]) then Mem(m.dram, Patched(m.sram, p[0] % 1024, BytesFrom(m, p[1], p[2])))
              else Mem(Patched(m.dram, p[0], BytesFrom(m, p[1], p[2])), m.sram)
  {
    var q := Invocation(F1, p).Plan();
    assert q.Bytes() == p[2];
    WholePatches(m, q);
    hide Whole, Patched;
  }

  lemma MultiplyPatches(m: Mem, p: Params)
    requires LegalCall(m, U5, p)
    ensures Fits(m, Invocation(U5, p).Plan())
    ensures var dst: nat, src: nat, len: nat := p[0], p[1], p[3];
            && len % 8 == 0 && dst + len <= |m.dram| && src + len <= |m.dram|
            && Whole(m, Invocation(U5, p).Plan()) ==
                 Mem(Patched(m.dram, dst, Scale(p[2], m.dram[src..src + len])), m.sram)
  {
    var q := Invocation(U5, p).Plan();
    assert q.Bytes() == p[3];
    WholePatches(m, q);
    hide Whole, Scale, Patched;
  }

  lemma SliceOfSlice(c: seq<byte>, src: nat, len: nat, i: nat, n: nat)
    requires src + len <= |c| && i + n <= len
    ensures c[src..src + len][i..i + n] == c[src + i..src + i + n]
  {
    var x, y := c[src..src + len][i..i + n], c[src + i..src + i + n];
    forall j | 0 <= j < n
      ensures x[j] == y[j]
    {
    }
    assert x == y;
  }

  lemma PatchedSlice(b: seq<byte>, a: nat, d: seq<byte>, i: nat, n: nat)
    requires a + |d| <= |b| && i + n <= |d|
    ensures Patched(b, a, d)[a + i..a + i + n] == d[i..i + n]
  {
  }

  /** The k-th word from an address on. */
  function WordFrom(b: seq<byte>, a: nat, k: nat): word
    requires a + 8 * k + 8 <= |b|
  {
    WordOf(b[a + 8 * k..a + 8 * k + 8])
  }

  lemma ScaledWord(b: seq<byte>, dst: nat, a: word, c: seq<byte>, src: nat, len: nat, k: nat)
    requires len % 8 == 0 && dst + len <= |b| && src + len <= |c| && 8 * k + 8 <= len
    ensures WordFrom(Patched(b, dst, Scale(a, c[src..src + len])), dst, k) == (a * WordFrom(c, src, k)) % TWO64
  {
    hide Scale, WordOf, Patched;
    var d := c[src..src + len];
    PatchedSlice(b, dst, Scale(a, d), 8 * k, 8);
    SliceOfSlice(c, src, len, 8 * k, 8);
    ScaleWords(a, d, k);
  }

  /** U5 makes the k-th word from params[0] on, in DRAM, params[2] times the k-th word from
      params[1] on, modulo two to the 64. */
  lemma MultiplyMeans(m: Mem, p: Params, k: nat)
    requires LegalCall(m, U5, p) && 8 * k + 8 <= p[3]
    ensures Fits(m, Invocation(U5, p).Plan()) && |Whole(m, Invocation(U5, p).Plan()).dram| == |m.dram|
    ensures p[0] as nat + 8 * k + 8 <= |m.dram| && p[1] as nat + 8 * k + 8 <= |m.dram|
    ensures WordFrom(Whole(m, Invocation(U5, p).Plan()).dram, p[0], k) == (p[2] * WordFrom(m.dram, p[1], k)) % TWO64
  {
    hide Whole, Scale, WordFrom, LegalCall, Patched, JobOf, Fits;
    MultiplyPatches(m, p);
    ScaledWord(m.dram, p[0], p[2], m.dram, p[1], p[3], k);
  }

  /** And leaves all else as it is. */
  lemma MultiplyLeaves(m: Mem, p: Params, g: nat)
    requires LegalCall(m, U5, p) && g < |m.dram| && !(p[0] <= g < p[0] as nat + p[3])
    ensures Fits(m, Invocation(U5, p).Plan()) && |Whole(m, Invocation(U5, p).Plan()).dram| == |m.dram|
    ensures Whole(m, Invocation(U5, p).Plan()).dram[g] == m.dram[g]
    ensures Whole(m, Invocation(U5, p).Plan()).sram == m.sram
  {
    MultiplyPatches(m, p);
    hide Whole, Scale, LegalCall;
  }
}
