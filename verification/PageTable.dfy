/** The page table: a linear map, possibly shuffled by random swaps, is always a bijection
    on the address space that keeps page offsets. */
module PageTable {
  import opened PimDef
  import opened Quotients

  function Linear(count: nat, size: nat): seq<nat> {
    seq(count, i requires 0 <= i => i * size)
  }

  function Swap(p: seq<nat>, a: nat, b: nat): seq<nat>
    requires a < |p| && b < |p|
  {
    p[a := p[b]][b := p[a]]
  }

  /** One swap for every two random numbers. */
  function Shuffle(p: seq<nat>, draws: seq<nat>): (r: seq<nat>)
    ensures |r| == |p|
    decreases |draws|
  {
    if |draws| < 2 || p == [] then p
    else Shuffle(Swap(p, draws[0] % |p|, draws[1] % |p|), draws[2..])
  }

  /** The table holds every page start exactly once. */
  predicate Permutes(p: seq<nat>, count: nat, size: nat) {
    |p| == count && multiset(p) == multiset(Linear(count, size))
  }

  lemma SwapPermutes(p: seq<nat>, a: nat, b: nat)
    requires a < |p| && b < |p|
    ensures multiset(Swap(p, a, b)) == multiset(p)
  {
  }

  /** Whatever the random numbers, shuffling permutes. */
  lemma {:induction false} ShufflePermutes(p: seq<nat>, draws: seq<nat>)
    ensures multiset(Shuffle(p, draws)) == multiset(p)
    decreases |draws|
  {
    if |draws| >= 2 && p != [] {
      SwapPermutes(p, draws[0] % |p|, draws[1] % |p|);
      ShufflePermutes(Swap(p, draws[0] % |p|, draws[1] % |p|), draws[2..]);
    }
  }

  lemma {:induction false} LinearOnce(count: nat, size: nat, k: nat)
    requires size > 0 && k < count
    ensures multiset(Linear(count, size))[k * size] == 1
  {
    var l := Linear(count, size);
    assert l == l[..k] + [k * size] + l[k + 1..];
    forall i | 0 <= i < count && i != k
      ensures l[i] != k * size
    {
      if i * size == k * size {
        QuotientUnique(i, 0, k, 0, size);
      }
    }
    assert k * size !in l[..k] && k * size !in l[k + 1..];
  }

  /** Page starts of a permuting table: each entry is one, no two are equal, none is missing. */
  lemma TableEntries(p: seq<nat>, count: nat, size: nat)
    requires size > 0 && Permutes(p, count, size)
    ensures forall i :: 0 <= i < count ==> exists k: nat :: k < count && p[i] == k * size
    ensures forall i, j :: 0 <= i < j < count ==> p[i] != p[j]
    ensures forall k: nat :: k < count ==> k * size in p
  {
    var l := Linear(count, size);
    forall i | 0 <= i < count
      ensures exists k: nat :: k < count && p[i] == k * size
    {
      assert p[i] in multiset(p) && p[i] in multiset(l) && p[i] in l;
      var k :| 0 <= k < count && l[k] == p[i];
      assert k < count && p[i] == k * size;
    }
    forall i, j | 0 <= i < j < count
      ensures p[i] != p[j]
    {
      var k: nat :| k < count && p[i] == k * size;
      LinearOnce(count, size, k);
      assert p == p[..j] + [p[j]] + p[j + 1..];
      assert p[i] in p[..j];
    }
    forall k: nat | k < count
      ensures k * size in p
    {
      assert l[k] == k * size && k * size in multiset(l) && k * size in multiset(p);
    }
  }

  function Translate(p: seq<nat>, size: nat, a: nat): nat
    requires size > 0 && a < |p| * size
  {
    QuotientInside(a, |p|, size);
    p[a / size] + a % size
  }

  lemma QuotientInside(a: nat, n: nat, d: nat)
    requires d > 0 && a < n * d
    ensures a / d < n
  {
    Euclid(a, d);
    if a / d >= n {
      Mono(n, a / d, d);
    }
  }

  /** Translation stays inside the address space and keeps the page offset. */
  lemma TranslateInside(p: seq<nat>, count: nat, size: nat, a: nat)
    requires size > 0 && Permutes(p, count, size) && a < count * size
    ensures Translate(p, size, a) < count * size && Translate(p, size, a) % size == a % size
  {
    TableEntries(p, count, size);
    QuotientInside(a, count, size);
    var k: nat :| k < count && p[a / size] == k * size;
    Euclid(a, size);
    DivMod(k, size, a % size);
    Mono(k + 1, count, size);
  }

  /** No two addresses collide. */
  lemma TranslateInjective(p: seq<nat>, count: nat, size: nat, a: nat, b: nat)
    requires size > 0 && Permutes(p, count, size) && a < count * size && b < count * size
    requires Translate(p, size, a) == Translate(p, size, b)
    ensures a == b
  {
    TableEntries(p, count, size);
    QuotientInside(a, count, size);
    QuotientInside(b, count, size);
    Euclid(a, size);
    Euclid(b, size);
    TranslateInside(p, count, size, a);
    TranslateInside(p, count, size, b);
    assert p[a / size] == p[b / size];
  }

  /** And every physical address is reached. */
  lemma TranslateSurjective(p: seq<nat>, count: nat, size: nat, b: nat) returns (a: nat)
    requires size > 0 && Permutes(p, count, size) && b < count * size
    ensures a < count * size && Translate(p, size, a) == b
  {
    TableEntries(p, count, size);
    QuotientInside(b, count, size);
    Euclid(b, size);
    var k := b / size;
    assert k * size in p;
    var i :| 0 <= i < |p| && p[i] == k * size;
    a := i * size + b % size;
    Mono(i + 1, count, size);
    DivMod(i, size, b % size);
  }

  // ---- which page goes where

  function Address(q: nat, o: nat, size: nat): nat {
    q * size + o
  }

  /** Offset o of page q is found at offset o of the page the table holds at q. */
  lemma TranslateAt(p: seq<nat>, size: nat, q: nat, o: nat)
    requires q < |p| && o < size
    ensures Address(q, o, size) < |p| * size && Translate(p, size, Address(q, o, size)) == p[q] + o
  {
    Mono(q + 1, |p|, size);
    DivMod(q, size, o);
  }

  /** The linear table maps every address to itself. */
  lemma LinearIsIdentity(count: nat, size: nat, a: nat)
    requires size > 0 && a < count * size
    ensures Translate(Linear(count, size), size, a) == a
  {
    QuotientInside(a, count, size);
    Euclid(a, size);
  }

  lemma SwapAt(p: seq<nat>, i: nat, j: nat, q: nat)
    requires i < |p| && j < |p| && q < |p|
    ensures |Swap(p, i, j)| == |p| && Swap(p, i, j)[q] == p[if q == i then j else if q == j then i else q]
  {
  }

  /** One pair of random numbers exchanges the images of the two pages they select, and leaves
      every other page where it was. */
  lemma PairExchanges(p: seq<nat>, size: nat, x: nat, y: nat, q: nat, o: nat)
    requires q < |p| && o < size
    ensures var i, j := x % |p|, y % |p|;
            var source := if q == i then j else if q == j then i else q;
            && Address(q, o, size) < |p| * size && Address(source, o, size) < |p| * size
            && Translate(Shuffle(p, [x, y]), size, Address(q, o, size)) == Translate(p, size, Address(source, o, size))
  {
    hide Address, Translate, Swap;
    var i, j := x % |p|, y % |p|;
    var source := if q == i then j else if q == j then i else q;
    SwapAt(p, i, j, q);
    TranslateAt(p, size, source, o);
    TranslateAt(Swap(p, i, j), size, q, o);
    assert [x, y][2..] == [];
    assert Shuffle(p, [x, y]) == Shuffle(Swap(p, i, j), []) == Swap(p, i, j);
  }

  /** And pairs act one after the other. */
  lemma {:induction false} ShuffleConcat(p: seq<nat>, a: seq<nat>, b: seq<nat>)
    requires |a| % 2 == 0
    ensures Shuffle(p, a + b) == Shuffle(Shuffle(p, a), b)
    decreases |a|
  {
    if a == [] {
      assert a + b == b;
    } else if p != [] {
      var s := Swap(p, a[0] % |p|, a[1] % |p|);
      assert (a + b)[2..] == a[2..] + b;
      ShuffleConcat(s, a[2..], b);
    }
  }

  method FillLinear(pageArr: array<nat>, size: nat)
    modifies pageArr
    ensures pageArr[..] == Linear(pageArr.Length, size)
  {
    ghost var l := Linear(pageArr.Length, size);
    for i := 0 to pageArr.Length
      invariant pageArr[..i] == l[..i]
    {
      pageArr[i] := i * size;
    }
    assert pageArr[..pageArr.Length] == pageArr[..] && l[..pageArr.Length] == l;
  }

  /** Two swaps' worth of random numbers for every page. */
  method SwapPages(pageArr: array<nat>, draws: seq<nat>)
    requires |draws| == 4 * pageArr.Length
    modifies pageArr
    ensures pageArr[..] == Shuffle(old(pageArr[..]), draws)
  {
    var n := pageArr.Length;
    assert draws[0..] == draws;
    for i := 0 to 2 * n
      invariant Shuffle(pageArr[..], draws[2 * i..]) == Shuffle(old(pageArr[..]), draws)
    {
      ghost var before, rest := pageArr[..], draws[2 * i..];
      var a, b := draws[2 * i] % n, draws[2 * i + 1] % n;
      if a != b {
        var pageA := pageArr[a];
        pageArr[a] := pageArr[b];
        pageArr[b] := pageA;
      }
      assert pageArr[..] == Swap(before, a, b);
      assert rest[2..] == draws[2 * (i + 1)..];
    }
  }

  class MemoryManager {
    const pageSize: nat
    const pageCount: nat
    const pageMap: array<nat>

    ghost predicate Valid()
      reads pageMap
    {
      pageSize > 0 && pageMap.Length == pageCount && Permutes(pageMap[..], pageCount, pageSize)
    }

    /** Fill the table linearly; if randomized, swap twice as many random pairs as there are
        pages; copy it into the shared map. */
    constructor (pageSize: nat, pageCount: nat, randomized: bool, draws: seq<nat>)
      requires pageSize > 0 && |draws| == 4 * pageCount
      ensures Valid() && fresh(pageMap)
      ensures pageMap[..] ==
        if randomized then Shuffle(Linear(pageCount, pageSize), draws) else Linear(pageCount, pageSize)
    {
      hide Shuffle, Linear;
      this.pageSize, this.pageCount := pageSize, pageCount;
      var pageArr := new nat[pageCount](_ => 0);
      FillLinear(pageArr, pageSize);
      ShufflePermutes(Linear(pageCount, pageSize), draws);
      if randomized {
        SwapPages(pageArr, draws);
      }
      ghost var table := pageArr[..];
      pageMap := new nat[pageCount](_ => 0);
      new;
      for i := 0 to pageCount
        invariant pageArr[..] == table && pageMap[..i] == table[..i]
      {
        pageMap[i] := pageArr[i];
      }
      assert pageMap[..] == pageMap[..pageCount] && table[..pageCount] == table;
    }

    /** An address beyond the last page is fatal. */
    method MapAddress(a: nat) returns (r: Option<nat>)
      requires Valid()
      ensures r == if a < pageCount * pageSize then Some(Translate(pageMap[..], pageSize, a)) else None
      ensures a < pageCount * pageSize ==>
        a / pageSize < pageCount && r == Some(pageMap[a / pageSize] + a % pageSize)
      ensures pageMap[..] == Linear(pageCount, pageSize) ==> r == if a < pageCount * pageSize then Some(a) else None
    {
      if a >= pageSize * pageCount {
        return None;
      }
      var pageOffset := a % pageSize;
      var virtualPage := (a - pageOffset) / pageSize;
      Euclid(a, pageSize);
      DivMod(a / pageSize, pageSize, 0);
      QuotientInside(a, pageCount, pageSize);
      r := Some(pageMap[virtualPage] + pageOffset);
      LinearIsIdentity(pageCount, pageSize, a);
    }
  }
}
