/** Little-endian words: the byte views the program takes of its 64-bit values. */
module Bytes {
  import opened PimDef
  import opened Quotients

  function Pow256(k: nat): (r: nat)
    ensures r > 0
  {
    if k == 0 then 1 else 256 * Pow256(k - 1)
  }

  function FromBytes(s: seq<byte>): nat {
    if s == [] then 0 else s[0] + 256 * FromBytes(s[1..])
  }

  function ToBytes(n: nat, k: nat): (s: seq<byte>)
    ensures |s| == k
  {
    if k == 0 then [] else [n % 256] + ToBytes(n / 256, k - 1)
  }

  lemma {:induction false} FromBytesBound(s: seq<byte>)
    ensures FromBytes(s) < Pow256(|s|)
  {
    if s != [] {
      FromBytesBound(s[1..]);
    }
  }

  lemma Pow256Of8()
    ensures Pow256(8) == TWO64
  {
    assert Pow256(4) == TWO32;
    assert Pow256(8) == 256 * 256 * 256 * 256 * Pow256(4);
  }

  lemma {:induction false} EncodeDecode(n: nat, k: nat)
    requires n < Pow256(k)
    ensures FromBytes(ToBytes(n, k)) == n
  {
    if k > 0 {
      EncodeDecode(n / 256, k - 1);
    }
  }

  lemma {:induction false} DecodeEncode(s: seq<byte>)
    ensures ToBytes(FromBytes(s), |s|) == s
  {
    if s != [] {
      DecodeEncode(s[1..]);
      DivMod(FromBytes(s[1..]), 256, s[0]);
      assert s == [s[0]] + s[1..];
    }
  }

  /** Both directions at once, for the 8-byte words the machine moves. */
  lemma WordCodec(w: word, s: seq<byte>)
    requires |s| == 8
    ensures FromBytes(ToBytes(w, 8)) == w
    ensures FromBytes(s) < TWO64 && ToBytes(FromBytes(s), 8) == s
  {
    Pow256Of8();
    EncodeDecode(w, 8);
    FromBytesBound(s);
    DecodeEncode(s);
  }

  function WordOf(s: seq<byte>): word
    requires |s| == 8
  {
    WordCodec(0, s);
    FromBytes(s)
  }

  function MulWord(a: word, b: word): word {
    (a * b) % TWO64
  }

  /** The k-th word of a byte sequence. */
  function WordAt(d: seq<byte>, k: nat): word
    requires 8 * k + 8 <= |d|
  {
    WordOf(d[8 * k..8 * k + 8])
  }

  /** Every word multiplied by s, modulo two to the 64. */
  function Scale(s: word, d: seq<byte>): (r: seq<byte>)
    requires |d| % 8 == 0
    ensures |r| == |d|
  {
    if d == [] then [] else ToBytes(MulWord(s, WordOf(d[..8])), 8) + Scale(s, d[8..])
  }

  lemma {:induction false} ScaleWords(s: word, d: seq<byte>, k: nat)
    requires |d| % 8 == 0 && 8 * k + 8 <= |d|
    ensures WordAt(Scale(s, d), k) == (s * WordAt(d, k)) % TWO64
  {
    var r := Scale(s, d);
    if k == 0 {
      assert r[..8] == ToBytes(MulWord(s, WordOf(d[..8])), 8);
      WordCodec(MulWord(s, WordOf(d[..8])), d[..8]);
    } else {
      ScaleWords(s, d[8..], k - 1);
      assert d[8..][8 * (k - 1)..8 * (k - 1) + 8] == d[8 * k..8 * k + 8];
      assert Scale(s, d[8..])[8 * (k - 1)..8 * (k - 1) + 8] == r[8 * k..8 * k + 8];
    }
  }

  lemma {:induction false} ScaleConcat(s: word, a: seq<byte>, b: seq<byte>)
    requires |a| % 8 == 0 && |b| % 8 == 0
    ensures Scale(s, a + b) == Scale(s, a) + Scale(s, b)
  {
    if a == [] {
      assert a + b == b;
    } else {
      ScaleConcat(s, a[8..], b);
      assert (a + b)[..8] == a[..8];
      assert (a + b)[8..] == a[8..] + b;
    }
  }

  lemma ScaleOneMore(s: word, d: seq<byte>, i: nat)
    requires |d| % 8 == 0 && i % 8 == 0 && i + 8 <= |d|
    ensures Scale(s, d[..i + 8]) == Scale(s, d[..i]) + ToBytes(MulWord(s, WordOf(d[i..i + 8])), 8)
  {
    var w := d[i..i + 8];
    assert d[..i + 8] == d[..i] + w;
    ScaleConcat(s, d[..i], w);
    assert w[..8] == w && w[8..] == [];
  }

  // ---- what a multiplication forgets

  lemma {:induction false} Pow256Add(a: nat, b: nat)
    ensures Pow256(a + b) == Pow256(a) * Pow256(b)
  {
    if a > 0 {
      Pow256Add(a - 1, b);
    }
  }

  lemma {:induction false} FromBytesConcat(a: seq<byte>, b: seq<byte>)
    ensures FromBytes(a + b) == FromBytes(a) + Pow256(|a|) * FromBytes(b)
  {
    if a == [] {
      assert a + b == b;
    } else {
      assert (a + b)[1..] == a[1..] + b;
      FromBytesConcat(a[1..], b);
    }
  }

  lemma Reorder(t: nat, p: nat, q: nat, h: nat)
    ensures t * p * (q * h) == p * q * (t * h)
  {
    assert t * p * (q * h) == t * p * q * h == p * q * (t * h);
  }

  /** A scalar whose low o bytes are zero loses the high o bytes of what it multiplies. */
  lemma HighLost(t: nat, o: nat, low: nat, high: nat)
    requires o <= 8
    ensures (t * Pow256(o) * (low + Pow256(8 - o) * high)) % TWO64 == (t * Pow256(o) * low) % TWO64
  {
    var p, q := Pow256(o), Pow256(8 - o);
    Pow256Add(o, 8 - o);
    Pow256Of8();
    hide Pow256;
    Distribute(t * p, low, q * high);
    Reorder(t, p, q, high);
    assert p * q * (t * high) == TWO64 * (t * high);
    WrapsAway(t * p * low, t * high);
  }

  lemma LowCounts(s: word, x: seq<byte>, o: nat)
    requires |x| == 8 && o <= 8 && s % Pow256(o) == 0
    ensures MulWord(s, WordOf(x)) == (s * FromBytes(x[..8 - o])) % TWO64
  {
    assert x == x[..8 - o] + x[8 - o..];
    FromBytesConcat(x[..8 - o], x[8 - o..]);
    Euclid(s, Pow256(o));
    hide Pow256, FromBytes;
    HighLost(s / Pow256(o), o, FromBytes(x[..8 - o]), FromBytes(x[8 - o..]));
  }

  lemma Distribute(s: nat, a: nat, b: nat)
    ensures s * (a + b) == s * a + s * b
  {
  }

  lemma WrapsAway(x: nat, t: nat)
    ensures (x + TWO64 * t) % TWO64 == x % TWO64
  {
  }

  /** And so for a sequence, where that is its last o bytes. */
  lemma {:induction false} ScaleForgets(s: word, d: seq<byte>, e: seq<byte>, o: nat)
    requires |d| == |e| && |d| % 8 == 0 && o <= 8 && o <= |d| && s % Pow256(o) == 0
    requires d[..|d| - o] == e[..|d| - o]
    ensures Scale(s, d) == Scale(s, e)
  {
    if |d| == 8 {
      LowCounts(s, d, o);
      LowCounts(s, e, o);
      assert d[..8] == d && e[..8] == e && d[8..] == e[8..];
    } else if |d| > 8 {
      assert d[..8] == d[..|d| - o][..8] == e[..|d| - o][..8] == e[..8];
      assert d[8..][..|d| - 8 - o] == d[..|d| - o][8..] == e[8..][..|d| - 8 - o];
      ScaleForgets(s, d[8..], e[8..], o);
    }
  }

  function Zeros(n: nat): seq<byte> {
    seq(n, _ => 0)
  }

  lemma {:induction false} FromBytesZeros(n: nat)
    ensures FromBytes(Zeros(n)) == 0
  {
    if n > 0 {
      assert Zeros(n)[1..] == Zeros(n - 1);
      FromBytesZeros(n - 1);
    }
  }

  lemma {:induction false} ToBytesZero(k: nat)
    ensures ToBytes(0, k) == Zeros(k)
  {
    if k > 0 {
      ToBytesZero(k - 1);
      assert Zeros(k) == [0] + Zeros(k - 1);
    }
  }

  lemma {:induction false} ScaleByZero(d: seq<byte>)
    requires |d| % 8 == 0
    ensures Scale(0, d) == Zeros(|d|)
  {
    if d != [] {
      ToBytesZero(8);
      ScaleByZero(d[8..]);
      assert Zeros(|d|) == Zeros(8) + Zeros(|d| - 8);
    }
  }

  lemma ZeroWord(s: word)
    ensures ToBytes(MulWord(s, WordOf(Zeros(8))), 8) == Zeros(8)
  {
    hide FromBytes, ToBytes;
    FromBytesZeros(8);
    ToBytesZero(8);
    assert WordOf(Zeros(8)) == 0;
    assert MulWord(s, 0) == 0;
  }

  lemma {:induction false} ScaleZeros(s: word, n: nat)
    requires n % 8 == 0
    ensures Scale(s, Zeros(n)) == Zeros(n)
  {
    if n > 0 {
      ZeroWord(s);
      ScaleZeros(s, n - 8);
      hide FromBytes, ToBytes, WordOf, MulWord;
      assert Zeros(n)[..8] == Zeros(8) && Zeros(n)[8..] == Zeros(n - 8);
      assert Zeros(n) == Zeros(8) + Zeros(n - 8);
    }
  }

  /** A one at position j among zeros is a power of 256. */
  lemma {:induction false} OneAmongZeros(d: seq<byte>, j: nat)
    requires j < |d| && forall i :: 0 <= i < |d| ==> d[i] == if i == j then 1 else 0
    ensures FromBytes(d) == Pow256(j)
  {
    if j == 0 {
      assert d[1..] == Zeros(|d| - 1);
      FromBytesZeros(|d| - 1);
    } else {
      OneAmongZeros(d[1..], j - 1);
    }
  }

  lemma Cancelled(x: nat, y: nat, k: nat)
    requires x * k == y * k && k > 0
    ensures x == y
  {
  }

  lemma MultipleOf(t: nat, p: nat)
    requires p > 0
    ensures (t * p) % p == 0
  {
    DivMod(t, p, 0);
  }

  /** Any other scalar shows in the top o bytes of a word. */
  lemma ScalarShows(s: word, o: nat)
    requires o <= 8 && s % Pow256(o) != 0
    ensures (s * Pow256(8 - o)) % TWO64 != 0
  {
    var p, q := Pow256(o), Pow256(8 - o);
    Pow256Add(o, 8 - o);
    Pow256Of8();
    if (s * q) % TWO64 == 0 {
      var t := s * q / TWO64;
      assert s * q == t * p * q;
      Cancelled(s, t * p, q);
      MultipleOf(t, p);
    }
  }
}
