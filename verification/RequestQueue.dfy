/** The growable request queue: an array that is reallocated to grow and to erase. */
module RequestQueue {

  predicate Ascending(s: seq<nat>) {
    forall i, j :: 0 <= i < j < |s| ==> s[i] < s[j]
  }

  /** An ascending list of indices below n, as the issue loop builds it. */
  predicate ListedBelow(s: seq<nat>, n: nat) {
    Ascending(s) && forall d :: d in s ==> d < n
  }

  lemma ListMore(s: seq<nat>, n: nat)
    requires ListedBelow(s, n)
    ensures n !in s && ListedBelow(s, n + 1) && ListedBelow(s + [n], n + 1)
  {
    var t := s + [n];
    forall i, j | 0 <= i < j < |t|
      ensures t[i] < t[j]
    {
      assert t[i] == s[i] && s[i] in s;
      if j < |s| {
        assert s[i] < s[j];
      }
    }
  }

  /** The entries whose index is not listed, in order. */
  function Kept<T>(q: seq<T>, dels: seq<nat>): seq<T> {
    if q == [] then []
    else Kept(q[..|q| - 1], dels) + if |q| - 1 in dels then [] else [q[|q| - 1]]
  }

  lemma {:induction false} KeptNone<T>(q: seq<T>)
    ensures Kept(q, []) == q
  {
    if q != [] {
      KeptNone(q[..|q| - 1]);
      assert q == q[..|q| - 1] + [q[|q| - 1]];
    }
  }

  /** Listing an index beyond the queue changes nothing. */
  lemma {:induction false} KeptBeyond<T>(q: seq<T>, dels: seq<nat>, i: nat)
    requires i >= |q|
    ensures Kept(q, dels + [i]) == Kept(q, dels)
  {
    if q != [] {
      KeptBeyond(q[..|q| - 1], dels, i);
    }
  }

  predicate Distinct<T(==)>(s: seq<T>) {
    forall i, j :: 0 <= i < j < |s| ==> s[i] != s[j]
  }

  lemma DistinctAppend<T>(s: seq<T>, x: T)
    requires Distinct(s) && x !in s
    ensures Distinct(s + [x])
  {
    var t := s + [x];
    forall i, j | 0 <= i < j < |t|
      ensures t[i] != t[j]
    {
      assert t[i] == s[i] && s[i] in s;
      if j < |s| {
        assert s[i] != s[j];
      }
    }
  }

  lemma {:induction false} KeptDistinct<T>(q: seq<T>, dels: seq<nat>)
    ensures forall x :: x in Kept(q, dels) ==> x in q
    ensures Distinct(q) ==> Distinct(Kept(q, dels))
  {
    if q != [] {
      var s, last := q[..|q| - 1], q[|q| - 1];
      KeptDistinct(s, dels);
      if Distinct(q) {
        assert Distinct(s);
        DistinctAppend(Kept(s, dels), last);
      }
    }
  }

  /** The listed indices below n. */
  function Gone(dels: seq<nat>, n: nat): set<nat> {
    set k | k in dels && k < n
  }

  lemma GoneStep(dels: seq<nat>, n: nat)
    ensures |Gone(dels, n + 1)| == |Gone(dels, n)| + if n in dels then 1 else 0
    ensures Gone(dels, 0) == {}
  {
    assert Gone(dels, n + 1) == if n in dels then Gone(dels, n) + {n} else Gone(dels, n);
  }

  lemma {:induction false} GoneBound(dels: seq<nat>, n: nat)
    ensures |Gone(dels, n)| <= n
  {
    if n > 0 {
      GoneStep(dels, n - 1);
      GoneBound(dels, n - 1);
    } else {
      GoneStep(dels, 0);
    }
  }

  /** What keeping means: an unlisted entry survives, moved down by the number of listed
      entries before it, and the survivors are all there is. */
  lemma {:induction false} KeptAt<T>(q: seq<T>, dels: seq<nat>)
    ensures |Kept(q, dels)| + |Gone(dels, |q|)| == |q|
    ensures forall i :: 0 <= i < |q| && i !in dels ==>
              0 <= i - |Gone(dels, i)| < |Kept(q, dels)| && Kept(q, dels)[i - |Gone(dels, i)|] == q[i]
  {
    if q == [] {
      GoneStep(dels, 0);
    } else {
      KeptAt(q[..|q| - 1], dels);
      GoneStep(dels, |q| - 1);
      GoneBound(dels, |q| - 1);
    }
  }

  class MirandaRequestQueue<T(0)> {
    var theQ: array<T>
    var curSize: nat

    ghost predicate Valid()
      reads this
    {
      curSize <= theQ.Length
    }

    ghost function Contents(): seq<T>
      requires Valid()
      reads this, theQ
    {
      theQ[..curSize]
    }

    constructor ()
      ensures Valid() && fresh(theQ) && Contents() == []
    {
      theQ := new T[16];
      curSize := 0;
    }

    method Size() returns (n: nat)
      requires Valid()
      ensures n == |Contents()|
    {
      n := curSize;
    }

    method At(i: nat) returns (t: T)
      requires Valid() && i < |Contents()|
      ensures t == Contents()[i]
    {
      t := theQ[i];
    }

    /** Reallocate, to grow or to shrink; all that is queued is copied, so it must fit. */
    method Resize(newSize: nat)
      requires Valid() && curSize <= newSize
      modifies this
      ensures Valid() && fresh(theQ) && theQ.Length == newSize
      ensures Contents() == old(Contents())
    {
      var newQ := new T[newSize];
      for i := 0 to curSize
        invariant newQ[..i] == old(theQ[..i]) && theQ == old(theQ) && curSize == old(curSize)
      {
        newQ[i] := theQ[i];
      }
      theQ := newQ;
    }

    method PushBack(t: T)
      requires Valid()
      modifies this, theQ
      ensures Valid() && (theQ == old(theQ) || fresh(theQ))
      ensures Contents() == old(Contents()) + [t]
    {
      if curSize == theQ.Length {
        Resize(theQ.Length + 16);
      }
      theQ[curSize] := t;
      curSize := curSize + 1;
    }

    /** Erase the entries at a strictly ascending list of indices, in one pass: exactly
        those go, and the rest keep their order. */
    method Erase(eraseList: seq<nat>)
      requires Valid() && Ascending(eraseList)
      modifies this
      ensures Valid() && (theQ == old(theQ) || fresh(theQ))
      ensures Contents() == Kept(old(Contents()), eraseList)
    {
      ghost var q := Contents();
      if |eraseList| == 0 {
        KeptNone(q);
        return;
      }
      var newQ := new T[theQ.Length];
      var nextSkipIndex := 0;
      var nextSkip := eraseList[0];
      var next := 0;
      for i := 0 to curSize
        invariant theQ == old(theQ) && curSize == old(curSize) && theQ[..curSize] == q
        invariant nextSkipIndex <= |eraseList| && next <= i
        invariant forall k :: 0 <= k < nextSkipIndex ==> eraseList[k] < i
        invariant forall k :: nextSkipIndex <= k < |eraseList| ==> i <= eraseList[k]
        invariant nextSkip == if nextSkipIndex < |eraseList| then eraseList[nextSkipIndex] else curSize
        invariant newQ[..next] == Kept(q[..i], eraseList)
      {
        assert q[..i + 1][..i] == q[..i];
        if nextSkip == i {
          nextSkipIndex := nextSkipIndex + 1;
          if nextSkipIndex >= |eraseList| {
            nextSkip := curSize;
          } else {
            nextSkip := eraseList[nextSkipIndex];
          }
        } else {
          newQ[next] := theQ[i];
          next := next + 1;
        }
      }
      assert q[..|q|] == q;
      theQ := newQ;
      curSize := next;
    }
  }
}
