/** Totals over the threads of a step system.

    A system keeps one program counter per thread in a sequence; `Sum` adds a weight over all of
    them. The lemmas say how a total moves when one thread takes a step. */
module Threads {

  function Sum<P>(ps: seq<P>, w: P -> nat): nat
  {
    if ps == [] then 0 else w(ps[0]) + Sum(ps[1..], w)
  }

  lemma {:induction false} SumUpdate<P>(ps: seq<P>, i: nat, p: P, w: P -> nat)
    requires i < |ps|
    ensures Sum(ps[i := p], w) == Sum(ps, w) - w(ps[i]) + w(p)
  {
    if i == 0 {
      assert ps[0 := p][1..] == ps[1..];
    } else {
      assert ps[i := p][1..] == ps[1..][i - 1 := p];
      SumUpdate(ps[1..], i - 1, p, w);
    }
  }

  lemma {:induction false} SumAtLeast<P>(ps: seq<P>, i: nat, w: P -> nat)
    requires i < |ps|
    ensures w(ps[i]) <= Sum(ps, w)
  {
    if i > 0 {
      SumAtLeast(ps[1..], i - 1, w);
    }
  }

  lemma {:induction false} SumAtMost<P>(ps: seq<P>, w: P -> nat, bound: nat)
    requires forall i | 0 <= i < |ps| :: w(ps[i]) <= bound
    ensures Sum(ps, w) <= |ps| * bound
  {
    if ps != [] {
      forall i | 0 <= i < |ps[1..]| ensures w(ps[1..][i]) <= bound {
        assert ps[1..][i] == ps[i + 1];
      }
      SumAtMost(ps[1..], w, bound);
      assert |ps| * bound == bound + |ps[1..]| * bound;
    }
  }

  /** A positive total has a thread behind it. */
  lemma {:induction false} SumWitness<P>(ps: seq<P>, w: P -> nat) returns (i: nat)
    requires Sum(ps, w) > 0
    ensures i < |ps| && w(ps[i]) > 0
  {
    if w(ps[0]) > 0 {
      i := 0;
    } else {
      i := SumWitness(ps[1..], w);
      i := i + 1;
    }
  }

  lemma {:induction false} SumConcat<P>(a: seq<P>, b: seq<P>, w: P -> nat)
    ensures Sum(a + b, w) == Sum(a, w) + Sum(b, w)
  {
    if a == [] {
      assert a + b == b;
    } else {
      assert (a + b)[1..] == a[1..] + b;
      SumConcat(a[1..], b, w);
    }
  }

  lemma SumPrefix<P>(ps: seq<P>, i: nat, j: nat, w: P -> nat)
    requires i <= j <= |ps|
    ensures Sum(ps[..i], w) <= Sum(ps[..j], w)
  {
    assert ps[..j] == ps[..i] + ps[i..j];
    SumConcat(ps[..i], ps[i..j], w);
  }

  lemma {:induction false} SumMonotone<P>(a: seq<P>, b: seq<P>, w: P -> nat)
    requires |a| == |b|
    requires forall i | 0 <= i < |a| :: w(a[i]) <= w(b[i])
    ensures Sum(a, w) <= Sum(b, w)
  {
    if a != [] {
      forall i | 0 <= i < |a[1..]| ensures w(a[1..][i]) <= w(b[1..][i]) {
        assert w(a[i + 1]) <= w(b[i + 1]);
      }
      SumMonotone(a[1..], b[1..], w);
    }
  }

  /** `ps` with the `k` entries from `m` on replaced by `p`. */
  function Paint<P>(ps: seq<P>, m: nat, k: nat, p: P): (r: seq<P>)
    requires m + k <= |ps|
    ensures |r| == |ps|
    ensures forall i | 0 <= i < |ps| :: r[i] == if m <= i < m + k then p else ps[i]
  {
    ps[..m] + seq(k, _ => p) + ps[m + k..]
  }

  /** Painting entries of equal weight leaves the total alone. */
  lemma {:induction false} PaintSame<P>(ps: seq<P>, m: nat, k: nat, p: P, q: P, w: P -> nat)
    requires m + k <= |ps| && w(p) == w(q)
    requires forall i | m <= i < m + k :: ps[i] == q
    ensures Sum(Paint(ps, m, k, p), w) == Sum(ps, w)
    decreases k
  {
    if k == 0 {
      assert Paint(ps, m, k, p) == ps;
    } else {
      SumUpdate(ps, m, p, w);
      PaintSame(ps[m := p], m + 1, k - 1, p, q, w);
      assert Paint(ps, m, k, p) == Paint(ps[m := p], m + 1, k - 1, p);
    }
  }

  /** Painting over entries of weight zero with an entry of weight one counts each of them. */
  lemma {:induction false} PaintUp<P>(ps: seq<P>, m: nat, k: nat, p: P, q: P, w: P -> nat)
    requires m + k <= |ps| && w(p) == 1 && w(q) == 0
    requires forall i | m <= i < m + k :: ps[i] == q
    ensures Sum(Paint(ps, m, k, p), w) == Sum(ps, w) + k
    decreases k
  {
    if k == 0 {
      assert Paint(ps, m, k, p) == ps;
    } else {
      SumUpdate(ps, m, p, w);
      PaintUp(ps[m := p], m + 1, k - 1, p, q, w);
      assert Paint(ps, m, k, p) == Paint(ps[m := p], m + 1, k - 1, p);
    }
  }

  lemma {:induction false} SumDominated<P(!new)>(ps: seq<P>, v: P -> nat, w: P -> nat)
    requires forall p :: v(p) <= w(p)
    ensures Sum(ps, v) <= Sum(ps, w)
  {
    if ps != [] {
      SumDominated(ps[1..], v, w);
    }
  }
}
