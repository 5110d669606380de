/** Finite sums over a set of keys, and the laws the conservation proofs use. */
module Sums {

  /** The sum of f over ks. The order in which keys are taken does not matter: see Pick. */
  ghost function Sum<K>(ks: set<K>, f: K -> int): int
  {
    if ks == {} then 0
    else
      var k :| k in ks;
      f(k) + Sum(ks - {k}, f)
  }

  lemma Any<K>(ks: set<K>) returns (k: K)
    requires ks != {}
    ensures k in ks
  {
    k :| k in ks;
  }

  /** The next index a walk over a pool or table yields; any order will do. */
  method AnyOf<K(==)>(ks: set<K>) returns (k: K)
    requires ks != {}
    ensures k in ks
  {
    k :| k in ks;
  }

  lemma {:induction false} Pick<K>(ks: set<K>, f: K -> int, k: K)
    requires k in ks
    ensures Sum(ks, f) == f(k) + Sum(ks - {k}, f)
    decreases |ks|
  {
    var x :| x in ks && Sum(ks, f) == f(x) + Sum(ks - {x}, f);
    if x != k {
      Pick(ks - {x}, f, k);
      Pick(ks - {k}, f, x);
      assert ks - {x} - {k} == ks - {k} - {x};
    }
  }

  /** Adding a fresh key adds exactly its term. */
  lemma Add<K>(ks: set<K>, f: K -> int, k: K)
    requires k !in ks
    ensures Sum(ks + {k}, f) == f(k) + Sum(ks, f)
  {
    Pick(ks + {k}, f, k);
    assert ks + {k} - {k} == ks;
  }

  /** A fresh key whose term is zero does not change the sum. */
  lemma Grow<K>(ks: set<K>, ks': set<K>, f: K -> int, g: K -> int, k: K)
    requires k !in ks && ks' == ks + {k} && g(k) == 0
    requires forall x :: x in ks ==> f(x) == g(x)
    ensures Sum(ks', g) == Sum(ks, f)
  {
    Add(ks, g, k);
    Same(ks, f, g);
  }

  /** Two functions that agree on the keys have the same sum. */
  lemma {:induction false} Same<K>(ks: set<K>, f: K -> int, g: K -> int)
    requires forall k :: k in ks ==> f(k) == g(k)
    ensures Sum(ks, f) == Sum(ks, g)
    decreases |ks|
  {
    if ks != {} {
      var k :| k in ks;
      Pick(ks, f, k);
      Pick(ks, g, k);
      Same(ks - {k}, f, g);
    }
  }

  /** Changing the function at one key moves the sum by that key's difference. */
  lemma Change<K>(ks: set<K>, f: K -> int, g: K -> int, k: K)
    requires k in ks
    requires forall x :: x in ks && x != k ==> f(x) == g(x)
    ensures Sum(ks, g) == Sum(ks, f) - f(k) + g(k)
  {
    Pick(ks, f, k);
    Pick(ks, g, k);
    Same(ks - {k}, f, g);
  }

  lemma {:induction false} Monotone<K>(ks: set<K>, f: K -> int, g: K -> int)
    requires forall k :: k in ks ==> f(k) <= g(k)
    ensures Sum(ks, f) <= Sum(ks, g)
    decreases |ks|
  {
    if ks != {} {
      var k :| k in ks;
      Pick(ks, f, k);
      Pick(ks, g, k);
      Monotone(ks - {k}, f, g);
    }
  }

  lemma {:induction false} NonNegative<K>(ks: set<K>, f: K -> int)
    requires forall k :: k in ks ==> f(k) >= 0
    ensures Sum(ks, f) >= 0
    ensures forall k :: k in ks ==> f(k) <= Sum(ks, f)
    decreases |ks|
  {
    if ks != {} {
      forall k | k in ks
        ensures 0 <= f(k) <= Sum(ks, f)
      {
        Pick(ks, f, k);
        NonNegative(ks - {k}, f);
      }
    }
  }

  lemma {:induction false} AllZero<K>(ks: set<K>, f: K -> int)
    requires forall k :: k in ks ==> f(k) == 0
    ensures Sum(ks, f) == 0
    decreases |ks|
  {
    if ks != {} {
      var k :| k in ks;
      Pick(ks, f, k);
      AllZero(ks - {k}, f);
    }
  }

  lemma NonNegativeAt<K>(ks: set<K>, f: K -> int, k: K)
    requires forall x :: x in ks ==> f(x) >= 0
    ensures Sum(ks, f) >= 0
    ensures k in ks ==> f(k) <= Sum(ks, f)
  {
  }

  lemma {:induction false} AtMostEach<K>(ks: set<K>, f: K -> int, most: int)
    requires forall k :: k in ks ==> f(k) <= most
    ensures Sum(ks, f) <= |ks| * most
    decreases |ks|
  {
    if ks != {} {
      var k := Any(ks);
      Pick(ks, f, k);
      AtMostEach(ks - {k}, f, most);
      assert |ks| * most == (|ks| - 1) * most + most;
    }
  }

  lemma AtMostOthers<K>(ks: set<K>, f: K -> int, most: int, k: K)
    requires k in ks && forall x :: x in ks ==> f(x) <= most
    ensures Sum(ks, f) - f(k) + most <= |ks| * most
  {
    Pick(ks, f, k);
    AtMostEach(ks - {k}, f, most);
    assert |ks - {k}| == |ks| - 1;
    assert (|ks| - 1) * most + most == |ks| * most;
  }

  /** A sum of non-negative terms is zero exactly when every term is. */
  lemma {:induction false} ZeroIff<K>(ks: set<K>, f: K -> int)
    requires forall k :: k in ks ==> f(k) >= 0
    ensures Sum(ks, f) == 0 <==> forall k :: k in ks ==> f(k) == 0
    decreases |ks|
  {
    NonNegative(ks, f);
    if forall k :: k in ks ==> f(k) == 0 {
      if ks != {} {
        var k :| k in ks;
        Pick(ks, f, k);
        ZeroIff(ks - {k}, f);
      }
    }
  }

  lemma {:induction false} Plus<K>(ks: set<K>, f: K -> int, g: K -> int, h: K -> int)
    requires forall k :: k in ks ==> h(k) == f(k) + g(k)
    ensures Sum(ks, h) == Sum(ks, f) + Sum(ks, g)
    decreases |ks|
  {
    if ks != {} {
      var k :| k in ks;
      Pick(ks, f, k);
      Pick(ks, g, k);
      Pick(ks, h, k);
      Plus(ks - {k}, f, g, h);
    }
  }

  /** Keys whose terms are zero can be left out. */
  lemma {:induction false} Restrict<K>(ks: set<K>, all: set<K>, f: K -> int)
    requires ks <= all && forall k :: k in all && k !in ks ==> f(k) == 0
    ensures Sum(ks, f) == Sum(all, f)
    decreases |all|
  {
    if ks != all {
      assert all - ks != {} by { assert ks + (all - ks) == all; }
      var k := Any(all - ks);
      Pick(all, f, k);
      Restrict(ks, all - {k}, f);
    }
  }

  /** Terms bounded one by one after scaling are bounded in sum. */
  lemma {:induction false} ScaledBound<K>(ks: set<K>, q: K -> int, w: K -> int, r: int, total: int)
    requires forall k :: k in ks ==> q(k) * total <= r * w(k)
    ensures Sum(ks, q) * total <= r * Sum(ks, w)
    decreases |ks|
  {
    if ks != {} {
      var k :| k in ks;
      Pick(ks, q, k);
      Pick(ks, w, k);
      ScaledBound(ks - {k}, q, w, r, total);
      Distribute(q(k), Sum(ks - {k}, q), total);
      Distribute(w(k), Sum(ks - {k}, w), r);
    }
  }

  lemma Distribute(a: int, b: int, c: int)
    ensures (a + b) * c == a * c + b * c && c * (a + b) == c * a + c * b
  {
  }

  /** Negative terms that can be matched, each to its own key of a second sum that outweighs it,
      do not take the two sums together below zero. */
  lemma {:induction false} Matched<K, L>(ks: set<K>, f: K -> int, ls: set<L>, g: L -> int, m: K -> L)
    requires forall l :: l in ls ==> g(l) >= 0
    requires forall k :: k in ks && f(k) < 0 ==> m(k) in ls && f(k) + g(m(k)) >= 0
    requires forall j, k :: j in ks && k in ks && j != k && f(j) < 0 && f(k) < 0 ==> m(j) != m(k)
    ensures Sum(ks, f) + Sum(ls, g) >= 0
    decreases |ks|
  {
    if ks == {} {
      NonNegative(ls, g);
    } else {
      var k := Any(ks);
      Pick(ks, f, k);
      if f(k) >= 0 {
        Matched(ks - {k}, f, ls, g, m);
      } else {
        Pick(ls, g, m(k));
        Matched(ks - {k}, f, ls - {m(k)}, g, m);
      }
    }
  }
}
