/** Sums over the values of a finite map, for claims kept per commit token. */
module TokenSums {

  type Token = nat

  ghost function Sum(m: map<Token, nat>): nat {
    if m == map[] then 0
    else var k :| k in m; m[k] + Sum(m - {k})
  }

  lemma {:induction false} SumRemove(m: map<Token, nat>, k: Token)
    requires k in m
    ensures Sum(m) == m[k] + Sum(m - {k})
  {
    var j :| j in m && Sum(m) == m[j] + Sum(m - {j});
    if j != k {
      SumRemove(m - {j}, k);
      SumRemove(m - {k}, j);
      assert m - {j} - {k} == m - {k} - {j};
    }
  }

  lemma SumAdd(m: map<Token, nat>, k: Token, n: nat)
    requires k !in m
    ensures Sum(m[k := n]) == Sum(m) + n
  {
    SumRemove(m[k := n], k);
    assert m[k := n] - {k} == m;
  }

  lemma SumUpdate(m: map<Token, nat>, k: Token, n: nat)
    requires k in m
    ensures Sum(m[k := n]) + m[k] == Sum(m) + n
  {
    SumRemove(m, k);
    SumRemove(m[k := n], k);
    assert m[k := n] - {k} == m - {k};
  }

  lemma {:induction false} SumAtMost(small: map<Token, nat>, large: map<Token, nat>)
    requires small.Keys <= large.Keys
    requires forall k :: k in small ==> small[k] <= large[k]
    ensures Sum(small) <= Sum(large)
  {
    if small != map[] {
      var k :| k in small;
      SumRemove(small, k);
      SumRemove(large, k);
      SumAtMost(small - {k}, large - {k});
    }
  }

  /** A sum splits over any part of the keys. */
  lemma {:induction false} SumSplit(m: map<Token, nat>, part: set<Token>)
    ensures Sum(m) == Sum(map k | k in m && k in part :: m[k]) + Sum(m - part)
    decreases m
  {
    var inside := map k | k in m && k in part :: m[k];
    if m != map[] {
      var k :| k in m;
      SumRemove(m, k);
      SumSplit(m - {k}, part);
      var insideRest := map j | j in m - {k} && j in part :: (m - {k})[j];
      if k in part {
        SumRemove(inside, k);
        assert inside - {k} == insideRest;
        assert m - {k} - part == m - part;
      } else {
        SumRemove(m - part, k);
        assert inside == insideRest;
        assert m - part - {k} == m - {k} - part;
      }
    } else {
      assert inside == map[] && m - part == map[];
    }
  }

  /** Dropping the same keys takes no more from the smaller map. */
  lemma DropTakesLess(small: map<Token, nat>, large: map<Token, nat>, part: set<Token>)
    requires small.Keys == large.Keys
    requires forall k :: k in small ==> small[k] <= large[k]
    ensures Sum(small) - Sum(small - part) <= Sum(large) - Sum(large - part)
  {
    SumSplit(small, part);
    SumSplit(large, part);
    SumAtMost(map k | k in small && k in part :: small[k], map k | k in large && k in part :: large[k]);
  }
}
