/**
  `collect_max_arities`: for each argument index, the largest reference
  index used with it. The map is insertion ordered, as the source's dict is,
  because the deferred checks walk it in that order.
 */
module Arities {
  import opened OrderedMaps
  import opened Sequences

  /** Argument index to the largest reference index seen with it. */
  type ArgMap = OMap<nat, int>

  function Max(a: int, b: int): int {
    if a < b then b else a
  }

  /** `arities.get(arg, -1)` */
  function Default(m: ArgMap, arg: nat): int {
    if arg in m.vals then m.vals[arg] else -1
  }

  /** `arities[arg] = max(arities.get(arg, -1), ref)` */
  function Bump(m: ArgMap, arg: nat, ref: int): (r: ArgMap)
    requires m.Valid()
    ensures r.Valid()
  {
    m.Put(arg, Max(Default(m, arg), ref))
  }

  /** The (arg, ref) pairs of a token list, in order; terminal strings contribute nothing. */
  function RefPairs(toks: seq<Token>): (ps: seq<(nat, int)>)
    ensures |ps| <= |toks|
  {
    if toks == [] then []
    else
      var last := toks[|toks| - 1];
      RefPairs(toks[..|toks| - 1]) + if last.Ref? then [(last.arg, last.ref as int)] else []
  }

  /** Folding `Bump` over a list of pairs, first pair first. */
  function Collect(m: ArgMap, ps: seq<(nat, int)>): (r: ArgMap)
    requires m.Valid()
    ensures r.Valid()
  {
    if ps == [] then m
    else
      var p := ps[|ps| - 1];
      Bump(Collect(m, ps[..|ps| - 1]), p.0, p.1)
  }

  /** The items of an argument map in its order, as `d.items()` lists them. */
  function Items(m: ArgMap): (ps: seq<(nat, int)>)
    requires m.Valid()
    ensures |ps| == |m.keys|
    ensures forall i :: 0 <= i < |ps| ==> ps[i].0 == m.keys[i] && ps[i].1 == m.vals[m.keys[i]]
  {
    seq(|m.keys|, i requires 0 <= i < |m.keys| => (m.keys[i], m.vals[m.keys[i]]))
  }

  /** Some pair in `ps` has argument index `k`. */
  predicate Mentions(ps: seq<(nat, int)>, k: nat) {
    exists i :: 0 <= i < |ps| && ps[i].0 == k
  }

  lemma MentionsSnoc(ps: seq<(nat, int)>, k: nat)
    requires ps != []
    ensures Mentions(ps, k) <==> Mentions(ps[..|ps| - 1], k) || ps[|ps| - 1].0 == k
  {
    var init := ps[..|ps| - 1];
    if Mentions(init, k) {
      var i :| 0 <= i < |init| && init[i].0 == k;
      assert ps[i].0 == k;
    }
    if Mentions(ps, k) && ps[|ps| - 1].0 != k {
      var i :| 0 <= i < |ps| && ps[i].0 == k;
      assert init[i].0 == k;
    }
  }

  /** After Collect exactly the old indices and the indices of the pairs are present. */
  lemma {:induction false} CollectKeys(m: ArgMap, ps: seq<(nat, int)>, k: nat)
    requires m.Valid()
    ensures k in Collect(m, ps).vals <==> k in m.vals || Mentions(ps, k)
  {
    if ps != [] {
      CollectKeys(m, ps[..|ps| - 1], k);
      MentionsSnoc(ps, k);
    }
  }

  /** Collect's value for an index bounds every reference paired with it, and its old value. */
  lemma {:induction false} CollectBounds(m: ArgMap, ps: seq<(nat, int)>, k: nat)
    requires m.Valid()
    requires k in Collect(m, ps).vals
    ensures Default(m, k) <= Collect(m, ps).vals[k]
    ensures forall i :: 0 <= i < |ps| && ps[i].0 == k ==> ps[i].1 <= Collect(m, ps).vals[k]
  {
    if ps != [] {
      var n := |ps| - 1;
      var init := ps[..n];
      var c, r := Collect(m, init), Collect(m, ps);
      assert r == Bump(c, ps[n].0, ps[n].1);
      assert forall i :: 0 <= i < n ==> ps[i] == init[i];
      if k in c.vals {
        CollectBounds(m, init, k);
        assert c.vals[k] <= r.vals[k];
      } else {
        CollectKeys(m, init, k);
        assert forall i :: 0 <= i < n ==> init[i].0 != k;
      }
    }
  }

  /**
    Collect's value for an index is the old value (-1 when absent) or one of
    the references paired with it: it is the maximum, not just a bound.
   */
  lemma {:induction false} CollectAttained(m: ArgMap, ps: seq<(nat, int)>, k: nat)
    requires m.Valid()
    requires k in Collect(m, ps).vals
    ensures var v := Collect(m, ps).vals[k];
            v == Default(m, k) || exists i :: 0 <= i < |ps| && ps[i] == (k, v)
  {
    if ps != [] {
      var n := |ps| - 1;
      var c := Collect(m, ps[..n]);
      var v := Collect(m, ps).vals[k];
      if ps[n].0 == k && v == ps[n].1 {
        assert ps[n] == (k, v);
      } else if k in c.vals {
        CollectAttained(m, ps[..n], k);
        if v != Default(m, k) {
          var i :| 0 <= i < n && ps[..n][i] == (k, v);
          assert ps[i] == (k, v);
        }
      } else {
        CollectKeys(m, ps[..n], k);
      }
    }
  }

  /** Indices that occur in no pair keep their old value. */
  lemma {:induction false} CollectUnchanged(m: ArgMap, ps: seq<(nat, int)>, k: nat)
    requires m.Valid()
    requires k in m.vals && !Mentions(ps, k)
    ensures k in Collect(m, ps).vals && Collect(m, ps).vals[k] == m.vals[k]
  {
    if ps != [] {
      MentionsSnoc(ps, k);
      CollectUnchanged(m, ps[..|ps| - 1], k);
    }
  }

  /** A token is an (arg, ref) pair with argument index `k`. */
  predicate RefersTo(t: Token, k: nat) {
    t.Ref? && t.arg == k
  }

  /** A token is the pair (k, v). */
  predicate IsPair(t: Token, k: nat, v: int) {
    t.Ref? && t.arg == k && t.ref == v
  }

  /** Each (arg, ref) token has its pair in RefPairs... */
  lemma {:induction false} RefPairOfToken(toks: seq<Token>, i: nat) returns (j: nat)
    requires i < |toks| && toks[i].Ref?
    ensures j < |RefPairs(toks)| && RefPairs(toks)[j] == (toks[i].arg, toks[i].ref as int)
  {
    var n := |toks| - 1;
    var init := toks[..n];
    var ps := RefPairs(toks);
    assert ps[..|RefPairs(init)|] == RefPairs(init);
    if i < n {
      assert init[i] == toks[i];
      j := RefPairOfToken(init, i);
      assert ps[j] == RefPairs(init)[j];
    } else {
      j := |ps| - 1;
    }
  }

  /** ...and each pair in RefPairs comes from an (arg, ref) token. */
  lemma {:induction false} TokenOfRefPair(toks: seq<Token>, j: nat) returns (i: nat)
    requires j < |RefPairs(toks)|
    ensures i < |toks| && IsPair(toks[i], RefPairs(toks)[j].0, RefPairs(toks)[j].1)
  {
    var n := |toks| - 1;
    var init := toks[..n];
    var ps := RefPairs(toks);
    assert ps[..|RefPairs(init)|] == RefPairs(init);
    if j < |RefPairs(init)| {
      assert ps[j] == RefPairs(init)[j];
      i := TokenOfRefPair(init, j);
      assert toks[i] == init[i];
    } else {
      i := n;
    }
  }

  lemma MentionsToken(toks: seq<Token>, k: nat)
    ensures Mentions(RefPairs(toks), k) <==> exists i :: 0 <= i < |toks| && RefersTo(toks[i], k)
  {
    var ps := RefPairs(toks);
    if Mentions(ps, k) {
      var j :| 0 <= j < |ps| && ps[j].0 == k;
      var i := TokenOfRefPair(toks, j);
      assert RefersTo(toks[i], k);
    }
    if exists i :: 0 <= i < |toks| && RefersTo(toks[i], k) {
      var i :| 0 <= i < |toks| && RefersTo(toks[i], k);
      var j := RefPairOfToken(toks, i);
      assert ps[j].0 == k;
    }
  }

  lemma CollectTokenBounds(m: ArgMap, toks: seq<Token>)
    requires m.Valid()
    ensures var r := Collect(m, RefPairs(toks));
            forall i :: 0 <= i < |toks| && toks[i].Ref? ==> toks[i].arg in r.vals && toks[i].ref <= r.vals[toks[i].arg]
  {
    var ps := RefPairs(toks);
    forall i | 0 <= i < |toks| && toks[i].Ref?
      ensures toks[i].arg in Collect(m, ps).vals && toks[i].ref <= Collect(m, ps).vals[toks[i].arg]
    {
      var j := RefPairOfToken(toks, i);
      CollectKeys(m, ps, toks[i].arg);
      CollectBounds(m, ps, toks[i].arg);
    }
  }

  lemma CollectTokenAttained(m: ArgMap, toks: seq<Token>, k: nat) returns (i: nat)
    requires m.Valid()
    requires k in Collect(m, RefPairs(toks)).vals
    ensures var v := Collect(m, RefPairs(toks)).vals[k];
            v == Default(m, k) || (i < |toks| && IsPair(toks[i], k, v))
  {
    var ps := RefPairs(toks);
    i := 0;
    CollectAttained(m, ps, k);
    var v := Collect(m, ps).vals[k];
    if v != Default(m, k) {
      var j :| 0 <= j < |ps| && ps[j] == (k, v);
      i := TokenOfRefPair(toks, j);
    }
  }

  /**
    `collect_max_arities(arities, argrefs)` on a token list: a loop that
    updates the map for each (arg, ref) token and ignores terminal strings.
    It computes Collect over the token list's pairs; CollectedMaxima states
    what that map holds.
   */
  method CollectMaxArities(m: ArgMap, toks: seq<Token>) returns (r: ArgMap)
    requires m.Valid()
    ensures r.Valid()
    ensures r == Collect(m, RefPairs(toks))
  {
    r := m;
    var i := 0;
    while i < |toks|
      invariant i <= |toks|
      invariant r.Valid()
      invariant r == Collect(m, RefPairs(toks[..i]))
    {
      var t := toks[i];
      RefPairsSnoc(toks, i);
      if t.Ref? {
        CollectSnoc(m, RefPairs(toks[..i]), (t.arg, t.ref as int));
        r := Bump(r, t.arg, t.ref);
      } else {
        assert RefPairs(toks[..i]) + [] == RefPairs(toks[..i]);
      }
      i := i + 1;
    }
    assert toks[..i] == toks;
  }

  /** The pairs of one more token. */
  lemma RefPairsSnoc(toks: seq<Token>, i: nat)
    requires i < |toks|
    ensures RefPairs(toks[..i + 1]) == RefPairs(toks[..i]) + if toks[i].Ref? then [(toks[i].arg, toks[i].ref as int)] else []
  {
    assert toks[..i + 1][..i] == toks[..i];
  }

  /** Collecting one more pair is one more Bump. */
  lemma CollectSnoc(m: ArgMap, ps: seq<(nat, int)>, p: (nat, int))
    requires m.Valid()
    ensures Collect(m, ps + [p]) == Bump(Collect(m, ps), p.0, p.1)
  {
    assert (ps + [p])[..|ps|] == ps;
  }

  /**
    What the collected map holds: each index used in a pair maps to the
    largest of its old value (-1 when absent) and the references paired
    with it; no other index is added, and every other entry is unchanged.
   */
  lemma CollectedMaxima(m: ArgMap, toks: seq<Token>)
    requires m.Valid()
    ensures var r := Collect(m, RefPairs(toks));
            forall k :: k in r.vals <==> k in m.vals || exists i :: 0 <= i < |toks| && RefersTo(toks[i], k)
    ensures var r := Collect(m, RefPairs(toks));
            forall i :: 0 <= i < |toks| && toks[i].Ref? ==> toks[i].arg in r.vals && toks[i].ref <= r.vals[toks[i].arg]
    ensures var r := Collect(m, RefPairs(toks));
            forall k :: k in m.vals ==> m.vals[k] <= r.vals[k]
    ensures var r := Collect(m, RefPairs(toks));
            forall k :: k in r.vals ==>
              r.vals[k] == Default(m, k) || exists i :: 0 <= i < |toks| && IsPair(toks[i], k, r.vals[k])
    ensures var r := Collect(m, RefPairs(toks));
            forall k :: k in m.vals && (forall i :: 0 <= i < |toks| ==> !RefersTo(toks[i], k)) ==> r.vals[k] == m.vals[k]
  {
    CollectedKeys(m, toks);
    CollectTokenBounds(m, toks);
    CollectedGrows(m, toks);
    CollectedAttained(m, toks);
    CollectedUnchanged(m, toks);
  }

  /** The collected map's indices: the old ones and those some token refers to. */
  lemma CollectedKeys(m: ArgMap, toks: seq<Token>)
    requires m.Valid()
    ensures var r := Collect(m, RefPairs(toks));
            forall k :: k in r.vals <==> k in m.vals || exists i :: 0 <= i < |toks| && RefersTo(toks[i], k)
  {
    forall k ensures k in Collect(m, RefPairs(toks)).vals <==> k in m.vals || exists i :: 0 <= i < |toks| && RefersTo(toks[i], k) {
      CollectKeys(m, RefPairs(toks), k);
      MentionsToken(toks, k);
    }
  }

  /** No old value decreases. */
  lemma CollectedGrows(m: ArgMap, toks: seq<Token>)
    requires m.Valid()
    ensures var r := Collect(m, RefPairs(toks));
            forall k :: k in m.vals ==> k in r.vals && m.vals[k] <= r.vals[k]
  {
    forall k | k in m.vals ensures k in Collect(m, RefPairs(toks)).vals && m.vals[k] <= Collect(m, RefPairs(toks)).vals[k] {
      CollectKeys(m, RefPairs(toks), k);
      CollectBounds(m, RefPairs(toks), k);
    }
  }

  /** Each collected value is the old one or a reference some token pairs with its index. */
  lemma CollectedAttained(m: ArgMap, toks: seq<Token>)
    requires m.Valid()
    ensures var r := Collect(m, RefPairs(toks));
            forall k :: k in r.vals ==>
              r.vals[k] == Default(m, k) || exists i :: 0 <= i < |toks| && IsPair(toks[i], k, r.vals[k])
  {
    var r := Collect(m, RefPairs(toks));
    forall k | k in r.vals
      ensures r.vals[k] == Default(m, k) || exists i :: 0 <= i < |toks| && IsPair(toks[i], k, r.vals[k])
    {
      var i := CollectTokenAttained(m, toks, k);
    }
  }

  /** An index no token refers to keeps its old value. */
  lemma CollectedUnchanged(m: ArgMap, toks: seq<Token>)
    requires m.Valid()
    ensures var r := Collect(m, RefPairs(toks));
            forall k :: k in m.vals && (forall i :: 0 <= i < |toks| ==> !RefersTo(toks[i], k)) ==> k in r.vals && r.vals[k] == m.vals[k]
  {
    forall k | k in m.vals && (forall i :: 0 <= i < |toks| ==> !RefersTo(toks[i], k))
      ensures k in Collect(m, RefPairs(toks)).vals && Collect(m, RefPairs(toks)).vals[k] == m.vals[k]
    {
      MentionsToken(toks, k);
      CollectUnchanged(m, RefPairs(toks), k);
    }
  }
}
