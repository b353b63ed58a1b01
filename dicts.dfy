/** Insertion-ordered dictionaries keyed by strings, as Python's `dict` behaves
    for the node mappings of Parallel and ConditionalBranch and for the
    name -> output mapping a Parallel returns. */
module Dicts {

  datatype Dict<V> = Dict(entries: seq<(string, V)>)

  function Empty<V>(): Dict<V> { Dict([]) }

  /** The keys, in insertion order. */
  function Keys<V>(d: Dict<V>): (ks: seq<string>)
    ensures |ks| == |d.entries|
    ensures forall i :: 0 <= i < |ks| ==> ks[i] == d.entries[i].0
  {
    seq(|d.entries|, i requires 0 <= i < |d.entries| => d.entries[i].0)
  }

  /** Every Python dict has pairwise distinct keys. */
  ghost predicate Valid<V>(d: Dict<V>) {
    forall i, j :: 0 <= i < j < |d.entries| ==> d.entries[i].0 != d.entries[j].0
  }

  /** Position of the first occurrence of `k`, or `|ks|` when it is absent. */
  function IndexOf(ks: seq<string>, k: string): (i: nat)
    ensures i <= |ks|
    ensures i < |ks| <==> k in ks
    ensures i < |ks| ==> ks[i] == k
    ensures forall j :: 0 <= j < i ==> ks[j] != k
  {
    if |ks| == 0 then 0 else if ks[0] == k then 0 else 1 + IndexOf(ks[1..], k)
  }

  lemma IndexOfUnique(ks: seq<string>, k: string, i: nat)
    requires i < |ks| && ks[i] == k
    requires forall j :: 0 <= j < i ==> ks[j] != k
    ensures IndexOf(ks, k) == i
  {
  }

  /** `d[k]`, defined for present keys only. */
  function Get<V>(d: Dict<V>, k: string): V
    requires k in Keys(d)
  {
    d.entries[IndexOf(Keys(d), k)].1
  }

  /** `d[k] = v`: a present key keeps its position and takes the new value,
      a new key is added last. */
  function Put<V>(d: Dict<V>, k: string, v: V): (r: Dict<V>)
    ensures k in Keys(d) ==> Keys(r) == Keys(d)
    ensures k !in Keys(d) ==> Keys(r) == Keys(d) + [k] && r.entries == d.entries + [(k, v)]
    ensures k in Keys(r) && Get(r, k) == v
    ensures forall k' :: k' in Keys(d) && k' != k ==> Get(r, k') == Get(d, k')
    ensures Valid(d) ==> Valid(r)
  {
    var i := IndexOf(Keys(d), k);
    PutKeys(d, k, v, i);
    PutGets(d, k, v, i);
    Assign(d, k, v, i)
  }

  /** The dict with `(k, v)` at position `i`, or added last when `i` is past the end. */
  function Assign<V>(d: Dict<V>, k: string, v: V, i: nat): Dict<V> {
    if i < |d.entries| then Dict(d.entries[i := (k, v)]) else Dict(d.entries + [(k, v)])
  }

  lemma PutKeys<V>(d: Dict<V>, k: string, v: V, i: nat)
    requires i == IndexOf(Keys(d), k)
    ensures Keys(Assign(d, k, v, i)) == if i < |d.entries| then Keys(d) else Keys(d) + [k]
    ensures Valid(d) ==> Valid(Assign(d, k, v, i))
  {
  }

  lemma PutGets<V>(d: Dict<V>, k: string, v: V, i: nat)
    requires i == IndexOf(Keys(d), k)
    requires Keys(Assign(d, k, v, i)) == if i < |d.entries| then Keys(d) else Keys(d) + [k]
    ensures k in Keys(Assign(d, k, v, i)) && Get(Assign(d, k, v, i), k) == v
    ensures forall k' :: k' in Keys(d) && k' != k ==> Get(Assign(d, k, v, i), k') == Get(d, k')
  {
    var r := Assign(d, k, v, i);
    IndexOfUnique(Keys(r), k, i);
    forall k' | k' in Keys(d) && k' != k
      ensures Get(r, k') == Get(d, k')
    {
      var j := IndexOf(Keys(d), k');
      IndexOfUnique(Keys(r), k', j);
    }
  }

  /** `{name: value for (name, value) in pairs}`: later duplicates overwrite
      the value of the first occurrence and keep its position. */
  function FromPairs<V>(ps: seq<(string, V)>): (d: Dict<V>)
    ensures Valid(d)
  {
    if |ps| == 0 then Empty() else Put(FromPairs(ps[..|ps| - 1]), ps[|ps| - 1].0, ps[|ps| - 1].1)
  }

  /** The keys of `FromPairs(ps)` are exactly the names occurring in `ps`. */
  lemma {:induction false} FromPairsKeys<V>(ps: seq<(string, V)>, k: string)
    ensures k in Keys(FromPairs(ps)) <==> exists i :: 0 <= i < |ps| && ps[i].0 == k
  {
    if |ps| > 0 {
      var init := ps[..|ps| - 1];
      FromPairsKeys(init, k);
      if exists i :: 0 <= i < |init| && init[i].0 == k {
        var i :| 0 <= i < |init| && init[i].0 == k;
        assert ps[i].0 == k;
      }
      if exists i :: 0 <= i < |ps| && ps[i].0 == k {
        var i :| 0 <= i < |ps| && ps[i].0 == k;
        if i < |ps| - 1 { assert init[i].0 == k; }
      }
    }
  }

  /** Each name maps to the value of its LAST occurrence in `ps`. */
  lemma {:induction false} FromPairsLast<V>(ps: seq<(string, V)>, i: nat)
    requires i < |ps|
    requires forall j :: i < j < |ps| ==> ps[j].0 != ps[i].0
    ensures ps[i].0 in Keys(FromPairs(ps)) && Get(FromPairs(ps), ps[i].0) == ps[i].1
  {
    var init := ps[..|ps| - 1];
    if i < |ps| - 1 {
      FromPairsLast(init, i);
    }
  }

  /** With pairwise distinct names, the dict holds exactly the pairs, in order. */
  lemma {:induction false} FromPairsDistinct<V>(ps: seq<(string, V)>)
    requires forall i, j :: 0 <= i < j < |ps| ==> ps[i].0 != ps[j].0
    ensures FromPairs(ps).entries == ps
  {
    if |ps| > 0 {
      var init, last := ps[..|ps| - 1], ps[|ps| - 1];
      FromPairsDistinct(init);
      AppendFresh(FromPairs(init), last.0, last.1);
      assert init + [last] == ps;
    }
  }

  /** A key that no entry carries is added last. */
  lemma AppendFresh<V>(d: Dict<V>, k: string, v: V)
    requires forall i :: 0 <= i < |d.entries| ==> d.entries[i].0 != k
    ensures Put(d, k, v).entries == d.entries + [(k, v)]
  {
    assert k !in Keys(d) by {
      forall i | 0 <= i < |d.entries| ensures Keys(d)[i] != k {
      }
    }
  }
}
