/**
 * The identifier indexes of coda.cpp: a sample (or OTU) name is given the
 * next dense integer the first time it is seen, through
 * `index.try_emplace(key, index.size())`, and keeps it afterwards.
 */
module Indexing {

  type Index = map<string, nat>

  /** `index.try_emplace(key, index.size())`. */
  function Register(index: Index, key: string): (r: Index)
    ensures key in r && r.Keys == index.Keys + {key}
    ensures forall k :: k in index ==> r[k] == index[k]
    ensures key !in index ==> r[key] == |index| && |r| == |index| + 1
    ensures key in index ==> |r| == |index|
  {
    if key in index then index else index[key := |index|]
  }

  /** The index after registering every key of `keys`, in order. */
  function RegisterAll(keys: seq<string>): (index: Index)
    ensures keys != [] ==> keys[|keys| - 1] in index
  {
    if keys == [] then map[] else Register(RegisterAll(keys[..|keys| - 1]), keys[|keys| - 1])
  }

  /** Registering one more key extends the index by one `try_emplace`. */
  lemma RegisterAllSnoc(keys: seq<string>, key: string)
    ensures RegisterAll(keys + [key]) == Register(RegisterAll(keys), key)
  {
    assert (keys + [key])[..|keys|] == keys;
  }

  /** The distinct keys of `keys`, in order of first appearance. */
  function FirstSeen(keys: seq<string>): seq<string>
  {
    if keys == [] then []
    else
      var earlier := FirstSeen(keys[..|keys| - 1]);
      if keys[|keys| - 1] in earlier then earlier else earlier + [keys[|keys| - 1]]
  }

  /** `index` numbers the keys of `order` by their position in it, and nothing else. */
  ghost predicate Numbers(index: Index, order: seq<string>)
  {
    && |index| == |order|
    && (forall k :: k in index <==> k in order)
    && (forall i :: 0 <= i < |order| ==> order[i] in index && index[order[i]] == i)
  }

  /** The index built from `keys` numbers the distinct keys by first appearance. */
  lemma {:induction false} RegisterAllNumbersFirstSeen(keys: seq<string>)
    ensures Numbers(RegisterAll(keys), FirstSeen(keys))
    ensures forall k :: k in FirstSeen(keys) <==> k in keys
  {
    if keys != [] {
      var init, last := keys[..|keys| - 1], keys[|keys| - 1];
      RegisterAllNumbersFirstSeen(init);
      assert keys == init + [last];
      var m, f := RegisterAll(init), FirstSeen(init);
      if last !in f {
        assert last !in m;
        var m', f' := RegisterAll(keys), FirstSeen(keys);
        assert f' == f + [last];
        forall i | 0 <= i < |f'| ensures f'[i] in m' && m'[f'[i]] == i {
          if i < |f| { assert f'[i] == f[i]; }
        }
      }
    }
  }

  /**
   * coda.cpp:86-89: the index maps exactly the keys seen, injectively, to
   * numbers below its size.
   */
  lemma IndexIsDense(keys: seq<string>)
    ensures var index := RegisterAll(keys);
      && (forall k :: k in index <==> k in keys)
      && (forall k :: k in index ==> index[k] < |index|)
      && (forall k1, k2 :: k1 in index && k2 in index && index[k1] == index[k2] ==> k1 == k2)
  {
    var index, order := RegisterAll(keys), FirstSeen(keys);
    RegisterAllNumbersFirstSeen(keys);
    forall k | k in index ensures index[k] < |index| && order[index[k]] == k {
      assert k in order;
      var i :| 0 <= i < |order| && order[i] == k;
    }
  }

  /** coda.cpp:86-89: every number below the index size is handed out, so the index is onto 0 .. |index| - 1. */
  lemma IndexIsOnto(keys: seq<string>)
    ensures var index := RegisterAll(keys);
      forall i: nat :: i < |index| ==> i in index.Values
  {
    var index, order := RegisterAll(keys), FirstSeen(keys);
    RegisterAllNumbersFirstSeen(keys);
    forall i: nat | i < |index| ensures i in index.Values {
      assert order[i] in index && index[order[i]] == i;
    }
  }

  /** Registering more keys keeps every index handed out so far and hands out only larger ones. */
  lemma {:induction false} RegisterAllKeepsIndices(keys: seq<string>, p: nat)
    requires p <= |keys|
    ensures var before, after := RegisterAll(keys[..p]), RegisterAll(keys);
      && |before| <= |after|
      && (forall k :: k in before ==> k in after && after[k] == before[k])
      && (forall k :: k in after && k !in before ==> after[k] >= |before|)
  {
    if p < |keys| {
      var init := keys[..|keys| - 1];
      assert init[..p] == keys[..p];
      RegisterAllKeepsIndices(init, p);
    } else {
      assert keys[..p] == keys;
    }
  }

  /** coda.cpp:86-89: a key seen first at position `p` gets the number of distinct keys before it. */
  lemma IndexIsFirstAppearanceCount(keys: seq<string>, p: nat)
    requires p < |keys| && keys[p] !in keys[..p]
    ensures keys[p] in RegisterAll(keys)
    ensures RegisterAll(keys)[keys[p]] == |RegisterAll(keys[..p])| == |FirstSeen(keys[..p])|
  {
    var upto := keys[..p + 1];
    assert upto[..p] == keys[..p];
    RegisterAllNumbersFirstSeen(keys[..p]);
    assert keys[p] !in RegisterAll(keys[..p]);
    RegisterAllKeepsIndices(keys, p + 1);
  }

  /** coda.cpp:86-89: a key that appears before another key's first appearance has the smaller index. */
  lemma FirstAppearanceOrder(keys: seq<string>, p: nat, a: string, b: string)
    requires p <= |keys|
    requires a in keys[..p] && b !in keys[..p] && b in keys
    ensures a in RegisterAll(keys) && b in RegisterAll(keys)
    ensures RegisterAll(keys)[a] < RegisterAll(keys)[b]
  {
    IndexIsDense(keys[..p]);
    IndexIsDense(keys);
    RegisterAllKeepsIndices(keys, p);
  }

  /** Every key of `index` maps to `i` in `lookup` exactly when `index` maps it to `i`. */
  ghost predicate Inverts(lookup: map<nat, string>, index: Index)
  {
    && (forall k :: k in index ==> index[k] in lookup && lookup[index[k]] == k)
    && (forall i :: i in lookup ==> lookup[i] in index && index[lookup[i]] == i)
  }

  /**
   * coda.cpp:107-114: the reverse table, filled by `try_emplace(value, key)`
   * while visiting the pairs of `index` in no particular order.
   */
  method BuildLookup(index: Index) returns (lookup: map<nat, string>)
    ensures lookup.Keys == index.Values
    ensures forall i :: i in lookup ==> lookup[i] in index && index[lookup[i]] == i
    ensures (forall k1, k2 :: k1 in index && k2 in index && index[k1] == index[k2] ==> k1 == k2)
      ==> Inverts(lookup, index)
  {
    lookup := map[];
    var unvisited := index.Keys;
    while unvisited != {}
      invariant unvisited <= index.Keys
      invariant forall k :: k in index && k !in unvisited ==> index[k] in lookup
      invariant forall i :: i in lookup ==> lookup[i] in index && lookup[i] !in unvisited && index[lookup[i]] == i
      decreases unvisited
    {
      var key :| key in unvisited;
      if index[key] !in lookup {
        lookup := lookup[index[key] := key];
      }
      unvisited := unvisited - {key};
    }
    forall v | v in index.Values ensures v in lookup {
      var k :| k in index && index[k] == v;
    }
  }

  /** coda.cpp:152-158: with a dense index, every `lookup.at(i)` below the index size succeeds. */
  lemma LookupIsTotalBelowSize(keys: seq<string>, lookup: map<nat, string>)
    requires lookup.Keys == RegisterAll(keys).Values
    ensures forall i: nat :: i in lookup <==> i < |RegisterAll(keys)|
  {
    IndexIsDense(keys);
    IndexIsOnto(keys);
  }
}
