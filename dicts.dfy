/**
 * Python dicts with int keys and int values, as insertion-ordered
 * association lists: each key at most once, in the order it was first
 * stored. Assigning to an existing key keeps its position; a new key goes to
 * the end.
 */
module Dicts {

  /** A dict from int keys to int values. */
  type Dict = seq<(int, int)>

  /** No key occurs twice. */
  predicate UniqueKeys(d: Dict) {
    forall i, j :: 0 <= i < j < |d| ==> d[i].0 != d[j].0
  }

  /** `k in d`. */
  predicate HasKey(d: Dict, k: int) {
    exists i :: 0 <= i < |d| && d[i].0 == k
  }

  /** The position of key k: the first entry that holds it. */
  function KeyIndex(d: Dict, k: int): (i: nat)
    requires HasKey(d, k)
    ensures i < |d| && d[i].0 == k
    ensures forall j :: 0 <= j < i ==> d[j].0 != k
  {
    if d[0].0 == k then 0
    else
      assert HasKey(d[1..], k) by {
        var i :| 0 <= i < |d| && d[i].0 == k;
        assert d[1..][i - 1].0 == k;
      }
      1 + KeyIndex(d[1..], k)
  }

  /** With unique keys, the entry holding k is the only one. */
  lemma KeyIndexUnique(d: Dict, i: nat)
    requires UniqueKeys(d) && i < |d|
    ensures HasKey(d, d[i].0) && KeyIndex(d, d[i].0) == i
  {
  }

  /** `d.get(k, default)`. */
  function Get(d: Dict, k: int, default: int): (v: int)
    ensures !HasKey(d, k) ==> v == default
    ensures HasKey(d, k) ==> exists i :: 0 <= i < |d| && d[i] == (k, v)
  {
    if HasKey(d, k) then d[KeyIndex(d, k)].1 else default
  }

  /** `d[k] = v`. */
  function Put(d: Dict, k: int, v: int): (d': Dict)
    ensures |d'| == if HasKey(d, k) then |d| else |d| + 1
  {
    if HasKey(d, k) then d[KeyIndex(d, k) := (k, v)] else d + [(k, v)]
  }

  /** Storing keeps every key unique, keeps the keys already present where they were, and appends a new key. */
  lemma PutKeepsOrder(d: Dict, k: int, v: int)
    requires UniqueKeys(d)
    ensures UniqueKeys(Put(d, k, v)) && HasKey(Put(d, k, v), k)
    ensures forall i :: 0 <= i < |d| ==> Put(d, k, v)[i].0 == d[i].0
    ensures !HasKey(d, k) ==> Put(d, k, v)[|d|] == (k, v)
  {
    var d' := Put(d, k, v);
    if !HasKey(d, k) {
      assert d'[|d|].0 == k;
    } else {
      assert d'[KeyIndex(d, k)].0 == k;
    }
  }

  /** Reading back a stored key gives the stored value; other keys read as before. */
  lemma GetPut(d: Dict, k: int, v: int, k': int, default: int)
    requires UniqueKeys(d)
    ensures Get(Put(d, k, v), k', default) == if k' == k then v else Get(d, k', default)
  {
    var d' := Put(d, k, v);
    PutKeepsOrder(d, k, v);
    if k' == k {
      var i := KeyIndex(d', k);
      if HasKey(d, k) {
        KeyIndexUnique(d', KeyIndex(d, k));
      } else {
        KeyIndexUnique(d', |d|);
      }
    } else if HasKey(d, k') {
      var i := KeyIndex(d, k');
      assert d'[i] == d[i];
      KeyIndexUnique(d', i);
    }
  }
}
