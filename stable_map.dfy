/** The semantics the canister relies on from its ordered stable maps keyed by
    id: point lookup, upsert returning the previous value, removal returning the
    removed value, and iteration in ascending key order. */
module StableMap {
  import opened Records

  /** Point lookup; absence is reported as `None`, never as an error. */
  function Get<V>(m: map<nat, V>, k: nat): (r: Option<V>)
    ensures r.Some? <==> k in m
    ensures r.Some? ==> r.value == m[k]
  {
    if k in m then Some(m[k]) else None
  }

  /** The outcome of an upsert: the new map and the value the key held before. */
  datatype Upsert<V> = Upsert(store: map<nat, V>, previous: Option<V>)

  /** Upsert: the key is bound to `v` whether or not it was present. */
  function Insert<V>(m: map<nat, V>, k: nat, v: V): (r: Upsert<V>)
    ensures r.store.Keys == m.Keys + {k}
    ensures k in r.store && r.store[k] == v
    ensures forall j :: j in m && j != k ==> r.store[j] == m[j]
    ensures r.previous == Get(m, k)
  {
    Upsert(m[k := v], Get(m, k))
  }

  /** The outcome of a removal: the new map and the value removed, if any. */
  datatype Removal<V> = Removal(store: map<nat, V>, removed: Option<V>)

  function Remove<V>(m: map<nat, V>, k: nat): (r: Removal<V>)
    ensures r.store.Keys == m.Keys - {k}
    ensures forall j :: j in r.store ==> r.store[j] == m[j]
    ensures r.removed == Get(m, k)
    ensures |r.store| == if k in m then |m| - 1 else |m|
    ensures k !in m ==> r.store == m
  {
    assert k !in m ==> m - {k} == m;
    Removal(m - {k}, Get(m, k))
  }

  /** Every key of `m` is below `n`. */
  ghost predicate KeysBelow<V>(m: map<nat, V>, n: nat) {
    forall k :: k in m ==> k < n
  }

  ghost predicate StrictlyIncreasing(s: seq<nat>) {
    forall i, j :: 0 <= i < j < |s| ==> s[i] < s[j]
  }

  /** Least(ks, k): k is the least element of ks. */
  predicate Least(ks: set<nat>, k: nat) {
    k in ks && forall j :: j in ks ==> k <= j
  }

  lemma {:induction false} LeastOf(ks: set<nat>) returns (k: nat)
    requires ks != {}
    ensures Least(ks, k)
    decreases |ks|
  {
    var x :| x in ks;
    if ks == {x} {
      k := x;
    } else {
      var y := LeastOf(ks - {x});
      k := if x < y then x else y;
      forall j | j in ks ensures k <= j {
        if j != x { assert j in ks - {x}; }
      }
    }
  }

  lemma MinExists(ks: set<nat>)
    requires ks != {}
    ensures exists k :: Least(ks, k)
  {
    var k := LeastOf(ks);
  }

  /** The least key of a non-empty key set. */
  function Min(ks: set<nat>): (k: nat)
    requires ks != {}
    ensures k in ks
    ensures forall j :: j in ks ==> k <= j
  {
    MinExists(ks);
    var k :| Least(ks, k);
    k
  }

  /** The keys in the order the map's iterator visits them: ascending, each once. */
  function SortedKeys(ks: set<nat>): (r: seq<nat>)
    ensures StrictlyIncreasing(r)
    ensures forall k {:trigger k in r} :: k in r <==> k in ks
    ensures |r| == |ks|
    decreases |ks|
  {
    if ks == {} then []
    else
      var k := Min(ks);
      var rest := SortedKeys(ks - {k});
      assert forall i :: 0 <= i < |rest| ==> k < rest[i] by {
        forall i | 0 <= i < |rest| ensures k < rest[i] {
          assert rest[i] in rest;
        }
      }
      [k] + rest
  }

  /** The tail of a strictly increasing enumeration of `ks` enumerates `ks`
      without its head, which is the least key. */
  lemma EnumerationTail(ks: set<nat>, s: seq<nat>)
    requires StrictlyIncreasing(s) && s != []
    requires forall k :: k in s <==> k in ks
    ensures ks != {} && s[0] == Min(ks)
    ensures StrictlyIncreasing(s[1..])
    ensures forall k :: k in s[1..] <==> k in ks - {s[0]}
  {
    assert s[0] in s;
    var m := Min(ks);
    assert m in s;
    var i :| 0 <= i < |s| && s[i] == m;
    assert s[0] <= s[i];
    forall k ensures k in s[1..] <==> k in ks - {m} {
      if k in s[1..] {
        var i :| 1 <= i < |s| && s[i] == k;
        assert s[0] < s[i];
      }
      if k in ks - {m} {
        assert k in s;
        var i :| 0 <= i < |s| && s[i] == k;
        assert s[1..][i - 1] == k;
      }
    }
  }

  /** A strictly increasing enumeration of a key set is `SortedKeys` of it. */
  lemma {:induction false} SortedKeysUnique(ks: set<nat>, s: seq<nat>)
    requires StrictlyIncreasing(s)
    requires forall k :: k in s <==> k in ks
    ensures s == SortedKeys(ks)
    decreases |s|
  {
    if s == [] {
      assert forall k :: k !in ks;
    } else {
      EnumerationTail(ks, s);
      SortedKeysUnique(ks - {s[0]}, s[1..]);
      calc {
        SortedKeys(ks);
        [Min(ks)] + SortedKeys(ks - {Min(ks)});
        [s[0]] + s[1..];
        s;
      }
    }
  }

  /** Adding a key larger than every present key appends it to the key order. */
  lemma SortedKeysAddMax(ks: set<nat>, k: nat)
    requires forall j :: j in ks ==> j < k
    ensures SortedKeys(ks + {k}) == SortedKeys(ks) + [k]
  {
    var s := SortedKeys(ks) + [k];
    forall i, j | 0 <= i < j < |s| ensures s[i] < s[j] {
      if j < |s| - 1 {
        assert s[i] == SortedKeys(ks)[i] && s[j] == SortedKeys(ks)[j];
      } else {
        assert s[i] in SortedKeys(ks);
      }
    }
    forall x ensures x in s <==> x in ks + {k} {
      assert x in s <==> x in SortedKeys(ks) || x == k;
    }
    SortedKeysUnique(ks + {k}, s);
  }

  /** The values stored under the keys `ks`, in the order of `ks`. */
  function ValuesAt<V>(m: map<nat, V>, ks: seq<nat>): (r: seq<V>)
    requires forall k :: k in ks ==> k in m
    ensures |r| == |ks|
    ensures forall i :: 0 <= i < |r| ==> r[i] == m[ks[i]]
  {
    if ks == [] then [] else [m[ks[0]]] + ValuesAt(m, ks[1..])
  }

  /** Full listing: every stored value once, in ascending key order. */
  function Values<V>(m: map<nat, V>): (r: seq<V>)
    ensures |r| == |m|
    ensures forall i :: 0 <= i < |r| ==>
      SortedKeys(m.Keys)[i] in m && r[i] == m[SortedKeys(m.Keys)[i]]
  {
    ValuesAt(m, SortedKeys(m.Keys))
  }

  /** Every stored value appears in the listing. */
  lemma ValuesComplete<V>(m: map<nat, V>)
    ensures forall k :: k in m ==> m[k] in Values(m)
  {
    forall k | k in m ensures m[k] in Values(m) {
      var ks := SortedKeys(m.Keys);
      assert k in ks;
      var i :| 0 <= i < |ks| && ks[i] == k;
      assert Values(m)[i] == m[k];
    }
  }

  /** Looking one more, fresh, key up extends the values looked up by its value. */
  lemma ValuesAtAppendFresh<V>(m: map<nat, V>, ks: seq<nat>, k: nat, v: V)
    requires forall j :: j in ks ==> j in m
    requires k !in m
    ensures ValuesAt(m[k := v], ks + [k]) == ValuesAt(m, ks) + [v]
  {
  }

  /** Storing under a key larger than every present key appends the value to the listing. */
  lemma ValuesInsertMax<V>(m: map<nat, V>, k: nat, v: V)
    requires forall j :: j in m ==> j < k
    ensures Values(m[k := v]) == Values(m) + [v]
  {
    assert m[k := v].Keys == m.Keys + {k};
    SortedKeysAddMax(m.Keys, k);
    ValuesAtAppendFresh(m, SortedKeys(m.Keys), k, v);
  }
}
