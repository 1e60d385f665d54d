/** Document collections as the Appwrite service sees them: the list a collection query
    returns, searched for the first or last document with a given key, and read as a map
    from key to document. */
module Collections {
  import opened Common

  /** No two documents of the listing share a key. */
  ghost predicate UniqueKeys<V, K>(rows: seq<V>, key: V -> K) {
    forall i, j :: 0 <= i < j < |rows| ==> key(rows[i]) != key(rows[j])
  }

  /** `_find_first`: the position of the first document with key `k`. */
  function FirstWith<V, K(==)>(rows: seq<V>, key: V -> K, k: K): (r: Option<nat>)
    ensures r.Some? ==> (r.value < |rows| && key(rows[r.value]) == k
      && forall i :: 0 <= i < r.value ==> key(rows[i]) != k)
    ensures r.None? ==> forall i :: 0 <= i < |rows| ==> key(rows[i]) != k
  {
    if rows == [] then None
    else if key(rows[0]) == k then Some(0)
    else match FirstWith(rows[1..], key, k)
      case None => None
      case Some(j) => Some(j + 1)
  }

  /** The position of the last document with key `k`: the one a dict built from the
      listing keeps. */
  function LastWith<V, K(==)>(rows: seq<V>, key: V -> K, k: K): (r: Option<nat>)
    ensures r.Some? ==> (r.value < |rows| && key(rows[r.value]) == k
      && forall i :: r.value < i < |rows| ==> key(rows[i]) != k)
    ensures r.None? ==> forall i :: 0 <= i < |rows| ==> key(rows[i]) != k
  {
    if rows == [] then None
    else if key(rows[|rows| - 1]) == k then Some(|rows| - 1)
    else LastWith(rows[..|rows| - 1], key, k)
  }

  /** With unique keys the first and the last document with a key are the same one. */
  lemma {:induction false} UniqueFirstIsLast<V, K>(rows: seq<V>, key: V -> K, k: K)
    requires UniqueKeys(rows, key)
    ensures FirstWith(rows, key, k) == LastWith(rows, key, k)
  {
  }

  /** The listing read as a map from key to (a projection of) the document with that key,
      a later document overriding an earlier one. */
  function Keyed<V, K(==), W>(rows: seq<V>, key: V -> K, val: V -> W): map<K, W>
  {
    if rows == [] then map[]
    else
      var n := |rows| - 1;
      Keyed(rows[..n], key, val)[key(rows[n]) := val(rows[n])]
  }

  /** The map holds a key exactly when some document has it, and then the last such
      document's value. */
  lemma {:induction false} KeyedLast<V, K, W>(rows: seq<V>, key: V -> K, val: V -> W, k: K)
    ensures k in Keyed(rows, key, val) <==> LastWith(rows, key, k).Some?
    ensures k in Keyed(rows, key, val) ==> Keyed(rows, key, val)[k] == val(rows[LastWith(rows, key, k).value])
  {
    if rows != [] {
      var n := |rows| - 1;
      KeyedLast(rows[..n], key, val, k);
      if key(rows[n]) != k {
        assert LastWith(rows, key, k) == LastWith(rows[..n], key, k);
        if LastWith(rows, key, k).Some? {
          assert rows[..n][LastWith(rows, key, k).value] == rows[LastWith(rows, key, k).value];
        }
      }
    }
  }

  /** Creating a document with a key no document has keeps keys unique and adds it. */
  lemma {:induction false} KeyedAppend<V, K, W>(rows: seq<V>, key: V -> K, val: V -> W, v: V)
    requires UniqueKeys(rows, key) && LastWith(rows, key, key(v)).None?
    ensures UniqueKeys(rows + [v], key)
    ensures Keyed(rows + [v], key, val) == Keyed(rows, key, val)[key(v) := val(v)]
  {
    assert (rows + [v])[..|rows|] == rows;
  }

  /** Updating a document in place, its key unchanged, keeps keys unique and changes the
      value under that key. */
  lemma {:induction false} KeyedReplace<V, K, W>(rows: seq<V>, key: V -> K, val: V -> W, j: nat, v: V)
    requires UniqueKeys(rows, key) && j < |rows| && key(v) == key(rows[j])
    ensures UniqueKeys(rows[j := v], key)
    ensures Keyed(rows[j := v], key, val) == Keyed(rows, key, val)[key(v) := val(v)]
  {
    var n := |rows| - 1;
    var init := rows[..n];
    if j == n {
      assert rows[j := v][..n] == init;
    } else {
      assert rows[j := v][..n] == init[j := v];
      KeyedReplace(init, key, val, j, v);
      var m := Keyed(init, key, val);
      assert key(rows[n]) != key(v);
      assert m[key(v) := val(v)][key(rows[n]) := val(rows[n])]
        == m[key(rows[n]) := val(rows[n])][key(v) := val(v)];
    }
  }

  /** Deleting a document keeps keys unique. */
  lemma {:induction false} UniqueRemove<V, K>(rows: seq<V>, key: V -> K, j: nat)
    requires UniqueKeys(rows, key) && j < |rows|
    ensures UniqueKeys(rows[..j] + rows[j + 1..], key)
  {
    var rest := rows[..j] + rows[j + 1..];
    forall a, b | 0 <= a < b < |rest|
      ensures key(rest[a]) != key(rest[b])
    {
      var ia := if a < j then a else a + 1;
      var ib := if b < j then b else b + 1;
      assert rest[a] == rows[ia] && rest[b] == rows[ib] && ia < ib;
    }
  }

  /** Deleting a document removes its key and leaves every other key's value. */
  lemma {:induction false} KeyedRemove<V, K, W>(rows: seq<V>, key: V -> K, val: V -> W, j: nat)
    requires UniqueKeys(rows, key) && j < |rows|
    ensures Keyed(rows[..j] + rows[j + 1..], key, val) == Keyed(rows, key, val) - {key(rows[j])}
  {
    var n := |rows| - 1;
    if j == n {
      assert rows[..j] + rows[j + 1..] == rows[..n];
      KeyedRemoveLast(rows, key, val);
    } else {
      var init := rows[..n];
      assert UniqueKeys(init, key);
      KeyedRemove(init, key, val, j);
      KeyedRemoveStep(rows, key, val, j);
    }
  }

  /** The step of `KeyedRemove` for a document before the last one. */
  lemma {:induction false} KeyedRemoveStep<V, K, W>(rows: seq<V>, key: V -> K, val: V -> W, j: nat)
    requires UniqueKeys(rows, key) && j < |rows| - 1
    requires var init := rows[..|rows| - 1];
      Keyed(init[..j] + init[j + 1..], key, val) == Keyed(init, key, val) - {key(init[j])}
    ensures Keyed(rows[..j] + rows[j + 1..], key, val) == Keyed(rows, key, val) - {key(rows[j])}
  {
    var n := |rows| - 1;
    var init := rows[..n];
    var rest := rows[..j] + rows[j + 1..];
    var restInit := init[..j] + init[j + 1..];
    assert rest == restInit + [rows[n]] by {
      assert rows[j + 1..] == init[j + 1..] + [rows[n]];
      assert init[..j] == rows[..j];
    }
    assert rest[..|rest| - 1] == restInit && rest[|rest| - 1] == rows[n];
    assert Keyed(rest, key, val) == Keyed(restInit, key, val)[key(rows[n]) := val(rows[n])];
    assert init[j] == rows[j];
    assert key(rows[n]) != key(rows[j]);
    RemoveThenUpdate(Keyed(init, key, val), key(rows[j]), key(rows[n]), val(rows[n]));
  }

  /** Deleting the last document of a listing with unique keys removes its key. */
  lemma {:induction false} KeyedRemoveLast<V, K, W>(rows: seq<V>, key: V -> K, val: V -> W)
    requires UniqueKeys(rows, key) && rows != []
    ensures Keyed(rows[..|rows| - 1], key, val) == Keyed(rows, key, val) - {key(rows[|rows| - 1])}
  {
    var n := |rows| - 1;
    var k := key(rows[n]);
    KeyedLast(rows[..n], key, val, k);
    assert k !in Keyed(rows[..n], key, val);
    var m := Keyed(rows[..n], key, val);
    assert m[k := val(rows[n])] - {k} == m;
  }

  lemma {:induction false} RemoveThenUpdate<K, W>(m: map<K, W>, k: K, k2: K, w: W)
    requires k != k2
    ensures (m - {k})[k2 := w] == m[k2 := w] - {k}
  {
    var left := (m - {k})[k2 := w];
    var right := m[k2 := w] - {k};
    assert left.Keys == right.Keys;
    forall x | x in left.Keys ensures left[x] == right[x] { }
  }
}
