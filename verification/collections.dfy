/** Options, and Python dictionaries built by a comprehension (the last pair of a key wins). */
module Collections {

  datatype Option<+T> = None | Some(value: T)

  lemma Associative<T>(a: seq<T>, b: seq<T>, c: seq<T>)
    ensures (a + b) + c == a + (b + c)
  {
  }

  /** `dict.get` */
  function Lookup<K, V>(m: map<K, V>, k: K): Option<V> {
    if k in m then Some(m[k]) else None
  }

  /** A dict comprehension over pairs: a later pair replaces an earlier one of the same key. */
  function LastWins<K, V>(pairs: seq<(K, V)>): map<K, V> {
    if pairs == [] then map[]
    else
      var last := pairs[|pairs| - 1];
      LastWins(pairs[..|pairs| - 1])[last.0 := last.1]
  }

  /** A key is present exactly when some pair names it, with the value of the last such pair. */
  lemma {:induction false} LastWinsIsLast<K, V>(pairs: seq<(K, V)>, k: K, v: V)
    ensures Lookup(LastWins(pairs), k) == Some(v) <==>
            exists i :: 0 <= i < |pairs| && pairs[i] == (k, v)
                        && forall j :: i < j < |pairs| ==> pairs[j].0 != k
  {
    if pairs != [] {
      var n := |pairs| - 1;
      var init := pairs[..n];
      LastWinsIsLast(init, k, v);
      assert forall i :: 0 <= i < n ==> init[i] == pairs[i];
      assert Lookup(LastWins(pairs), k) == if pairs[n].0 == k then Some(pairs[n].1) else Lookup(LastWins(init), k);
    }
  }

  /** The keys present are those some pair names. */
  lemma {:induction false} LastWinsKeys<K, V>(pairs: seq<(K, V)>, k: K)
    ensures k in LastWins(pairs) <==> exists i :: 0 <= i < |pairs| && pairs[i].0 == k
  {
    if pairs != [] {
      var n := |pairs| - 1;
      LastWinsKeys(pairs[..n], k);
      assert forall i :: 0 <= i < n ==> pairs[..n][i] == pairs[i];
    }
  }
}
