/** Facts about map updates that the stores and the archive rely on. */
module Maps {

  /** Updating a key twice keeps only the later value. */
  lemma UpdateTwice<K, V>(m: map<K, V>, k: K, a: V, b: V)
    ensures m[k := a][k := b] == m[k := b]
  {
    assert m[k := a][k := b].Keys == m[k := b].Keys;
  }

  /** Removing a key forgets whatever it was updated to before. */
  lemma UpdatesThenRemove<K, V>(m: map<K, V>, k: K, a: V, b: V)
    ensures m[k := a][k := b] - {k} == m - {k}
  {
    assert (m[k := a][k := b] - {k}).Keys == (m - {k}).Keys;
  }

  /** Writing two keys and then removing both leaves the map without them, whatever was written. */
  lemma WriteTwoThenRemove<K, V>(m: map<K, V>, j: K, k: K, a: V, b: V)
    ensures m[j := a][k := b] - {j} - {k} == m - {j, k}
  {
    assert (m[j := a][k := b] - {j} - {k}).Keys == (m - {j, k}).Keys;
  }
}
