/** Finite maps stored under encoded keys and values. */
module Images {

  ghost function Image<K(!new), B(!new)>(key: K -> B, ks: set<K>): set<B> {
    set k | k in ks :: key(k)
  }

  ghost predicate Injective<K(!new), B(!new)>(key: K -> B) {
    forall a, b :: key(a) == key(b) ==> a == b
  }

  /** db holds exactly the encoded entries of m. */
  ghost predicate MirrorsVia<K(!new), V(!new), B(!new)>(db: map<B, B>, m: map<K, V>, key: K -> B, val: V -> B) {
    && db.Keys == Image(key, m.Keys)
    && forall k :: k in m ==> key(k) in db && db[key(k)] == val(m[k])
  }

  lemma MirrorPut<K(!new), V(!new), B(!new)>(db: map<B, B>, m: map<K, V>, key: K -> B, val: V -> B, k: K, v: V)
    requires MirrorsVia(db, m, key, val) && Injective(key)
    ensures MirrorsVia(db[key(k) := val(v)], m[k := v], key, val)
  {
    assert m[k := v].Keys == m.Keys + {k};
  }

  lemma ImageMinus<K(!new), B(!new)>(key: K -> B, ks: set<K>, gone: set<K>)
    requires Injective(key)
    ensures Image(key, ks - gone) == Image(key, ks) - Image(key, gone)
  {
  }

  lemma MirrorDrop<K(!new), V(!new), B(!new)>(db: map<B, B>, m: map<K, V>, key: K -> B, val: V -> B, gone: set<K>)
    requires MirrorsVia(db, m, key, val) && Injective(key)
    ensures MirrorsVia(db - Image(key, gone), m - gone, key, val)
  {
    ImageMinus(key, m.Keys, gone);
    assert (m - gone).Keys == m.Keys - gone;
    forall k | k in m - gone ensures key(k) in db - Image(key, gone) {
      assert key(k) !in Image(key, gone);
    }
  }
}
