/** Two ways to recognise a map from what it maps. */
module MapFacts {

  lemma MapUpdated<K, V>(m: map<K, V>, m': map<K, V>, key: K, value: V)
    requires key in m' && m'[key] == value
    requires forall k :: k in m' <==> k in m || k == key
    requires forall k :: k in m && k != key ==> m'[k] == m[k]
    ensures m' == m[key := value]
  {}

  lemma MapRemoved<K, V>(m: map<K, V>, m': map<K, V>, key: K)
    requires forall k :: k in m' <==> k in m && k != key
    requires forall k :: k in m' ==> m'[k] == m[k]
    ensures m' == m - {key}
  {}
}
