/**
 * Keys: the keys of a map, written one by one into a slice made with the
 * map's length. The order is the map's iteration order, which Go leaves
 * unspecified, so the model picks each next key arbitrarily and promises
 * no order.
 */
module MapKeys {

  /** No element of s occurs twice. */
  predicate Distinct(s: seq<string>)
  {
    forall i, j :: 0 <= i < j < |s| ==> s[i] != s[j]
  }

  method Keys<V>(m: map<string, V>) returns (keys: seq<string>)
    ensures |keys| == |m|
    ensures forall k :: k in m <==> k in keys
    ensures Distinct(keys)
  {
    var a := new string[|m|];
    var rest := m.Keys;
    var i := 0;
    while rest != {}
      invariant i + |rest| == |m|
      invariant rest <= m.Keys
      invariant forall k :: k in m.Keys ==> (k in a[..i] <==> k !in rest)
      invariant forall k :: k in a[..i] ==> k in m.Keys
      invariant Distinct(a[..i])
      decreases |rest|
    {
      var k :| k in rest;
      a[i] := k;
      assert a[..i + 1] == a[..i] + [k];
      rest := rest - {k};
      i := i + 1;
    }
    assert |m.Keys| == |m|;
    keys := a[..];
    assert a[..] == a[..i];
  }
}
