/** The order in which Go visits the keys of a map: any. */
module Orders {

  /** `order` visits each key once. */
  ghost predicate Enumerates(order: seq<string>, keys: set<string>) {
    && (forall k :: k in order <==> k in keys)
    && (forall i, j :: 0 <= i < j < |order| ==> order[i] != order[j])
  }

  lemma {:induction false} SomeOrder(keys: set<string>) returns (order: seq<string>)
    ensures Enumerates(order, keys)
    decreases keys
  {
    order := [];
    if keys != {} {
      var k :| k in keys;
      var rest := SomeOrder(keys - {k});
      order := rest + [k];
      assert forall i :: 0 <= i < |rest| ==> rest[i] in rest;
    }
  }

  /** Any key can come first. */
  lemma OrderFrom(keys: set<string>, first: string) returns (order: seq<string>)
    requires first in keys
    ensures Enumerates(order, keys) && order[0] == first
  {
    var rest := SomeOrder(keys - {first});
    order := [first] + rest;
    assert forall i :: 0 <= i < |rest| ==> rest[i] in rest;
  }

  /** An order is as long as there are keys. */
  lemma {:induction false} OrderLength(order: seq<string>, keys: set<string>)
    requires Enumerates(order, keys)
    ensures |order| == |keys|
  {
    if |order| > 0 {
      var n := |order| - 1;
      assert order == order[..n] + [order[n]];
      assert order[n] in order;
      OrderLength(order[..n], keys - {order[n]});
    } else {
      assert keys == {} by {
        assert forall k :: k in keys ==> k in order;
      }
    }
  }
}
