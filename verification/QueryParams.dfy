/**
 * Query strings: collapsing the item list of a URL into a dictionary of single and repeated values
 * (`_collect_query_params`), and writing the dictionary back as items (`_set_request_query_params`).
 * A dictionary is the sequence of its entries in insertion order.
 */
module QueryParams {

  datatype Item = Item(key: string, value: string)

  datatype Values = One(value: string) | Many(values: seq<string>)

  datatype Param = Param(key: string, values: Values)

  function AsList(v: Values): seq<string> {
    match v
    case One(value) => [value]
    case Many(values) => values
  }

  ghost predicate DistinctKeys(params: seq<Param>) {
    forall i, j :: 0 <= i < j < |params| ==> params[i].key != params[j].key
  }

  /** One more value for a key: a second value turns a single one into a list. */
  function Add(params: seq<Param>, item: Item): seq<Param> {
    if params == [] then [Param(item.key, One(item.value))]
    else if params[0].key == item.key then [Param(item.key, Many(AsList(params[0].values) + [item.value]))] + params[1..]
    else [params[0]] + Add(params[1..], item)
  }

  function Collected(items: seq<Item>): seq<Param> {
    if items == [] then [] else Add(Collected(items[..|items| - 1]), items[|items| - 1])
  }

  /** `_collect_query_params`. */
  method Collect(items: seq<Item>) returns (params: seq<Param>)
    ensures params == Collected(items)
  {
    params := [];
    for i := 0 to |items|
      invariant params == Collected(items[..i])
    {
      assert items[..i + 1][..i] == items[..i];
      params := Add(params, items[i]);
    }
    assert items[..|items|] == items;
  }

  function ItemsOf(key: string, values: seq<string>): seq<Item> {
    seq(|values|, i requires 0 <= i < |values| => Item(key, values[i]))
  }

  function Encoded(params: seq<Param>): seq<Item> {
    if params == [] then [] else Encoded(params[..|params| - 1]) + ItemsOf(params[|params| - 1].key, AsList(params[|params| - 1].values))
  }

  /** The item list `_set_request_query_params` encodes. */
  method Encode(params: seq<Param>) returns (items: seq<Item>)
    ensures items == Encoded(params)
  {
    items := [];
    for i := 0 to |params|
      invariant items == Encoded(params[..i])
    {
      assert params[..i + 1][..i] == params[..i];
      match params[i].values
      case Many(values) => items := items + ItemsOf(params[i].key, values);
      case One(value) =>
        assert ItemsOf(params[i].key, [value]) == [Item(params[i].key, value)];
        items := items + [Item(params[i].key, value)];
    }
    assert params[..|params|] == params;
  }

  // ----- Meaning -----

  /** The ordered values of a key in an item list: what a handler sees. */
  function ValuesIn(items: seq<Item>, key: string): seq<string> {
    if items == [] then []
    else
      var front := ValuesIn(items[..|items| - 1], key);
      if items[|items| - 1].key == key then front + [items[|items| - 1].value] else front
  }

  /** The ordered values of a key in a dictionary. */
  function Lookup(params: seq<Param>, key: string): seq<string> {
    if params == [] then []
    else if params[0].key == key then AsList(params[0].values)
    else Lookup(params[1..], key)
  }

  lemma {:induction false} AddAppends(params: seq<Param>, item: Item, key: string)
    ensures Lookup(Add(params, item), key) == if key == item.key then Lookup(params, key) + [item.value] else Lookup(params, key)
  {
    if params != [] {
      AddAppends(params[1..], item, key);
      assert ([params[0]] + Add(params[1..], item))[1..] == Add(params[1..], item);
    }
  }

  lemma {:induction false} AddKeepsDistinct(params: seq<Param>, item: Item)
    requires DistinctKeys(params)
    ensures DistinctKeys(Add(params, item))
    ensures forall p :: p in Add(params, item) ==> p.key == item.key || exists q :: q in params && q.key == p.key
  {
    if params != [] && params[0].key != item.key {
      AddKeepsDistinct(params[1..], item);
    }
  }

  /** Collapsing keeps every key's ordered values. */
  lemma {:induction false} CollectKeepsValues(items: seq<Item>, key: string)
    ensures Lookup(Collected(items), key) == ValuesIn(items, key) && DistinctKeys(Collected(items))
  {
    if items != [] {
      CollectKeepsValues(items[..|items| - 1], key);
      AddAppends(Collected(items[..|items| - 1]), items[|items| - 1], key);
      AddKeepsDistinct(Collected(items[..|items| - 1]), items[|items| - 1]);
    }
  }

  lemma {:induction false} ValuesInSum(a: seq<Item>, b: seq<Item>, key: string)
    ensures ValuesIn(a + b, key) == ValuesIn(a, key) + ValuesIn(b, key)
  {
    if b == [] {
      assert a + b == a;
    } else {
      var front := b[..|b| - 1];
      ValuesInSum(a, front, key);
      assert (a + b)[..|a + b| - 1] == a + front;
    }
  }

  lemma {:induction false} ValuesOfOneKey(key: string, values: seq<string>, k: string)
    ensures ValuesIn(ItemsOf(key, values), k) == if k == key then values else []
  {
    if values != [] {
      var front := values[..|values| - 1];
      ValuesOfOneKey(key, front, k);
      assert ItemsOf(key, values)[..|values| - 1] == ItemsOf(key, front);
      assert front + [values[|values| - 1]] == values;
    }
  }

  lemma {:induction false} LookupAtEnd(params: seq<Param>, last: Param, key: string)
    requires DistinctKeys(params + [last])
    ensures Lookup(params + [last], key) == if last.key == key then AsList(last.values) else Lookup(params, key)
  {
    if params != [] {
      assert (params + [last])[1..] == params[1..] + [last];
      LookupAtEnd(params[1..], last, key);
      assert (params + [last])[0].key != (params + [last])[|params|].key;
    }
  }

  lemma {:induction false} AbsentKeyHasNoValues(params: seq<Param>, key: string)
    requires forall p :: p in params ==> p.key != key
    ensures Lookup(params, key) == []
  {
    if params != [] { AbsentKeyHasNoValues(params[1..], key); }
  }

  /** Encoding a dictionary keeps every key's ordered values. */
  lemma {:induction false} EncodeKeepsValues(params: seq<Param>, key: string)
    requires DistinctKeys(params)
    ensures ValuesIn(Encoded(params), key) == Lookup(params, key)
  {
    if params != [] {
      var front, last := params[..|params| - 1], params[|params| - 1];
      EncodeKeepsValues(front, key);
      ValuesInSum(Encoded(front), ItemsOf(last.key, AsList(last.values)), key);
      ValuesOfOneKey(last.key, AsList(last.values), key);
      assert front + [last] == params;
      LookupAtEnd(front, last, key);
      if last.key == key {
        AbsentKeyHasNoValues(front, key);
      }
    }
  }

  /** Collapsing a query and writing it back preserves each key's ordered list of values. */
  lemma QueryRoundTrip(items: seq<Item>, key: string)
    ensures ValuesIn(Encoded(Collected(items)), key) == ValuesIn(items, key)
  {
    CollectKeepsValues(items, key);
    EncodeKeepsValues(Collected(items), key);
  }

  /** A key whose list has become empty is gone from the encoded query: no value of it remains. */
  lemma EmptyListDisappears(params: seq<Param>, p: Param)
    requires DistinctKeys(params) && p in params
    ensures (exists item :: item in Encoded(params) && item.key == p.key) <==> AsList(p.values) != []
  {
    EncodeKeepsValues(params, p.key);
    LookupFinds(params, p);
    SomeValueIffSomeItem(Encoded(params), p.key);
  }

  lemma {:induction false} LookupFinds(params: seq<Param>, p: Param)
    requires DistinctKeys(params) && p in params
    ensures Lookup(params, p.key) == AsList(p.values)
  {
    if params[0].key == p.key {
      var i :| 0 <= i < |params| && params[i] == p;
      assert i == 0;
    } else {
      LookupFinds(params[1..], p);
    }
  }

  lemma {:induction false} SomeValueIffSomeItem(items: seq<Item>, key: string)
    ensures ValuesIn(items, key) != [] <==> exists item :: item in items && item.key == key
  {
    if items != [] {
      var front, last := items[..|items| - 1], items[|items| - 1];
      SomeValueIffSomeItem(front, key);
      assert items == front + [last];
    }
  }
}
