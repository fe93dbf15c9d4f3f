/**
 The cache as a list of items, most recently used first. Keys are what get and put decide by; a put on a key that is
 present moves its node to the front and leaves the stored value alone.
 */
module LruSpec {
  datatype Item = Item(key: int, val: int)

  datatype Op = Get(key: int) | Put(key: int, val: int)

  function Keys(items: seq<Item>): seq<int> {
    seq(|items|, i requires 0 <= i < |items| => items[i].key)
  }

  ghost predicate Distinct(keys: seq<int>) {
    forall i, j :: 0 <= i < j < |keys| ==> keys[i] != keys[j]
  }

  /** The position of the item of that key, or the length of the list. */
  function Find(items: seq<Item>, key: int): (i: nat)
    ensures i <= |items|
    ensures i < |items| ==> items[i].key == key
    ensures forall j :: 0 <= j < i ==> items[j].key != key
  {
    if items == [] || items[0].key == key then 0 else 1 + Find(items[1..], key)
  }

  predicate Has(items: seq<Item>, key: int) {
    Find(items, key) < |items|
  }

  function ToFront<T>(s: seq<T>, i: nat): seq<T>
    requires i < |s|
  {
    [s[i]] + (s[..i] + s[i + 1..])
  }

  lemma {:induction false} ToFrontMembers<T>(s: seq<T>, i: nat)
    requires i < |s|
    ensures forall x :: x in ToFront(s, i) <==> x in s
  {
    assert s == s[..i] + [s[i]] + s[i + 1..];
  }

  function GetItems(items: seq<Item>, key: int): seq<Item> {
    if Has(items, key) then ToFront(items, Find(items, key)) else items
  }

  function GetValue(items: seq<Item>, key: int): int {
    if Has(items, key) then items[Find(items, key)].val else -1
  }

  function PutItems(items: seq<Item>, capacity: nat, key: int, val: int): seq<Item>
    requires capacity >= 1
  {
    if Has(items, key) then
      ToFront(items, Find(items, key))
    else if |items| >= capacity then
      if items == [] then [Item(key, val)] else [Item(key, val)] + items[..|items| - 1]
    else
      [Item(key, val)] + items
  }

  function Apply(items: seq<Item>, capacity: nat, op: Op): seq<Item>
    requires capacity >= 1
  {
    match op
    case Get(key) => GetItems(items, key)
    case Put(key, val) => PutItems(items, capacity, key, val)
  }

  function Run(capacity: nat, ops: seq<Op>): seq<Item>
    requires capacity >= 1
  {
    if ops == [] then [] else Apply(Run(capacity, ops[..|ops| - 1]), capacity, ops[|ops| - 1])
  }
}
