/** Grouping a list by key, in order of first occurrence, as a dictionary of lists does. */
module Grouping {
  import opened Lists

  /** An entry of a dictionary; a dictionary is the list of its entries in order of insertion. */
  datatype Slot<V> = Slot(key: string, value: V)

  type Group<T> = Slot<seq<T>>

  function Keys<V>(slots: seq<Slot<V>>): (r: seq<string>)
    ensures |r| == |slots|
    ensures forall i :: 0 <= i < |r| ==> r[i] == slots[i].key
  {
    seq(|slots|, i requires 0 <= i < |slots| => slots[i].key)
  }

  /** The position of a key, or the number of entries. */
  function Find<V>(slots: seq<Slot<V>>, key: string): (i: nat)
    ensures i <= |slots| && (i < |slots| ==> slots[i].key == key)
    ensures forall k :: 0 <= k < i ==> slots[k].key != key
  {
    if |slots| == 0 || slots[0].key == key then 0 else 1 + Find(slots[1..], key)
  }

  function Insert<T>(groups: seq<Group<T>>, key: string, x: T): seq<Group<T>>
  {
    var i := Find(groups, key);
    if i < |groups| then groups[i := Slot(key, groups[i].value + [x])]
    else groups + [Slot(key, [x])]
  }

  function GroupBy<T>(items: seq<T>, keyOf: T -> string): seq<Group<T>>
  {
    if |items| == 0 then []
    else Insert(GroupBy(items[..|items| - 1], keyOf), keyOf(items[|items| - 1]), items[|items| - 1])
  }

  /** The items with a given key, in order. */
  function WithKey<T>(items: seq<T>, keyOf: T -> string, key: string): seq<T>
  {
    if |items| == 0 then []
    else
      var front, last := WithKey(items[..|items| - 1], keyOf, key), items[|items| - 1];
      if keyOf(last) == key then front + [last] else front
  }

  lemma {:induction false} WithKeyItems<T(!new)>(items: seq<T>, keyOf: T -> string, key: string)
    ensures forall x :: x in WithKey(items, keyOf, key) <==> x in items && keyOf(x) == key
  {
    if |items| > 0 {
      var front, last := items[..|items| - 1], items[|items| - 1];
      WithKeyItems(front, keyOf, key);
      assert items == front + [last];
    }
  }

  /** The positions of the items with a key, in order. */
  ghost predicate PositionsOf<T(!new)>(items: seq<T>, keyOf: T -> string, key: string, at: seq<nat>)
  {
    && |at| == |WithKey(items, keyOf, key)|
    && (forall k :: 0 <= k < |at| ==> at[k] < |items| && items[at[k]] == WithKey(items, keyOf, key)[k])
    && (forall k, l :: 0 <= k < l < |at| ==> at[k] < at[l])
    && (forall i :: 0 <= i < |items| && keyOf(items[i]) == key ==> i in at)
  }

  lemma PositionsSnoc<T(!new)>(items: seq<T>, keyOf: T -> string, key: string, x: T, at: seq<nat>)
    requires PositionsOf(items, keyOf, key, at)
    ensures PositionsOf(items + [x], keyOf, key, if keyOf(x) == key then at + [|items|] else at)
  {
    var all, at' := items + [x], if keyOf(x) == key then at + [|items|] else at;
    WithKeySnoc(items, keyOf, x, key);
    forall i | 0 <= i < |all| && keyOf(all[i]) == key ensures i in at' {
      if i < |items| { assert keyOf(items[i]) == key; } else { assert at'[|at|] == i; }
    }
  }

  lemma {:induction false} WithKeyPositions<T(!new)>(items: seq<T>, keyOf: T -> string, key: string)
    returns (at: seq<nat>)
    ensures PositionsOf(items, keyOf, key, at)
  {
    if |items| == 0 {
      at := [];
    } else {
      var front, last := items[..|items| - 1], items[|items| - 1];
      at := WithKeyPositions(front, keyOf, key);
      PositionsSnoc(front, keyOf, key, last, at);
      assert front + [last] == items;
      at := if keyOf(last) == key then at + [|front|] else at;
    }
  }

  /** Groups have distinct keys, hold exactly the items of their key, and miss none. */
  ghost predicate Partitions<T>(items: seq<T>, keyOf: T -> string, groups: seq<Group<T>>)
  {
    && NoDuplicates(Keys(groups))
    && (forall g :: 0 <= g < |groups| ==>
        |groups[g].value| > 0 && groups[g].value == WithKey(items, keyOf, groups[g].key))
    && (forall i :: 0 <= i < |items| ==> keyOf(items[i]) in Keys(groups))
  }

  lemma {:induction false} GroupByPartitions<T>(items: seq<T>, keyOf: T -> string)
    ensures Partitions(items, keyOf, GroupBy(items, keyOf))
  {
    if |items| > 0 {
      var front, last := items[..|items| - 1], items[|items| - 1];
      GroupByPartitions(front, keyOf);
      InsertPartitions(front, GroupBy(front, keyOf), keyOf, last);
      assert items == front + [last];
    }
  }

  lemma InsertPartitions<T>(items: seq<T>, groups: seq<Group<T>>, keyOf: T -> string, x: T)
    requires Partitions(items, keyOf, groups)
    ensures Partitions(items + [x], keyOf, Insert(groups, keyOf(x), x))
  {
    var key, after := keyOf(x), Insert(groups, keyOf(x), x);
    InsertKeys(groups, key, x);
    forall g | 0 <= g < |after|
      ensures |after[g].value| > 0 && after[g].value == WithKey(items + [x], keyOf, after[g].key)
    {
      WithKeySnoc(items, keyOf, x, after[g].key);
      if Find(groups, key) == |groups| { NewKeyHasNoItems(items, keyOf, groups, key); }
      if after[g].key == key { assert Keys(after)[g] == Keys(after)[Find(groups, key)]; }
    }
    forall i | 0 <= i < |items + [x]| ensures keyOf((items + [x])[i]) in Keys(after) {
      if i < |items| { assert keyOf(items[i]) in Keys(groups); }
    }
  }

  /** Insertion keeps the keys and makes sure that the given one is among them, once. */
  lemma InsertKeys<T>(groups: seq<Group<T>>, key: string, x: T)
    requires NoDuplicates(Keys(groups))
    ensures var after := Insert(groups, key, x);
            && NoDuplicates(Keys(after)) && Find(groups, key) < |after| && Keys(after)[Find(groups, key)] == key
            && (forall k :: k in Keys(groups) ==> k in Keys(after))
  {
    var after, i := Insert(groups, key, x), Find(groups, key);
    if i < |groups| {
      assert Keys(after) == Keys(groups);
    } else {
      assert Keys(after) == Keys(groups) + [key];
      assert forall k :: 0 <= k < |groups| ==> Keys(groups)[k] != key;
    }
  }

  lemma WithKeySnoc<T>(items: seq<T>, keyOf: T -> string, x: T, key: string)
    ensures WithKey(items + [x], keyOf, key) ==
            if keyOf(x) == key then WithKey(items, keyOf, key) + [x] else WithKey(items, keyOf, key)
  {
    assert (items + [x])[..|items|] == items;
  }

  function KeysOf<T>(items: seq<T>, keyOf: T -> string): (r: seq<string>)
    ensures |r| == |items| && forall i :: 0 <= i < |r| ==> r[i] == keyOf(items[i])
  {
    seq(|items|, i requires 0 <= i < |items| => keyOf(items[i]))
  }

  /** The groups stand in the order in which their keys first occur. */
  lemma {:induction false} GroupsInOrder<T>(items: seq<T>, keyOf: T -> string)
    ensures Keys(GroupBy(items, keyOf)) == Unique(KeysOf(items, keyOf))
  {
    if |items| > 0 {
      var front, last := items[..|items| - 1], items[|items| - 1];
      GroupsInOrder(front, keyOf);
      GroupByPartitions(front, keyOf);
      InsertedKeys(GroupBy(front, keyOf), keyOf(last), last);
      assert KeysOf(items, keyOf)[..|front|] == KeysOf(front, keyOf);
    }
  }

  lemma InsertedKeys<T>(groups: seq<Group<T>>, key: string, x: T)
    ensures Keys(Insert(groups, key, x)) == if key in Keys(groups) then Keys(groups) else Keys(groups) + [key]
  {
    var i := Find(groups, key);
    if i == |groups| {
      assert forall k :: 0 <= k < |groups| ==> Keys(groups)[k] != key;
    } else {
      assert Keys(groups)[i] == key;
    }
  }

  lemma NewKeyHasNoItems<T>(items: seq<T>, keyOf: T -> string, groups: seq<Group<T>>, key: string)
    requires Partitions(items, keyOf, groups) && Find(groups, key) == |groups|
    ensures WithKey(items, keyOf, key) == []
  {
    assert key !in Keys(groups);
    NoItems(items, keyOf, key);
  }

  lemma {:induction false} NoItems<T>(items: seq<T>, keyOf: T -> string, key: string)
    requires forall i :: 0 <= i < |items| ==> keyOf(items[i]) != key
    ensures WithKey(items, keyOf, key) == []
  {
    if |items| > 0 { NoItems(items[..|items| - 1], keyOf, key); }
  }
}
