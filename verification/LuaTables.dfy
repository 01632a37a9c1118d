/** Exactly which table constructors are data, and what value they are. */
module LuaTables {
  import opened Options
  import opened LuaValue
  import opened Sets

  /** How many of the fields take their index from their place. */
  function Placed(fields: seq<Field>): nat {
    if fields == [] then 0 else Placed(fields[..|fields| - 1]) + (if fields[|fields| - 1].key.Placed? then 1 else 0)
  }

  /** The key of the i-th field: its own, or the number of placed fields up to it. */
  function KeyAt(fields: seq<Field>, i: nat): Option<Value>
    requires i < |fields|
  {
    KeyOf(fields[i].key, Placed(fields[..i + 1]))
  }

  ghost predicate AllStrings(keys: seq<Value>) {
    forall i | 0 <= i < |keys| :: keys[i].Str?
  }

  ghost predicate AllIndices(keys: seq<Value>) {
    forall i | 0 <= i < |keys| :: keys[i].Int? && keys[i].number > 0
  }

  ghost predicate AllDifferent(keys: seq<Value>) {
    forall i, j | 0 <= i < j < |keys| :: keys[i] != keys[j]
  }

  /** Strings only or positive integers only, and none twice. */
  ghost predicate Uniform(keys: seq<Value>) {
    AllDifferent(keys) && (AllStrings(keys) || AllIndices(keys))
  }

  ghost predicate NamedBy(named: seq<(string, Value)>, keys: seq<Value>, items: seq<Value>) {
    && |named| == |keys| == |items|
    && forall i | 0 <= i < |keys| :: keys[i].Str? && named[i] == (keys[i].text, items[i])
  }

  ghost predicate IndexedBy(indexed: map<nat, Value>, keys: seq<Value>, items: seq<Value>) {
    && |keys| == |items| == |indexed| && AllIndices(keys)
    && (forall i | 0 <= i < |keys| :: keys[i].number in indexed && indexed[keys[i].number] == items[i])
    && (forall k | k in indexed :: Int(k) in keys)
  }

  /** The table built from these keys and items so far. */
  ghost predicate Built(b: Building, keys: seq<Value>, items: seq<Value>) {
    Uniform(keys)
    && if keys == [] then items == [] && b.named == [] && b.indexed == map[]
       else if keys[0].Str? then b.indexed == map[] && NamedBy(b.named, keys, items)
       else b.named == [] && IndexedBy(b.indexed, keys, items)
  }

  // ----- One field more

  lemma UniformMore(keys: seq<Value>, key: Value)
    ensures Uniform(keys + [key]) <==>
              Uniform(keys) && key !in keys
              && (if key.Str? then AllStrings(keys) else key.Int? && key.number > 0 && AllIndices(keys))
  {
    var more := keys + [key];
    assert forall i | 0 <= i < |keys| :: more[i] == keys[i];
    assert more[|keys|] == key;
    assert key in keys <==> exists i | 0 <= i < |keys| :: keys[i] == key;
  }

  lemma StringInserted(b: Building, keys: seq<Value>, items: seq<Value>, key: Value, item: Value)
    requires Built(b, keys, items) && key.Str?
    ensures Insert(b, key, item).Some? <==> Uniform(keys + [key])
    ensures Insert(b, key, item).Some? ==>
              Insert(b, key, item).value.implicit == b.implicit
              && Built(Insert(b, key, item).value, keys + [key], items + [item])
  {
    UniformMore(keys, key);
    if keys != [] && !keys[0].Str? {
      assert keys[0].number in b.indexed;
    } else {
      KeyTaken(b.named, keys, items, key);
    }
  }

  lemma KeyTaken(named: seq<(string, Value)>, keys: seq<Value>, items: seq<Value>, key: Value)
    requires NamedBy(named, keys, items) && key.Str?
    ensures HasKey(named, key.text) <==> key in keys
  {
    if key in keys {
      var i :| 0 <= i < |keys| && keys[i] == key;
      assert named[i].0 == key.text;
    }
    if HasKey(named, key.text) {
      var i :| 0 <= i < |named| && named[i].0 == key.text;
      assert keys[i] == key;
    }
  }

  lemma IndexInserted(b: Building, keys: seq<Value>, items: seq<Value>, key: Value, item: Value)
    requires Built(b, keys, items) && !key.Str?
    ensures Insert(b, key, item).Some? <==> Uniform(keys + [key])
    ensures Insert(b, key, item).Some? ==>
              Insert(b, key, item).value.implicit == b.implicit
              && Built(Insert(b, key, item).value, keys + [key], items + [item])
  {
    UniformMore(keys, key);
    if keys != [] && keys[0].Str? {
      assert b.named != [];
    } else {
      assert IndexedBy(b.indexed, keys, items);
      if key.Int? && key.number > 0 {
        assert key in keys <==> key.number in b.indexed;
        if key.number !in b.indexed {
          IndexedMore(b.indexed, keys, items, key, item);
        }
      }
    }
  }

  lemma OneMore(indexed: map<nat, Value>, k: nat, item: Value)
    requires k !in indexed
    ensures |indexed[k := item]| == |indexed| + 1
  {
    assert indexed[k := item].Keys == indexed.Keys + {k};
    assert |indexed[k := item].Keys| == |indexed.Keys| + 1;
  }

  lemma IndexedMore(indexed: map<nat, Value>, keys: seq<Value>, items: seq<Value>, key: Value, item: Value)
    requires IndexedBy(indexed, keys, items) && key.Int? && key.number > 0 && key.number !in indexed
    ensures IndexedBy(indexed[key.number := item], keys + [key], items + [item])
  {
    var more := indexed[key.number := item];
    OneMore(indexed, key.number, item);
    assert (keys + [key])[|keys|] == key;
    forall k | k in more ensures Int(k) in keys + [key] {
      if k != key.number {
        assert Int(k) in keys;
      }
    }
  }

  lemma Inserted(b: Building, keys: seq<Value>, items: seq<Value>, key: Value, item: Value)
    requires Built(b, keys, items)
    ensures Insert(b, key, item).Some? <==> Uniform(keys + [key])
    ensures Insert(b, key, item).Some? ==>
              Insert(b, key, item).value.implicit == b.implicit
              && Built(Insert(b, key, item).value, keys + [key], items + [item])
  {
    if key.Str? {
      StringInserted(b, keys, items, key, item);
    } else {
      IndexInserted(b, keys, items, key, item);
    }
  }

  // ----- The whole constructor

  /** The keys and items of all fields can be read. */
  ghost predicate Readable(fields: seq<Field>, depth: nat, keys: seq<Value>, items: seq<Value>) {
    && |keys| == |items| == |fields|
    && forall i | 0 <= i < |fields| :: KeyAt(fields, i) == Some(keys[i]) && ItemOf(fields[i], depth) == Some(items[i])
  }

  lemma UniformPrefix(keys: seq<Value>, n: nat)
    requires n <= |keys| && Uniform(keys)
    ensures Uniform(keys[..n])
  {}

  /** One step of the loop over the fields. */
  lemma AssembledStep(fields: seq<Field>, depth: nat, n: nat, b: Building, key: Value, item: Value)
    requires n < |fields| && b.implicit == Placed(fields[..n])
    requires KeyAt(fields, n) == Some(key) && ItemOf(fields[n], depth) == Some(item)
    ensures var counted := b.(implicit := Placed(fields[..n + 1]));
            var next := Insert(counted, key, item);
            Assembled(fields[n..], depth, b)
            == if next.None? then None else Assembled(fields[n + 1..], depth, next.value)
  {
    assert fields[n..][1..] == fields[n + 1..];
    PlacedMore(fields, n);
  }

  lemma PlacedMore(fields: seq<Field>, n: nat)
    requires n < |fields|
    ensures Placed(fields[..n + 1]) == Placed(fields[..n]) + (if fields[n].key.Placed? then 1 else 0)
  {
    assert fields[..n + 1][..n] == fields[..n];
  }

  lemma {:induction false} AssembledExactly(fields: seq<Field>, depth: nat, keys: seq<Value>, items: seq<Value>, n: nat,
                                            b: Building)
    requires Readable(fields, depth, keys, items) && n <= |fields|
    requires Built(b, keys[..n], items[..n]) && b.implicit == Placed(fields[..n])
    ensures var r := Assembled(fields[n..], depth, b);
            (r.Some? <==> Uniform(keys)) && (r.Some? ==> Built(r.value, keys, items))
    decreases |fields| - n
  {
    if n == |fields| {
      assert fields[n..] == [] && keys[..n] == keys && items[..n] == items;
    } else {
      var counted := b.(implicit := Placed(fields[..n + 1]));
      var next := Insert(counted, keys[n], items[n]);
      AssembledStep(fields, depth, n, b, keys[n], items[n]);
      BuiltMore(counted, keys, items, n);
      if next.Some? {
        AssembledExactly(fields, depth, keys, items, n + 1, next.value);
      }
    }
  }

  lemma BuiltMore(b: Building, keys: seq<Value>, items: seq<Value>, n: nat)
    requires n < |keys| == |items| && Built(b, keys[..n], items[..n])
    ensures var next := Insert(b, keys[n], items[n]);
            && (next.None? ==> !Uniform(keys))
            && (next.Some? ==> next.value.implicit == b.implicit && Built(next.value, keys[..n + 1], items[..n + 1]))
  {
    Inserted(b, keys[..n], items[..n], keys[n], items[n]);
    assert keys[..n] + [keys[n]] == keys[..n + 1] && items[..n] + [items[n]] == items[..n + 1];
    if Uniform(keys) {
      UniformPrefix(keys, n + 1);
    }
  }

  /** A key or an item that cannot be read makes the whole table unreadable. */
  lemma {:induction false} UnreadableRefused(fields: seq<Field>, depth: nat, n: nat, i: nat, b: Building)
    requires n <= i < |fields| && b.implicit == Placed(fields[..n])
    requires KeyAt(fields, i).None? || ItemOf(fields[i], depth).None?
    ensures Assembled(fields[n..], depth, b).None?
    decreases i - n
  {
    assert fields[n..][1..] == fields[n + 1..];
    PlacedMore(fields, n);
    if n < i && KeyAt(fields, n).Some? && ItemOf(fields[n], depth).Some? {
      var counted := b.(implicit := Placed(fields[..n + 1]));
      var next := Insert(counted, KeyAt(fields, n).value, ItemOf(fields[n], depth).value);
      if next.Some? {
        UnreadableRefused(fields, depth, n + 1, i, next.value);
      }
    }
  }

  ghost predicate Consecutive(keys: seq<Value>) {
    AllIndices(keys) && forall i | 0 <= i < |keys| :: keys[i].number <= |keys|
  }

  /** That many different positive integers cover an interval from one exactly when none lies beyond it. */
  lemma CoversExactly(indexed: map<nat, Value>, keys: seq<Value>, items: seq<Value>)
    requires IndexedBy(indexed, keys, items)
    ensures (forall k | 1 <= k <= |indexed| :: k in indexed) <==> Consecutive(keys)
  {
    var n := |indexed|;
    UpToFacts(n);
    if forall k | 1 <= k <= n :: k in indexed {
      assert UpTo(n) <= indexed.Keys;
      SubsetOfSameSize(UpTo(n), indexed.Keys);
    }
    if Consecutive(keys) {
      forall k | k in indexed ensures k in UpTo(n) {
        assert Int(k) in keys;
      }
      SubsetOfSameSize(indexed.Keys, UpTo(n));
    }
  }

  /** The value holds each item under its key. */
  ghost predicate Holds(v: Value, keys: seq<Value>, items: seq<Value>) {
    if AllStrings(keys) then v.Obj? && NamedBy(v.fields, keys, items) else v.Arr? && ListedBy(v.items, keys, items)
  }

  ghost predicate ListedBy(list: seq<Value>, keys: seq<Value>, items: seq<Value>) {
    && |list| == |keys| == |items|
    && forall i | 0 <= i < |keys| ::
         keys[i].Int? && 1 <= keys[i].number <= |list| && list[keys[i].number - 1] == items[i]
  }

  /** A constructor is data exactly when its keys are different strings, or the integers from one to their number in
      any order; and it is then the object or the array with its items under its keys. */
  lemma TableExactly(fields: seq<Field>, depth: nat, keys: seq<Value>, items: seq<Value>)
    requires depth <= MAX_NESTING && Readable(fields, depth, keys, items)
    ensures var r := ValueOf(Table(fields), depth);
            && (r.Some? <==> AllDifferent(keys) && (AllStrings(keys) || Consecutive(keys)))
            && (r.Some? ==> Holds(r.value, keys, items))
  {
    var b := Building([], map[], 0);
    assert fields[0..] == fields && fields[..0] == [] && keys[..0] == [] && items[..0] == [];
    AssembledExactly(fields, depth, keys, items, 0, b);
    var r := Assembled(fields, depth, b);
    TableOf(fields, depth, r);
    if r.Some? {
      FinishedExactly(r.value, keys, items);
    }
  }

  lemma TableOf(fields: seq<Field>, depth: nat, r: Option<Building>)
    requires depth <= MAX_NESTING && r == Assembled(fields, depth, Building([], map[], 0))
    ensures ValueOf(Table(fields), depth) == if r.None? then None else Finished(r.value)
  {}

  lemma FinishedExactly(b: Building, keys: seq<Value>, items: seq<Value>)
    requires Built(b, keys, items)
    ensures Finished(b).Some? <==> AllStrings(keys) || Consecutive(keys)
    ensures Finished(b).Some? ==> Holds(Finished(b).value, keys, items)
  {
    if keys != [] && !keys[0].Str? {
      assert keys[0].number in b.indexed;
      CoversExactly(b.indexed, keys, items);
      if Consecutive(keys) {
        ListedIndices(b.indexed, keys, items);
      }
    } else {
      FinishedNames(b, keys, items);
    }
  }

  lemma FinishedNames(b: Building, keys: seq<Value>, items: seq<Value>)
    requires Built(b, keys, items) && (keys == [] || keys[0].Str?)
    ensures AllStrings(keys) && Finished(b) == Some(Obj(b.named)) && NamedBy(b.named, keys, items)
  {}

  lemma ListedIndices(indexed: map<nat, Value>, keys: seq<Value>, items: seq<Value>)
    requires IndexedBy(indexed, keys, items) && Consecutive(keys) && forall k | 1 <= k <= |indexed| :: k in indexed
    ensures ListedBy(seq(|indexed|, i requires 0 <= i < |indexed| => indexed[i + 1]), keys, items)
  {
    var list := seq(|indexed|, i requires 0 <= i < |indexed| => indexed[i + 1]);
    forall i | 0 <= i < |keys| ensures list[keys[i].number - 1] == items[i] {
      assert list[keys[i].number - 1] == indexed[keys[i].number];
    }
  }
}
