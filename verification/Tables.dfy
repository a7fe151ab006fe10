/** Hash tables with list buckets, and the table of symbols. */
module Tables {
  import opened Bytes
  import opened Wrappers

  const DEFAULT_SIZE := 100
  const SYMBOL_TABLE_SIZE := 500

  /** A key of a table: a name, that is hashed, or something that is not. */
  datatype Key = Name(bytes: Text) | Plain(id: int)

  /** A slot of the table as made, or a list of entries, the latest first. */
  datatype Bucket<+V> = Untouched | Entries(list: seq<(Key, V)>)

  /** The byte at a position of a C string, as the signed char that it is. */
  function CharAt(s: Text, i: nat): int {
    if i >= |s| then 0 else if s[i] < 128 then s[i] else (s[i] as int) - 256
  }

  function HashSum(s: Text): int {
    var first := CharAt(s, 0) * 37;
    if CharAt(s, 0) != 0 && CharAt(s, 1) != 0 then first + CharAt(s, 1) * 43 else first
  }

  /** Of a name of two bytes or more the first two count, and of one byte that. */
  lemma HashesFirstTwo(a: Byte, b: Byte, rest: Text)
    requires 0 < a < 128 && 0 < b < 128
    ensures HashSum([a, b] + rest) == 37 * a + 43 * b
    ensures HashSum([a]) == 37 * a && HashSum([a, 0] + rest) == 37 * a
    ensures HashSum([]) == 0 && HashSum([0] + rest) == 0
  {
    assert ([a, b] + rest)[0] == a && ([a, b] + rest)[1] == b;
    assert ([a, 0] + rest)[0] == a && ([a, 0] + rest)[1] == 0;
    assert ([0] + rest)[0] == 0;
  }

  /** The remainder with the sign of the dividend. */
  function Remainder(a: int, b: nat): int
    requires b > 0
  {
    if a >= 0 then a % b else -(-a % b)
  }

  function Hash(key: Key, size: nat): int
    requires size > 0
  {
    match key
    case Name(s) => Remainder(HashSum(s), size)
    case Plain(_) => 0
  }

  /** The bucket a key belongs to exists. */
  predicate InTable(key: Key, size: nat)
    requires size > 0
  {
    0 <= Hash(key, size) < size
  }

  /** Which keys fall outside the table: names whose sum is negative, which
      takes a byte from 128 on. */
  lemma InTableExactly(s: Text, size: nat)
    requires size > 0
    ensures InTable(Name(s), size) <==> HashSum(s) >= 0 || -HashSum(s) % size == 0
    ensures (forall i :: 0 <= i < |s| && i < 2 ==> s[i] < 128) ==> InTable(Name(s), size)
  {
  }

  /** The name of one byte 200 has the sum -2072, and no bucket of 500. */
  lemma NoBucket()
    ensures HashSum([200]) == -2072 && Hash(Name([200]), SYMBOL_TABLE_SIZE) == -72
    ensures !InTable(Name([200]), SYMBOL_TABLE_SIZE)
  {
    assert CharAt([200], 0) == -56;
  }

  function Lookup<V>(list: seq<(Key, V)>, key: Key): Option<V> {
    if list == [] then None
    else if list[0].0 == key then Some(list[0].1)
    else Lookup(list[1..], key)
  }

  function Find<V>(b: Bucket<V>, key: Key): Option<V> {
    if b.Untouched? then None else Lookup(b.list, key)
  }

  lemma LatestFirst<V>(list: seq<(Key, V)>, key: Key, value: V)
    ensures forall k :: Lookup([(key, value)] + list, k) == if k == key then Some(value) else Lookup(list, k)
  {
    assert ([(key, value)] + list)[1..] == list;
  }

  function Without<V>(list: seq<(Key, V)>, key: Key): seq<(Key, V)> {
    if list == [] then []
    else if list[0].0 == key then Without(list[1..], key)
    else [list[0]] + Without(list[1..], key)
  }

  lemma {:induction false} LookupWithout<V>(list: seq<(Key, V)>, key: Key, other: Key)
    ensures Lookup(Without(list, key), other) == if other == key then None else Lookup(list, other)
  {
    if list != [] {
      LookupWithout(list[1..], key, other);
      if list[0].0 != key {
        assert Without(list, key)[1..] == Without(list[1..], key);
      }
    }
  }

  lemma WithoutStep<V>(list: seq<(Key, V)>, i: nat, key: Key)
    requires i <= |list|
    ensures Without(list[i..], key) ==
      if i == |list| then []
      else if list[i].0 == key then Without(list[i + 1..], key)
      else [list[i]] + Without(list[i + 1..], key)
  {
    assert i < |list| ==> list[i..][1..] == list[i + 1..];
  }

  lemma Kept<T>(kept: seq<T>, x: T, rest: seq<T>)
    ensures kept + ([x] + rest) == (kept + [x]) + rest
  {
  }

  predicate FirstDifference(a: Text, b: Text, i: nat) {
    i < |a| && i < |b| && a[..i] == b[..i] && a[i] != b[i]
  }

  /** Compares `n` bytes: the answer is the difference of the first two that are
      not the same, as signed characters. */
  method Memcmp(a: Text, b: Text, n: nat) returns (r: int)
    requires n <= |a| && n <= |b|
    ensures r == 0 <==> a[..n] == b[..n]
    ensures r != 0 ==> exists i: nat :: i < n && FirstDifference(a, b, i) && r == CharAt(a, i) - CharAt(b, i)
  {
    if n == 0 {
      return 0;
    }
    var i, size := 0, n;
    while a[i] == b[i] && size > 1
      invariant i + size == n && size >= 1
      invariant forall k :: 0 <= k < i ==> a[k] == b[k]
    {
      size := size - 1;
      i := i + 1;
    }
    r := CharAt(a, i) - CharAt(b, i);
    if r == 0 {
      assert a[..n] == b[..n];
    } else {
      assert a[..n][i] != b[..n][i];
      assert FirstDifference(a, b, i);
    }
  }

  method StringEqual(a: Text, b: Text) returns (equal: bool)
    ensures equal == (a == b)
  {
    if |a| == 0 && |b| == 0 {
      return true;
    }
    equal := false;
    if |a| == |b| {
      var r := Memcmp(a, b, |a|);
      assert a[..|a|] == a && b[..|b|] == b;
      equal := r == 0;
    }
  }

  method Equal(a: Key, b: Key) returns (equal: bool)
    ensures equal == (a == b)
  {
    if a.Name? && b.Name? {
      equal := StringEqual(a.bytes, b.bytes);
    } else {
      equal := a == b;
    }
  }

  method Assoc<V>(key: Key, list: seq<(Key, V)>) returns (found: Option<V>)
    ensures found == Lookup(list, key)
  {
    var i := 0;
    while i < |list|
      invariant 0 <= i <= |list| && Lookup(list, key) == Lookup(list[i..], key)
    {
      var equal := Equal(key, list[i].0);
      if equal {
        return Some(list[i].1);
      }
      i := i + 1;
    }
    found := None;
  }

  class HashTable<V> {
    const size: nat
    const buckets: array<Bucket<V>>

    ghost predicate Valid() {
      size > 0 && buckets.Length == size
    }

    constructor (n: nat)
      ensures Valid() && fresh(buckets) && size == if n == 0 then DEFAULT_SIZE else n
      ensures forall k :: At(k) == None
    {
      size := if n == 0 then DEFAULT_SIZE else n;
      buckets := new Bucket<V>[if n == 0 then DEFAULT_SIZE else n](_ => Untouched);
    }

    /** The map that the table stands for. */
    ghost function At(key: Key): Option<V>
      requires Valid()
      reads buckets
    {
      if InTable(key, size) then Find(buckets[Hash(key, size)], key) else None
    }

    /** The value of a key, or the default; nothing, if the key has no bucket. */
    method Ref(key: Key, default: V) returns (r: Option<V>)
      requires Valid()
      ensures r == if !InTable(key, size) then None else if At(key).Some? then At(key) else Some(default)
    {
      if !InTable(key, size) {
        return None;
      }
      var bucket := buckets[Hash(key, size)];
      r := Some(default);
      if bucket.Entries? {
        var found := Assoc(key, bucket.list);
        if found.Some? {
          r := found;
        }
      }
    }

    /** The latest value of a key is the one that is set; other keys keep theirs. */
    method Set(key: Key, value: V) returns (ok: bool)
      requires Valid()
      modifies buckets
      ensures ok == InTable(key, size)
      ensures forall k :: At(k) == if ok && k == key then Some(value) else old(At(k))
    {
      if !InTable(key, size) {
        return false;
      }
      var hash := Hash(key, size);
      var list := if buckets[hash].Entries? then buckets[hash].list else [];
      LatestFirst(list, key, value);
      buckets[hash] := Entries([(key, value)] + list);
      ok := true;
    }

    /** The value that a key has, or has got by this. */
    method CreateHandle(key: Key, init: V) returns (r: Option<V>)
      requires Valid()
      modifies buckets
      ensures r.Some? == InTable(key, size)
      ensures r.Some? ==> r == if old(At(key)).Some? then old(At(key)) else Some(init)
      ensures forall k :: At(k) == if r.Some? && k == key then r else old(At(k))
    {
      if !InTable(key, size) {
        return None;
      }
      var hash := Hash(key, size);
      var list := if buckets[hash].Entries? then buckets[hash].list else [];
      r := Assoc(key, list);
      if r.None? {
        r := Some(init);
        LatestFirst(list, key, init);
        buckets[hash] := Entries([(key, init)] + list);
      }
    }

    /** All entries of a key go, so that none that was shadowed comes back. */
    method Remove(key: Key) returns (ok: bool)
      requires Valid()
      modifies buckets
      ensures ok == (InTable(key, size) && old(buckets[Hash(key, size)]).Entries?)
      ensures forall k :: At(k) == if ok && k == key then None else old(At(k))
    {
      if !InTable(key, size) || buckets[Hash(key, size)].Untouched? {
        return false;
      }
      var hash := Hash(key, size);
      var list := buckets[hash].list;
      var kept := Splice(list, key);
      forall k ensures Lookup(kept, k) == if k == key then None else Lookup(list, k) {
        LookupWithout(list, key, k);
      }
      buckets[hash] := Entries(kept);
      ok := true;
    }

    /** Entries at the front are dropped, others are cut out. */
    method Splice(list: seq<(Key, V)>, key: Key) returns (kept: seq<(Key, V)>)
      ensures kept == Without(list, key)
    {
      hide Without;
      var i := 0;
      assert list[0..] == list;
      while i < |list| && list[i].0 == key
        invariant 0 <= i <= |list| && Without(list, key) == Without(list[i..], key)
      {
        WithoutStep(list, i, key);
        i := i + 1;
      }
      kept := [];
      while i < |list|
        invariant 0 <= i <= |list| && Without(list, key) == kept + Without(list[i..], key)
      {
        WithoutStep(list, i, key);
        ghost var rest := Without(list[i + 1..], key);
        if list[i].0 != key {
          Kept(kept, list[i], rest);
          kept := kept + [list[i]];
        }
        i := i + 1;
      }
      WithoutStep(list, i, key);
      assert kept + [] == kept;
    }
  }

  /** The cell of `#f`, which the table of symbols takes for nothing found. */
  const CELL_F := 1

  /** The name `#f`. */
  const FALSE_NAME: Text := [35, 102]

  /** The names of the predefined cells, in the order of the cells: after that of
      the empty list comes `#f`. */
  predicate Predefined(names: seq<Text>) {
    && |names| > CELL_F && names[CELL_F] == FALSE_NAME && FALSE_NAME !in names[CELL_F + 1..]
    && forall i :: 0 <= i < |names| ==> InTable(Name(names[i]), SYMBOL_TABLE_SIZE)
  }

  /** The table of symbols; a symbol is known by its cell, and cells by number. */
  class SymbolTable {
    const table: HashTable<int>
    var nextCell: int

    ghost predicate Valid()
      reads this, table.buckets
    {
      && table.Valid() && nextCell > CELL_F
      && (forall k :: table.At(k).Some? ==> k.Name? && 0 <= table.At(k).value < nextCell)
      && (forall j, k :: table.At(j).Some? && table.At(k).Some? && table.At(j) == table.At(k) ==> j == k)
      && (forall k :: table.At(k) == Some(CELL_F) ==> k == Name(FALSE_NAME))
    }

    /** The table with the names of the predefined cells, `#f` among them. */
    constructor (names: seq<Text>)
      requires Predefined(names)
      ensures Valid() && fresh(table.buckets) && table.size == SYMBOL_TABLE_SIZE && nextCell == |names|
      ensures Symbol(FALSE_NAME) == Some(CELL_F)
      ensures forall s :: Symbol(s).Some? <==> s in names
    {
      table := new HashTable<int>(SYMBOL_TABLE_SIZE);
      nextCell := 0;
      new;
      while nextCell < |names|
        invariant 0 <= nextCell <= |names| && fresh(table.buckets) && Initial(names)
      {
        InitSymbol(names);
      }
      assert names[..nextCell] == names;
    }

    /** The cells before the next one have their names, and there are no others. */
    ghost predicate Initial(names: seq<Text>)
      reads this, table.buckets
    {
      && table.Valid() && table.size == SYMBOL_TABLE_SIZE && 0 <= nextCell <= |names|
      && (forall k :: table.At(k).Some? ==>
            k.Name? && 0 <= table.At(k).value < nextCell && k.bytes == names[table.At(k).value])
      && (forall s :: Symbol(s).Some? <==> s in names[..nextCell])
      && (nextCell > CELL_F ==> Symbol(FALSE_NAME) == Some(CELL_F))
    }

    method InitSymbol(names: seq<Text>)
      requires Predefined(names) && Initial(names) && nextCell < |names|
      modifies this`nextCell, table.buckets
      ensures nextCell == old(nextCell) + 1 && Initial(names)
    {
      var name := names[nextCell];
      ghost var before := names[..nextCell];
      var ok := table.Set(Name(name), nextCell);
      nextCell := nextCell + 1;
      assert names[..nextCell] == before + [name];
    }

    /** The symbol of a name, if there is one. */
    ghost function Symbol(s: Text): Option<int>
      requires table.Valid()
      reads table.buckets
    {
      table.At(Name(s))
    }

    /** The symbol of a string: the one that there is, or a new one.  A name
        keeps its symbol if and only if that is not the cell of `#f`, which
        looks as if there were none; no two names share one. */
    method StringToSymbol(s: Text) returns (symbol: Option<int>)
      requires Valid()
      modifies this, table.buckets
      ensures Valid()
      ensures symbol.Some? == InTable(Name(s), table.size)
      ensures symbol.Some? ==> Symbol(s) == symbol && symbol != Some(CELL_F)
      ensures forall t :: t != s ==> Symbol(t) == old(Symbol(t))
      ensures symbol.Some? && old(Symbol(s)).Some? ==>
        (symbol == old(Symbol(s)) <==> s != FALSE_NAME || old(Symbol(s)) != Some(CELL_F))
      ensures symbol.Some? && symbol != old(Symbol(s)) ==>
        symbol == Some(old(nextCell)) && forall t :: old(Symbol(t)) != symbol
    {
      var x := table.Ref(Name(s), CELL_F);
      if x.None? {
        return None;
      }
      if x.value == CELL_F {
        symbol := MakeSymbol(s);
      } else {
        symbol := x;
      }
    }

    method MakeSymbol(s: Text) returns (symbol: Option<int>)
      requires Valid() && InTable(Name(s), table.size)
      modifies this, table.buckets
      ensures Valid() && symbol == Some(old(nextCell))
      ensures forall t :: Symbol(t) == if t == s then symbol else old(Symbol(t))
    {
      var x := nextCell;
      nextCell := nextCell + 1;
      var ok := table.Set(Name(s), x);
      symbol := Some(x);
    }

    /** Two strings have the same symbol exactly if they are equal. */
    method SameSymbol(a: Text, b: Text) returns (same: bool)
      requires Valid() && InTable(Name(a), table.size) && InTable(Name(b), table.size)
      modifies this, table.buckets
      ensures Valid() && same == (a == b)
    {
      var x := StringToSymbol(a);
      var y := StringToSymbol(b);
      same := x == y;
    }
  }

  /** The name `#f` has a symbol from the start, and gets another one as soon as
      it is looked up; from then on it keeps that. */
  method FalseIsReplaced(names: seq<Text>) returns (first: Option<int>, second: Option<int>)
    requires Predefined(names)
    ensures first == Some(|names|) && first != Some(CELL_F) && second == first
  {
    var symbols := new SymbolTable(names);
    assert symbols.Symbol(FALSE_NAME) == Some(CELL_F);
    assert InTable(Name(FALSE_NAME), SYMBOL_TABLE_SIZE);
    first := symbols.StringToSymbol(FALSE_NAME);
    second := symbols.StringToSymbol(FALSE_NAME);
  }
}
