/** The keyed table behind each controller: a Spring Data
    `CrudRepository<Entity, Long>` reduced to its map semantics. A table is
    a finite map from key to row; `findById` is a lookup, `findAll` lists
    every row, `save` writes a row under its key and `delete` removes it. */
module Repository {

  /** Java's `Long`: a signed 64-bit integer. */
  type Long = x: int | -0x8000_0000_0000_0000 <= x <= 0x7FFF_FFFF_FFFF_FFFF

  /** The largest key the database's identity column can hand out. */
  const MaxKey: Long := 0x7FFF_FFFF_FFFF_FFFF

  datatype Option<T> = None | Some(value: T)

  /** Identity keys are positive Longs. */
  ghost predicate IdentityKeys(keys: set<Long>) {
    forall k :: k in keys ==> 0 < k
  }

  /** `findById`: the row stored under id, or nothing. */
  function FindById<E>(table: map<Long, E>, id: Long): (r: Option<E>)
    ensures r.Some? <==> id in table
    ensures r.Some? ==> r.value == table[id]
  {
    if id in table then Some(table[id]) else None
  }

  /** A non-empty key set has a smallest element. */
  lemma {:induction false} LeastOf(keys: set<Long>) returns (m: Long)
    requires keys != {}
    ensures m in keys && forall k :: k in keys ==> m <= k
    decreases |keys|
  {
    var x :| x in keys;
    if keys == {x} {
      m := x;
    } else {
      var rest := keys - {x};
      var r := LeastOf(rest);
      m := if x < r then x else r;
      assert forall k :: k in keys ==> k == x || k in rest;
    }
  }

  lemma LeastExists(keys: set<Long>)
    requires keys != {}
    ensures exists m :: m in keys && forall k :: k in keys ==> m <= k
  {
    var m := LeastOf(keys);
  }

  /** The smallest key of a non-empty key set. */
  function Least(keys: set<Long>): (m: Long)
    requires keys != {}
    ensures m in keys && forall k :: k in keys ==> m <= k
  {
    LeastExists(keys);
    var m :| m in keys && forall k :: k in keys ==> m <= k;
    m
  }

  /** The keys of a table in ascending order, each once. */
  function KeysInOrder(keys: set<Long>): (ks: seq<Long>)
    ensures |ks| == |keys|
    ensures forall k :: k in keys <==> k in ks
    ensures forall i, j :: 0 <= i < j < |ks| ==> ks[i] < ks[j]
    decreases |keys|
  {
    if keys == {} then []
    else
      var m := Least(keys);
      var rest := keys - {m};
      [m] + KeysInOrder(rest)
  }

  /** `findAll`: every row of the table, once each. The table promises no
      particular order; this model lists rows by ascending key. */
  function FindAll<E(==)>(table: map<Long, E>): (rows: seq<E>)
    ensures |rows| == |table|
    ensures forall k :: k in table ==> table[k] in rows
    ensures forall r :: r in rows ==> r in table.Values
    ensures forall i :: 0 <= i < |rows| ==> rows[i] == table[KeysInOrder(table.Keys)[i]]
  {
    var ks := KeysInOrder(table.Keys);
    var rows := seq(|ks|, i requires 0 <= i < |ks| => table[ks[i]]);
    RowsCoverTable(table, ks, rows);
    rows
  }

  /** Rows read at a sequence holding every key include every stored row. */
  lemma RowsCoverTable<E>(table: map<Long, E>, ks: seq<Long>, rows: seq<E>)
    requires forall k :: k in table <==> k in ks
    requires |rows| == |ks| && forall i :: 0 <= i < |ks| ==> rows[i] == table[ks[i]]
    ensures forall k :: k in table ==> table[k] in rows
  {
    forall k | k in table
      ensures table[k] in rows
    {
      var i :| 0 <= i < |ks| && ks[i] == k;
      assert rows[i] == table[k];
    }
  }

  /** A table whose keys are identity keys leaves a key free as long as it
      has fewer rows than there are positive keys. */
  lemma {:induction false} FreeKeyExists(keys: set<Long>, bound: Long)
    requires bound >= 0
    requires forall k :: k in keys ==> 0 < k <= bound
    requires |keys| < bound
    ensures exists k: Long :: 0 < k <= bound && k !in keys
    decreases bound
  {
    if bound !in keys {
      assert 0 < bound <= bound;
    } else {
      var rest := keys - {bound};
      FreeKeyExists(rest, bound - 1);
    }
  }

  /** Every table of identity keys with fewer than MaxKey rows has a free
      identity key. */
  lemma FreeIdentityKey(keys: set<Long>)
    requires IdentityKeys(keys)
    requires |keys| < MaxKey
    ensures exists k: Long :: 0 < k && k !in keys
  {
    FreeKeyExists(keys, MaxKey);
  }
}
