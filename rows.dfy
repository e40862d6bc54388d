/**
 * A table as a sequence of rows in id order, and the three row-level
 * statements the handlers issue: `SELECT … WHERE id = ?` (Find),
 * `UPDATE … WHERE id = ?` (Replace) and `DELETE … WHERE id = ?` (Remove).
 */
module Rows {
  import opened Wrappers
  import opened Seqs

  /** A row: its INTEGER PRIMARY KEY and the remaining columns. */
  datatype Row<T> = Row(id: int, val: T)

  /** AUTOINCREMENT hands out ever larger ids, so a table read in insertion order is in id order. */
  predicate IdsIncreasing<T>(t: seq<Row<T>>) {
    forall i, j :: 0 <= i < j < |t| ==> t[i].id < t[j].id
  }

  /** Every id in the table is below `bound`, the next id AUTOINCREMENT hands out. */
  predicate IdsBelow<T>(t: seq<Row<T>>, bound: int) {
    forall i :: 0 <= i < |t| ==> t[i].id < bound
  }

  function Ids<T>(t: seq<Row<T>>): set<int> {
    set i | 0 <= i < |t| :: t[i].id
  }

  /** `SELECT * FROM t WHERE id = ?` read with `.get()`: the columns of the first row with that id. */
  function Find<T>(t: seq<Row<T>>, id: int): (r: Option<T>)
    ensures r.Some? ==> Row(id, r.value) in t
    ensures r.None? <==> id !in Ids(t)
  {
    if t == [] then None
    else if t[0].id == id then Some(t[0].val)
    else
      var r := Find(t[1..], id);
      assert t == [t[0]] + t[1..];
      r
  }

  /** With unique ids, the row Find returns is the only row with that id. */
  lemma {:induction false} FindUnique<T>(t: seq<Row<T>>, x: Row<T>)
    requires IdsIncreasing(t)
    requires x in t
    ensures Find(t, x.id) == Some(x.val)
  {
    if t[0] != x {
      assert x in t[1..];
      assert t[0].id != x.id;
      FindUnique(t[1..], x);
    }
  }

  /** With unique ids, looking up the id of any row finds that row. */
  lemma FindEvery<T>(t: seq<Row<T>>)
    requires IdsIncreasing(t)
    ensures forall i :: 0 <= i < |t| ==> Find(t, t[i].id) == Some(t[i].val)
  {
    forall i | 0 <= i < |t| ensures Find(t, t[i].id) == Some(t[i].val) {
      FindUnique(t, t[i]);
    }
  }

  /** Appending a row with a fresh, larger id keeps the table in id order and makes the row findable. */
  lemma AppendFresh<T>(t: seq<Row<T>>, id: int, v: T)
    ensures Ids(t + [Row(id, v)]) == Ids(t) + {id}
    ensures IdsIncreasing(t) && IdsBelow(t, id) ==>
      IdsIncreasing(t + [Row(id, v)]) && IdsBelow(t + [Row(id, v)], id + 1) && Find(t + [Row(id, v)], id) == Some(v)
  {
    var u := t + [Row(id, v)];
    if IdsIncreasing(t) && IdsBelow(t, id) {
      FindUnique(u, Row(id, v));
    }
    forall k | k in Ids(t) ensures k in Ids(u) {
      var i :| 0 <= i < |t| && t[i].id == k;
      assert u[i] == t[i];
    }
    assert u[|t|].id == id;
  }

  /** A new row leaves what every other id finds unchanged. */
  lemma {:induction false} FindAppendOther<T>(t: seq<Row<T>>, id: int, v: T, k: int)
    requires k != id
    ensures Find(t + [Row(id, v)], k) == Find(t, k)
  {
    if t != [] {
      assert (t + [Row(id, v)])[1..] == t[1..] + [Row(id, v)];
      FindAppendOther(t[1..], id, v, k);
    }
  }

  /** `UPDATE t SET … WHERE id = ?`: every row with that id gets the new columns `v`. */
  function Replace<T>(t: seq<Row<T>>, id: int, v: T): (r: seq<Row<T>>)
    ensures |r| == |t|
    ensures forall i :: 0 <= i < |t| ==> r[i].id == t[i].id
    ensures forall i :: 0 <= i < |t| && t[i].id == id ==> r[i].val == v
    ensures forall i :: 0 <= i < |t| && t[i].id != id ==> r[i] == t[i]
  {
    if t == [] then []
    else [if t[0].id == id then Row(id, v) else t[0]] + Replace(t[1..], id, v)
  }

  lemma ReplaceKeepsIds<T>(t: seq<Row<T>>, id: int, v: T, bound: int)
    ensures IdsIncreasing(t) ==> IdsIncreasing(Replace(t, id, v))
    ensures IdsBelow(t, bound) ==> IdsBelow(Replace(t, id, v), bound)
    ensures Ids(Replace(t, id, v)) == Ids(t)
  {
    var r := Replace(t, id, v);
    forall k | k in Ids(t) ensures k in Ids(r) {
      var i :| 0 <= i < |t| && t[i].id == k;
      assert r[i] in r;
    }
    forall k | k in Ids(r) ensures k in Ids(t) {
      var i :| 0 <= i < |r| && r[i].id == k;
      assert t[i] in t;
    }
  }

  /** After an UPDATE, reading the row back gives the new columns; every other id reads as before. */
  lemma {:induction false} FindAfterReplace<T>(t: seq<Row<T>>, id: int, v: T, k: int)
    ensures Find(Replace(t, id, v), k) ==
      if k != id then Find(t, k) else if id in Ids(t) then Some(v) else None
  {
    if t != [] {
      FindAfterReplace(t[1..], id, v, k);
      assert Replace(t, id, v)[1..] == Replace(t[1..], id, v);
      assert t == [t[0]] + t[1..];
    }
  }

  /** `DELETE FROM t WHERE id = ?`: every row but the ones with that id, in their order. */
  function Remove<T(!new)>(t: seq<Row<T>>, id: int): (r: seq<Row<T>>)
    ensures forall x :: x in r <==> x in t && x.id != id
    ensures forall x :: multiset(r)[x] == if x.id != id then multiset(t)[x] else 0
    ensures Ids(r) == Ids(t) - {id}
    ensures IdsIncreasing(t) ==> IdsIncreasing(r)
    ensures id !in Ids(t) ==> r == t
  {
    var keep := (x: Row<T>) => x.id != id;
    FilterKeepsIds(t, keep, 0);
    FilterAll(t, keep);
    RemoveIds(t, id, Filter(t, keep));
    Filter(t, keep)
  }

  lemma RemoveIds<T>(t: seq<Row<T>>, id: int, r: seq<Row<T>>)
    requires forall x :: x in r <==> x in t && x.id != id
    ensures Ids(r) == Ids(t) - {id}
    ensures id !in Ids(t) ==> forall i :: 0 <= i < |t| ==> t[i].id != id
  {
    forall k | k in Ids(t) - {id} ensures k in Ids(r) {
      var i :| 0 <= i < |t| && t[i].id == k;
      assert t[i] in r;
    }
    forall k | k in Ids(r) ensures k in Ids(t) - {id} {
      var i :| 0 <= i < |r| && r[i].id == k;
      assert r[i] in t;
    }
  }

  /** Keeping some rows of an id-ordered table keeps it in id order, below the same bound. */
  lemma FilterKeepsIds<T(!new)>(t: seq<Row<T>>, p: Row<T> -> bool, bound: int)
    ensures IdsIncreasing(t) ==> IdsIncreasing(Filter(t, p))
    ensures IdsBelow(t, bound) ==> IdsBelow(Filter(t, p), bound)
  {
    var r := Filter(t, p);
    if IdsBelow(t, bound) {
      forall i | 0 <= i < |r| ensures r[i].id < bound {
        assert r[i] in t;
      }
    }
    if IdsIncreasing(t) {
      FilterIncreasing(t, p);
    }
  }

  lemma {:induction false} FilterIncreasing<T(!new)>(t: seq<Row<T>>, p: Row<T> -> bool)
    requires IdsIncreasing(t)
    ensures IdsIncreasing(Filter(t, p))
  {
    if t != [] {
      FilterIncreasing(t[1..], p);
      var rest := Filter(t[1..], p);
      if p(t[0]) {
        var r := Filter(t, p);
        assert r == [t[0]] + rest;
        IdsAfterFirst(t);
        forall i, j | 0 <= i < j < |r| ensures r[i].id < r[j].id {
          assert r[j] == rest[j - 1] && rest[j - 1] in t[1..];
          if i > 0 {
            assert r[i] == rest[i - 1];
          }
        }
      } else {
        assert Filter(t, p) == rest;
      }
    }
  }

  /** In an id-ordered table every later row has a larger id than the first. */
  lemma IdsAfterFirst<T>(t: seq<Row<T>>)
    requires IdsIncreasing(t) && t != []
    ensures forall x :: x in t[1..] ==> t[0].id < x.id
  {
    forall x | x in t[1..] ensures t[0].id < x.id {
      var k :| 0 <= k < |t[1..]| && t[1..][k] == x;
      assert t[k + 1] == x;
    }
  }

  /** After a DELETE the id is gone and every other id reads as before. */
  lemma FindAfterRemove<T(!new)>(t: seq<Row<T>>, id: int, k: int)
    requires IdsIncreasing(t)
    ensures Find(Remove(t, id), k) == if k == id then None else Find(t, k)
  {
    var r := Remove(t, id);
    FilterKeepsIds(t, (x: Row<T>) => x.id != id, 0);
    var f := Find(t, k);
    if k != id && f.Some? {
      FindUnique(t, Row(k, f.value));
      FindUnique(r, Row(k, f.value));
    }
  }
}
