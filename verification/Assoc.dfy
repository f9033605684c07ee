/** The value of a table_t: key/value pairs in insertion order. These functions are the
    specification of the linked chain in LinkedTable.dfy, and the tables of the server model are
    made of them. */
module Assoc {
  import opened Types

  type Table<V> = seq<(string, V)>

  /** The position of the first entry with this key, or the size of the table. */
  function IndexOf<V>(t: Table<V>, k: string): (r: nat)
    ensures r <= |t|
    ensures r < |t| ==> t[r].0 == k
    ensures forall j :: 0 <= j < r ==> t[j].0 != k
  {
    if t == [] || t[0].0 == k then 0 else 1 + IndexOf(t[1..], k)
  }

  predicate Has<V>(t: Table<V>, k: string) {
    IndexOf(t, k) < |t|
  }

  function Find<V>(t: Table<V>, k: string): Option<V> {
    if Has(t, k) then Some(t[IndexOf(t, k)].1) else None
  }

  /** table_add: replace the value of an existing key where it stands, else append. */
  function Add<V>(t: Table<V>, k: string, v: V): Table<V> {
    if Has(t, k) then t[IndexOf(t, k) := (k, v)] else t + [(k, v)]
  }

  function Remove<V>(t: Table<V>, k: string): Table<V> {
    if Has(t, k) then t[..IndexOf(t, k)] + t[IndexOf(t, k) + 1..] else t
  }

  ghost predicate Unique<V>(t: Table<V>) {
    forall i, j :: 0 <= i < j < |t| ==> t[i].0 != t[j].0
  }

  ghost function Keys<V>(t: Table<V>): set<string> {
    set i | 0 <= i < |t| :: t[i].0
  }

  function Values<V>(t: Table<V>): (vs: seq<V>)
    ensures |vs| == |t|
    ensures forall i :: 0 <= i < |t| ==> vs[i] == t[i].1
  {
    seq(|t|, i requires 0 <= i < |t| => t[i].1)
  }

  lemma IndexUnique<V>(t: Table<V>, i: nat)
    requires Unique(t) && i < |t|
    ensures IndexOf(t, t[i].0) == i
  {
  }

  lemma HasIsKeys<V>(t: Table<V>, k: string)
    ensures Has(t, k) <==> k in Keys(t)
    ensures Find(t, k).Some? <==> k in Keys(t)
  {
    if k in Keys(t) {
      var i :| 0 <= i < |t| && t[i].0 == k;
    }
  }

  lemma IndexIs<V>(t: Table<V>, k: string, i: nat)
    requires i <= |t|
    requires i < |t| ==> t[i].0 == k
    requires forall j :: 0 <= j < i ==> t[j].0 != k
    ensures IndexOf(t, k) == i
  {
  }

  /** Adding makes exactly this key map to exactly this value; a new key goes to the end and an
      old one keeps its place. */
  lemma AddRefinesMapUpdate<V>(t: Table<V>, k: string, v: V, x: string)
    requires Unique(t)
    ensures Unique(Add(t, k, v)) && Keys(Add(t, k, v)) == Keys(t) + {k}
    ensures Find(Add(t, k, v), x) == if x == k then Some(v) else Find(t, x)
    ensures IndexOf(Add(t, k, v), k) == IndexOf(t, k)
    ensures Has(t, x) ==> IndexOf(Add(t, k, v), x) == IndexOf(t, x)
  {
    hide Keys;
    AddedKeys(t, k, v);
    AddedIndex(t, k, v, x);
    AddedIndex(t, k, v, k);
  }

  lemma AddedIndex<V>(t: Table<V>, k: string, v: V, x: string)
    ensures var u := Add(t, k, v);
            IndexOf(u, x) == if Has(t, x) || x == k then IndexOf(t, x) else |u|
  {
    var u := Add(t, k, v);
    if Has(t, x) || x == k {
      IndexIs(u, x, IndexOf(t, x));
    } else {
      IndexIs(u, x, |u|);
    }
  }

  lemma AddedKeys<V>(t: Table<V>, k: string, v: V)
    ensures Keys(Add(t, k, v)) == Keys(t) + {k}
  {
    var u := Add(t, k, v);
    assert u[IndexOf(t, k)].0 == k;
    forall y
      ensures y in Keys(u) <==> y in Keys(t) + {k}
    {
      if y in Keys(t) {
        var i :| 0 <= i < |t| && t[i].0 == y;
        assert u[i].0 == y;
      }
    }
  }

  /** Removing deletes exactly this key and keeps the order of the rest. */
  lemma RemoveRefinesMapRemoval<V>(t: Table<V>, k: string, x: string, z: string)
    requires Unique(t)
    ensures Unique(Remove(t, k)) && Keys(Remove(t, k)) == Keys(t) - {k}
    ensures Find(Remove(t, k), x) == if x == k then None else Find(t, x)
    ensures Has(t, x) && Has(t, z) && x != k && z != k ==>
              (IndexOf(t, x) < IndexOf(t, z) <==> IndexOf(Remove(t, k), x) < IndexOf(Remove(t, k), z))
  {
    RemoveKeepsUnique(t, k);
    RemovedIndex(t, k, x);
    RemovedIndex(t, k, z);
    FindRemoved(t, k, x);
  }

  lemma FindRemoved<V>(t: Table<V>, k: string, y: string)
    requires Unique(t)
    ensures Find(Remove(t, k), y) == if y == k then None else Find(t, y)
  {
    RemovedIndex(t, k, y);
    if Has(t, k) && Has(t, y) && y != k {
      var n := IndexOf(t, y);
      assert Remove(t, k)[if n < IndexOf(t, k) then n else n - 1] == t[n];
    }
  }

  lemma RemoveKeepsUnique<V>(t: Table<V>, k: string)
    requires Unique(t)
    ensures Unique(Remove(t, k)) && Keys(Remove(t, k)) == Keys(t) - {k}
  {
    var u, i := Remove(t, k), IndexOf(t, k);
    if Has(t, k) {
      assert forall j :: 0 <= j < i ==> u[j] == t[j];
      assert forall j :: i <= j < |u| ==> u[j] == t[j + 1];
      forall y | y in Keys(t) - {k}
        ensures y in Keys(u)
      {
        var j :| 0 <= j < |t| && t[j].0 == y;
        assert u[if j < i then j else j - 1] == t[j];
      }
    } else {
      HasIsKeys(t, k);
    }
  }

  lemma RemovedIndex<V>(t: Table<V>, k: string, y: string)
    requires Unique(t)
    ensures var u := Remove(t, k);
            IndexOf(u, y) == if y == k then |u|
                             else if IndexOf(t, y) <= IndexOf(t, k) && Has(t, y) then IndexOf(t, y)
                             else if Has(t, k) then IndexOf(t, y) - 1 else IndexOf(t, y)
  {
    var u, i, n := Remove(t, k), IndexOf(t, k), IndexOf(t, y);
    if Has(t, k) {
      assert forall j :: 0 <= j < i ==> u[j] == t[j];
      assert forall j :: i <= j < |u| ==> u[j] == t[j + 1];
      if y == k || !Has(t, y) {
        IndexIs(u, y, |u|);
      } else if n < i {
        IndexIs(u, y, n);
      } else {
        assert u[n - 1] == t[n];
        IndexIs(u, y, n - 1);
      }
    }
  }
}
