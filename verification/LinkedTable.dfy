/** table.c: a singly linked chain of nodes with a linear search, proved to be the
    insertion-ordered map of Assoc. */
module LinkedTables {
  import opened Types
  import Assoc

  class Member<V> {
    const key: string
    var value: V
    var next: Member?<V>

    constructor (key: string, value: V)
      ensures this.key == key && this.value == value && next == null
    {
      this.key, this.value, next := key, value, null;
    }
  }

  class LinkedTable<V> {
    var first: Member?<V>
    ghost var spine: seq<Member<V>>  // the chain, in order

    /** The chain is acyclic and ends in null, and no key occurs twice. */
    ghost predicate Valid()
      reads this, spine
    {
      Linked() && Assoc.Unique(Model())
    }

    ghost predicate Linked()
      reads this, spine
    {
      && (forall i, j :: 0 <= i < j < |spine| ==> spine[i] != spine[j])
      && first == At(0)
      && (forall i, j :: 0 <= i < j < |spine| && j == i + 1 ==> spine[i].next == spine[j])
      && (spine != [] ==> spine[|spine| - 1].next == null)
    }

    ghost function At(i: nat): Member?<V>
      reads this`spine
    {
      if i < |spine| then spine[i] else null
    }

    ghost function Model(): (t: Assoc.Table<V>)
      reads this`spine, spine
      ensures |t| == |spine|
      ensures forall i :: 0 <= i < |spine| ==> t[i] == (spine[i].key, spine[i].value)
    {
      EntriesOf(spine)
    }

    static ghost function EntriesOf(ms: seq<Member<V>>): (t: Assoc.Table<V>)
      reads ms
      ensures |t| == |ms|
      ensures forall i :: 0 <= i < |ms| ==> t[i] == (ms[i].key, ms[i].value)
    {
      seq(|ms|, i requires 0 <= i < |ms| reads ms => (ms[i].key, ms[i].value))
    }

    static lemma EntriesWithout(ms: seq<Member<V>>, i: nat)
      requires i < |ms|
      ensures EntriesOf(ms[..i] + ms[i + 1..]) == EntriesOf(ms)[..i] + EntriesOf(ms)[i + 1..]
    {
    }

    constructor ()
      ensures Valid() && fresh(spine) && Model() == []
    {
      first, spine := null, [];
    }

    /** table_add */
    method Put(key: string, value: V)
      requires Valid()
      modifies this, spine
      ensures Valid() && (forall m :: m in spine ==> m in old(spine) || fresh(m))
      ensures Model() == Assoc.Add(old(Model()), key, value)
    {
      var node, last: Member?<V> := first, null;
      ghost var i := 0;
      while node != null
        invariant 0 <= i <= |spine| && node == At(i)
        invariant last == if i == 0 then null else spine[i - 1]
        invariant forall j :: 0 <= j < i ==> spine[j].key != key
        decreases |spine| - i
      {
        if key == node.key {
          Assoc.IndexIs(Model(), key, i);
          Assoc.AddRefinesMapUpdate(Model(), key, value, key);
          Overwrite(node, i, value);
          return;
        }
        last, node, i := node, node.next, i + 1;
      }
      Assoc.IndexIs(Model(), key, i);
      Assoc.AddRefinesMapUpdate(Model(), key, value, key);
      Append(last, key, value);
    }

    method Overwrite(node: Member<V>, ghost i: nat, value: V)
      requires Linked() && i < |spine| && node == spine[i]
      modifies node
      ensures Linked() && Model() == old(Model())[i := (node.key, value)]
    {
      node.value := value;
    }

    /** Hang a new member behind the last one. */
    method Append(last: Member?<V>, key: string, value: V)
      requires Linked() && last == if spine == [] then null else spine[|spine| - 1]
      modifies this, spine
      ensures Linked() && (forall m :: m in spine ==> m in old(spine) || fresh(m))
      ensures Model() == old(Model()) + [(key, value)]
    {
      var member := new Member(key, value);
      if last != null {
        last.next := member;
      } else {
        first := member;
      }
      spine := spine + [member];
    }

    /** table_find; NULL is None. */
    method Get(key: string) returns (value: Option<V>)
      requires Valid()
      ensures value == Assoc.Find(Model(), key)
    {
      var node := first;
      ghost var i := 0;
      while node != null
        invariant 0 <= i <= |spine| && node == At(i)
        invariant forall j :: 0 <= j < i ==> spine[j].key != key
        decreases |spine| - i
      {
        if node.key == key {
          Assoc.IndexIs(Model(), key, i);
          return Some(node.value);
        }
        node, i := node.next, i + 1;
      }
      Assoc.IndexIs(Model(), key, i);
      return None;
    }

    /** table_remove */
    method Delete(key: string) returns (value: Option<V>)
      requires Valid()
      modifies this, spine
      ensures Valid() && (forall m :: m in spine ==> m in old(spine))
      ensures Model() == Assoc.Remove(old(Model()), key)
      ensures value == Assoc.Find(old(Model()), key)
    {
      var node, last: Member?<V> := first, null;
      ghost var i, t := 0, Model();
      while node != null
        invariant 0 <= i <= |spine| && node == At(i)
        invariant last == if i == 0 then null else spine[i - 1]
        invariant forall j :: 0 <= j < i ==> t[j].0 != key
        decreases |spine| - i
      {
        if key == node.key {
          Assoc.IndexIs(t, key, i);
          Assoc.RemoveKeepsUnique(t, key);
          Unlink(last, node, i);
          return Some(node.value);
        }
        last, node, i := node, node.next, i + 1;
      }
      Assoc.IndexIs(Model(), key, i);
      return None;
    }

    /** Take the member after `last` out of the chain. */
    method Unlink(last: Member?<V>, node: Member<V>, ghost i: nat)
      requires Linked() && i < |spine| && node == spine[i]
      requires last == if i == 0 then null else spine[i - 1]
      modifies this, spine
      ensures Linked() && spine == old(spine)[..i] + old(spine)[i + 1..]
      ensures Model() == old(Model())[..i] + old(Model())[i + 1..]
      ensures node.value == old(node.value)
    {
      hide EntriesOf;
      if last != null {
        last.next := node.next;
      } else {
        first := node.next;
      }
      ghost var o := spine;
      assert EntriesOf(o) == old(EntriesOf(spine));
      EntriesWithout(o, i);
      spine := o[..i] + o[i + 1..];
      assert forall j :: 0 <= j < i ==> spine[j] == o[j];
      assert forall j :: i <= j < |spine| ==> spine[j] == o[j + 1];
      forall j, k | 0 <= j < k < |spine| && k == j + 1
        ensures spine[j].next == spine[k]
      {
        assert j < i - 1 ==> o[j].next == o[k];
        assert j >= i ==> o[j + 1].next == o[k + 1];
      }
    }

    /** table_get_count */
    method Count() returns (count: nat)
      requires Valid()
      ensures count == |Model()| == |Assoc.Keys(Model())|
    {
      count := 0;
      var node := first;
      while node != null
        invariant 0 <= count <= |spine| && node == At(count)
        decreases |spine| - count
      {
        count, node := count + 1, node.next;
      }
      KeysAreAsManyAsEntries(Model());
    }

    /** get_keys and get_values walk the chain twice: once to count, once to fill the array. Entry
        i of one belongs to entry i of the other. */
    method GetKeysAndValues() returns (keys: seq<string>, values: seq<V>)
      requires Valid()
      ensures values == Assoc.Values(Model()) && |keys| == |values|
      ensures forall i :: 0 <= i < |keys| ==> Assoc.Find(Model(), keys[i]) == Some(values[i])
      ensures forall k :: k in keys <==> k in Assoc.Keys(Model())
    {
      var count := Count();
      keys, values := [], [];
      var node := first;
      for i := 0 to count
        invariant node == At(i) && |keys| == i && |values| == i
        invariant forall j :: 0 <= j < i ==> keys[j] == spine[j].key && values[j] == spine[j].value
      {
        keys, values, node := keys + [node.key], values + [node.value], node.next;
      }
      forall i | 0 <= i < |keys|
        ensures Assoc.Find(Model(), keys[i]) == Some(values[i])
      {
        Assoc.IndexUnique(Model(), i);
      }
      assert forall i :: 0 <= i < |keys| ==> keys[i] == Model()[i].0;
    }
  }

  lemma {:induction false} KeysAreAsManyAsEntries<V>(t: Assoc.Table<V>)
    requires Assoc.Unique(t)
    ensures |Assoc.Keys(t)| == |t|
  {
    if t == [] {
      assert Assoc.Keys(t) == {};
    } else {
      var n := |t| - 1;
      KeysAreAsManyAsEntries(t[..n]);
      assert Assoc.Keys(t) == Assoc.Keys(t[..n]) + {t[n].0};
    }
  }
}
