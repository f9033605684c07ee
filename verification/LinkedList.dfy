/** list.c: a singly linked list with a lock flag, proved to be a sequence. The busy wait of
    list_lock never ends on a locked list, so every locking operation is entered unlocked; each
    one is shown to leave the list unlocked again. */
module LinkedLists {
  import opened Types

  class Member<V> {
    const value: V
    var next: Member?<V>

    constructor (value: V, next: Member?<V>)
      ensures this.value == value && this.next == next
    {
      this.value, this.next := value, next;
    }
  }

  /** The position of the first occurrence of a value, or the length of the list. */
  function FirstIndex<V(==)>(s: seq<V>, v: V): (r: nat)
    ensures r <= |s|
    ensures r < |s| ==> s[r] == v
    ensures forall j :: 0 <= j < r ==> s[j] != v
  {
    if s == [] || s[0] == v then 0 else 1 + FirstIndex(s[1..], v)
  }

  /** The list without the first occurrence of a value: nothing else moves. */
  function WithoutFirst<V(==)>(s: seq<V>, v: V): seq<V> {
    var i := FirstIndex(s, v);
    if i < |s| then s[..i] + s[i + 1..] else s
  }

  lemma FirstIndexIs<V>(s: seq<V>, v: V, i: nat)
    requires i <= |s|
    requires i < |s| ==> s[i] == v
    requires forall j :: 0 <= j < i ==> s[j] != v
    ensures FirstIndex(s, v) == i
  {
  }

  class LinkedList<V(==)> {
    var first: Member?<V>
    var locked: bool
    ghost var spine: seq<Member<V>>

    ghost predicate Valid()
      reads this`first, this`spine, spine
    {
      && (forall i, j :: 0 <= i < j < |spine| ==> spine[i] != spine[j])
      && first == At(0)
      && (forall i, j :: 0 <= i < j < |spine| && j == i + 1 ==> spine[i].next == spine[j])
      && (spine != [] ==> spine[|spine| - 1].next == null)
    }

    ghost function At(i: nat): Member?<V>
      reads this`spine
    {
      if i < |spine| then spine[i] else null
    }

    ghost function Model(): (s: seq<V>)
      reads this`spine
      ensures |s| == |spine|
      ensures forall i :: 0 <= i < |spine| ==> s[i] == spine[i].value
    {
      ValuesOf(spine)
    }

    static ghost function ValuesOf(ms: seq<Member<V>>): (s: seq<V>)
      ensures |s| == |ms|
      ensures forall i :: 0 <= i < |ms| ==> s[i] == ms[i].value
    {
      seq(|ms|, i requires 0 <= i < |ms| => ms[i].value)
    }

    constructor ()
      ensures Valid() && !locked && fresh(spine) && Model() == []
    {
      first, locked, spine := null, false, [];
    }

    /** list_add_beginning */
    method AddBeginning(value: V)
      requires Valid() && !locked
      modifies this
      ensures Valid() && !locked && Model() == [value] + old(Model())
      ensures fresh(set m | m in spine && m !in old(spine))
    {
      locked := true;
      var member := new Member(value, first);
      first := member;
      spine := [member] + spine;
      locked := false;
    }

    /** list_add_end */
    method AddEnd(value: V)
      requires Valid() && !locked
      modifies this, spine
      ensures Valid() && !locked && Model() == old(Model()) + [value]
      ensures fresh(set m | m in spine && m !in old(spine))
    {
      locked := true;
      var member := new Member(value, null);
      var node, last: Member?<V> := first, null;
      ghost var i := 0;
      while node != null
        invariant 0 <= i <= |spine| && node == At(i)
        invariant last == if i == 0 then null else spine[i - 1]
        decreases |spine| - i
      {
        last, node, i := node, node.next, i + 1;
      }
      if last != null {
        last.next := member;
      } else {
        first := member;
      }
      spine := spine + [member];
      locked := false;
    }

    /** list_remove_beginning */
    method RemoveBeginning() returns (value: Option<V>)
      requires Valid() && !locked
      modifies this
      ensures Valid() && !locked
      ensures if old(Model()) == [] then value == None && Model() == []
              else value == Some(old(Model())[0]) && Model() == old(Model())[1..]
    {
      locked, value := true, None;
      if first != null {
        value := Some(first.value);
        first := first.next;
        spine := spine[1..];
      }
      locked := false;
    }

    /** list_remove_end */
    method RemoveEnd() returns (value: Option<V>)
      requires Valid() && !locked
      modifies this, spine
      ensures Valid() && !locked
      ensures var n := |old(Model())|;
              if n == 0 then value == None && Model() == []
              else value == Some(old(Model())[n - 1]) && Model() == old(Model())[..n - 1]
    {
      locked, value := true, None;
      var node, last, older: Member?<V> := first, null, null;
      ghost var i := 0;
      while node != null
        invariant 0 <= i <= |spine| && node == At(i)
        invariant last == if i == 0 then null else spine[i - 1]
        invariant older == if i <= 1 then null else spine[i - 2]
        decreases |spine| - i
      {
        older, last, node, i := last, node, node.next, i + 1;
      }
      if last != null {
        if older != null {
          older.next := null;
        } else {
          first := null;
        }
        value := Some(last.value);
        spine := spine[..|spine| - 1];
      }
      locked := false;
    }

    /** list_remove_value: the first occurrence, compared by identity. */
    method RemoveValue(value: V) returns (removed: bool)
      requires Valid() && !locked
      modifies this, spine
      ensures Valid() && !locked
      ensures removed <==> value in old(Model())
      ensures Model() == WithoutFirst(old(Model()), value)
    {
      hide Model, FirstIndex;
      locked := true;
      var node, last: Member?<V> := first, null;
      ghost var i, s := 0, Model();
      while node != null
        invariant Valid() && locked && Model() == s && spine == old(spine)
        invariant 0 <= i <= |spine| && node == At(i)
        invariant last == if i == 0 then null else spine[i - 1]
        invariant forall j :: 0 <= j < i ==> s[j] != value
        decreases |spine| - i
      {
        if value == node.value {
          FirstIndexIs(s, value, i);
          Unlink(last, node, i);
          locked := false;
          return true;
        }
        last, node, i := node, node.next, i + 1;
      }
      FirstIndexIs(s, value, i);
      locked := false;
      return false;
    }

    /** Take the member after `last` out of the chain. */
    method Unlink(last: Member?<V>, node: Member<V>, ghost i: nat)
      requires Valid() && i < |spine| && node == spine[i]
      requires last == if i == 0 then null else spine[i - 1]
      modifies this`first, this`spine, spine
      ensures Valid() && spine == old(spine)[..i] + old(spine)[i + 1..]
      ensures Model() == old(Model())[..i] + old(Model())[i + 1..]
    {
      if last != null {
        last.next := node.next;
      } else {
        first := node.next;
      }
      ghost var o := spine;
      spine := o[..i] + o[i + 1..];
      assert forall j :: 0 <= j < i ==> spine[j] == o[j];
      assert forall j :: i <= j < |spine| ==> spine[j] == o[j + 1];
      forall j, k | 0 <= j < k < |spine| && k == j + 1
        ensures spine[j].next == spine[k]
      {
        assert j < i - 1 ==> o[j].next == o[k];
        assert j >= i ==> o[j + 1].next == o[k + 1];
      }
    }

    /** list_get_element */
    method GetElement(num: nat) returns (value: Option<V>)
      requires Valid() && !locked
      modifies this`locked
      ensures Valid() && !locked && Model() == old(Model())
      ensures value == if num < |Model()| then Some(Model()[num]) else None
    {
      locked, value := true, None;
      var node, i := first, 0;
      while i < num && node != null
        invariant 0 <= i <= num && i <= |spine| && node == At(i)
        invariant Valid() && locked
      {
        node, i := node.next, i + 1;
      }
      if node != null {
        value := Some(node.value);
      }
      locked := false;
    }

    /** list_remove_element */
    method RemoveElement(num: nat) returns (value: Option<V>)
      requires Valid() && !locked
      modifies this, spine
      ensures Valid() && !locked
      ensures var s := old(Model());
              if num < |s| then value == Some(s[num]) && Model() == s[..num] + s[num + 1..]
              else value == None && Model() == s
    {
      hide Model;
      locked := true;
      if num == 0 && first != null {
        value := Some(first.value);
        Unlink(null, first, 0);
      } else {
        var node, last: Member?<V> := first, null;
        var i := 0;
        while i < num && node != null
          invariant 0 <= i <= num && i <= |spine| && node == At(i)
          invariant last == if i == 0 then null else spine[i - 1]
        {
          last, node, i := node, node.next, i + 1;
        }
        if node == null {
          locked := false;
          return None;
        }
        value := Some(node.value);
        Unlink(last, node, num);
      }
      locked := false;
    }

    /** list_contains; takes no lock. */
    method Contains(value: V) returns (found: bool)
      requires Valid()
      ensures found <==> value in Model()
    {
      var node := first;
      ghost var i := 0;
      while node != null
        invariant 0 <= i <= |spine| && node == At(i)
        invariant value !in Model()[..i]
        decreases |spine| - i
      {
        if node.value == value {
          assert Model()[i] == value;
          return true;
        }
        assert Model()[..i + 1] == Model()[..i] + [node.value];
        node, i := node.next, i + 1;
      }
      assert Model()[..i] == Model();
      return false;
    }

    /** list_get_count; takes no lock. */
    method GetCount() returns (i: nat)
      requires Valid()
      ensures i == |Model()|
    {
      i := 0;
      var node := first;
      while node != null
        invariant 0 <= i <= |spine| && node == At(i)
        decreases |spine| - i
      {
        i, node := i + 1, node.next;
      }
    }

    /** list_get_array: counts under the lock, then fills the array. */
    method GetArray() returns (a: seq<V>)
      requires Valid() && !locked
      modifies this`locked
      ensures Valid() && !locked && Model() == old(Model()) && a == Model()
    {
      locked := true;
      var num := GetCount();
      a := [];
      var node, i := first, 0;
      while i < num && node != null
        invariant 0 <= i <= |spine| && node == At(i)
        invariant Valid() && locked && a == Model()[..i]
      {
        a, node, i := a + [node.value], node.next, i + 1;
      }
      locked := false;
    }
  }
}
