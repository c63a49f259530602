/** The doubly linked list of lib/kernel/list.c, with its two sentinels, as a sequence of elements. */
module LinkedList {

  lemma PushedRow<T>(r: seq<T>, x: T)
    requires |r| >= 2
    ensures var q := r[..1] + [x] + r[1..]; q[1..|q| - 1] == [x] + r[1..|r| - 1]
  {
  }

  lemma AppendedRow<T>(r: seq<T>, x: T)
    requires |r| >= 2
    ensures var q := r[..|r| - 1] + [x] + r[|r| - 1..]; q[1..|q| - 1] == r[1..|r| - 1] + [x]
  {
  }

  lemma RemovedRow<T>(r: seq<T>, i: nat)
    requires i + 2 < |r|
    ensures var q, e := r[..i + 1] + r[i + 2..], r[1..|r| - 1]; q[1..|q| - 1] == e[..i] + e[i + 1..]
  {
  }

  class Elem {
    var prev: Elem?
    var next: Elem?
    constructor () { }
  }

  class List {
    const head: Elem
    const tail: Elem
    ghost var row: seq<Elem>   // the sentinels and everything between them, in order

    ghost predicate Distinct()
      reads this
    {
      forall i, j :: 0 <= i < j < |row| ==> row[i] != row[j]
    }

    ghost predicate Chained()
      reads this, row
    {
      forall i :: 0 <= i < |row| - 1 ==> row[i].next == row[i + 1] && row[i + 1].prev == row[i]
    }

    ghost predicate Valid()
      reads this, row
    {
      && |row| >= 2 && row[0] == head && row[|row| - 1] == tail
      && Distinct() && Chained()
    }

    /** What the list holds. */
    ghost function Elems(): seq<Elem>
      reads this
      requires |row| >= 2
    {
      row[1..|row| - 1]
    }

    constructor ()
      ensures Valid() && Elems() == [] && fresh(row)
    {
      head := new Elem();
      tail := new Elem();
      new;
      row := [head, tail];
      head.prev := null;
      head.next := tail;
      tail.prev := head;
      tail.next := null;
    }

    /** list_insert_before, given where `before` is. */
    method InsertBefore(before: Elem, elem: Elem, ghost i: nat)
      requires Valid() && 1 <= i < |row| && row[i] == before && elem !in row
      modifies this`row, row, elem
      ensures Valid() && row == old(row[..i]) + [elem] + old(row[i..])
    {
      var p := before.prev;
      assert p == row[i - 1] by { assert row[i - 1 + 1].prev == row[i - 1]; }
      p.next := elem;
      elem.prev := p;
      elem.next := before;
      before.prev := elem;
      ghost var was := row;
      row := row[..i] + [elem] + row[i..];
      forall j | 0 <= j < |row| - 1 ensures row[j].next == row[j + 1] && row[j + 1].prev == row[j] {
        if j < i - 1 {
          assert row[j] == was[j] && row[j + 1] == was[j + 1];
        } else if j > i {
          assert row[j] == was[j - 1] && row[j + 1] == was[j - 1 + 1];
        }
      }
    }

    method Push(elem: Elem)
      requires Valid() && elem !in row
      modifies this`row, row, elem
      ensures Valid() && Elems() == [elem] + old(Elems())
    {
      assert row[0].next == row[0 + 1];
      InsertBefore(head.next, elem, 1);
      PushedRow(old(row), elem);
    }

    method Append(elem: Elem)
      requires Valid() && elem !in row
      modifies this`row, row, elem
      ensures Valid() && Elems() == old(Elems()) + [elem]
    {
      InsertBefore(tail, elem, |row| - 1);
      AppendedRow(old(row), elem);
    }

    /** list_remove of the i-th element. */
    method Remove(elem: Elem, ghost i: nat)
      requires Valid() && i < |Elems()| && Elems()[i] == elem
      modifies this`row, row
      ensures Valid() && Elems() == old(Elems()[..i]) + old(Elems()[i + 1..])
    {
      ghost var k := i + 1;
      assert row[k] == elem;
      assert row[k - 1 + 1].prev == row[k - 1] && row[k].next == row[k + 1];
      elem.prev.next := elem.next;
      elem.next.prev := elem.prev;
      ghost var was := row;
      row := row[..k] + row[k + 1..];
      RemovedRow(was, i);
      forall j | 0 <= j < |row| - 1 ensures row[j].next == row[j + 1] && row[j + 1].prev == row[j] {
        if j < k - 1 {
          assert row[j] == was[j] && row[j + 1] == was[j + 1];
        } else if j >= k {
          assert row[j] == was[j + 1] && row[j + 1] == was[j + 1 + 1];
        }
      }
    }

    /** list_pop of a list that is not empty. */
    method Pop() returns (elem: Elem)
      requires Valid() && Elems() != []
      modifies this`row, row
      ensures Valid() && old(Elems()) == [elem] + Elems()
    {
      assert row[0].next == row[0 + 1];
      elem := head.next;
      Remove(elem, 0);
    }

    method Empty() returns (b: bool)
      requires Valid()
      ensures b <==> Elems() == []
    {
      assert row[0].next == row[0 + 1];
      b := head.next == tail;
    }

    /** elem_find. */
    method Find(obj: Elem) returns (b: bool)
      requires Valid()
      ensures b <==> obj in Elems()
    {
      assert row[0].next == row[0 + 1];
      var elem := head.next;
      ghost var i := 1;
      while elem != tail
        invariant 1 <= i < |row| && elem == row[i]
        invariant forall j :: 1 <= j < i ==> row[j] != obj
        decreases |row| - i
      {
        if elem == obj {
          assert Elems()[i - 1] == obj;
          return true;
        }
        assert row[i].next == row[i + 1];
        elem := elem.next;
        i := i + 1;
      }
      forall j | 0 <= j < |Elems()| ensures Elems()[j] != obj {
        assert Elems()[j] == row[j + 1];
      }
      return false;
    }
  }
}
