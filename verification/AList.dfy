/** The growing list of alist.c: a buffer that doubles when it is full. */
module ALists {
  import opened Types

  class AList<T(0)> {
    var size: nat
    var elements: array<T>
    /** Slots copied by reallocation, capacity at creation, and the number of adds so far. */
    ghost var copied: nat
    ghost var initial: nat
    ghost var adds: nat

    ghost predicate Valid()
      reads this
    {
      size <= elements.Length
      && size <= adds
      && copied + initial == elements.Length
      && (elements.Length == initial || elements.Length < 2 * adds)
    }

    ghost function Contents(): seq<T>
      reads this, elements
      requires Valid()
    {
      elements[..size]
    }

    /** It can grow, and holds these items. */
    ghost predicate Carries(items: seq<T>)
      reads this, elements
    {
      Valid() && 0 < initial && Contents() == items
    }

    constructor (capacity: nat)
      ensures Valid() && fresh(elements) && Contents() == [] && adds == 0 && initial == capacity
    {
      size, elements := 0, new T[capacity];
      copied, initial, adds := 0, capacity, 0;
    }

    /** Double the capacity until `required` elements fit. From zero that would never end. */
    method Ensure(required: nat)
      requires size <= elements.Length && (required <= elements.Length || 0 < elements.Length)
      modifies this`elements, this`copied
      ensures required <= elements.Length && size <= elements.Length
      ensures elements[..size] == old(elements[..size])
      ensures elements == old(elements) || fresh(elements)
      ensures copied - old(copied) == elements.Length - old(elements.Length)
      ensures elements.Length == old(elements.Length) || elements.Length < 2 * required
    {
      while elements.Length < required
        invariant size <= elements.Length && (required <= elements.Length || 0 < elements.Length)
        invariant elements[..size] == old(elements[..size])
        invariant elements == old(elements) || fresh(elements)
        invariant copied - old(copied) == elements.Length - old(elements.Length)
        invariant elements.Length == old(elements.Length) || elements.Length < 2 * required
        decreases required - elements.Length
      {
        var bigger := new T[elements.Length * 2];
        forall i | 0 <= i < elements.Length {
          bigger[i] := elements[i];
        }
        copied := copied + elements.Length;
        elements := bigger;
      }
    }

    function Size(): nat
      reads this`size
    {
      size
    }

    predicate Empty()
      reads this`size
    {
      size == 0
    }

    function Get(index: nat): (item: Option<T>)
      requires Valid()
      reads this, elements
      ensures item == if index < |Contents()| then Some(Contents()[index]) else None
    {
      if index >= size then None else Some(elements[index])
    }

    /** Append. Over any run of adds, doubling has copied fewer than two slots per add. */
    method Add(item: T)
      requires Valid() && 0 < initial
      modifies this, elements
      ensures Valid() && Contents() == old(Contents()) + [item]
      ensures elements == old(elements) || fresh(elements)
      ensures initial == old(initial) && adds == old(adds) + 1 && copied < 2 * adds
    {
      Ensure(size + 1);
      elements[size] := item;
      size := size + 1;
      adds := adds + 1;
    }

    method Set(index: nat, item: T)
      requires Valid()
      modifies elements
      ensures Contents() == if index < |old(Contents())| then old(Contents())[index := item] else old(Contents())
    {
      if index >= size {
        return;
      }
      elements[index] := item;
    }

    method Remove(index: nat) returns (removed: Option<T>)
      requires Valid()
      modifies this`size, elements
      ensures Valid()
      ensures index < |old(Contents())| ==>
                removed == Some(old(Contents())[index])
                && Contents() == old(Contents())[..index] + old(Contents())[index + 1..]
      ensures index >= |old(Contents())| ==> removed == None && Contents() == old(Contents())
    {
      if index >= size {
        return None;
      }
      removed := Some(elements[index]);
      ghost var was := elements[..size];
      for i := index + 1 to size
        invariant size == |was|
        invariant elements[..i - 1] == was[..index] + was[index + 1..i]
        invariant elements[i..size] == was[i..]
      {
        assert elements[i] == elements[i..size][0];
        elements[i - 1] := elements[i];
        assert elements[..i] == elements[..i - 1] + [was[i]];
        assert elements[i + 1..size] == elements[i..size][1..];
      }
      size := size - 1;
    }
  }
}
