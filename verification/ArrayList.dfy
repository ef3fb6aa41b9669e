/** arraylist.c: a list that grows by doubling, as json_object_array_add uses it. */
module ArrayList {
  import opened JsonValue

  const DEFAULT_SIZE := 32

  /** struct array_list; an element may be NULL, and so is every place beyond the length. */
  class ArrayList<T(0)> {
    var data: array<Option<T>>
    var length: nat
    ghost var freed: seq<T>

    ghost predicate Valid()
      reads this, data
    {
      length <= data.Length && 0 < data.Length && forall i :: length <= i < data.Length ==> data[i] == None
    }

    ghost function Elements(): (s: seq<Option<T>>)
      reads this, data
      requires Valid()
      ensures |s| == length
    {
      data[..length]
    }

    constructor ()
      ensures Valid() && fresh(data) && Elements() == [] && freed == [] && data.Length == 32
    {
      length, freed := 0, [];
      data := new Option<T>[DEFAULT_SIZE](_ => None);
    }

    /** array_list_expand_internal: nothing while the index is inside, else the larger of twice the size and
        the index. There is room for the index afterwards if and only if it is below twice the size. */
    method Expand(max: nat)
      requires Valid()
      modifies this`data
      ensures Valid() && Elements() == old(Elements())
      ensures data.Length == if max < old(data.Length) then old(data.Length) else Max(2 * old(data.Length), max)
      ensures max < data.Length <==> max < 2 * old(data.Length)
      ensures if max < old(data.Length) then data == old(data) else fresh(data)
    {
      if max < data.Length {
        return;
      }
      var was := data;
      var bigger := new Option<T>[Max(2 * was.Length, max)]
        (i requires 0 <= i reads was => if i < was.Length then was[i] else None);
      data := bigger;
      assert data[..length] == was[..length];
    }

    /** array_list_put_idx, for an index that Expand makes room for. What stood in the place is freed. */
    method PutIdx(idx: nat, x: Option<T>)
      requires Valid() && idx < 2 * data.Length
      modifies this, data
      ensures Valid() && (data == old(data) || fresh(data))
      ensures length == Max(old(length), idx + 1)
      ensures forall i :: 0 <= i < length ==>
                Elements()[i] == if i == idx then x else if i < old(length) then old(Elements())[i] else None
      ensures freed == if idx < old(length) && old(Elements())[idx].Some?
                       then old(freed) + [old(Elements())[idx].value] else old(freed)
    {
      Expand(idx);
      if data[idx].Some? {
        freed := freed + [data[idx].value];
      }
      data[idx] := x;
      if length <= idx {
        length := idx + 1;
      }
    }

    /** array_list_add: the element comes last, nothing is freed, and the array at most doubles. */
    method Add(x: Option<T>)
      requires Valid()
      modifies this, data
      ensures Valid() && (data == old(data) || fresh(data))
      ensures Elements() == old(Elements()) + [x] && freed == old(freed)
    {
      PutIdx(length, x);
      assert Elements() == old(Elements()) + [x];
    }

    /** array_list_get_idx: NULL beyond the end. */
    method GetIdx(i: nat) returns (x: Option<T>)
      requires Valid()
      ensures x == if i < length then Elements()[i] else None
    {
      if i >= length {
        return None;
      }
      x := data[i];
    }
  }
}
