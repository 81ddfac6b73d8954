/** Go slices: the first elements of an array that may have room for more, and the operations that share or copy it. */
module GoSlices {
  import opened Collections

  datatype Slice<T> = Slice(data: array<T>, length: nat)
  {
    ghost predicate Valid() {
      length <= data.Length
    }

    function View(): (view: seq<T>)
      requires Valid()
      reads data
      ensures |view| == length
    {
      data[..length]
    }
  }

  function Whole<T>(data: array<T>): Slice<T> {
    Slice(data, data.Length)
  }

  /** A slice of its own for the elements of a sequence. */
  method FromSeq<T>(elements: seq<T>) returns (s: Slice<T>)
    ensures s.Valid() && fresh(s.data) && s.View() == elements
  {
    var data := new T[|elements|](i requires 0 <= i < |elements| => elements[i]);
    return Whole(data);
  }

  /** slices.Clone. */
  method Clone<T>(s: Slice<T>) returns (copy: array<T>)
    requires s.Valid()
    ensures fresh(copy) && copy[..] == s.View()
  {
    copy := new T[s.length](i requires 0 <= i < s.length && s.Valid() reads s.data => s.data[i]);
  }

  /** append: into spare capacity when there is some, and into a longer array otherwise. */
  method Append<T>(s: Slice<T>, x: T) returns (r: Slice<T>)
    requires s.Valid()
    modifies s.data
    ensures r.Valid() && r.View() == old(s.View()) + [x]
    ensures r.data == s.data || fresh(r.data)
    ensures s.View() == old(s.View())
  {
    ghost var before := s.View();
    if s.length < s.data.Length {
      s.data[s.length] := x;
      assert s.View() == before;
      return Slice(s.data, s.length + 1);
    }
    var data := new T[2 * s.length + 1](i requires 0 <= i && s.Valid() reads s.data => if i < s.length then s.data[i] else x);
    return Slice(data, s.length + 1);
  }

  /** slices.Delete of one element: the tail moves up within the array, and the place it leaves is cleared. */
  method Delete<T>(s: Slice<T>, index: nat, zero: T) returns (r: Slice<T>)
    requires s.Valid() && index < s.length
    modifies s.data
    ensures r == Slice(s.data, s.length - 1)
    ensures r.View() == Without(old(s.View()), index)
  {
    ghost var before := s.View();
    for i := index to s.length - 1
      invariant forall k | 0 <= k < index :: s.data[k] == before[k]
      invariant forall k | index <= k < i :: s.data[k] == before[k + 1]
      invariant forall k | i <= k < s.length :: s.data[k] == before[k]
    {
      s.data[i] := s.data[i + 1];
    }
    s.data[s.length - 1] := zero;
    r := Slice(s.data, s.length - 1);
    assert r.View() == before[..index] + before[index + 1..];
  }
}
