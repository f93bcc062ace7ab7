/** Small result types shared by every module. */
module Base {

  datatype Option<+T> = None | Some(value: T) {
    predicate IsFailure() {
      None?
    }

    function PropagateFailure<U>(): Option<U>
      requires None?
    {
      None
    }

    function Extract(): T
      requires Some?
    {
      value
    }
  }

  /** An error return: `Pass` is Go's nil error. */
  datatype Outcome<+E> = Pass | Fail(error: E)

  /** A Go slice value. `Nil` and an empty `Slice` have the same elements, but JSON prints them
      differently. */
  datatype Slice<+T> = Nil | Slice(items: seq<T>) {
    function Elems(): seq<T> {
      if Nil? then [] else items
    }
  }

  /** The first place at which two sequences of one length differ. */
  function FirstDifference<T(==)>(s: seq<T>, t: seq<T>): (i: nat)
    requires |s| == |t| && s != t
    ensures i < |s| && s[i] != t[i]
  {
    if s[0] != t[0] then 0
    else
      assert s == [s[0]] + s[1..] && t == [t[0]] + t[1..];
      1 + FirstDifference(s[1..], t[1..])
  }
}
