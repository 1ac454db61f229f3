/** Values as the emulator package receives them from its Python callers,
    and the numpy coercion it applies to them. */
module PyValues {

  datatype Option<T> = None | Some(value: T)

  datatype Result<T, E> = Success(value: T) | Failure(error: E)

  /** A loosely typed Python value: what a caller may bind to a keyword
      argument. Floating point is modelled by `real`; every object the
      package never looks inside (the `self` instance, a string, ...) is
      `PyObject`. */
  datatype PyValue =
    | PyNone
    | PyReal(r: real)
    | PyList(items: seq<PyValue>)
    | PyDict(entries: map<string, PyValue>)
    | PyObject

  /** `numpy.atleast_1d` on one value: an array (here a list) is returned
      as it is, anything else becomes a one-element array holding it. */
  function AtLeast1D(v: PyValue): (a: seq<PyValue>)
    ensures v.PyList? ==> a == v.items
    ensures !v.PyList? ==> |a| == 1 && a[0] == v
  {
    match v
    case PyList(items) => items
    case _ => [v]
  }

  /** The shape numpy gives an array built from a value: a value that is
      not a list has the empty shape, a list of n items that all have the
      same shape s has shape [n] + s, and a ragged list, whose items differ
      in shape, has none (numpy 1.24 and later raise `ValueError`). */
  function Shape(v: PyValue): (s: Option<seq<nat>>)
    ensures !v.PyList? ==> s == Some([])
    ensures v.PyList? && s.Some? ==> |s.value| >= 1 && s.value[0] == |v.items|
  {
    match v
    case PyList(items) =>
      if |items| == 0 then Some([0])
      else
        var first := Shape(items[0]);
        if first.Some? && forall i :: 0 <= i < |items| ==> Shape(items[i]) == first then
          Some([|items|] + first.value)
        else
          None
    case _ => Some([])
  }

  /** A list of plain values (numbers, `None`, objects) is a 1-D array of
      its length. */
  lemma FlatListIsVector(items: seq<PyValue>)
    requires forall i :: 0 <= i < |items| ==> !items[i].PyList?
    ensures Shape(PyList(items)) == Some([|items|])
  {
    if |items| > 0 {
      assert forall i :: 0 <= i < |items| ==> Shape(items[i]) == Some([]);
      assert [|items|] + [] == [|items|];
    }
  }

  /** Two items of a list with different shapes make the list ragged: numpy
      cannot build an array from it. */
  lemma MixedItemsAreRagged(items: seq<PyValue>, i: nat, j: nat)
    requires i < |items| && j < |items| && Shape(items[i]) != Shape(items[j])
    ensures Shape(PyList(items)) == None
  {
  }

  /** Whether a caller has really supplied a value: the value is not `None`
      and, for an array, its first element is not `None` either. Only the
      first element is looked at. */
  predicate IsProvided(v: PyValue) {
    match v
    case PyNone => false
    case PyList(items) => |items| > 0 && items[0] != PyNone
    case _ => true
  }

  /** Coercing an already coerced value changes nothing, so applying
      `atleast_1d` a second time is harmless. */
  lemma AtLeast1DIdempotent(v: PyValue)
    ensures AtLeast1D(PyList(AtLeast1D(v))) == AtLeast1D(v)
  {
  }

  /** After coercion, the first element is not `None` exactly when the
      caller supplied the value, for every value whose coercion is
      non-empty. */
  lemma FirstElementDecidesProvided(v: PyValue)
    requires v != PyList([])
    ensures |AtLeast1D(v)| > 0
    ensures AtLeast1D(v)[0] != PyNone <==> IsProvided(v)
  {
  }
}
