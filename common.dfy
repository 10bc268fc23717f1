/** Python values and built-ins shared by both training scripts: optional
    values, raised exceptions, slicing and string joining. */
module Common {

  datatype Option<T> = None | Some(value: T)

  /** The exception a Python operation raises. */
  datatype Error =
    | KeyError        // a missing dictionary key
    | IndexError      // an index outside a list or a tensor dimension
    | ValueError      // an argument outside the accepted range
    | ShapeError      // tensors of different shapes given to torch.stack
    | EmptyTensor     // torch.max of a tensor with no element

  datatype Result<T> = Ok(value: T) | Err(error: Error) {
    predicate IsFailure() { Err? }
    function PropagateFailure<U>(): Result<U> requires Err? { Err(error) }
    function Extract(): T requires Ok? { value }
  }

  /** A bound of a Python slice: negative values count from the end, and
      the result is clamped into 0..n. */
  function SliceBound(i: int, n: nat): (r: nat)
    ensures r <= n
    ensures 0 <= i <= n ==> r == i
    ensures i > n ==> r == n
    ensures i < 0 ==> r == (if i + n < 0 then 0 else i + n)
  {
    if i < 0 then (if i + n < 0 then 0 else i + n) else if i > n then n else i
  }

  /** Python's `s[start:stop]`. */
  function Slice<T>(s: seq<T>, start: int, stop: int): (r: seq<T>)
    ensures |r| <= |s|
    ensures 0 <= start <= stop <= |s| ==> r == s[start..stop]
  {
    var a := SliceBound(start, |s|);
    var b := SliceBound(stop, |s|);
    if a < b then s[a..b] else []
  }

  /** Python's `s[:stop]`. */
  function Take<T>(s: seq<T>, stop: int): (r: seq<T>)
    ensures stop >= 0 ==> |r| == (if stop < |s| then stop else |s|)
    ensures stop >= 0 ==> r == s[..|r|]
  {
    Slice(s, 0, stop)
  }

  /** `''.join(parts)` for strings, and list concatenation in general. */
  function Concat<T>(parts: seq<seq<T>>): seq<T>
  {
    if |parts| == 0 then [] else Concat(parts[..|parts| - 1]) + parts[|parts| - 1]
  }

  lemma ConcatAppend<T>(parts: seq<seq<T>>, p: seq<T>)
    ensures Concat(parts + [p]) == Concat(parts) + p
  {
    assert (parts + [p])[..|parts|] == parts;
  }

  lemma {:induction false} ConcatPrepend<T>(p: seq<T>, parts: seq<seq<T>>)
    ensures Concat([p] + parts) == p + Concat(parts)
    decreases |parts|
  {
    if |parts| == 0 {
      assert [p] + parts == [] + [p];
    } else {
      var init := parts[..|parts| - 1];
      var last := parts[|parts| - 1];
      ConcatPrepend(p, init);
      assert ([p] + parts)[..|parts|] == [p] + init;
      assert Concat([p] + parts) == Concat([p] + init) + last;
    }
  }

  /** The elements of a list, as a set. */
  function Elems<T>(s: seq<T>): set<T>
  {
    set x | x in s
  }

  predicate Distinct<T(==)>(s: seq<T>)
  {
    forall i, j :: 0 <= i < j < |s| ==> s[i] != s[j]
  }

  /** `list.remove(x)`: drop the first occurrence of `x`, which must be
      there (Python raises `ValueError` otherwise). */
  function RemoveFirst<T(==)>(s: seq<T>, x: T): (r: seq<T>)
    requires x in s
    ensures |r| == |s| - 1
    ensures forall y :: y in r ==> y in s
  {
    assert s == [s[0]] + s[1..];
    if s[0] == x then s[1..]
    else [s[0]] + RemoveFirst(s[1..], x)
  }

  /** In a list without duplicates, `remove` drops exactly the element at
      its position. */
  lemma {:induction false} RemoveFirstAt<T>(s: seq<T>, i: nat)
    requires i < |s| && Distinct(s)
    ensures RemoveFirst(s, s[i]) == s[..i] + s[i + 1..]
  {
    if i > 0 {
      var t := s[1..];
      assert t[i - 1] == s[i] && s[0] != s[i];
      RemoveFirstAt(t, i - 1);
      assert RemoveFirst(s, s[i]) == [s[0]] + RemoveFirst(t, s[i]);
      assert t[..i - 1] + t[i..] == s[1..i] + s[i + 1..];
      assert [s[0]] + s[1..i] == s[..i];
    }
  }

  function Min(a: int, b: int): int { if a < b then a else b }

  function Max(a: int, b: int): int { if a < b then b else a }
}
