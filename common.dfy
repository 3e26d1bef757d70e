/** Small shared vocabulary: the two Python exceptions the analysis scripts
    run into, a result type that carries them, and Python's slicing and
    indexing of lists and arrays. */
module Common {

  /** The exceptions raised by the modelled code. `ValueError` is what numpy
      raises when reducing an empty array; `IndexError` is list indexing out
      of range. */
  datatype Error = ValueError | IndexError

  datatype Result<+T> = Ok(value: T) | Err(error: Error)

  function Min(a: int, b: int): int
  {
    if a <= b then a else b
  }

  function Max(a: int, b: int): int
  {
    if a <= b then b else a
  }

  function Abs(a: int): int
  {
    if a < 0 then -a else a
  }

  /** Python's `s[lo:hi]` for non-negative bounds: both ends are clipped to
      the length and an inverted range is empty. */
  function Slice<T>(s: seq<T>, lo: nat, hi: nat): (r: seq<T>)
    ensures |r| == Max(0, Min(hi, |s|) - Min(lo, |s|))
    ensures forall i | 0 <= i < |r| :: lo + i < |s| && r[i] == s[lo + i]
  {
    if lo >= hi || lo >= |s| then [] else s[lo..Min(hi, |s|)]
  }

  /** Python's `s[i]`, where a negative index counts from the end. */
  function Index<T>(s: seq<T>, i: int): (r: Result<T>)
    ensures r.Ok? <==> -|s| <= i < |s|
    ensures 0 <= i < |s| ==> r == Ok(s[i])
    ensures -|s| <= i < 0 ==> r == Ok(s[|s| + i])
    ensures r.Err? ==> r.error == IndexError
  {
    if 0 <= i < |s| then Ok(s[i])
    else if -|s| <= i < 0 then Ok(s[|s| + i])
    else Err(IndexError)
  }
}
