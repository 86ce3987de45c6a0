/** Datatypes shared by all modules. */
module Prelude {

  datatype Option<+T> = None | Some(value: T) {
    function GetOr(default: T): T {
      match this
      case Some(v) => v
      case None => default
    }
  }

  /** A Python call either returns a value or raises an exception. */
  datatype Outcome<+T, +E> = Ok(value: T) | Raise(error: E)

  function MaxReal(x: real, y: real): (m: real)
    ensures x <= m && y <= m && (m == x || m == y)
  {
    if x < y then y else x
  }

  function MaxInt(x: int, y: int): (m: int)
    ensures x <= m && y <= m && (m == x || m == y)
  {
    if x < y then y else x
  }

  /** Python's `part in whole` on strings. */
  predicate IsSubstring(part: string, whole: string) {
    exists i :: 0 <= i <= |whole| && part <= whole[i..]
  }

  predicate IsInside(whole: string, before: string, part: string, after: string) {
    whole == before + part + after
  }

  lemma SubstringIffInside(part: string, whole: string)
    ensures IsSubstring(part, whole) <==> exists before, after :: IsInside(whole, before, part, after)
  {
    if i :| 0 <= i <= |whole| && part <= whole[i..] {
      assert IsInside(whole, whole[..i], part, whole[i + |part|..]);
    }
    if before, after :| IsInside(whole, before, part, after) {
      assert whole[|before|..] == part + after;
    }
  }
}
