/** Types and constants shared by every part of the model. */
module Basics {

  datatype Option<+T> = None | Some(value: T) {
    function GetOr(default: T): T {
      match this
      case Some(v) => v
      case None => default
    }
  }

  type Byte = b: int | 0 <= b < 256

  type Bytes = seq<Byte>

  /** A C string without its terminator. */
  type Name = seq<Byte>

  // Owner values with a meaning of their own (src/source/file.h).
  const OWNER_NEXIST := -1
  const OWNER_NULL := 0
  const OWNER_ADMIN := 1024

  const INT_MAX := 0x7FFF_FFFF

  /** The errno values the file layer reports; OK stands for a return value of 0. */
  datatype Errno = OK | ENOENT | EAGAIN | EPERM | EEXIST | EINVAL

  /** A file that left the server inside a reply: its name and its whole contents. */
  datatype Frame = Frame(name: Name, bytes: Bytes)

  function Max(a: int, b: int): int {
    if a < b then b else a
  }

  /** The sum of a weight over a sequence. */
  function Sum<T>(s: seq<T>, weight: T -> int): int {
    if |s| == 0 then 0 else Sum(s[..|s| - 1], weight) + weight(s[|s| - 1])
  }

  /** Replacing one element moves the sum by the difference of the two weights. */
  lemma {:induction false} SumUpdate<T>(s: seq<T>, i: nat, x: T, weight: T -> int)
    requires i < |s|
    ensures Sum(s[i := x], weight) == Sum(s, weight) - weight(s[i]) + weight(x)
  {
    var t := s[i := x];
    if i < |s| - 1 {
      assert t[..|s| - 1] == s[..|s| - 1][i := x];
      SumUpdate(s[..|s| - 1], i, x, weight);
    } else {
      assert t[..|s| - 1] == s[..|s| - 1];
    }
  }

  lemma {:induction false} SumNonNegative<T>(s: seq<T>, weight: T -> int)
    requires forall i :: 0 <= i < |s| ==> weight(s[i]) >= 0
    ensures Sum(s, weight) >= 0
    ensures forall i :: 0 <= i < |s| ==> weight(s[i]) <= Sum(s, weight)
  {
    if |s| > 0 {
      SumNonNegative(s[..|s| - 1], weight);
      assert forall i :: 0 <= i < |s| - 1 ==> s[i] == s[..|s| - 1][i];
    }
  }

  /** Two sequences of equal length whose weights agree place by place have the same sum. */
  lemma {:induction false} SumAgree<T>(s: seq<T>, t: seq<T>, weight: T -> int)
    requires |s| == |t|
    requires forall i :: 0 <= i < |s| ==> weight(s[i]) == weight(t[i])
    ensures Sum(s, weight) == Sum(t, weight)
  {
    if |s| > 0 {
      SumAgree(s[..|s| - 1], t[..|s| - 1], weight);
    }
  }

  lemma {:induction false} SumZero<T>(s: seq<T>, weight: T -> int)
    requires forall i :: 0 <= i < |s| ==> weight(s[i]) == 0
    ensures Sum(s, weight) == 0
  {
    if |s| > 0 {
      SumZero(s[..|s| - 1], weight);
    }
  }
}
