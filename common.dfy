/** Shared value types: nullable references, bytes, and the outcome of a call
    that may report an error or let an exception escape. */
module Common {

  /** A C# reference that may be null. */
  datatype Option<+T> = None | Some(value: T)

  /** An unsigned 8-bit value, as in `byte[]`. */
  type byte = b: int | 0 <= b < 256

  /** The outcome of a call that reports failures through an `out string error`
      parameter: either it returns (a possibly null result and a possibly null
      error), or an exception that the source does not catch escapes it. */
  datatype Reply<+T> = Returned(result: Option<T>, error: Option<string>) | Threw

  /** `string.IsNullOrEmpty(s)` negated. */
  predicate NonEmpty(s: Option<string>)
  {
    s.Some? && |s.value| > 0
  }

  /** C# string concatenation treats a null operand as the empty string. */
  function OrEmpty(s: Option<string>): (r: string)
    ensures s.Some? ==> r == s.value
    ensures s.None? ==> r == ""
  {
    if s.Some? then s.value else ""
  }

  /** `IndexOf`: the position of the first occurrence of `x`. */
  function FirstIndex<T(==)>(l: seq<T>, x: T): (i: nat)
    requires x in l
    ensures i < |l| && l[i] == x && x !in l[..i]
  {
    if l[0] == x then 0
    else
      var j := FirstIndex(l[1..], x);
      assert l[..j + 1] == [l[0]] + l[1..][..j];
      j + 1
  }

  /** An occurrence with none before it is the first one. */
  lemma {:induction false} FirstIndexUnique<T>(l: seq<T>, x: T, i: nat)
    requires i < |l| && l[i] == x && x !in l[..i]
    ensures FirstIndex(l, x) == i
  {
    if i > 0 {
      assert l[0] in l[..i];
      assert l[1..][..i - 1] == l[1..i];
      assert forall y :: y in l[1..i] ==> y in l[..i];
      FirstIndexUnique(l[1..], x, i - 1);
    }
  }
}
