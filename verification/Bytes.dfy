/** Small shared vocabulary: bytes, optional values, powers of ten and overwritten byte strings. */
module Bytes {
  type Byte = bv8

  datatype Option<+T> = None | Some(value: T)

  /** Ten to the `n`. */
  function Pow10(n: nat): (p: nat)
    ensures p >= 1
  {
    if n == 0 then 1 else 10 * Pow10(n - 1)
  }

  /** `data` with the bytes from `pos` on replaced by `patch`. */
  function Overlay(data: seq<Byte>, pos: nat, patch: seq<Byte>): (r: seq<Byte>)
    requires pos + |patch| <= |data|
    ensures |r| == |data|
  {
    data[..pos] + patch + data[pos + |patch|..]
  }

  /** The patch is in place and nothing else moved. */
  lemma OverlayIs(data: seq<Byte>, pos: nat, patch: seq<Byte>)
    requires pos + |patch| <= |data|
    ensures var r := Overlay(data, pos, patch);
            && r[pos..pos + |patch|] == patch
            && forall i :: 0 <= i < |data| && !(pos <= i < pos + |patch|) ==> r[i] == data[i]
  {
  }

  /** Two adjacent patches are one patch. */
  lemma OverlayExtend(data: seq<Byte>, pos: nat, a: seq<Byte>, b: seq<Byte>)
    requires pos + |a| + |b| <= |data|
    ensures Overlay(Overlay(data, pos, a), pos + |a|, b) == Overlay(data, pos, a + b)
  {
  }

  lemma {:induction false} Pow10Grows(m: nat, n: nat)
    requires m <= n
    ensures Pow10(m) <= Pow10(n)
    decreases n
  {
    if m == n {
    } else {
      Pow10Grows(m, n - 1);
    }
  }
}
