/** Octet strings. */
module Bytes {

  datatype Result<+T, +E> = Ok(value: T) | Err(error: E)

  newtype octet = b: int | 0 <= b < 256

  function Sum(s: seq<octet>): nat {
    if s == [] then 0 else Sum(s[..|s| - 1]) + s[|s| - 1] as int
  }

  /** Replacing an octet moves the sum by the difference. */
  lemma {:induction false} SumReplaced(s: seq<octet>, i: nat, b: octet)
    requires i < |s|
    ensures Sum(s[i := b]) == Sum(s) - s[i] as int + b as int
  {
    var last := |s| - 1;
    if i < last {
      SumReplaced(s[..last], i, b);
      assert s[i := b][..last] == s[..last][i := b];
    } else {
      assert s[i := b][..last] == s[..last];
    }
  }

  lemma {:induction false} SumSplit(s: seq<octet>, k: nat)
    requires k <= |s|
    ensures Sum(s) == Sum(s[..k]) + Sum(s[k..])
  {
    var last := |s| - 1;
    if k == |s| {
      assert s[..k] == s;
    } else {
      SumSplit(s[..last], k);
      assert s[..last][..k] == s[..k] && s[k..][..|s[k..]| - 1] == s[..last][k..];
    }
  }
}
