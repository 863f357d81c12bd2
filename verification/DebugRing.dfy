/** The byte-capped flight recorder and the pure function of its history it equals. */
module DebugRing {
  import opened PyValues
  import opened Bytes

  function Total(records: seq<seq<octet>>): nat {
    if records == [] then 0 else |records[0]| + Total(records[1..])
  }

  /** The first index from `i` on at which the rest of the history fits or is one record. */
  function Cut(history: seq<seq<octet>>, cap: nat, i: nat): (r: nat)
    requires i <= |history|
    ensures i <= r <= |history| && (i < |history| ==> r < |history|)
    decreases |history| - i
  {
    if i + 1 >= |history| || Total(history[i..]) <= cap then i else Cut(history, cap, i + 1)
  }

  function Kept(history: seq<seq<octet>>, cap: nat): seq<seq<octet>> {
    history[Cut(history, cap, 0)..]
  }

  class DebugRing {
    const sizeBytes: nat
    var buffer: seq<seq<octet>>
    var byteCount: nat
    ghost var history: seq<seq<octet>> // emitted since the last clear

    ghost predicate Valid()
      reads this
    {
      buffer == Kept(history, sizeBytes) && byteCount == Total(buffer)
    }

    constructor (sizeBytes: nat)
      requires sizeBytes > 0
      ensures Valid() && history == [] && this.sizeBytes == sizeBytes
    {
      this.sizeBytes := sizeBytes;
      buffer, byteCount, history := [], 0, [];
    }

    /** `serialised` is None when serialisation raised. */
    method Emit(serialised: Option<seq<octet>>)
      requires Valid()
      modifies this
      ensures Valid()
      ensures history == if serialised.Some? then old(history) + [serialised.value] else old(history)
    {
      if serialised.None? {
        return;
      }
      hide Cut;
      var record := serialised.value;
      ghost var all := history + [record];
      ghost var i := Cut(history, sizeBytes, 0);
      CutGrows(history, sizeBytes, record);
      TotalAppend(buffer, record);
      buffer := buffer + [record];
      byteCount := byteCount + |record|;
      while byteCount > sizeBytes && |buffer| > 1
        invariant 0 <= i < |all| && buffer == all[i..] && byteCount == Total(buffer)
        invariant Cut(all, sizeBytes, i) == Cut(all, sizeBytes, 0)
        decreases |buffer|
      {
        CutStep(all, sizeBytes, i);
        assert all[i..][1..] == all[i + 1..];
        byteCount := byteCount - |buffer[0]|;
        buffer := buffer[1..];
        i := i + 1;
      }
      CutStep(all, sizeBytes, i);
      history := all;
    }

    method Snapshot() returns (records: seq<seq<octet>>)
      requires Valid()
      ensures records == Kept(history, sizeBytes)
    {
      records := buffer;
    }

    method Clear()
      requires Valid()
      modifies this
      ensures Valid() && history == []
    {
      buffer, byteCount, history := [], 0, [];
    }
  }

  lemma CutStep(history: seq<seq<octet>>, cap: nat, i: nat)
    requires i < |history|
    ensures Cut(history, cap, i)
            == if i + 1 == |history| || Total(history[i..]) <= cap then i else Cut(history, cap, i + 1)
  {
  }

  lemma {:induction false} TotalAppend(records: seq<seq<octet>>, r: seq<octet>)
    ensures Total(records + [r]) == Total(records) + |r|
  {
    if records == [] {
      assert [r][1..] == [];
    } else {
      TotalAppend(records[1..], r);
      assert (records + [r])[1..] == records[1..] + [r];
    }
  }

  /** Dropping from the front never makes the rest larger. */
  lemma {:induction false} TotalShrinks(records: seq<seq<octet>>, i: nat)
    requires i <= |records|
    ensures Total(records[i..]) <= Total(records)
  {
    if i > 0 {
      TotalShrinks(records[1..], i - 1);
      assert records[1..][i - 1..] == records[i..];
    }
  }

  /** Everything cut off so far would overflow the cap. */
  lemma {:induction false} CutForCause(history: seq<seq<octet>>, cap: nat, i: nat, j: nat)
    requires i <= |history| && i <= j < Cut(history, cap, i)
    ensures Total(history[j..]) > cap
    decreases |history| - i
  {
    if i < j {
      CutForCause(history, cap, i + 1, j);
    }
  }

  lemma {:induction false} CutSkips(history: seq<seq<octet>>, cap: nat, i: nat, k: nat)
    requires i <= k < |history|
    requires forall j :: i <= j < k ==> Total(history[j..]) > cap
    ensures Cut(history, cap, k) == Cut(history, cap, i)
    decreases k - i
  {
    if i < k {
      CutSkips(history, cap, i + 1, k);
    }
  }

  /** What one more record cannot bring back: evictions continue from the old cut. */
  lemma CutGrows(history: seq<seq<octet>>, cap: nat, r: seq<octet>)
    ensures var all, i := history + [r], Cut(history, cap, 0);
            i < |all| && Cut(all, cap, i) == Cut(all, cap, 0) && all[i..] == Kept(history, cap) + [r]
  {
    var all, k := history + [r], Cut(history, cap, 0);
    forall j | 0 <= j < k ensures Total(all[j..]) > cap {
      CutForCause(history, cap, 0, j);
      TotalAppend(history[j..], r);
      assert all[j..] == history[j..] + [r];
    }
    CutSkips(all, cap, 0, k);
  }

  lemma {:induction false} CutStops(history: seq<seq<octet>>, cap: nat, i: nat)
    requires i < |history|
    ensures var k := Cut(history, cap, i);
            Total(history[k..]) <= cap || k == |history| - 1
    decreases |history| - i
  {
    if i + 1 < |history| && Total(history[i..]) > cap {
      CutStops(history, cap, i + 1);
    }
  }

  /** What the ring holds is a suffix of the history that fits the cap, and every longer
      suffix overflows it; an oversized last record is held alone. */
  lemma LongestFittingSuffix(history: seq<seq<octet>>, cap: nat)
    requires history != []
    ensures var k := Cut(history, cap, 0);
            && k < |history| && Kept(history, cap) == history[k..]
            && (forall j :: 0 <= j < k ==> Total(history[j..]) > cap)
            && (if |history[|history| - 1]| <= cap then Total(Kept(history, cap)) <= cap
                else Kept(history, cap) == [history[|history| - 1]])
  {
    var k := Cut(history, cap, 0);
    forall j | 0 <= j < k ensures Total(history[j..]) > cap {
      CutForCause(history, cap, 0, j);
    }
    CutStops(history, cap, 0);
    var last := |history| - 1;
    assert history[last..] == [history[last]] && [history[last]][1..] == [];
    assert Total(history[last..]) == |history[last]|;
    if |history[last]| > cap {
      TotalShrinks(history[k..], last - k);
      assert history[k..][last - k..] == history[last..];
    }
  }
}
