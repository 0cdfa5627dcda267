/** `batched` of `minall/enrichment/twitter/get_data.py`: a sequence cut
    into consecutive lists of `n` items, the last one possibly shorter. The
    generator is modelled by the list of everything it yields. */
module Batching {
  import opened Wrappers

  /** `ValueError("n must be >= 1")`. */
  datatype BatchError = BatchSizeTooSmall

  /** The batches joined back together, in order. */
  function Flatten<T>(bs: seq<seq<T>>): seq<T>
    decreases |bs|
  {
    if |bs| == 0 then [] else Flatten(bs[..|bs| - 1]) + bs[|bs| - 1]
  }

  /** Every batch is non-empty and holds at most `n` items; every batch but
      the last holds exactly `n`. */
  predicate Batches<T>(bs: seq<seq<T>>, n: nat) {
    forall i :: 0 <= i < |bs| ==> 0 < |bs[i]| <= n && (i < |bs| - 1 ==> |bs[i]| == n)
  }

  /** `list(batched(s, n))`: refused when `n < 1`; otherwise batches that
      join back to `s`, as few as can hold it. */
  method Batched<T>(s: seq<T>, n: int) returns (r: Result<seq<seq<T>>, BatchError>)
    ensures r.Failure? <==> n < 1
    ensures r.Success? ==> Flatten(r.value) == s && Batches(r.value, n)
    ensures r.Success? ==> |r.value| * n >= |s| && (|r.value| - 1) * n < |s| + (if |s| == 0 then n else 0)
  {
    if n < 1 {
      return Failure(BatchSizeTooSmall);
    }
    var bs: seq<seq<T>> := [];
    var i := 0;
    while i < |s|
      invariant 0 <= i <= |s|
      invariant Flatten(bs) == s[..i]
      invariant Batches(bs, n)
      invariant i < |s| ==> forall j :: 0 <= j < |bs| ==> |bs[j]| == n
      invariant i < |s| ==> i == |bs| * n
      invariant |bs| * n >= i && (|bs| == 0 || (|bs| - 1) * n < i)
      decreases |s| - i
    {
      var take := if |s| - i < n then |s| - i else n;
      var batch := s[i..i + take];
      assert Flatten(bs + [batch]) == Flatten(bs) + batch by {
        assert (bs + [batch])[..|bs|] == bs;
      }
      assert s[..i] + s[i..i + take] == s[..i + take];
      assert (|bs| + 1) * n == |bs| * n + n;
      ghost var before := bs;
      bs := bs + [batch];
      assert forall j :: 0 <= j < |before| ==> bs[j] == before[j];
      i := i + take;
    }
    assert s[..i] == s;
    return Success(bs);
  }
}
