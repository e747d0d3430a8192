/** Call indices: `call_to_index` and `calls_to_indices` of the pallet, and the
    order-preserving de-duplication the latter performs. */
module CallIndices {
  import opened Types

  /** A call can be indexed when its encoding holds at least two bytes. */
  predicate Encodable(call: RuntimeCall) {
    |call.encoding| >= 2
  }

  /** `call_to_index`: the pallet and call bytes, i.e. the first two bytes of
      the encoding; a shorter encoding fails with `EncodingFailed`. */
  function CallToIndex(call: RuntimeCall): (r: Result<CallIndex>)
    ensures r.Ok? <==> Encodable(call)
    ensures r.Err? ==> r.error == Module(EncodingFailed)
    ensures r.Ok? ==> [r.value.0, r.value.1] == call.encoding[..2]
  {
    if |call.encoding| < 2 then Err(Module(EncodingFailed))
    else Ok((call.encoding[0], call.encoding[1]))
  }

  predicate NoDuplicates<T(==)>(s: seq<T>) {
    forall i, j :: 0 <= i < j < |s| ==> s[i] != s[j]
  }

  /** The index of the first occurrence of `x` in `xs`. */
  function FirstIndex<T(==)>(xs: seq<T>, x: T): (k: nat)
    requires x in xs
    ensures k < |xs| && xs[k] == x && x !in xs[..k]
  {
    if xs[0] == x then 0
    else
      assert x in xs[1..] by { var j :| 0 <= j < |xs| && xs[j] == x; assert xs[1..][j - 1] == x; }
      var k := 1 + FirstIndex(xs[1..], x);
      assert xs[..k] == [xs[0]] + xs[1..][..k - 1];
      k
  }

  /** The elements of `xs`, each kept at its first occurrence, in order:
      the list `calls_to_indices` builds by pushing an index only when the
      list does not contain it yet. */
  function Dedup<T(==,!new)>(xs: seq<T>): (r: seq<T>)
    ensures NoDuplicates(r)
    ensures forall x :: x in r <==> x in xs
    ensures |r| <= |xs|
  {
    if xs == [] then []
    else
      var d := Dedup(xs[..|xs| - 1]);
      var last := xs[|xs| - 1];
      assert xs == xs[..|xs| - 1] + [last];
      if last in d then d else d + [last]
  }

  /** The index of every call, in order; defined when every call is encodable. */
  function Indices(calls: seq<RuntimeCall>): (r: seq<CallIndex>)
    requires forall i :: 0 <= i < |calls| ==> Encodable(calls[i])
    ensures |r| == |calls|
    ensures forall i :: 0 <= i < |calls| ==> CallToIndex(calls[i]) == Ok(r[i])
  {
    if calls == [] then []
    else
      var last := calls[|calls| - 1];
      assert Encodable(last);
      Indices(calls[..|calls| - 1]) + [(last.encoding[0], last.encoding[1])]
  }

  /** Indexing one more call appends its index. */
  lemma IndicesSnoc(calls: seq<RuntimeCall>, i: nat)
    requires i < |calls| && forall k :: 0 <= k <= i ==> Encodable(calls[k])
    ensures Indices(calls[..i + 1]) == Indices(calls[..i]) + [CallToIndex(calls[i]).value]
  {
  }

  /** What `calls_to_indices` returns: `EncodingFailed` when some call cannot
      be indexed, otherwise the distinct indices in first-occurrence order. */
  function IndicesOf(calls: seq<RuntimeCall>): (r: Result<seq<CallIndex>>)
    ensures r.Err? <==> exists i :: 0 <= i < |calls| && !Encodable(calls[i])
    ensures r.Err? ==> r.error == Module(EncodingFailed)
    ensures r.Ok? ==> NoDuplicates(r.value) && |r.value| <= |calls|
    ensures r.Ok? ==> forall x :: x in r.value <==> exists i :: 0 <= i < |calls| && CallToIndex(calls[i]) == Ok(x)
  {
    if forall i :: 0 <= i < |calls| ==> Encodable(calls[i]) then
      var ix := Indices(calls);
      assert forall x :: x in ix <==> exists i :: 0 <= i < |calls| && CallToIndex(calls[i]) == Ok(x) by {
        forall x ensures x in ix <==> exists i :: 0 <= i < |calls| && CallToIndex(calls[i]) == Ok(x) {
          if x in ix { var i :| 0 <= i < |ix| && ix[i] == x; assert CallToIndex(calls[i]) == Ok(x); }
        }
      }
      Ok(Dedup(ix))
    else
      Err(Module(EncodingFailed))
  }

  /** `calls_to_indices`: one pass over the calls, stopping at the first call
      that cannot be indexed, pushing each index not yet in the list. */
  method CallsToIndices(calls: seq<RuntimeCall>) returns (r: Result<seq<CallIndex>>)
    ensures r == IndicesOf(calls)
  {
    var indices: seq<CallIndex> := [];
    for i := 0 to |calls|
      invariant forall k :: 0 <= k < i ==> Encodable(calls[k])
      invariant indices == Dedup(Indices(calls[..i]))
    {
      var index := CallToIndex(calls[i]);
      if index.Err? {
        return Err(index.error);
      }
      IndicesSnoc(calls, i);
      ghost var ix := Indices(calls[..i + 1]);
      assert ix[..|ix| - 1] == Indices(calls[..i]);
      if index.value !in indices {
        indices := indices + [index.value];
      }
    }
    assert calls[..|calls|] == calls;
    return Ok(indices);
  }

  /** Only the two-byte prefix of an encoding matters: calls that share it
      are indistinguishable to the pallet. */
  lemma SamePrefixSameIndex(c1: RuntimeCall, c2: RuntimeCall)
    requires Encodable(c1) && Encodable(c2)
    requires c1.encoding[..2] == c2.encoding[..2]
    ensures CallToIndex(c1) == CallToIndex(c2)
    ensures CallToIndex(c1).Ok?
  {
  }

  /** `FirstIndex` is the only position that holds `x` with no earlier `x`. */
  lemma {:induction false} FirstIndexUnique<T(!new)>(xs: seq<T>, x: T, k: nat)
    requires k < |xs| && xs[k] == x && x !in xs[..k]
    ensures FirstIndex(xs, x) == k
  {
  }

  /** `Dedup` keeps first-occurrence order: an element that comes earlier in
      the result occurs for the first time earlier in the input. */
  lemma {:induction false} DedupKeepsFirstOccurrenceOrder<T(!new)>(xs: seq<T>)
    ensures forall i, j :: 0 <= i < j < |Dedup(xs)| ==>
      FirstIndex(xs, Dedup(xs)[i]) < FirstIndex(xs, Dedup(xs)[j])
  {
    if xs != [] {
      var n := |xs|;
      var p := xs[..n - 1];
      var last := xs[n - 1];
      var d := Dedup(p);
      DedupKeepsFirstOccurrenceOrder(p);
      assert xs == p + [last];
      forall y | y in p ensures FirstIndex(xs, y) == FirstIndex(p, y) {
        var f := FirstIndex(p, y);
        assert xs[..f] == p[..f];
        FirstIndexUnique(xs, y, f);
      }
      if last !in d {
        assert last !in p;
        assert xs[..n - 1] == p;
        FirstIndexUnique(xs, last, n - 1);
        forall i, j | 0 <= i < j < |Dedup(xs)|
          ensures FirstIndex(xs, Dedup(xs)[i]) < FirstIndex(xs, Dedup(xs)[j])
        {
          assert Dedup(xs) == d + [last];
          if j < |d| {
            assert Dedup(xs)[i] == d[i] && Dedup(xs)[j] == d[j];
          } else {
            assert Dedup(xs)[i] == d[i] && d[i] in p;
          }
        }
      } else {
        assert Dedup(xs) == d;
        forall i, j | 0 <= i < j < |Dedup(xs)|
          ensures FirstIndex(xs, Dedup(xs)[i]) < FirstIndex(xs, Dedup(xs)[j])
        {
          assert d[i] in p && d[j] in p;
        }
      }
    }
  }

  /** A list that already has no duplicates is returned unchanged. */
  lemma {:induction false} DedupOfDistinct<T(!new)>(xs: seq<T>)
    requires NoDuplicates(xs)
    ensures Dedup(xs) == xs
  {
    if xs != [] {
      var n := |xs|;
      var p := xs[..n - 1];
      assert NoDuplicates(p) by {
        forall i, j | 0 <= i < j < |p| ensures p[i] != p[j] { assert p[i] == xs[i] && p[j] == xs[j]; }
      }
      DedupOfDistinct(p);
      assert xs[n - 1] !in p by {
        forall i | 0 <= i < |p| ensures p[i] != xs[n - 1] { assert p[i] == xs[i]; }
      }
      assert xs == p + [xs[n - 1]];
    }
  }

  /** De-duplication is idempotent. */
  lemma DedupIdempotent<T(!new)>(xs: seq<T>)
    ensures Dedup(Dedup(xs)) == Dedup(xs)
  {
  }
}
