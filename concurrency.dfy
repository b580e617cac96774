/** The chunked batch runner. Items are handed to the executor a chunk of
    `concurrency` items at a time; the chunks run one after another. Within a
    chunk the calls are modelled in item order (the interleaving of the real
    promises is not modelled). */
module Concurrency {
  import opened Types

  /** How one executor call settles. */
  datatype Settled<R> = Fulfilled(value: R) | Rejected

  /** One `onProgress(completed, total)` report. */
  datatype Report = Report(completed: nat, total: nat)

  /** The reports 1..count, each out of `total`. */
  predicate CountsUp(progress: seq<Report>, total: nat) {
    forall k :: 0 <= k < |progress| ==> progress[k] == Report(k + 1, total)
  }

  /** First index whose call rejects, or |items| when none does. */
  function FirstRejected<T, R>(items: seq<T>, exec: T -> Settled<R>): (r: nat)
    ensures r <= |items|
    ensures forall k :: 0 <= k < r ==> exec(items[k]).Fulfilled?
    ensures r < |items| ==> exec(items[r]).Rejected?
  {
    if items == [] then 0
    else if exec(items[0]).Rejected? then 0
    else 1 + FirstRejected(items[1..], exec)
  }

  /** End of the chunk holding item `k`: chunks are `[m·c, min(n, (m+1)·c))`. */
  function ChunkEnd(n: nat, c: nat, k: nat): (e: nat)
    requires c >= 1 && k < n
    ensures k < e <= n && e - k <= c
  {
    var start := (k / c) * c;
    assert start <= k < start + c;
    if start + c < n then start + c else n
  }

  /** One chunk, `Promise.all(batch.map(...))`: every item of the chunk is
      handed to the executor; the chunk rejects when any call does, and
      otherwise yields the values in order. Each fulfilled call adds the next
      progress report. */
  method RunChunk<T, R>(batch: seq<T>, exec: T -> Settled<R>, completed0: nat, progress0: seq<Report>, total: nat)
    returns (batchResults: seq<R>, rejected: bool, completed: nat, progress: seq<Report>)
    requires |progress0| == completed0 && CountsUp(progress0, total)
    ensures rejected <==> exists k :: 0 <= k < |batch| && exec(batch[k]).Rejected?
    ensures !rejected ==>
      |batchResults| == |batch|
      && (forall k :: 0 <= k < |batch| ==> exec(batch[k]).Fulfilled? && batchResults[k] == exec(batch[k]).value)
    ensures |progress| == completed && CountsUp(progress, total)
    ensures completed >= completed0 && (!rejected ==> completed == completed0 + |batch|)
  {
    batchResults, rejected, completed, progress := [], false, completed0, progress0;
    for j := 0 to |batch|
      invariant !rejected ==> |batchResults| == j
      invariant !rejected ==> forall k :: 0 <= k < j ==> exec(batch[k]).Fulfilled? && batchResults[k] == exec(batch[k]).value
      invariant rejected <==> exists k :: 0 <= k < j && exec(batch[k]).Rejected?
      invariant |progress| == completed && CountsUp(progress, total)
      invariant completed >= completed0 && (!rejected ==> completed == completed0 + j)
    {
      match exec(batch[j]) {
        case Fulfilled(v) =>
          completed := completed + 1;
          progress := progress + [Report(completed, total)];
          batchResults := batchResults + [v];
        case Rejected =>
          rejected := true;
      }
    }
  }

  /** `executeConcurrently`: when every call fulfils, the results in input
      order; otherwise the call as a whole rejects. Either way the executor
      has been called on the items, in order, up to the end of the chunk
      holding the first rejection (no later chunk is started), and progress
      counts 1, 2, … once per fulfilled call. The loop needs
      `concurrency >= 1` to advance. */
  method ExecuteConcurrently<T, R>(items: seq<T>, exec: T -> Settled<R>, concurrency: nat)
    returns (out: Settled<seq<R>>, calls: seq<T>, progress: seq<Report>)
    requires |items| > 0 ==> concurrency >= 1
    ensures var f := FirstRejected(items, exec);
      (out.Fulfilled? <==> f == |items|)
      && (out.Fulfilled? ==>
            |out.value| == |items| && forall k :: 0 <= k < |items| ==> out.value[k] == exec(items[k]).value)
      && (out.Fulfilled? ==> calls == items)
      && (out.Rejected? ==> calls == items[..ChunkEnd(|items|, concurrency, f)])
    ensures CountsUp(progress, |items|)
    ensures out.Fulfilled? ==> |progress| == |items|
  {
    var results: seq<R> := [];
    calls, progress := [], [];
    var completed := 0;
    var total := |items|;
    var i := 0;
    ghost var chunk := 0;
    while i < |items|
      invariant i <= |items| && (i < |items| ==> i == chunk * concurrency)
      invariant forall k :: 0 <= k < i ==> exec(items[k]).Fulfilled?
      invariant |results| == i && forall k :: 0 <= k < i ==> results[k] == exec(items[k]).value
      invariant calls == items[..i]
      invariant completed == i && |progress| == i && CountsUp(progress, total)
    {
      var batch := items[i..if i + concurrency < |items| then i + concurrency else |items|];
      var batchResults, rejected;
      batchResults, rejected, completed, progress := RunChunk(batch, exec, completed, progress, total);
      calls := calls + batch;
      assert items[..i + |batch|] == items[..i] + batch;
      if rejected {
        out := Rejected;
        RejectedChunk(items, exec, concurrency, chunk, i, |batch|);
        return;
      }
      results := results + batchResults;
      MulSucc(chunk, concurrency);
      i := i + |batch|;
      chunk := chunk + 1;
    }
    assert calls == items;
    out := Fulfilled(results);
    FirstRejectedAll(items, exec);
  }

  lemma FirstRejectedAll<T, R>(items: seq<T>, exec: T -> Settled<R>)
    requires forall k :: 0 <= k < |items| ==> exec(items[k]).Fulfilled?
    ensures FirstRejected(items, exec) == |items|
  {
  }

  /** A rejection met in the chunk starting at `i` is the first one, and its
      chunk ends where that chunk ends. */
  lemma RejectedChunk<T, R>(items: seq<T>, exec: T -> Settled<R>, c: nat, chunk: nat, i: nat, len: nat)
    requires c >= 1 && i == chunk * c && i < |items|
    requires len == (if i + c < |items| then c else |items| - i)
    requires forall k :: 0 <= k < i ==> exec(items[k]).Fulfilled?
    requires exists k :: i <= k < i + len && exec(items[k]).Rejected?
    ensures i <= FirstRejected(items, exec) < i + len
    ensures ChunkEnd(|items|, c, FirstRejected(items, exec)) == i + len
  {
    var f := FirstRejected(items, exec);
    var k :| i <= k < i + len && exec(items[k]).Rejected?;
    assert f <= k;
    assert exec(items[f]).Rejected?;
    assert i <= f;
    assert f < i + c;
    DivInChunk(f, c, chunk);
    assert (f / c) * c == i;
  }

  /** An index inside chunk `m` divides to `m`. */
  lemma DivInChunk(k: nat, c: nat, m: nat)
    requires c >= 1 && m * c <= k < m * c + c
    ensures k / c == m
  {
    var q, r := k / c, k % c;
    assert k == q * c + r && 0 <= r < c;
    if q < m {
      assert q * c + c <= m * c by { MulLe(q + 1, m, c); }
    } else if q > m {
      assert (m + 1) * c <= q * c by { MulLe(m + 1, q, c); }
    }
  }

  lemma MulSucc(m: nat, c: nat)
    ensures (m + 1) * c == m * c + c
  {
  }

  lemma MulLe(a: nat, b: nat, c: nat)
    requires a <= b
    ensures a * c <= b * c
  {
  }

  /** `executeBatchWithResults`: every call is made; the map holds the result
      of each call that fulfils with a non-null value, keyed by the item's
      position in the input, and nothing else; progress counts every call,
      failed ones included. */
  method ExecuteBatchWithResults<T, R>(items: seq<T>, exec: T -> Settled<Option<R>>, concurrency: nat)
    returns (results: map<nat, R>, progress: seq<Report>)
    requires |items| > 0 ==> concurrency >= 1
    ensures forall k: nat :: k in results <==> k < |items| && Delivered(exec(items[k]))
    ensures forall k: nat :: k < |items| && Delivered(exec(items[k])) ==> results[k] == exec(items[k]).value.value
    ensures |progress| == |items| && CountsUp(progress, |items|)
  {
    results := map[];
    progress := [];
    var completed := 0;
    var total := |items|;
    var i := 0;
    while i < |items|
      invariant i <= |items|
      invariant forall k: nat :: k in results <==> k < i && Delivered(exec(items[k]))
      invariant forall k: nat :: k in results ==> results[k] == exec(items[k]).value.value
      invariant completed == i && |progress| == i && CountsUp(progress, total)
    {
      var batch := items[i..if i + concurrency < |items| then i + concurrency else |items|];
      // batch.map: every call settles; a rejection is caught and reads as null.
      var batchResults: seq<(nat, Option<R>)> := [];
      var j := 0;
      while j < |batch|
        invariant 0 <= j <= |batch|
        invariant |batchResults| == j
        invariant forall k :: 0 <= k < j ==> batchResults[k] == (i + k, Value(exec(batch[k])))
        invariant completed == i + j && |progress| == completed && CountsUp(progress, total)
      {
        var r := Value(exec(batch[j]));
        completed := completed + 1;
        progress := progress + [Report(completed, total)];
        batchResults := batchResults + [(i + j, r)];
        j := j + 1;
      }
      // batchResults.forEach: non-null results are stored under their index.
      var m := 0;
      while m < |batchResults|
        invariant 0 <= m <= |batchResults|
        invariant forall k: nat :: k in results <==> (k < i + m && Delivered(exec(items[k])))
        invariant forall k: nat :: k in results ==> results[k] == exec(items[k]).value.value
      {
        var (index, r) := batchResults[m];
        assert batch[m] == items[i + m];
        if r.Some? {
          results := results[index := r.value];
        }
        m := m + 1;
      }
      i := i + |batch|;
    }
  }

  /** A call that fulfils with a non-null value. */
  predicate Delivered<R>(s: Settled<Option<R>>) {
    s.Fulfilled? && s.value.Some?
  }

  /** What the caught call returns: its value, or null when it rejects. */
  function Value<R>(s: Settled<Option<R>>): (r: Option<R>)
    ensures r.Some? <==> Delivered(s)
    ensures r.Some? ==> r.value == s.value.value
  {
    match s
    case Fulfilled(v) => v
    case Rejected => None
  }
}
