/**
  Splitting the list of plan ids into metadata requests of at most 150 ids
  (DMPs_updates.py:109-141; the same code at DMP_stats_v1.4.py:2143-2175).
  Each request's answer is saved under its file index.
 */
module Batching {

  /** The most ids one request may carry. */
  const BatchSize: nat := 150

  /** A request: the index of its output file and the ids it asks for. */
  datatype Request<T> = Request(fileIndex: nat, ids: seq<T>)

  /** `dmps[s:s+150]`, with the end clamped to the list. */
  function Chunk<T>(ids: seq<T>, s: nat): seq<T>
    requires s <= |ids|
  {
    if s + BatchSize <= |ids| then ids[s..s + BatchSize] else ids[s..]
  }

  /** The number of slices the loop takes: the least k with 150 * k >= n. */
  function ChunkCount(n: nat): nat {
    (n + BatchSize - 1) / BatchSize
  }

  lemma ChunkStartsInside(n: nat, k: nat)
    requires k < ChunkCount(n)
    ensures BatchSize * k < n
  {
  }

  /**
    The requests: one request for the whole list below 151 ids (even for no
    ids at all), otherwise one per slice `[150k, 150k+150)`.
   */
  function Requests<T>(ids: seq<T>): (reqs: seq<Request<T>>)
    ensures |ids| < 151 ==> reqs == [Request(0, ids)]
    ensures |ids| >= 151 ==> |reqs| == ChunkCount(|ids|)
  {
    if |ids| < 151 then [Request(0, ids)]
    else
      seq(ChunkCount(|ids|), k requires 0 <= k < ChunkCount(|ids|) =>
        ChunkStartsInside(|ids|, k);
        Request(k, Chunk(ids, BatchSize * k)))
  }

  /** The `snrofml` / `startmlnr` loop. */
  method PlanRequests<T>(ids: seq<T>) returns (reqs: seq<Request<T>>)
    ensures reqs == Requests(ids)
  {
    if |ids| < 151 {
      return [Request(0, ids)];
    }
    reqs := [];
    var snrofml := 0;
    var startmlnr := 0;
    while snrofml < |ids|
      invariant startmlnr <= ChunkCount(|ids|)
      invariant snrofml == BatchSize * startmlnr
      invariant snrofml < |ids| <==> startmlnr < ChunkCount(|ids|)
      invariant reqs == Requests(ids)[..startmlnr]
    {
      reqs := reqs + [Request(startmlnr, Chunk(ids, snrofml))];
      snrofml := snrofml + BatchSize;
      startmlnr := startmlnr + 1;
    }
    assert reqs == Requests(ids)[..ChunkCount(|ids|)];
  }

  /** The ids of the requests, one list after the other. */
  function Concat<T>(reqs: seq<Request<T>>): seq<T>
    decreases |reqs|
  {
    if |reqs| == 0 then [] else Concat(reqs[..|reqs| - 1]) + reqs[|reqs| - 1].ids
  }

  lemma {:induction false} ConcatPrefix<T>(ids: seq<T>, k: nat)
    requires |ids| >= 151 && k <= ChunkCount(|ids|)
    ensures Concat(Requests(ids)[..k]) == ids[..if BatchSize * k <= |ids| then BatchSize * k else |ids|]
    decreases k
  {
    if k > 0 {
      var reqs := Requests(ids);
      ConcatPrefix(ids, k - 1);
      assert reqs[..k][..k - 1] == reqs[..k - 1];
      ChunkStartsInside(|ids|, k - 1);
      var s := BatchSize * (k - 1);
      if s + BatchSize <= |ids| {
        assert ids[..s] + ids[s..s + BatchSize] == ids[..s + BatchSize];
      } else {
        assert ids[..s] + ids[s..] == ids;
      }
    }
  }

  /** Concatenated in file-index order, the requests ask for every id once, in list order. */
  lemma RequestsCoverIds<T>(ids: seq<T>)
    ensures Concat(Requests(ids)) == ids
  {
    if |ids| < 151 {
      assert Requests(ids)[..0] == [];
    } else {
      var n := ChunkCount(|ids|);
      ConcatPrefix(ids, n);
      assert Requests(ids)[..n] == Requests(ids);
    }
  }

  /**
    Above 150 ids every request carries at most 150 ids, every one but the
    last exactly 150, none is empty, and the file indices run 0, 1, 2, ...
   */
  lemma RequestSizes<T>(ids: seq<T>)
    requires |ids| >= 151
    ensures var reqs := Requests(ids);
            && (forall k :: 0 <= k < |reqs| ==> reqs[k].fileIndex == k)
            && (forall k :: 0 <= k < |reqs| ==> 0 < |reqs[k].ids| <= BatchSize)
            && (forall k :: 0 <= k < |reqs| - 1 ==> |reqs[k].ids| == BatchSize)
  {
    var reqs := Requests(ids);
    forall k | 0 <= k < |reqs| - 1
      ensures |reqs[k].ids| == BatchSize
    {
      assert k + 1 < ChunkCount(|ids|);
      ChunkStartsInside(|ids|, k + 1);
    }
  }

  /** At most 150 ids need a single request; the count is the ceiling of n / 150 for every non-empty list. */
  lemma RequestCount<T>(ids: seq<T>)
    requires |ids| > 0
    ensures |Requests(ids)| == ChunkCount(|ids|)
    ensures BatchSize * (|Requests(ids)| - 1) < |ids| <= BatchSize * |Requests(ids)|
  {
  }

  /** Python's `round` on n / 150: the nearest integer, halves to the even one. */
  function RoundDiv(n: nat): nat {
    var q := n / BatchSize;
    var r := n % BatchSize;
    if 2 * r < BatchSize then q
    else if 2 * r > BatchSize then q + 1
    else if q % 2 == 0 then q else q + 1
  }

  /** The printed `nrofml = round(len(dmps) / 150) + 1` (DMPs_updates.py:120). */
  function NrOfMl(n: nat): nat {
    RoundDiv(n) + 1
  }

  /** The printed count is the number of requests or one more; it never drives the loop. */
  lemma NrOfMlBounds(n: nat)
    requires n >= 151
    ensures ChunkCount(n) <= NrOfMl(n) <= ChunkCount(n) + 1
  {
  }

  /** With 300 ids two requests are made while three are announced. */
  lemma NrOfMlOvercounts(ids: seq<nat>)
    requires |ids| == 300
    ensures |Requests(ids)| == 2 && NrOfMl(|ids|) == 3
  {
  }
}
