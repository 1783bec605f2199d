/** The ring of main/log_buffer.cpp. */
module LogBuffer {
  import opened Common

  // The console log and its incremental readers.

  const CAPACITY := 16384

  datatype Snapshot = Snapshot(next: nat, truncated: bool, text: seq<char>)

  /** The oldest byte still held when `total` bytes have been logged. */
  function Oldest(total: nat): nat {
    if total <= CAPACITY then 0 else total - CAPACITY
  }

  /** What a reader with cursor `since` is told when `history` is everything ever logged. */
  function Read(history: seq<char>, since: nat): Snapshot {
    var total, oldest := |history|, Oldest(|history|);
    if since >= total then Snapshot(total, false, [])
    else if since == 0 then Snapshot(total, false, history[oldest..])
    else if since < oldest then Snapshot(total, true, history[oldest..])
    else Snapshot(total, false, history[since..])
  }

  lemma SlotsApart(k: nat, n: nat)
    requires k < n < k + CAPACITY
    ensures k % CAPACITY != n % CAPACITY
  {
  }

  class LogBuffer {
    const ring: array<char>
    var head: nat
    var count: nat
    var total: nat
    ghost var history: seq<char>

    /** The ring holds the last min(total, capacity) bytes, each at its position modulo the capacity. */
    ghost predicate Valid()
      reads this, ring
    {
      && ring.Length == CAPACITY
      && total == |history|
      && count == total - Oldest(total)
      && head == total % CAPACITY
      && (forall k | Oldest(total) <= k < total :: ring[k % CAPACITY] == history[k])
    }

    constructor ()
      ensures Valid() && history == [] && fresh(ring)
    {
      ring := new char[CAPACITY](_ => '\0');
      head, count, total := 0, 0, 0;
      history := [];
    }

    method AppendByte(c: char)
      requires Valid()
      modifies this, ring
      ensures Valid() && history == old(history) + [c]
    {
      forall k | Oldest(total + 1) <= k < total
        ensures k % CAPACITY != head
      {
        SlotsApart(k, total);
      }
      ring[head] := c;
      head := (head + 1) % CAPACITY;
      if count < CAPACITY {
        count := count + 1;
      }
      total := total + 1;
      history := history + [c];
    }

    method Append(data: seq<char>)
      requires Valid()
      modifies this, ring
      ensures Valid() && history == old(history) + data
    {
      for i := 0 to |data|
        invariant Valid() && history == old(history) + data[..i]
      {
        AppendByte(data[i]);
      }
      assert data[..|data|] == data;
    }

    method SnapshotSince(since: nat) returns (snap: Snapshot)
      requires Valid()
      ensures snap == Read(history, since)
    {
      snap := Snapshot(total, false, []);
      if count == 0 || since == total {
        return;
      }
      var oldest := total - count;
      var start := since;
      if start == 0 || start < oldest {
        snap := snap.(truncated := since != 0);
        start := oldest;
      } else if start > total {
        start := total;
      }
      var bytes := total - start;
      if bytes == 0 {
        return;
      }
      var ringStart := if count == CAPACITY then head else 0;
      var offset := start - oldest;
      var text := [];
      for i := 0 to bytes
        invariant text == history[start..start + i]
      {
        assert (ringStart + offset + i) % CAPACITY == (start + i) % CAPACITY;
        text := text + [ring[(ringStart + offset + i) % CAPACITY]];
      }
      assert history[start..start + bytes] == history[start..];
      snap := snap.(text := text);
    }
  }

  // ------------------------------------------------------------------- polling readers

  /** A reader that starts with cursor `since` and polls whenever the log has grown to one of
      `lengths`, always passing on the cursor it was given: everything it was shown. */
  function Polled(history: seq<char>, since: nat, lengths: seq<nat>): seq<char>
    requires forall i | 0 <= i < |lengths| :: lengths[i] <= |history|
    decreases |lengths|
  {
    if lengths == [] then
      []
    else
      var snap := Read(history[..lengths[0]], since);
      snap.text + Polled(history, snap.next, lengths[1..])
  }

  /** Some poll told the reader that bytes are missing. */
  predicate AnyTruncated(history: seq<char>, since: nat, lengths: seq<nat>)
    requires forall i | 0 <= i < |lengths| :: lengths[i] <= |history|
    decreases |lengths|
  {
    lengths != [] &&
    (Read(history[..lengths[0]], since).truncated || AnyTruncated(history, lengths[0], lengths[1..]))
  }

  ghost predicate Growing(since: nat, lengths: seq<nat>) {
    && (forall i | 0 <= i < |lengths| :: since <= lengths[i])
    && (forall i, j | 0 <= i < j < |lengths| :: lengths[i] <= lengths[j])
  }

  /** A reader that polls with a nonzero cursor misses nothing unless it is told so: what it was
      shown is the exact byte history from its first cursor to its last poll. */
  lemma {:induction false} PollingLosesNothing(history: seq<char>, since: nat, lengths: seq<nat>)
    requires forall i | 0 <= i < |lengths| :: lengths[i] <= |history|
    requires 0 < since <= |history| && Growing(since, lengths)
    requires !AnyTruncated(history, since, lengths)
    ensures var end := if lengths == [] then since else lengths[|lengths| - 1];
            Polled(history, since, lengths) == history[since..end]
    decreases |lengths|
  {
    if lengths == [] {
      assert history[since..since] == [];
    } else {
      var n, rest := lengths[0], lengths[1..];
      var end := lengths[|lengths| - 1];
      PollingLosesNothing(history, n, rest);
      assert history[..n][since..] == history[since..n];
      assert (if rest == [] then n else rest[|rest| - 1]) == end;
      assert history[since..n] + history[n..end] == history[since..end];
    }
  }

  /** Every reader is shown the newest bytes: those behind its cursor, but 16384 at the most. */
  lemma ReaderSees(history: seq<char>, since: nat)
    ensures var snap := Read(history, since);
      && snap.next == |history|
      && |snap.text| <= |history| && snap.text == history[|history| - |snap.text|..]
      && |snap.text| == (if since >= |history| then 0
                         else if |history| - since > 16384 then 16384 else |history| - since)
      && (snap.truncated <==> 0 < since && |history| - since > 16384)
  {
  }

  /** And it is told so exactly when bytes it has not seen have been overwritten. */
  lemma TruncatedIff(history: seq<char>, since: nat)
    requires 0 < since
    ensures Read(history, since).truncated <==> since < Oldest(|history|)
    ensures Read(history, since).truncated ==> Read(history, since).text == history[Oldest(|history|)..]
  {
  }

  /** A cursor of zero means everything held, and loses bytes without saying so once the ring
      has wrapped. */
  lemma ZeroCursorIsSilent(history: seq<char>)
    requires |history| > CAPACITY
    ensures !Read(history, 0).truncated && |Read(history, 0).text| < |history|
  {
  }
}
