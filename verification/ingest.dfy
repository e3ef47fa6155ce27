/**
 * The pure parts of the datastore websocket handler's transaction ingest:
 * dropping transactions the database already holds, and the rule that each
 * connection numbers its transactions 0, 1, 2, ... without gaps.
 */
module Ingest {
  import opened Wire

  function Min(a: int, b: int): int {
    if a <= b then a else b
  }

  /**
   * `filter_duplicates`: walks the transactions and their duplicate flags in
   * lock-step (stopping at the shorter, as `zip` does) and keeps, in order,
   * the transactions whose flag is false.
   */
  function FilterDuplicates<T>(ts: seq<T>, isDuplicate: seq<bool>): (r: seq<T>)
    ensures |r| <= Min(|ts|, |isDuplicate|)
    ensures forall t :: t in r ==> t in ts
  {
    if ts == [] || isDuplicate == [] then []
    else if isDuplicate[0] then FilterDuplicates(ts[1..], isDuplicate[1..])
    else [ts[0]] + FilterDuplicates(ts[1..], isDuplicate[1..])
  }

  /** Number of false flags among the first `n`. */
  function CountFresh(isDuplicate: seq<bool>, n: nat): nat
    requires n <= |isDuplicate|
  {
    if n == 0 then 0 else CountFresh(isDuplicate, n - 1) + (if isDuplicate[n - 1] then 0 else 1)
  }

  /** Filtering distributes over concatenation of equally long batches. */
  lemma {:induction false} FilterDuplicatesAppend<T>(a: seq<T>, da: seq<bool>, b: seq<T>, db: seq<bool>)
    requires |a| == |da|
    ensures FilterDuplicates(a + b, da + db) == FilterDuplicates(a, da) + FilterDuplicates(b, db)
  {
    if a != [] {
      assert (a + b)[0] == a[0] && (da + db)[0] == da[0];
      assert (a + b)[1..] == a[1..] + b;
      assert (da + db)[1..] == da[1..] + db;
      FilterDuplicatesAppend(a[1..], da[1..], b, db);
    } else {
      assert a + b == b && da + db == db;
    }
  }

  /** A single transaction is kept exactly when its flag is false. */
  lemma FilterDuplicatesSingle<T>(t: T, d: bool)
    ensures FilterDuplicates([t], [d]) == if d then [] else [t]
  {
    assert [t][1..] == [];
  }

  /** Zip semantics: only the first `min(len(transactions), len(is_duplicate))` pairs matter. */
  lemma {:induction false} FilterDuplicatesTruncates<T>(ts: seq<T>, isDuplicate: seq<bool>)
    ensures var m := Min(|ts|, |isDuplicate|);
      FilterDuplicates(ts, isDuplicate) == FilterDuplicates(ts[..m], isDuplicate[..m])
  {
    if ts != [] && isDuplicate != [] {
      var m := Min(|ts|, |isDuplicate|);
      assert ts[..m][1..] == ts[1..][..m - 1];
      assert isDuplicate[..m][1..] == isDuplicate[1..][..m - 1];
      FilterDuplicatesTruncates(ts[1..], isDuplicate[1..]);
    }
  }

  /** The output is exactly as long as the number of false flags among the zipped pairs. */
  lemma {:induction false} FilterDuplicatesLength<T>(ts: seq<T>, isDuplicate: seq<bool>)
    requires |ts| == |isDuplicate|
    ensures |FilterDuplicates(ts, isDuplicate)| == CountFresh(isDuplicate, |isDuplicate|)
  {
    if ts != [] {
      var n := |ts| - 1;
      assert ts == ts[..n] + [ts[n]];
      assert isDuplicate == isDuplicate[..n] + [isDuplicate[n]];
      FilterDuplicatesAppend(ts[..n], isDuplicate[..n], [ts[n]], [isDuplicate[n]]);
      FilterDuplicatesSingle(ts[n], isDuplicate[n]);
      FilterDuplicatesLength(ts[..n], isDuplicate[..n]);
      CountFreshPrefix(isDuplicate, n);
    }
  }

  lemma {:induction false} CountFreshPrefix(isDuplicate: seq<bool>, n: nat)
    requires n <= |isDuplicate|
    ensures CountFresh(isDuplicate[..n], n) == CountFresh(isDuplicate, n)
    decreases n
  {
    if n > 0 {
      assert isDuplicate[..n][..n - 1] == isDuplicate[..n - 1];
      CountFreshPrefix(isDuplicate[..n], n - 1);
      CountFreshPrefix(isDuplicate, n - 1);
    }
  }

  /** With no duplicates every zipped transaction is kept, in order. */
  lemma {:induction false} FilterDuplicatesNoneFlagged<T>(ts: seq<T>, isDuplicate: seq<bool>)
    requires |ts| == |isDuplicate|
    requires forall i :: 0 <= i < |isDuplicate| ==> !isDuplicate[i]
    ensures FilterDuplicates(ts, isDuplicate) == ts
  {
    if ts != [] {
      FilterDuplicatesNoneFlagged(ts[1..], isDuplicate[1..]);
    }
  }

  // ---------------------------------------------------------------------
  // Per-connection serial contiguity

  /** `ts` carries exactly the serials counter+1, counter+2, ... */
  ghost predicate Contiguous(counter: int, ts: seq<Transaction>) {
    forall i :: 0 <= i < |ts| ==> ts[i].serial == counter + 1 + i
  }

  /**
   * How many leading transactions the ingest loop accepts when the
   * connection's counter starts at `counter`: each accepted one must carry
   * the serial one above the counter, which then steps up by one.
   */
  function AcceptedPrefix(counter: int, ts: seq<Transaction>): (n: nat)
    ensures n <= |ts|
    decreases ts
  {
    if ts == [] || ts[0].serial != counter + 1 then 0
    else 1 + AcceptedPrefix(counter + 1, ts[1..])
  }

  /**
   * The accepted prefix is contiguous and the transaction after it (if any)
   * breaks contiguity; conversely, any such split point is the accepted prefix.
   */
  lemma {:induction false} AcceptedPrefixIsFirstGap(counter: int, ts: seq<Transaction>, n: nat)
    requires n <= |ts|
    decreases ts
    ensures AcceptedPrefix(counter, ts) == n <==>
      (Contiguous(counter, ts[..n]) && (n < |ts| ==> ts[n].serial != counter + 1 + n))
  {
    if ts != [] && ts[0].serial == counter + 1 {
      if n > 0 {
        AcceptedPrefixIsFirstGap(counter + 1, ts[1..], n - 1);
        if Contiguous(counter + 1, ts[1..][..n - 1]) {
          forall i | 0 <= i < n ensures ts[..n][i].serial == counter + 1 + i {
            if i > 0 { assert ts[..n][i] == ts[1..][..n - 1][i - 1]; }
          }
        }
        if Contiguous(counter, ts[..n]) {
          var tail := ts[1..][..n - 1];
          forall i | 0 <= i < n - 1 ensures tail[i].serial == counter + 1 + 1 + i {
            assert tail[i] == ts[..n][i + 1];
          }
        }
      } else {
        assert AcceptedPrefix(counter, ts) >= 1;
      }
    } else if n > 0 {
      assert ts[..n][0] == ts[0];
    }
  }

  /** The whole batch is accepted exactly when it is contiguous. */
  lemma AcceptedAllIffContiguous(counter: int, ts: seq<Transaction>)
    ensures AcceptedPrefix(counter, ts) == |ts| <==> Contiguous(counter, ts)
  {
    AcceptedPrefixIsFirstGap(counter, ts, |ts|);
    assert ts[..|ts|] == ts;
  }

  /**
   * Splitting a contiguous batch over two messages moves the counter exactly
   * as sending it in one message would.
   */
  lemma {:induction false} AcceptedPrefixAppend(counter: int, a: seq<Transaction>, b: seq<Transaction>)
    requires Contiguous(counter, a)
    decreases a
    ensures AcceptedPrefix(counter, a + b) == |a| + AcceptedPrefix(counter + |a|, b)
  {
    if a != [] {
      assert (a + b)[0] == a[0];
      assert (a + b)[1..] == a[1..] + b;
      assert Contiguous(counter + 1, a[1..]) by {
        forall i | 0 <= i < |a[1..]| ensures a[1..][i].serial == counter + 1 + 1 + i {
          assert a[1..][i] == a[i + 1];
        }
      }
      AcceptedPrefixAppend(counter + 1, a[1..], b);
    } else {
      assert a + b == b;
    }
  }

  /**
   * The ingest loop of a transaction broadcast, run on the connection's
   * counter: every transaction must carry the serial one above the counter,
   * which then steps up; at the first gap the loop raises, keeping the steps
   * already taken. Returns the counter the loop leaves behind.
   */
  method CheckSerials(counter: int, ts: seq<Transaction>) returns (next: int, status: Status)
    ensures next == counter + AcceptedPrefix(counter, ts)
    ensures status == Ok <==> Contiguous(counter, ts)
    ensures status != Ok ==> status == Raised(MissingTransaction(next))
  {
    next := counter;
    var i := 0;
    while i < |ts|
      invariant 0 <= i <= |ts|
      invariant next == counter + i
      invariant AcceptedPrefix(counter, ts) == i + AcceptedPrefix(next, ts[i..])
    {
      if ts[i].serial != next + 1 {
        AcceptedAllIffContiguous(counter, ts);
        return next, Raised(MissingTransaction(next));
      }
      assert ts[i..][1..] == ts[i + 1..];
      next := next + 1;
      i := i + 1;
    }
    AcceptedAllIffContiguous(counter, ts);
    status := Ok;
  }
}
