/**
 * The dashboard's error log: newest entry first, never more than
 * `MaxErrors` entries (`[error, ...prev].slice(0, 10)`).
 */
module ErrorLogs {
  import opened Entities

  const MaxErrors: nat := 10

  function Min(a: nat, b: nat): nat
  {
    if a <= b then a else b
  }

  /** The log after `addError` records `e`. */
  function Record(log: seq<ErrorLog>, e: ErrorLog): (r: seq<ErrorLog>)
    ensures |r| == Min(MaxErrors, |log| + 1)
    ensures r[0] == e
    ensures r[1..] == log[..Min(MaxErrors - 1, |log|)]
  {
    ([e] + log)[..Min(MaxErrors, |log| + 1)]
  }

  /** The log after recording `entries` in order, starting from the empty log. */
  function RecordAll(entries: seq<ErrorLog>): seq<ErrorLog>
  {
    if entries == [] then [] else Record(RecordAll(entries[..|entries| - 1]), entries[|entries| - 1])
  }

  /**
   * Recording any sequence of entries leaves the `Min(10, N)` most recent
   * ones, newest first: position `k` holds the `k`-th entry counted back
   * from the last.
   */
  lemma {:induction false} RecordAllKeepsNewest(entries: seq<ErrorLog>)
    ensures |RecordAll(entries)| == Min(MaxErrors, |entries|)
    ensures forall k :: 0 <= k < |RecordAll(entries)| ==>
              RecordAll(entries)[k] == entries[|entries| - 1 - k]
  {
    if entries != [] {
      var n := |entries|;
      var prefix := entries[..n - 1];
      RecordAllKeepsNewest(prefix);
      var r := RecordAll(entries);
      assert r == Record(RecordAll(prefix), entries[n - 1]);
      forall k | 0 <= k < |r|
        ensures r[k] == entries[n - 1 - k]
      {
        if k > 0 {
          assert r[k] == r[1..][k - 1] == RecordAll(prefix)[k - 1];
        }
      }
    }
  }

  /** With ten or more entries recorded, the log holds exactly the last ten, newest first. */
  lemma ErrorLogCap(entries: seq<ErrorLog>)
    requires |entries| >= MaxErrors
    ensures |RecordAll(entries)| == MaxErrors
    ensures forall k :: 0 <= k < MaxErrors ==>
              RecordAll(entries)[k] == entries[|entries| - 1 - k]
  {
    RecordAllKeepsNewest(entries);
  }
}
