/**
 * The session's search history (`handleSearch`'s save step): the newest search
 * first, at most ten of them. A new record is put in front and, when that makes
 * the list longer than ten, the last (oldest) record is dropped.
 */
module History {
  import opened Strings

  /** One saved search. The timestamp is the clock reading, passed in as text. */
  datatype HistoryRecord = HistoryRecord(
    companyUrl: string,
    companyName: string,
    timestamp: string,
    jobCount: nat)

  const HistoryCap := 10

  function Min(a: int, b: int): int {
    if a <= b then a else b
  }

  /** `unshift(record)`, then one `pop()` if the list is longer than the cap. */
  function Remember(history: seq<HistoryRecord>, record: HistoryRecord): (h: seq<HistoryRecord>)
    ensures |h| == |history| + 1 || (|history| >= HistoryCap && |h| == |history|)
    ensures h[0] == record
    ensures h[1..] == history[..|h| - 1]
  {
    var pushed := [record] + history;
    if |pushed| > HistoryCap then pushed[..|pushed| - 1] else pushed
  }

  /**
   * From a history within the cap, the new record goes in front of the first
   * nine old ones at most, and the cap still holds.
   */
  lemma RememberWithinCap(history: seq<HistoryRecord>, record: HistoryRecord)
    requires |history| <= HistoryCap
    ensures Remember(history, record) == [record] + history[..Min(|history|, HistoryCap - 1)]
    ensures |Remember(history, record)| <= HistoryCap
  {
    var h := Remember(history, record);
    assert h == [h[0]] + h[1..];
  }

  /** A record already in the history stays unless it was the last one. */
  lemma OnlyOldestEvicted(history: seq<HistoryRecord>, record: HistoryRecord, i: nat)
    requires i < |history| - 1 || (i < |history| && |history| < HistoryCap)
    ensures history[i] in Remember(history, record)
    ensures Remember(history, record)[i + 1] == history[i]
  {
    var h := Remember(history, record);
    assert h[1..][i] == history[i];
  }

  function Reversed<T>(s: seq<T>): (r: seq<T>)
    ensures |r| == |s|
    ensures forall i :: 0 <= i < |s| ==> r[i] == s[|s| - 1 - i]
  {
    if |s| == 0 then [] else Reversed(s[1..]) + [s[0]]
  }

  /** Saving each record of `records` in turn, first to last. */
  function RememberAll(history: seq<HistoryRecord>, records: seq<HistoryRecord>): seq<HistoryRecord>
    decreases |records|
  {
    if |records| == 0 then history else RememberAll(Remember(history, records[0]), records[1..])
  }

  lemma TakeOfAppend<T>(a: seq<T>, b: seq<T>, m: nat, n: nat)
    requires m <= |b| && n <= |a| + m
    ensures (a + b[..m])[..n] == (a + b)[..n]
  {
    forall i | 0 <= i < n ensures (a + b[..m])[i] == (a + b)[i] {
      if i >= |a| { assert (a + b[..m])[i] == b[..m][i - |a|]; }
    }
  }

  /**
   * After a run of saves from a history within the cap, the history is the
   * saved records newest first followed by the old history, cut to ten.
   */
  lemma {:induction false} RememberAllShape(history: seq<HistoryRecord>, records: seq<HistoryRecord>)
    requires |history| <= HistoryCap
    ensures RememberAll(history, records)
      == (Reversed(records) + history)[..Min(HistoryCap, |records| + |history|)]
    decreases |records|
  {
    if |records| == 0 {
      assert Reversed(records) + history == history;
    } else {
      var first := records[0];
      var rest := records[1..];
      var h1 := Remember(history, first);
      RememberWithinCap(history, first);
      var m1 := Min(HistoryCap, 1 + |history|);
      assert h1 == ([first] + history)[..m1];
      RememberAllShape(h1, rest);
      var n := Min(HistoryCap, |rest| + |h1|);
      var older := Reversed(rest);
      TakeOfAppend(older, [first] + history, m1, n);
      AppendAssoc(older, [first], history);
      calc {
        RememberAll(history, records);
        RememberAll(h1, rest);
        (older + h1)[..n];
        (older + ([first] + history))[..n];
        (Reversed(records) + history)[..n];
      }
    }
  }

  /** Saves starting within the cap never take the history past ten. */
  lemma CapPreserved(history: seq<HistoryRecord>, records: seq<HistoryRecord>)
    requires |history| <= HistoryCap
    ensures |RememberAll(history, records)| <= HistoryCap
  {
    RememberAllShape(history, records);
  }

  /**
   * Eleven different searches from an empty history keep the last ten, newest
   * first: the first search is gone.
   */
  lemma ElevenSaves(records: seq<HistoryRecord>)
    requires |records| == 11
    requires forall i, j :: 0 <= i < j < |records| ==> records[i] != records[j]
    ensures |RememberAll([], records)| == 10
    ensures RememberAll([], records)[0] == records[10]
    ensures records[0] !in RememberAll([], records)
  {
    RememberAllShape([], records);
    var h := RememberAll([], records);
    assert Reversed(records) + [] == Reversed(records);
    forall i | 0 <= i < |h| ensures h[i] != records[0] {
      assert h[i] == records[10 - i];
    }
  }
}
