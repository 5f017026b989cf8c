/** The best-score ledger: a list of at most five scores, highest first,
    normalised the same way when it is loaded and when a score is recorded. */
module Ledger {

  /** How many best scores are kept. */
  const Capacity := 5

  predicate Descending(s: seq<int>)
  {
    forall i, j :: 0 <= i < j < |s| ==> s[i] >= s[j]
  }

  /** The shape the ledger keeps: highest first, at most `Capacity` entries. */
  predicate IsLedger(s: seq<int>)
  {
    Descending(s) && |s| <= Capacity
  }

  /** `s` with `x` placed before the first entry smaller than it. */
  function Insert(x: int, s: seq<int>): (r: seq<int>)
    ensures multiset(r) == multiset(s) + multiset{x}
  {
    if s == [] then [x]
    else if x > s[0] then [x] + s
    else
      assert s == [s[0]] + s[1..];
      [s[0]] + Insert(x, s[1..])
  }

  lemma {:induction false} InsertDescending(x: int, s: seq<int>)
    requires Descending(s)
    ensures Descending(Insert(x, s))
  {
    if s != [] && x <= s[0] {
      var rest := Insert(x, s[1..]);
      InsertDescending(x, s[1..]);
      forall k | 0 <= k < |s| - 1 ensures s[1..][k] <= s[0] {
        assert s[1..][k] == s[k + 1];
      }
      InsertBounded(x, s[1..], s[0]);
      var r := [s[0]] + rest;
      forall i, j | 0 <= i < j < |r| ensures r[i] >= r[j] {
        if i > 0 { assert r[i] == rest[i - 1] && r[j] == rest[j - 1]; }
        else { assert r[j] == rest[j - 1]; }
      }
    }
  }

  /** Inserting a value no larger than `b` among values no larger than `b`
      keeps every entry no larger than `b`. */
  lemma InsertBounded(x: int, s: seq<int>, b: int)
    requires x <= b
    requires forall k :: 0 <= k < |s| ==> s[k] <= b
    ensures forall k :: 0 <= k < |Insert(x, s)| ==> Insert(x, s)[k] <= b
  {
    var r := Insert(x, s);
    forall k | 0 <= k < |r| ensures r[k] <= b {
      assert r[k] in multiset(r);
      if r[k] != x {
        assert r[k] in multiset(s);
        var m :| 0 <= m < |s| && s[m] == r[k];
      }
    }
  }

  /** The list sorted highest first (`sort(reverse=True)`), by inserting the
      entries one at a time from the last. */
  function SortDescending(s: seq<int>): (r: seq<int>)
    ensures Descending(r)
    ensures multiset(r) == multiset(s)
  {
    if s == [] then []
    else
      assert s == s[..|s| - 1] + [s[|s| - 1]];
      var sorted := SortDescending(s[..|s| - 1]);
      InsertDescending(s[|s| - 1], sorted);
      Insert(s[|s| - 1], sorted)
  }

  /** The first `Capacity` entries, or all of them when there are fewer (`[:5]`). */
  function Top(s: seq<int>): seq<int>
  {
    if |s| <= Capacity then s else s[..Capacity]
  }

  /** Sorted highest first and cut to `Capacity` entries: what loading a
      stored list yields and what recording a score leaves behind. The result
      is a ledger, holds entries of `s` only, and is as long as it can be. */
  function Normalized(s: seq<int>): (r: seq<int>)
    ensures IsLedger(r)
    ensures multiset(r) <= multiset(s)
    ensures |r| == if |s| < Capacity then |s| else Capacity
  {
    var sorted := SortDescending(s);
    assert |sorted| == |multiset(s)| == |s|;
    assert sorted == sorted[..|Top(sorted)|] + sorted[|Top(sorted)|..];
    Top(sorted)
  }

  /** The ledger after a game that ended with `score` (`save_result`): a
      score of at most 0 is not recorded. */
  function Record(ledger: seq<int>, score: int): seq<int>
  {
    if score > 0 then Normalized(ledger + [score]) else ledger
  }

  /** In a highest-first list, every entry from position `n` on is at most
      every entry before it. */
  lemma TailBelowHead(t: seq<int>, n: int)
    requires Descending(t) && 0 <= n <= |t|
    ensures forall x, k :: x in multiset(t[n..]) && 0 <= k < n ==> x <= t[k]
  {
    forall x, k | x in multiset(t[n..]) && 0 <= k < n ensures x <= t[k] {
      assert x in t[n..];
      var m :| 0 <= m < |t| - n && t[n..][m] == x;
      assert t[n + m] == x;
    }
  }

  /** Every entry that normalisation drops is no larger than any entry it
      keeps: the ledger holds the highest scores. */
  lemma NormalizedKeepsHighest(s: seq<int>)
    ensures forall x, k :: x in multiset(s) - multiset(Normalized(s)) && 0 <= k < |Normalized(s)| ==>
              x <= Normalized(s)[k]
  {
    var sorted := SortDescending(s);
    var r := Normalized(s);
    if |sorted| > Capacity {
      var kept, dropped := sorted[..Capacity], sorted[Capacity..];
      assert r == kept;
      assert sorted == kept + dropped;
      assert multiset(sorted) == multiset(kept) + multiset(dropped);
      TailBelowHead(sorted, Capacity);
    } else {
      assert multiset(s) - multiset(r) == multiset{};
    }
  }

  lemma {:induction false} InsertSmallest(x: int, s: seq<int>)
    requires forall k :: 0 <= k < |s| ==> x <= s[k]
    ensures Insert(x, s) == s + [x]
  {
    if s != [] {
      forall k | 0 <= k < |s| - 1 ensures x <= s[1..][k] {
        assert s[1..][k] == s[k + 1];
      }
      InsertSmallest(x, s[1..]);
      assert Insert(x, s) == [s[0]] + Insert(x, s[1..]);
      assert s == [s[0]] + s[1..];
    }
  }

  /** Sorting a list that is already highest first changes nothing. */
  lemma {:induction false} SortDescendingOfDescending(s: seq<int>)
    requires Descending(s)
    ensures SortDescending(s) == s
  {
    if s != [] {
      var init := s[..|s| - 1];
      SortDescendingOfDescending(init);
      InsertSmallest(s[|s| - 1], init);
      assert s == init + [s[|s| - 1]];
    }
  }

  /** Normalising a ledger leaves it as it is, so normalising twice is the
      same as normalising once. */
  lemma NormalizedIdempotent(s: seq<int>)
    ensures IsLedger(s) ==> Normalized(s) == s
    ensures Normalized(Normalized(s)) == Normalized(s)
  {
    if IsLedger(s) {
      SortDescendingOfDescending(s);
    }
    SortDescendingOfDescending(Normalized(s));
  }

  /** Recording a positive score in a ledger is the same as inserting it in
      place and keeping the first `Capacity` entries: the old top five plus
      the new score, highest first. */
  lemma RecordInsertsScore(ledger: seq<int>, score: int)
    requires IsLedger(ledger) && score > 0
    ensures Record(ledger, score) == Top(Insert(score, ledger))
    ensures IsLedger(Record(ledger, score))
  {
    var all := ledger + [score];
    assert all[..|all| - 1] == ledger;
    SortDescendingOfDescending(ledger);
    assert SortDescending(all) == Insert(score, ledger);
  }

  /** A new highest score goes to the front, and the ledger grows by one
      entry until it is full. */
  lemma RecordNewBest(ledger: seq<int>, score: int)
    requires IsLedger(ledger) && score > 0
    requires forall k :: 0 <= k < |ledger| ==> ledger[k] <= score
    ensures Record(ledger, score)[0] == score
    ensures |Record(ledger, score)| == if |ledger| < Capacity then |ledger| + 1 else Capacity
  {
    RecordInsertsScore(ledger, score);
  }
}
