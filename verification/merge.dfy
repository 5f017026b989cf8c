/** One row of the 2048 board: gap removal, the single left-to-right merge
    pass and the padding back to the row's length (`GameLogic.merge_row`). */
module RowMerge {

  /** A board cell: empty (`None` in the game) or a tile holding an integer. */
  datatype Cell = Empty | Tile(value: int)

  /** A value the game itself can produce: a power of two that is at least 2. */
  predicate IsTileValue(n: int)
  {
    n == 2 || (n > 2 && n % 2 == 0 && IsTileValue(n / 2))
  }

  predicate AllTileValues(t: seq<int>)
  {
    forall k :: 0 <= k < |t| ==> IsTileValue(t[k])
  }

  /** Every tile of the row holds a value the game can produce. */
  predicate RowTilesValid(row: seq<Cell>)
  {
    forall k :: 0 <= k < |row| && row[k].Tile? ==> IsTileValue(row[k].value)
  }

  /** No two neighbouring values are equal, so a merge pass has nothing to merge. */
  predicate NoEqualNeighbours<T(==)>(t: seq<T>)
  {
    forall k :: 0 < k < |t| ==> t[k - 1] != t[k]
  }

  /** Every empty cell lies to the right of every tile. */
  predicate LeftPacked(row: seq<Cell>)
  {
    forall i, j :: 0 <= i < j < |row| && row[i].Empty? ==> row[j].Empty?
  }

  function Sum(t: seq<int>): int
  {
    if t == [] then 0 else t[0] + Sum(t[1..])
  }

  /** The tile values of a row, left to right, with the gaps removed (the list `temp`). */
  function Values(row: seq<Cell>): (t: seq<int>)
    ensures |t| <= |row|
  {
    if row == [] then []
    else if row[0].Tile? then [row[0].value] + Values(row[1..])
    else Values(row[1..])
  }

  /** The merge pass over compacted values: two equal neighbours become one
      value of twice the size and the scan resumes after both, so no value
      takes part in two merges. Each output value absorbs one or two inputs. */
  function Merged(t: seq<int>): (r: seq<int>)
    ensures |r| <= |t| <= 2 * |r|
  {
    if |t| == 0 then []
    else if |t| >= 2 && t[0] == t[1] then [t[0] * 2] + Merged(t[2..])
    else [t[0]] + Merged(t[1..])
  }

  /** What the merge pass adds to the score: the sum of the merged values. */
  function Gain(t: seq<int>): int
  {
    if |t| == 0 then 0
    else if |t| >= 2 && t[0] == t[1] then t[0] * 2 + Gain(t[2..])
    else Gain(t[1..])
  }

  /** One step of the merge pass at index `i`, when the value there equals
      its right neighbour: both become one doubled value. */
  lemma MergeStepPair(t: seq<int>, i: int)
    requires 0 <= i && i + 1 < |t| && t[i] == t[i + 1]
    ensures Merged(t[i..]) == [t[i] * 2] + Merged(t[i + 2..])
    ensures Gain(t[i..]) == t[i] * 2 + Gain(t[i + 2..])
  {
    assert t[i..][2..] == t[i + 2..];
  }

  /** One step of the merge pass at index `i`, when the value there does not
      equal its right neighbour (or has none): it is kept as it is. */
  lemma MergeStepSingle(t: seq<int>, i: int)
    requires 0 <= i < |t| && !(i + 1 < |t| && t[i] == t[i + 1])
    ensures Merged(t[i..]) == [t[i]] + Merged(t[i + 1..])
    ensures Gain(t[i..]) == Gain(t[i + 1..])
  {
    assert t[i..][1..] == t[i + 1..];
  }

  function Tiles(t: seq<int>): seq<Cell>
  {
    seq(|t|, k requires 0 <= k < |t| => Tile(t[k]))
  }

  function Blanks(n: nat): seq<Cell>
  {
    seq(n, _ => Empty)
  }

  /** The row `merge_row` returns: merged values first, then empty cells. */
  function MergedRow(row: seq<Cell>): (r: seq<Cell>)
    ensures |r| == |row|
  {
    var m := Merged(Values(row));
    Tiles(m) + Blanks(|row| - |m|)
  }

  lemma {:induction false} ValuesAppend(a: seq<Cell>, b: seq<Cell>)
    ensures Values(a + b) == Values(a) + Values(b)
  {
    if a == [] {
      assert a + b == b;
    } else {
      assert (a + b)[1..] == a[1..] + b;
      ValuesAppend(a[1..], b);
    }
  }

  lemma {:induction false} ValuesOfTiles(t: seq<int>)
    ensures Values(Tiles(t)) == t
  {
    if t != [] {
      assert Tiles(t)[1..] == Tiles(t[1..]);
      ValuesOfTiles(t[1..]);
    }
  }

  lemma {:induction false} ValuesOfBlanks(n: nat)
    ensures Values(Blanks(n)) == []
  {
    if n > 0 {
      assert Blanks(n)[1..] == Blanks(n - 1);
      ValuesOfBlanks(n - 1);
    }
  }

  /** A merged row is left-packed, its tiles are exactly the merge pass over
      the input's tiles, and it holds between half and all of the input's tiles. */
  lemma MergedRowShape(row: seq<Cell>)
    ensures LeftPacked(MergedRow(row))
    ensures Values(MergedRow(row)) == Merged(Values(row))
    ensures |Values(MergedRow(row))| <= |Values(row)| <= 2 * |Values(MergedRow(row))|
  {
    var m := Merged(Values(row));
    ValuesAppend(Tiles(m), Blanks(|row| - |m|));
    ValuesOfTiles(m);
    ValuesOfBlanks(|row| - |m|);
  }

  lemma {:induction false} MergedSum(t: seq<int>)
    ensures Sum(Merged(t)) == Sum(t)
  {
    if |t| >= 2 && t[0] == t[1] {
      assert t[1..][1..] == t[2..];
      assert ([t[0] * 2] + Merged(t[2..]))[1..] == Merged(t[2..]);
      MergedSum(t[2..]);
    } else if |t| > 0 {
      assert ([t[0]] + Merged(t[1..]))[1..] == Merged(t[1..]);
      MergedSum(t[1..]);
    }
  }

  /** `t[s]` and its right neighbour are equal, so the merge pass doubles them. */
  predicate PairAt(t: seq<int>, s: int)
  {
    0 <= s && s + 1 < |t| && t[s] == t[s + 1]
  }

  /** Where the block after block `k` starts: the next start, or the end of `t`. */
  function BlockEnd(t: seq<int>, starts: seq<int>, k: int): int
    requires 0 <= k < |starts|
  {
    if k + 1 < |starts| then starts[k + 1] else |t|
  }

  /** Block `k` of the cutting `starts`: it lies in `t` and either starts at
      a pair of equal neighbours, is two values long and gives twice their
      value, or is the one value, kept as it is. */
  predicate BlockAt(t: seq<int>, starts: seq<int>, r: seq<int>, k: int)
    requires |starts| == |r| && 0 <= k < |starts|
  {
    && 0 <= starts[k] < |t|
    && (if PairAt(t, starts[k])
        then r[k] == 2 * t[starts[k]] && BlockEnd(t, starts, k) == starts[k] + 2
        else r[k] == t[starts[k]] && BlockEnd(t, starts, k) == starts[k] + 1)
  }

  /** `starts` cuts `t`, front to back and without gaps, into the blocks the
      merge pass reads, and `r` holds one output per block. */
  predicate MergeBlocks(t: seq<int>, starts: seq<int>, r: seq<int>)
  {
    && |starts| == |r|
    && (|starts| == 0 ==> |t| == 0)
    && (|starts| > 0 ==> starts[0] == 0)
    && forall k :: 0 <= k < |starts| ==> BlockAt(t, starts, r, k)
  }

  /** The sum of the outputs that come from a pair of equal neighbours. */
  function PairTotal(t: seq<int>, starts: seq<int>, r: seq<int>): int
    requires |starts| == |r|
    decreases |r|
  {
    if |r| == 0 then 0
    else (if PairAt(t, starts[0]) then r[0] else 0) + PairTotal(t, starts[1..], r[1..])
  }

  function Offset(s: seq<int>, d: int): (r: seq<int>)
    ensures |r| == |s|
  {
    seq(|s|, i requires 0 <= i < |s| => s[i] + d)
  }

  /** Where the merge pass starts each of its blocks. */
  function BlockStarts(t: seq<int>): (s: seq<int>)
    ensures |s| == |Merged(t)|
  {
    if |t| == 0 then []
    else if |t| >= 2 && t[0] == t[1] then [0] + Offset(BlockStarts(t[2..]), 2)
    else [0] + Offset(BlockStarts(t[1..]), 1)
  }

  lemma {:induction false} PairTotalOffset(t: seq<int>, e: int, s: seq<int>, r: seq<int>)
    requires 0 <= e <= |t| && |s| == |r|
    requires forall j :: 0 <= j < |s| ==> 0 <= s[j]
    ensures PairTotal(t, Offset(s, e), r) == PairTotal(t[e..], s, r)
    decreases |r|
  {
    if |r| > 0 {
      assert Offset(s, e)[1..] == Offset(s[1..], e);
      assert PairAt(t, s[0] + e) == PairAt(t[e..], s[0]);
      PairTotalOffset(t, e, s[1..], r[1..]);
    }
  }

  /** A block after the first reads the same in `t` as in the rest of `t`
      after the first block, which is `e` values long. */
  lemma BlockAtOffset(t: seq<int>, e: int, s: seq<int>, r: seq<int>, v: int, k: int)
    requires 0 <= e <= |t| && |s| == |r| && 0 < k <= |s| && 0 <= s[k - 1]
    ensures BlockAt(t, [0] + Offset(s, e), [v] + r, k) <==> BlockAt(t[e..], s, r, k - 1)
  {
    var S := [0] + Offset(s, e);
    assert S[k] == s[k - 1] + e && ([v] + r)[k] == r[k - 1];
    assert PairAt(t, S[k]) == PairAt(t[e..], s[k - 1]);
    if k + 1 < |S| {
      assert S[k + 1] == s[k] + e;
    }
  }

  /** The merge pass reads its input in blocks: each output is either a value
      kept alone, because it differs from its right neighbour or is the last,
      or twice a value that equals its right neighbour, and the next block
      starts after both. So no value is in two merges, and the score gain is
      the sum of the doubled outputs. */
  lemma {:induction false} MergedIsBlockwise(t: seq<int>)
    ensures MergeBlocks(t, BlockStarts(t), Merged(t))
    ensures Gain(t) == PairTotal(t, BlockStarts(t), Merged(t))
  {
    if |t| > 0 {
      var e := if |t| >= 2 && t[0] == t[1] then 2 else 1;
      var t' := t[e..];
      var s' := BlockStarts(t');
      var r' := Merged(t');
      MergedIsBlockwise(t');
      var S := BlockStarts(t);
      var R := Merged(t);
      assert S == [0] + Offset(s', e);
      assert R == [R[0]] + r';
      forall k | 0 <= k < |S| ensures BlockAt(t, S, R, k) {
        if k == 0 {
          if |s'| > 0 {
            assert BlockAt(t', s', r', 0);
            assert S[1] == s'[0] + e;
          }
        } else {
          assert BlockAt(t', s', r', k - 1);
          BlockAtOffset(t, e, s', r', R[0], k);
        }
      }
      assert S[1..] == Offset(s', e) && R[1..] == r';
      forall j | 0 <= j < |s'| ensures 0 <= s'[j] {
        assert BlockAt(t', s', r', j);
      }
      PairTotalOffset(t, e, s', r');
    }
  }

  lemma {:induction false} StartsIncrease(t: seq<int>, starts: seq<int>, r: seq<int>, k: int)
    requires MergeBlocks(t, starts, r) && 0 < k < |starts|
    ensures starts[k] >= starts[1]
    decreases k
  {
    if k > 1 {
      StartsIncrease(t, starts, r, k - 1);
      assert BlockAt(t, starts, r, k - 1);
      assert starts[k] == BlockEnd(t, starts, k - 1);
    }
  }

  /** Conversely, a cutting into blocks decides the output: whatever meets
      the block description is the merge pass, cut where it cuts. */
  lemma {:induction false} BlockwiseIsMerged(t: seq<int>, starts: seq<int>, r: seq<int>)
    requires MergeBlocks(t, starts, r)
    ensures r == Merged(t) && starts == BlockStarts(t)
    decreases |t|
  {
    if |starts| > 0 {
      assert BlockAt(t, starts, r, 0);
    }
    if |t| > 0 {
      var e := BlockEnd(t, starts, 0);
      var t' := t[e..];
      var s' := Offset(starts[1..], -e);
      var r' := r[1..];
      assert starts == [0] + Offset(s', e);
      assert r == [r[0]] + r';
      forall k | 0 <= k < |s'| ensures BlockAt(t', s', r', k) {
        StartsIncrease(t, starts, r, k + 1);
        assert BlockAt(t, starts, r, k + 1);
        BlockAtOffset(t, e, s', r', r[0], k + 1);
      }
      if |s'| > 0 {
        assert s'[0] == starts[1] - e == 0;
      }
      assert MergeBlocks(t', s', r');
      BlockwiseIsMerged(t', s', r');
      if PairAt(t, 0) {
        assert e == 2 && r[0] == t[0] * 2 && |t| >= 2 && t[0] == t[1];
        assert Merged(t) == [t[0] * 2] + Merged(t[2..]);
        assert BlockStarts(t) == [0] + Offset(BlockStarts(t[2..]), 2);
      } else {
        assert e == 1 && r[0] == t[0] && !(|t| >= 2 && t[0] == t[1]);
        assert Merged(t) == [t[0]] + Merged(t[1..]);
        assert BlockStarts(t) == [0] + Offset(BlockStarts(t[1..]), 1);
      }
    }
  }

  /** Merging a row keeps the total of its tile values. */
  lemma MergedRowKeepsTotal(row: seq<Cell>)
    ensures Sum(Values(MergedRow(row))) == Sum(Values(row))
  {
    MergedRowShape(row);
    MergedSum(Values(row));
  }

  /** The merge pass changes nothing exactly when no two neighbours are equal. */
  lemma {:induction false} MergedUnchangedIff(t: seq<int>)
    ensures Merged(t) == t <==> NoEqualNeighbours(t)
  {
    if |t| >= 2 && t[0] == t[1] {
      assert |Merged(t)| < |t|;
      assert !NoEqualNeighbours(t) by { assert t[1 - 1] == t[1]; }
    } else if |t| > 0 {
      MergedUnchangedIff(t[1..]);
      assert t == [t[0]] + t[1..];
      if NoEqualNeighbours(t[1..]) {
        forall k | 0 < k < |t| ensures t[k - 1] != t[k] {
          if k > 1 {
            assert t[1..][k - 2] == t[k - 1] && t[1..][k - 1] == t[k];
          }
        }
      } else {
        var k :| 0 < k < |t[1..]| && t[1..][k - 1] == t[1..][k];
        assert t[k] == t[k + 1];
      }
    }
  }

  /** On positive values the score never drops, and it rises exactly when
      some pair of neighbouring values is equal. */
  lemma {:induction false} GainReflectsMerges(t: seq<int>)
    requires forall k :: 0 <= k < |t| ==> t[k] > 0
    ensures Gain(t) >= 0
    ensures Gain(t) > 0 <==> !NoEqualNeighbours(t)
  {
    if |t| >= 2 && t[0] == t[1] {
      GainReflectsMerges(t[2..]);
      assert t[1 - 1] == t[1];
    } else if |t| > 0 {
      GainReflectsMerges(t[1..]);
      if NoEqualNeighbours(t[1..]) {
        forall k | 0 < k < |t| ensures t[k - 1] != t[k] {
          if k > 1 {
            assert t[1..][k - 2] == t[k - 1] && t[1..][k - 1] == t[k];
          }
        }
      } else {
        var k :| 0 < k < |t[1..]| && t[1..][k - 1] == t[1..][k];
        assert t[k] == t[k + 1];
      }
    }
  }

  /** A pass with nothing to merge scores nothing, whatever the values. */
  lemma {:induction false} NoMergeNoGain(t: seq<int>)
    requires NoEqualNeighbours(t)
    ensures Gain(t) == 0
  {
    if |t| >= 2 {
      assert t[0] != t[1];
      assert NoEqualNeighbours(t[1..]) by {
        forall k | 0 < k < |t[1..]| ensures t[1..][k - 1] != t[1..][k] {
          assert t[1..][k - 1] == t[k] && t[1..][k] == t[k + 1];
        }
      }
      NoMergeNoGain(t[1..]);
    }
  }

  lemma {:induction false} MergedKeepsTileValues(t: seq<int>)
    requires AllTileValues(t)
    ensures AllTileValues(Merged(t))
  {
    if |t| >= 2 && t[0] == t[1] {
      assert IsTileValue(t[0]);
      assert IsTileValue(t[0] * 2) by { assert (t[0] * 2) / 2 == t[0]; }
      MergedKeepsTileValues(t[2..]);
    } else if |t| > 0 {
      MergedKeepsTileValues(t[1..]);
    }
  }

  lemma {:induction false} RowTilesValidIff(row: seq<Cell>)
    ensures RowTilesValid(row) <==> AllTileValues(Values(row))
  {
    if row != [] {
      RowTilesValidIff(row[1..]);
      assert forall k :: 0 < k < |row| ==> row[1..][k - 1] == row[k];
      if row[0].Tile? {
        var rest := Values(row[1..]);
        var t := [row[0].value] + rest;
        assert Values(row) == t;
        if RowTilesValid(row) {
          forall k | 0 <= k < |t| ensures IsTileValue(t[k]) {
            if k > 0 { assert t[k] == rest[k - 1]; }
          }
        }
        if AllTileValues(t) {
          assert IsTileValue(t[0]);
          assert forall k :: 0 <= k < |rest| ==> rest[k] == t[k + 1];
          forall k | 0 <= k < |row| && row[k].Tile? ensures IsTileValue(row[k].value) {
            if k > 0 { assert row[1..][k - 1] == row[k]; }
          }
        }
      }
    }
  }

  /** If every tile of a row holds a power of two of at least 2, so does every
      tile of the merged row, and the merge adds a non-negative amount that is
      positive exactly when two neighbouring tiles (gaps ignored) are equal. */
  lemma MergedRowKeepsTiles(row: seq<Cell>)
    requires RowTilesValid(row)
    ensures RowTilesValid(MergedRow(row))
    ensures Gain(Values(row)) >= 0
    ensures Gain(Values(row)) > 0 <==> !NoEqualNeighbours(Values(row))
  {
    RowTilesValidIff(row);
    MergedKeepsTileValues(Values(row));
    MergedRowShape(row);
    RowTilesValidIff(MergedRow(row));
    GainReflectsMerges(Values(row));
  }

  lemma {:induction false} PackedRowForm(row: seq<Cell>)
    requires LeftPacked(row)
    ensures row == Tiles(Values(row)) + Blanks(|row| - |Values(row)|)
  {
    if row != [] {
      assert LeftPacked(row[1..]);
      PackedRowForm(row[1..]);
      if row[0].Empty? {
        assert forall k :: 0 <= k < |row| ==> row[k].Empty?;
        ValuesOfBlanks(|row| - 1);
        assert row[1..] == Blanks(|row| - 1);
        assert row == Blanks(|row|);
      } else {
        assert Values(row) == [row[0].value] + Values(row[1..]);
      }
    }
  }

  /** `merge_row` returns its input unchanged exactly when the row is already
      left-packed and no two of its neighbouring tiles are equal. */
  lemma MergedRowUnchangedIff(row: seq<Cell>)
    ensures MergedRow(row) == row <==> LeftPacked(row) && NoEqualNeighbours(Values(row))
  {
    MergedRowShape(row);
    MergedUnchangedIff(Values(row));
    if LeftPacked(row) && NoEqualNeighbours(Values(row)) {
      PackedRowForm(row);
    }
  }

  lemma {:induction false} ValuesOfFullRow(row: seq<Cell>)
    requires forall k :: 0 <= k < |row| ==> row[k].Tile?
    ensures |Values(row)| == |row|
    ensures forall k :: 0 <= k < |row| ==> Values(row)[k] == row[k].value
  {
    if row != [] {
      ValuesOfFullRow(row[1..]);
      assert Values(row) == [row[0].value] + Values(row[1..]);
    }
  }

  /** A row with no gap and no two equal neighbouring tiles is left as it is. */
  lemma FullRowUnchanged(row: seq<Cell>)
    requires forall k :: 0 <= k < |row| ==> row[k].Tile?
    requires NoEqualNeighbours(row)
    ensures MergedRow(row) == row
    ensures Gain(Values(row)) == 0
  {
    ValuesOfFullRow(row);
    var t := Values(row);
    forall k | 0 < k < |t| ensures t[k - 1] != t[k] {
      assert row[k - 1] != row[k];
    }
    MergedRowUnchangedIff(row);
    NoMergeNoGain(t);
  }

  /** Worked row: a pair merges once, and the merged 4 does not merge again
      with the 4 beside it. */
  lemma MergePairExample()
    ensures MergedRow([Tile(2), Tile(2), Tile(4), Empty]) == [Tile(4), Tile(4), Empty, Empty]
    ensures Gain(Values([Tile(2), Tile(2), Tile(4), Empty])) == 4
  {
    var a := [Tile(2), Tile(2), Tile(4), Empty];
    assert Values(a) == [2, 2, 4] by {
      assert a[1..] == [Tile(2), Tile(4), Empty];
      assert a[1..][1..] == [Tile(4), Empty];
      assert a[1..][1..][1..] == [Empty];
    }
    assert [2, 2, 4][2..] == [4];
    assert Merged([2, 2, 4]) == [4, 4];
  }

  /** Worked row: four equal tiles give two merged tiles, never one chained
      tile. */
  lemma MergeFourExample()
    ensures MergedRow([Tile(2), Tile(2), Tile(2), Tile(2)]) == [Tile(4), Tile(4), Empty, Empty]
    ensures Gain(Values([Tile(2), Tile(2), Tile(2), Tile(2)])) == 8
  {
    var b := [Tile(2), Tile(2), Tile(2), Tile(2)];
    assert Values(b) == [2, 2, 2, 2] by {
      assert b[1..] == [Tile(2), Tile(2), Tile(2)];
      assert b[1..][1..] == [Tile(2), Tile(2)];
      assert b[1..][1..][1..] == [Tile(2)];
    }
    assert [2, 2, 2, 2][2..] == [2, 2];
    assert [2, 2][2..] == [];
    assert Merged([2, 2, 2, 2]) == [4, 4];
  }

  /** Worked values: the merged 4 does not merge again with the 4 after it,
      and of three equal 5s the first two merge and the third passes on. */
  lemma MergeRunExample()
    ensures Merged([2, 2, 4, 5, 5, 5]) == [4, 4, 10, 5]
  {
    var c := [2, 2, 4, 5, 5, 5];
    var cut := [0, 2, 3, 5];
    assert BlockAt(c, cut, [4, 4, 10, 5], 2) by { assert PairAt(c, 3); }
    assert BlockAt(c, cut, [4, 4, 10, 5], 3) by { assert !PairAt(c, 5); }
    BlockwiseIsMerged(c, cut, [4, 4, 10, 5]);
  }
}
