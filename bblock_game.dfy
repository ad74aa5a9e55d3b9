/** The play session of the Go port (type Game in bblock.go): the spawn timer, the
    falling blocks, hit-testing of clicks and the score. The process-wide best score
    is passed in and handed back rather than kept in a global. */
module Bblock {
  import opened Rules
  import opened Blocks

  /** A score together with the best score it is compared against. */
  datatype Tally = Tally(score: nat, high: nat)

  /** The score after a hit: one more point while below MaxScore; the best score is
      raised to the new score when that reaches it. */
  function Bump(t: Tally): (r: Tally)
    ensures t.score <= MaxScore ==> r.score <= MaxScore
    ensures t.score < MaxScore ==> r.score == t.score + 1 && r.high >= r.score
    ensures t.score < MaxScore && t.high >= r.score ==> r.high == t.high
    ensures t.score < MaxScore && t.high < r.score ==> r.high == r.score
    ensures t.score >= MaxScore ==> r == t
    ensures r.high >= t.high
  {
    if t.score < MaxScore then
      var s := t.score + 1;
      Tally(s, if s >= t.high then s else t.high)
    else t
  }

  /** Removal by overwriting slot i with the last block and dropping the last slot. */
  function SwapRemove(bs: seq<Block>, i: nat): (r: seq<Block>)
    requires i < |bs|
    ensures |r| == |bs| - 1
  {
    bs[i := bs[|bs| - 1]][..|bs| - 1]
  }

  /** Swap-removal takes exactly the block at i out and keeps all the others. */
  lemma SwapRemovePermutes(bs: seq<Block>, i: nat)
    requires i < |bs|
    ensures multiset(SwapRemove(bs, i)) + multiset{bs[i]} == multiset(bs)
  {
    var n := |bs| - 1;
    var r := SwapRemove(bs, i);
    if i < n {
      var a, c := bs[..i], bs[i + 1..n];
      assert r == a + [bs[n]] + c;
      assert bs == a + [bs[i]] + c + [bs[n]];
    } else {
      assert bs == r + [bs[n]];
    }
  }

  lemma SwapRemoveWellFormed(bs: seq<Block>, i: nat)
    requires i < |bs| && AllWellFormed(bs)
    ensures AllWellFormed(SwapRemove(bs, i))
  {
  }

  /** The blocks kept after a frame in which nothing ends the run: every block moved,
      those then missed dropped, the rest in their order. */
  function Survivors(bs: seq<Block>, rate: real): (r: seq<Block>)
    ensures |r| <= |bs|
    ensures forall k :: 0 <= k < |r| ==> !Missed(r[k], rate)
  {
    if bs == [] then []
    else
      var m := bs[|bs| - 1].Moved(rate);
      Survivors(bs[..|bs| - 1], rate) + (if Missed(m, rate) then [] else [m])
  }

  /** One more block: it is kept, moved, unless it is then missed. */
  lemma SurvivorsStep(bs: seq<Block>, rate: real, i: nat)
    requires i < |bs|
    ensures Survivors(bs[..i + 1], rate)
            == Survivors(bs[..i], rate) + (if Missed(bs[i].Moved(rate), rate) then [] else [bs[i].Moved(rate)])
  {
    assert bs[..i + 1][..i] == bs[..i];
  }

  /** When no block is missed, the kept blocks are all blocks, each moved once. */
  lemma {:induction false} SurvivorsWithoutMiss(bs: seq<Block>, rate: real)
    requires FirstMiss(bs, rate).None?
    ensures Survivors(bs, rate) == MoveAll(bs, rate)
  {
    if bs != [] {
      var init := bs[..|bs| - 1];
      assert forall k :: 0 <= k < |init| ==> init[k] == bs[k];
      SurvivorsWithoutMiss(init, rate);
      assert MoveAll(bs, rate) == MoveAll(init, rate) + [bs[|bs| - 1].Moved(rate)];
    }
  }

  /** The kept blocks stay in their lanes. */
  lemma {:induction false} SurvivorsWellFormed(bs: seq<Block>, rate: real)
    requires AllWellFormed(bs)
    ensures AllWellFormed(Survivors(bs, rate))
  {
    if bs != [] {
      SurvivorsWellFormed(bs[..|bs| - 1], rate);
    }
  }

  /** The kept blocks are exactly the blocks that, moved once, are not missed. */
  lemma {:induction false} SurvivorsMembers(bs: seq<Block>, rate: real, b: Block)
    ensures b in Survivors(bs, rate)
            <==> exists k :: 0 <= k < |bs| && b == bs[k].Moved(rate) && !Missed(b, rate)
  {
    if bs != [] {
      var n := |bs| - 1;
      var init := bs[..n];
      assert forall k :: 0 <= k < n ==> init[k] == bs[k];
      SurvivorsMembers(init, rate, b);
      if exists k :: 0 <= k < |bs| && b == bs[k].Moved(rate) && !Missed(b, rate) {
        var k :| 0 <= k < |bs| && b == bs[k].Moved(rate) && !Missed(b, rate);
        if k < n {
          assert b == init[k].Moved(rate);
        }
      }
    }
  }

  /** The kept blocks in order: an increasing map from the kept blocks to the blocks they
      came from, which covers every block that is not missed once moved. */
  lemma {:induction false} SurvivorsIndices(bs: seq<Block>, rate: real) returns (idx: seq<nat>)
    ensures |idx| == |Survivors(bs, rate)|
    ensures forall j :: 0 <= j < |idx| ==> idx[j] < |bs| && Survivors(bs, rate)[j] == bs[idx[j]].Moved(rate)
    ensures forall a, c :: 0 <= a < c < |idx| ==> idx[a] < idx[c]
    ensures forall k :: 0 <= k < |bs| && !Missed(bs[k].Moved(rate), rate) ==> k in idx
  {
    if bs == [] {
      return [];
    }
    var n := |bs| - 1;
    var init := bs[..n];
    assert forall k :: 0 <= k < n ==> init[k] == bs[k];
    var pre := SurvivorsIndices(init, rate);
    var m := bs[n].Moved(rate);
    if Missed(m, rate) {
      idx := pre;
    } else {
      idx := pre + [n];
    }
  }

  /** The blocks after the spawn timer has run for one frame. */
  function Spawned(count: int, threshold: int, bs: seq<Block>, picks: seq<int>): (r: seq<Block>)
    ensures bs <= r && |r| <= |bs| + |picks|
    ensures count + 1 < threshold ==> r == bs
  {
    if count + 1 < threshold then bs else bs + SpawnBatch(picks)
  }

  /** What the click loop as written leaves behind: the blocks, the tally, and whether
      it indexed past the end of the shrunken slice. */
  datatype ScanResult = ScanResult(blocks: seq<Block>, tally: Tally, crashed: bool)

  /** The click loop as written: it ranges over the ORIGINAL blocks by index even after
      swap-removals have shortened the slice, so the block visited at index i is
      orig[i], and a hit at an index at or past the current length fails. */
  function ScanAsWritten(orig: seq<Block>, i: nat, cur: seq<Block>, t: Tally,
                         px: int, py: int, height: int): (r: ScanResult)
    ensures |r.blocks| <= |cur|
    ensures r.tally.high >= t.high
    ensures t.score <= MaxScore ==> r.tally.score <= MaxScore
    ensures !r.crashed && |r.blocks| == |cur| ==> r.tally == t
    decreases |orig| - i
  {
    if i >= |orig| then ScanResult(cur, t, false)
    else if !Hits(orig[i], px, py, height) then ScanAsWritten(orig, i + 1, cur, t, px, py, height)
    else if i >= |cur| then ScanResult(cur, Bump(t), true)
    else ScanAsWritten(orig, i + 1, SwapRemove(cur, i), Bump(t), px, py, height)
  }

  /** Two blocks of one batch in neighbouring lanes, at the same height, and a click on
      the column their hit boxes share: the first hit shrinks the slice to one block and
      the second hit, at index 1, is out of range. */
  lemma NeighbourPairCrashes(p: int, bottom: real, height: int, py: int, t: Tally)
    requires 0 <= p < Lanes - 1
    requires bottom <= py as real <= bottom + height as real
    ensures var bs := [Block(p * LaneStride, p, bottom), Block((p + 1) * LaneStride, p + 1, bottom)];
            ScanAsWritten(bs, 0, bs, t, (p + 1) * LaneStride, py, height).crashed
  {
    var bs := [Block(p * LaneStride, p, bottom), Block((p + 1) * LaneStride, p + 1, bottom)];
    var px := (p + 1) * LaneStride;
    assert SwapRemove(bs, 0) == [bs[1]];
    assert ScanAsWritten(bs, 1, [bs[1]], Bump(t), px, py, height) == ScanResult([bs[1]], Bump(Bump(t)), true);
  }

  /** Such a pair is what a batch picking two neighbouring lanes spawns. */
  lemma NeighbourPairSpawns(p: int)
    requires 0 <= p < Lanes - 1
    ensures SpawnBatch([p, p + 1]) == [Block(p * LaneStride, p, ScreenHeight as real),
                                      Block((p + 1) * LaneStride, p + 1, ScreenHeight as real)]
  {
    assert [p, p + 1][..1] == [p];
    assert FirstOccurrences([p]) == [p] by { assert [p][..0] == []; }
  }

  /** A stretch of the scan that hits nothing changes nothing. */
  lemma {:induction false} ScanSkipsMisses(orig: seq<Block>, i: nat, j: nat, cur: seq<Block>, t: Tally,
                                           px: int, py: int, height: int)
    requires i <= j <= |orig|
    requires forall k :: i <= k < j ==> !Hits(orig[k], px, py, height)
    ensures ScanAsWritten(orig, i, cur, t, px, py, height) == ScanAsWritten(orig, j, cur, t, px, py, height)
    decreases j - i
  {
    if i < j {
      ScanSkipsMisses(orig, i + 1, j, cur, t, px, py, height);
    }
  }

  /** The loop as written agrees with the first-hit rule whenever at most one block is
      hit: it then fails nowhere and removes that one block. */
  lemma AsWrittenAgreesOnSingleHit(bs: seq<Block>, t: Tally, px: int, py: int, height: int)
    requires forall i, j :: 0 <= i < j < |bs| && Hits(bs[i], px, py, height) ==> !Hits(bs[j], px, py, height)
    ensures var hit := FirstHit(bs, px, py, height);
            ScanAsWritten(bs, 0, bs, t, px, py, height)
            == if hit.None? then ScanResult(bs, t, false)
               else ScanResult(SwapRemove(bs, hit.value), Bump(t), false)
  {
    var hit := FirstHit(bs, px, py, height);
    if hit.None? {
      ScanSkipsMisses(bs, 0, |bs|, bs, t, px, py, height);
    } else {
      var i := hit.value;
      ScanSkipsMisses(bs, 0, i, bs, t, px, py, height);
      ScanSkipsMisses(bs, i + 1, |bs|, SwapRemove(bs, i), Bump(t), px, py, height);
    }
  }

  /** The session. Fields as in bblock.go; rate and block positions are exact reals. */
  class Game {
    var score: nat
    var blocks: seq<Block>
    var rate: real
    var count: int
    var width: int
    var height: int

    /** The spawn threshold int(height / rate). */
    function Threshold(): int
      reads this`height, this`rate
      requires rate > 0.0
    {
      SpawnPeriod(Settings(height, rate))
    }

    /** A session set up from a preset: the timer is below its threshold, the score within
        MaxScore, and every block in a lane. */
    ghost predicate Valid()
      reads this
    {
      && rate > 0.0
      && width == LaneWidth
      && 1 <= Threshold()
      && 0 <= count < Threshold()
      && score <= MaxScore
      && AllWellFormed(blocks)
    }

    /** The zero value of a Go Game. */
    constructor ()
      ensures score == 0 && blocks == [] && rate == 0.0 && count == 0 && width == 0 && height == 0
    {
      score, blocks, rate, count, width, height := 0, [], 0.0, 0, 0, 0;
    }

    /** A new session at the given difficulty; the random seed and the start sound are
        not modelled. */
    method Reset(difficulty: int)
      requires ValidDifficulty(difficulty)
      modifies this
      ensures Valid()
      ensures score == 0 && blocks == [] && count == 0 && width == LaneWidth
      ensures Settings(height, rate) == DifficultySettings(difficulty)
    {
      score := 0;
      blocks := [];
      count := 0;
      width := 50;
      if difficulty == 1 {
        height, rate := 100, 2.0;
      } else if difficulty == 2 {
        height, rate := 100, 3.0;
      } else if difficulty == 3 {
        height, rate := 100, 4.0;
      } else if difficulty == 4 {
        height, rate := 90, 4.5;
      } else {
        height, rate := 80, 6.0;
      }
      SpawnPeriods(difficulty);
    }

    /** One frame of the spawn timer; when it reaches the threshold it restarts and the
        picks (the random lane choices) become a batch of new blocks. */
    method UpdateBlocks(picks: seq<int>)
      requires Valid() && ValidPicks(picks)
      modifies this
      ensures Valid()
      ensures score == old(score) && rate == old(rate) && height == old(height) && width == old(width)
      ensures count == if old(count) + 1 < Threshold() then old(count) + 1 else 0
      ensures blocks == Spawned(old(count), Threshold(), old(blocks), picks)
    {
      var threshold := Threshold();
      count := count + 1;
      if count < threshold {
        return;
      }
      count := 0;
      var batch := NewBatch(picks);
      SpawnBatchWellFormed(picks);
      AppendWellFormed(blocks, batch);
      blocks := blocks + batch;
    }

    /** One frame: run the spawn timer, then move every block. The first block found
        missed ends the run at once unless the player is invincible: the blocks up to it
        have moved and the rest have not, and none is dropped. Otherwise the blocks that
        are not missed are kept, in order, and the missed ones are dropped. */
    method Update(picks: seq<int>, invincible: bool) returns (missed: bool)
      requires Valid() && ValidPicks(picks)
      modifies this
      ensures Valid()
      ensures score == old(score) && rate == old(rate) && height == old(height)
      ensures count == if old(count) + 1 < Threshold() then old(count) + 1 else 0
      ensures var bs := Spawned(old(count), Threshold(), old(blocks), picks);
              var miss := FirstMiss(bs, rate);
              if miss.Some? && !invincible then missed && blocks == AfterMiss(bs, rate, miss.value)
              else !missed && blocks == Survivors(bs, rate)
    {
      UpdateBlocks(picks);
      missed := MoveBlocks(invincible);
    }

    /** The moving loop of Update: each block in turn falls one frame; a missed block ends
        the loop at once unless the player is invincible, in which case it is dropped. */
    method MoveBlocks(invincible: bool) returns (missed: bool)
      requires AllWellFormed(blocks)
      modifies this`blocks
      ensures AllWellFormed(blocks)
      ensures var miss := FirstMiss(old(blocks), rate);
              if miss.Some? && !invincible then missed && blocks == AfterMiss(old(blocks), rate, miss.value)
              else !missed && blocks == Survivors(old(blocks), rate)
    {
      ghost var orig := blocks;
      var bs := blocks;
      var r := rate;
      var kept: seq<Block> := [];
      var i := 0;
      missed := false;
      while i < |bs|
        invariant 0 <= i <= |bs| == |orig|
        invariant kept == Survivors(orig[..i], r)
        invariant !invincible ==> forall k :: 0 <= k < i ==> !Missed(orig[k].Moved(r), r)
        invariant forall k :: 0 <= k < i ==> bs[k] == orig[k].Moved(r)
        invariant forall k :: i <= k < |bs| ==> bs[k] == orig[k]
      {
        SurvivorsStep(orig, r, i);
        bs := bs[i := bs[i].Moved(r)];
        if bs[i].bottom <= r {
          if !invincible {
            missed := true;
            FirstMissAt(orig, r, i);
            assert bs == AfterMiss(orig, r, i);
            AfterMissWellFormed(orig, r, i);
            blocks := bs;
            return;
          }
        } else {
          kept := kept + [bs[i]];
        }
        i := i + 1;
      }
      assert orig[..i] == orig;
      SurvivorsWellFormed(orig, r);
      blocks := kept;
    }

    /** A left click, with the loop's evidently intended first-hit rule: the first block
        in list order that the click hits is swap-removed and the score bumped; no block
        hit changes nothing. The click's y is flipped to count upwards. */
    method Clicked(ex: int, ey: int, high: nat) returns (newHigh: nat)
      requires Valid()
      modifies this
      ensures Valid()
      ensures rate == old(rate) && height == old(height) && count == old(count)
      ensures var hit := FirstHit(old(blocks), ex, ScreenHeight - ey, height);
              if hit.None? then blocks == old(blocks) && score == old(score) && newHigh == high
              else blocks == SwapRemove(old(blocks), hit.value)
                   && Tally(score, newHigh) == Bump(Tally(old(score), high))
    {
      var px, py := ex, ScreenHeight - ey;
      var bs, h := blocks, height;
      newHigh := high;
      var i := 0;
      while i < |bs|
        invariant 0 <= i <= |bs|
        invariant forall j :: 0 <= j < i ==> !Hits(bs[j], px, py, h)
      {
        if Hits(bs[i], px, py, h) {
          FirstHitAt(bs, px, py, h, i);
          if score < MaxScore {
            score := score + 1;
            if score >= newHigh {
              newHigh := score;
            }
          }
          SwapRemoveWellFormed(bs, i);
          var n := |bs| - 1;
          blocks := bs[i := bs[n]][..n];
          return;
        }
        i := i + 1;
      }
    }

    /** A left click as bblock.go writes it: the loop does not stop after a removal and
        keeps indexing up to the original length, failing when a later hit lies at or
        past the end of the shrunken slice (the score has been bumped by then). */
    method ClickedAsWritten(ex: int, ey: int, high: nat) returns (newHigh: nat, crashed: bool)
      requires Valid()
      modifies this
      ensures Valid()
      ensures rate == old(rate) && height == old(height) && count == old(count) && width == old(width)
      ensures ScanAsWritten(old(blocks), 0, old(blocks), Tally(old(score), high), ex, ScreenHeight - ey, height)
              == ScanResult(blocks, Tally(score, newHigh), crashed)
    {
      var px, py := ex, ScreenHeight - ey;
      ghost var orig := blocks;
      var backing := blocks;  // the slice's backing array, which the range reads from
      var n0 := |blocks|;
      newHigh, crashed := high, false;
      var i := 0;
      while i < n0
        invariant 0 <= i <= n0 == |backing| == |orig|
        invariant |blocks| <= n0 && blocks == backing[..|blocks|]
        invariant forall j :: i <= j < n0 ==> backing[j] == orig[j]
        invariant rate == old(rate) && height == old(height) && count == old(count) && width == old(width)
        invariant score <= MaxScore && AllWellFormed(blocks)
        invariant ScanAsWritten(orig, 0, orig, Tally(old(score), high), px, py, height)
                  == ScanAsWritten(orig, i, blocks, Tally(score, newHigh), px, py, height)
      {
        var b := backing[i];
        if Hits(b, px, py, height) {
          if score < MaxScore {
            score := score + 1;
            if score >= newHigh {
              newHigh := score;
            }
          }
          var n := |blocks| - 1;
          if i > n {
            crashed := true;  // blocks[i] is out of range
            return;
          }
          ghost var cur := blocks;
          SwapRemoveWellFormed(cur, i);
          backing := backing[i := backing[n]];
          blocks := backing[..n];
          assert blocks == SwapRemove(cur, i);
        }
        i := i + 1;
      }
    }
  }
}
