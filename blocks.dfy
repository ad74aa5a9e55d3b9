/** The falling block, shared by both versions: how it is created in a lane, how it
    falls, when it counts as missed and when a click hits it. Positions are measured
    upwards from the bottom of the window; the fall rate is a multiple of 0.5, so
    `real` holds every position exactly. */
module Blocks {
  import opened Rules

  /** A block: the x of its left edge, its lane, and the height of its lower edge. */
  datatype Block = Block(x: int, col: int, bottom: real) {
    /** One frame of falling. */
    function Moved(rate: real): (r: Block)
      ensures r.x == x && r.col == col && r.bottom + rate == bottom
    {
      Block(x, col, bottom - rate)
    }
  }

  /** A block sits in one of the four lanes, at that lane's left edge. */
  predicate WellFormed(b: Block) {
    0 <= b.col < Lanes && b.x == b.col * LaneStride
  }

  predicate AllWellFormed(bs: seq<Block>) {
    forall k :: 0 <= k < |bs| ==> WellFormed(bs[k])
  }

  /** A new block in a lane, with its lower edge at the top of the window. */
  function NewBlock(col: int): (b: Block)
    ensures 0 <= col < Lanes ==> WellFormed(b) && 0 <= b.x && b.x + LaneWidth <= ScreenWidth
    ensures b.col == col && b.bottom == ScreenHeight as real
  {
    Block(col * LaneStride, col, ScreenHeight as real)
  }

  /** The random part of a spawn batch: one to four lane picks, each a lane. */
  predicate ValidPicks(picks: seq<int>) {
    1 <= |picks| <= 4 && forall k :: 0 <= k < |picks| ==> 0 <= picks[k] < Lanes
  }

  function Batch(lanes: seq<int>): seq<Block> {
    seq(|lanes|, k requires 0 <= k < |lanes| => NewBlock(lanes[k]))
  }

  /** The blocks one spawn batch appends. */
  function SpawnBatch(picks: seq<int>): seq<Block> {
    Batch(FirstOccurrences(picks))
  }

  /** The batch builder: each picked lane not already used gets a new block, in pick
      order. */
  method NewBatch(picks: seq<int>) returns (batch: seq<Block>)
    ensures batch == SpawnBatch(picks)
  {
    batch := [];
    var used: seq<int> := [];
    var i := 0;
    while i < |picks|
      invariant 0 <= i <= |picks|
      invariant used == FirstOccurrences(picks[..i])
      invariant batch == Batch(used)
    {
      var p := picks[i];
      var seen := LaneUsed(used, p);
      assert picks[..i + 1] == picks[..i] + [p];
      if !seen {
        BatchSnoc(used, p);
        batch := batch + [NewBlock(p)];
        used := used + [p];
      }
      i := i + 1;
    }
    assert picks[..i] == picks;
  }

  /** The inner loop of the batch builder: whether a lane was already used. */
  method LaneUsed(used: seq<int>, p: int) returns (seen: bool)
    ensures seen <==> p in used
  {
    var j := 0;
    while j < |used|
      invariant 0 <= j <= |used|
      invariant p !in used[..j]
    {
      if used[j] == p {
        return true;
      }
      assert used[..j + 1] == used[..j] + [used[j]];
      j := j + 1;
    }
    assert used[..j] == used;
    return false;
  }

  /** A batch holds one to four new blocks at the top of the window, in pairwise distinct
      lanes, with a block in every picked lane and in no other. */
  lemma SpawnBatchShape(picks: seq<int>)
    requires ValidPicks(picks)
    ensures 1 <= |SpawnBatch(picks)| <= |picks|
    ensures AllWellFormed(SpawnBatch(picks))
    ensures forall k :: 0 <= k < |SpawnBatch(picks)| ==> SpawnBatch(picks)[k].bottom == ScreenHeight as real
    ensures forall i, j :: 0 <= i < j < |SpawnBatch(picks)| ==> SpawnBatch(picks)[i].col != SpawnBatch(picks)[j].col
    ensures forall p :: p in picks <==> exists k :: 0 <= k < |SpawnBatch(picks)| && SpawnBatch(picks)[k].col == p
  {
    var lanes := FirstOccurrences(picks);
    assert picks[0] in lanes;
    forall k | 0 <= k < |lanes| ensures WellFormed(SpawnBatch(picks)[k]) {
      assert lanes[k] in picks;
    }
    forall p ensures p in picks <==> exists k :: 0 <= k < |lanes| && SpawnBatch(picks)[k].col == p {
      if p in picks {
        var k :| 0 <= k < |lanes| && lanes[k] == p;
        assert SpawnBatch(picks)[k].col == p;
      }
    }
  }

  lemma SpawnBatchWellFormed(picks: seq<int>)
    requires ValidPicks(picks)
    ensures AllWellFormed(SpawnBatch(picks))
  {
    SpawnBatchShape(picks);
  }

  lemma AppendWellFormed(bs: seq<Block>, more: seq<Block>)
    requires AllWellFormed(bs) && AllWellFormed(more)
    ensures AllWellFormed(bs + more)
  {
    forall k | 0 <= k < |bs + more| ensures WellFormed((bs + more)[k]) {
      if k >= |bs| {
        assert (bs + more)[k] == more[k - |bs|];
      }
    }
  }

  /** Appending one lane appends its block. */
  lemma BatchSnoc(lanes: seq<int>, p: int)
    ensures Batch(lanes + [p]) == Batch(lanes) + [NewBlock(p)]
  {
  }

  /** A block after the given number of frames of falling. */
  function Fall(b: Block, rate: real, frames: nat): Block {
    if frames == 0 then b else Fall(b, rate, frames - 1).Moved(rate)
  }

  /** After k frames a block is k * rate lower and still in its lane. */
  lemma {:induction false} FallAfter(b: Block, rate: real, frames: nat)
    ensures Fall(b, rate, frames) == Block(b.x, b.col, b.bottom - frames as real * rate)
  {
    if frames > 0 {
      FallAfter(b, rate, frames - 1);
      assert (frames - 1) as real * rate + rate == frames as real * rate;
    }
  }

  /** A block that has just been moved is missed when its lower edge is at or below one
      frame's fall. */
  predicate Missed(b: Block, rate: real)
    ensures Missed(b, rate) <==> b.Moved(rate).bottom <= 0.0
  {
    b.bottom <= rate
  }

  /** A block spawned at the top is missed on its k-th frame of falling exactly when
      k + 1 frames of fall cover the whole window height. */
  lemma MissedAfter(col: int, rate: real, frames: nat)
    ensures Missed(Fall(NewBlock(col), rate, frames), rate)
            <==> (frames + 1) as real * rate >= ScreenHeight as real
  {
    FallAfter(NewBlock(col), rate, frames);
    assert (frames + 1) as real * rate == frames as real * rate + rate;
  }

  /** At difficulty 1 (rate 2) an unclicked block is missed on frame 149 of its fall and
      not before. */
  lemma EasiestMissFrame(col: int)
    ensures Missed(Fall(NewBlock(col), 2.0, 149), 2.0)
    ensures forall k: nat :: k < 149 ==> !Missed(Fall(NewBlock(col), 2.0, k), 2.0)
  {
    MissedAfter(col, 2.0, 149);
    forall k: nat | k < 149 ensures !Missed(Fall(NewBlock(col), 2.0, k), 2.0) {
      MissedAfter(col, 2.0, k);
    }
  }

  /** Every block moved one frame. */
  function MoveAll(bs: seq<Block>, rate: real): (r: seq<Block>)
    ensures |r| == |bs|
  {
    seq(|bs|, k requires 0 <= k < |bs| => bs[k].Moved(rate))
  }

  lemma MoveAllWellFormed(bs: seq<Block>, rate: real)
    requires AllWellFormed(bs)
    ensures AllWellFormed(MoveAll(bs, rate))
  {
  }

  /** The index of the first block that is missed once moved, if any. */
  function FirstMiss(bs: seq<Block>, rate: real): (r: Option<nat>)
    ensures r.Some? ==> r.value < |bs| && Missed(bs[r.value].Moved(rate), rate)
    ensures r.Some? ==> forall j :: 0 <= j < r.value ==> !Missed(bs[j].Moved(rate), rate)
    ensures r.None? ==> forall j :: 0 <= j < |bs| ==> !Missed(bs[j].Moved(rate), rate)
  {
    if bs == [] then None
    else if Missed(bs[0].Moved(rate), rate) then Some(0)
    else match FirstMiss(bs[1..], rate)
      case None => None
      case Some(i) => Some(i + 1)
  }

  /** Conversely, a miss at i with none before it is the first miss. */
  lemma FirstMissAt(bs: seq<Block>, rate: real, i: nat)
    requires i < |bs| && Missed(bs[i].Moved(rate), rate)
    requires forall j :: 0 <= j < i ==> !Missed(bs[j].Moved(rate), rate)
    ensures FirstMiss(bs, rate) == Some(i)
  {
  }

  /** The blocks at the moment of a miss at index i: the blocks up to and including the
      missed one have moved, the later ones have not. */
  function AfterMiss(bs: seq<Block>, rate: real, i: nat): (r: seq<Block>)
    requires i < |bs|
    ensures |r| == |bs|
    ensures forall k :: 0 <= k <= i ==> r[k] == bs[k].Moved(rate)
    ensures forall k :: i < k < |bs| ==> r[k] == bs[k]
  {
    MoveAll(bs[..i + 1], rate) + bs[i + 1..]
  }

  /** Moving keeps blocks in their lanes. */
  lemma AfterMissWellFormed(bs: seq<Block>, rate: real, i: nat)
    requires AllWellFormed(bs) && i < |bs|
    ensures AllWellFormed(AfterMiss(bs, rate, i))
  {
  }

  /** Whether a click at (px, py), y measured upwards, lands on a block of the given
      height; the hit box is 52 pixels wide, so neighbouring lanes share one column. */
  predicate Hits(b: Block, px: int, py: int, height: int)
    ensures WellFormed(b) && Hits(b, px, py, height)
            ==> px / LaneStride == b.col || px == (b.col + 1) * LaneStride
  {
    b.x <= px <= b.x + LaneStride && b.bottom <= py as real <= b.bottom + height as real
  }

  /** Neighbouring lanes' hit boxes overlap in exactly the column of the right lane's
      left edge. */
  lemma NeighbourHitBoxesShareColumn(p: int, px: int)
    requires 0 <= p < Lanes - 1
    ensures (NewBlock(p).x <= px <= NewBlock(p).x + LaneStride
             && NewBlock(p + 1).x <= px <= NewBlock(p + 1).x + LaneStride)
            <==> px == NewBlock(p + 1).x
  {
  }

  /** The index of the first block, in list order, that a click hits, if any. */
  function FirstHit(bs: seq<Block>, px: int, py: int, height: int): (r: Option<nat>)
    ensures r.Some? ==> r.value < |bs| && Hits(bs[r.value], px, py, height)
    ensures r.Some? ==> forall j :: 0 <= j < r.value ==> !Hits(bs[j], px, py, height)
    ensures r.None? ==> forall j :: 0 <= j < |bs| ==> !Hits(bs[j], px, py, height)
  {
    if bs == [] then None
    else if Hits(bs[0], px, py, height) then Some(0)
    else match FirstHit(bs[1..], px, py, height)
      case None => None
      case Some(i) => Some(i + 1)
  }

  /** Conversely, a hit at i with none before it is the first hit. */
  lemma FirstHitAt(bs: seq<Block>, px: int, py: int, height: int, i: nat)
    requires i < |bs| && Hits(bs[i], px, py, height)
    requires forall j :: 0 <= j < i ==> !Hits(bs[j], px, py, height)
    ensures FirstHit(bs, px, py, height) == Some(i)
  {
  }
}
