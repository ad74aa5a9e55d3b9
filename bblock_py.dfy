/** The original pygame version (orig/bblock.py): the same falling blocks, with its own
    rules. A click removes at most the first block it hits, the score has no cap, the
    spawn counter must equal height / rate exactly, and a miss ends the run without any
    block being dropped. The global best score is passed in and handed back. */
module Original {
  import opened Rules
  import opened Blocks
  import Bblock

  /** Removal from the list, keeping the order of the others. */
  function RemoveAt(bs: seq<Block>, i: nat): (r: seq<Block>)
    requires i < |bs|
    ensures |r| == |bs| - 1
    ensures forall k :: 0 <= k < i ==> r[k] == bs[k]
    ensures forall k :: i <= k < |r| ==> r[k] == bs[k + 1]
  {
    bs[..i] + bs[i + 1..]
  }

  /** Removal takes exactly the block at i out. */
  lemma RemoveAtPermutes(bs: seq<Block>, i: nat)
    requires i < |bs|
    ensures multiset(RemoveAt(bs, i)) + multiset{bs[i]} == multiset(bs)
  {
    assert bs == bs[..i] + [bs[i]] + bs[i + 1..];
  }

  /** A click that hits block i takes the same block out in both versions; only the order
      of the remaining blocks differs (the Go port swaps the last block into the gap). */
  lemma SameBlockRemoved(bs: seq<Block>, i: nat)
    requires i < |bs|
    ensures multiset(Bblock.SwapRemove(bs, i)) == multiset(RemoveAt(bs, i))
  {
    Bblock.SwapRemovePermutes(bs, i);
    RemoveAtPermutes(bs, i);
    var a, b := multiset(Bblock.SwapRemove(bs, i)), multiset(RemoveAt(bs, i));
    assert a + multiset{bs[i]} == b + multiset{bs[i]};
    assert a == a + multiset{bs[i]} - multiset{bs[i]};
    assert b == b + multiset{bs[i]} - multiset{bs[i]};
  }

  /** The blocks after the spawn counter has run for one frame: a batch is added when
      the incremented counter equals height / rate exactly. */
  function Spawned(counter: int, height: int, rate: real, bs: seq<Block>, picks: seq<int>): (r: seq<Block>)
    requires rate > 0.0
    ensures bs <= r && |r| <= |bs| + |picks|
    ensures r != bs ==> IsWhole(height as real / rate)
  {
    if (counter + 1) as real == height as real / rate then bs + SpawnBatch(picks) else bs
  }

  /** At a preset whose height / rate is not whole (difficulties 2 and 5) no frame ever
      spawns a batch. */
  lemma NoSpawnAtFractionalPresets(d: int, counter: int, bs: seq<Block>, picks: seq<int>)
    requires d == 2 || d == 5
    ensures var s := DifficultySettings(d);
            Spawned(counter, s.height, s.rate, bs, picks) == bs
  {
    var s := DifficultySettings(d);
    WholePeriodPresets(d);
    CounterNeverMeetsFraction(counter + 1, s.height as real / s.rate);
  }

  class Game {
    var score: int
    var blocks: seq<Block>
    var blockCounter: int
    var width: int
    var height: int
    var rate: real

    /** A session set up from a preset, with blocks in lanes; when height / rate is whole
        the counter stays below it. */
    ghost predicate Valid()
      reads this
    {
      && rate > 0.0
      && height > 0
      && width == LaneWidth
      && score >= 0
      && blockCounter >= 0
      && (IsWhole(height as real / rate) ==> (blockCounter + 1) as real <= height as real / rate)
      && AllWellFormed(blocks)
    }

    /** Game(): a new session at the given difficulty (the constant DIFFICULTY). */
    constructor (difficulty: int)
      requires ValidDifficulty(difficulty)
      ensures Valid()
      ensures score == 0 && blocks == [] && blockCounter == 0 && width == LaneWidth
      ensures Settings(height, rate) == DifficultySettings(difficulty)
    {
      score := 0;
      blocks := [];
      blockCounter := 0;
      width := 50;
      if difficulty == 1 {
        height, rate := 100, 2.0;
      } else if difficulty == 2 {
        height, rate := 100, 3.0;
      } else if difficulty == 3 {
        height, rate := 100, 4.0;
      } else if difficulty == 4 {
        height, rate := 90, 4.5;
      } else {
        height, rate := 80, 6.0;
      }
      SpawnPeriods(difficulty);
      WholePeriodPresets(difficulty);
    }

    /** Block.update: the counter is incremented; when it equals height / rate it is reset
        and the picks (the random lane choices) become a batch of new blocks. The loop over
        the picks, which skips a lane already in `done`, builds the same batch as the Go
        port's loop, so both use `NewBatch`. */
    method SpawnTick(picks: seq<int>)
      requires Valid() && ValidPicks(picks)
      modifies this
      ensures Valid()
      ensures score == old(score) && height == old(height) && rate == old(rate)
      ensures blocks == Spawned(old(blockCounter), height, rate, old(blocks), picks)
      ensures blockCounter == if (old(blockCounter) + 1) as real == height as real / rate then 0
                              else old(blockCounter) + 1
    {
      blockCounter := blockCounter + 1;
      if blockCounter as real == height as real / rate {
        blockCounter := 0;
        var batch := NewBatch(picks);
        SpawnBatchWellFormed(picks);
        AppendWellFormed(blocks, batch);
        blocks := blocks + batch;
        assert IsWhole(height as real / rate) by {
          assert (height as real / rate).Floor == old(blockCounter) + 1;
        }
      } else {
        assert IsWhole(height as real / rate) ==> blockCounter as real < height as real / rate;
        if IsWhole(height as real / rate) {
          assert (blockCounter + 1) as real <= height as real / rate by {
            var q := (height as real / rate).Floor;
            assert blockCounter < q;
          }
        }
      }
    }

    /** Game.update: the spawn counter runs, then the blocks move in list order; the first
        block found missed ends the run at once (later blocks not moved). No block is
        ever dropped. */
    method Update(picks: seq<int>) returns (alive: bool)
      requires Valid() && ValidPicks(picks)
      modifies this
      ensures Valid()
      ensures score == old(score) && height == old(height) && rate == old(rate)
      ensures blockCounter == if (old(blockCounter) + 1) as real == height as real / rate then 0
                              else old(blockCounter) + 1
      ensures var bs := Spawned(old(blockCounter), height, rate, old(blocks), picks);
              var miss := FirstMiss(bs, rate);
              (alive <==> miss.None?)
              && blocks == if miss.None? then MoveAll(bs, rate) else AfterMiss(bs, rate, miss.value)
    {
      SpawnTick(picks);
      ghost var orig := blocks;
      var bs := blocks;
      var r := rate;
      var i := 0;
      while i < |bs|
        invariant 0 <= i <= |bs| == |orig|
        invariant forall k :: 0 <= k < i ==> bs[k] == orig[k].Moved(r)
        invariant forall k :: i <= k < |bs| ==> bs[k] == orig[k]
        invariant forall k :: 0 <= k < i ==> !Missed(orig[k].Moved(r), r)
      {
        bs := bs[i := bs[i].Moved(r)];
        if bs[i].bottom <= r {
          FirstMissAt(orig, r, i);
          assert bs == AfterMiss(orig, r, i);
          AfterMissWellFormed(orig, r, i);
          blocks := bs;
          return false;
        }
        i := i + 1;
      }
      assert bs == MoveAll(orig, r);
      MoveAllWellFormed(orig, r);
      blocks := bs;
      return true;
    }

    /** The left-click branch of get_input, with the mouse position sampled for the frame
        (y grows downwards): the first block in list order that the click hits is removed,
        the score goes up by one, and the best score is raised when the score passes it;
        the loop then stops. */
    method Click(mx: int, my: int, highScore: int) returns (newHigh: int)
      requires Valid()
      modifies this
      ensures Valid()
      ensures height == old(height) && rate == old(rate) && blockCounter == old(blockCounter)
      ensures var hit := FirstHit(old(blocks), mx, ScreenHeight - my, height);
              if hit.None? then blocks == old(blocks) && score == old(score) && newHigh == highScore
              else blocks == RemoveAt(old(blocks), hit.value) && score == old(score) + 1
                   && newHigh == (if score > highScore then score else highScore)
    {
      var px, py := mx, ScreenHeight - my;
      newHigh := highScore;
      var i := 0;
      while i < |blocks|
        invariant 0 <= i <= |blocks|
        invariant blocks == old(blocks) && score == old(score) && newHigh == highScore
        invariant forall j :: 0 <= j < i ==> !Hits(blocks[j], px, py, height)
      {
        if Hits(blocks[i], px, py, height) {
          blocks := blocks[..i] + blocks[i + 1..];
          score := score + 1;
          if score > newHigh {
            newHigh := score;
          }
          return;
        }
        i := i + 1;
      }
    }
  }

  /** The title screen's global blink counter. */
  class TitleScreen {
    var blink: int

    constructor ()
      ensures blink == -30
    {
      blink := -30;
    }

    /** The counter update draw() makes each title frame. */
    method Draw()
      modifies this
      ensures blink == NextBlink(old(blink))
    {
      blink := blink + 1;
      if blink == 30 {
        blink := -30;
      }
    }
  }
}
