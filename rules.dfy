/** Constants and rule tables shared by the Go port (bblock.go) and the original
    pygame version (orig/bblock.py): the window geometry, the difficulty presets,
    the lane de-duplication of a spawn batch and the title screen's blink counter. */
module Rules {

  datatype Option<T> = None | Some(value: T)

  /** The largest score the Go port records. */
  const MaxScore: nat := 100000

  /** The window: four 50-pixel lanes and three 1-pixel separators, 300 pixels tall. */
  const LaneWidth: int := 50
  const ScreenWidth: int := LaneWidth * 4 + 3
  const ScreenHeight: int := 300
  /** Distance between the left edges of neighbouring lanes; also the width of a hit box. */
  const LaneStride: int := 51
  const Lanes: int := 4

  /** Difficulties are 1 (easiest) to 5 (hardest); anything else is refused at start-up. */
  predicate ValidDifficulty(d: int) {
    1 <= d <= 5
  }

  /** A preset: the height of a block in pixels and how far it falls per frame. */
  datatype Settings = Settings(height: int, rate: real)

  /** The difficulty table shared by both versions. */
  function DifficultySettings(d: int): (s: Settings)
    requires ValidDifficulty(d)
    ensures 80 <= s.height <= 100 && 2.0 <= s.rate <= 6.0
    ensures (s.rate * 2.0).Floor as real == s.rate * 2.0  // a multiple of one half
  {
    if d == 1 then Settings(100, 2.0)
    else if d == 2 then Settings(100, 3.0)
    else if d == 3 then Settings(100, 4.0)
    else if d == 4 then Settings(90, 4.5)
    else Settings(80, 6.0)
  }

  /** The Go spawn threshold int(height / rate): frames between two spawn batches. */
  function SpawnPeriod(s: Settings): (p: int)
    requires s.rate > 0.0
    ensures p as real <= s.height as real / s.rate < p as real + 1.0
    ensures s.height >= 0 ==> p >= 0
  {
    (s.height as real / s.rate).Floor
  }

  /** The spawn threshold of every preset is 50, 33, 25, 20 and 13 frames. */
  lemma SpawnPeriods(d: int)
    requires ValidDifficulty(d)
    ensures SpawnPeriod(DifficultySettings(d)) == [50, 33, 25, 20, 13][d - 1]
  {
    var s := DifficultySettings(d);
    var q := s.height as real / s.rate;
    if d == 2 {
      assert 33.0 <= q < 34.0 by { assert q * 3.0 == 100.0; }
    } else if d == 4 {
      assert q == 20.0 by { assert q * 4.5 == 90.0; }
    } else if d == 5 {
      assert 13.0 <= q < 14.0 by { assert q * 6.0 == 80.0; }
    }
  }

  /** Harder presets fall faster, are never taller and spawn more often. */
  lemma DifficultyOrdered(d1: int, d2: int)
    requires 1 <= d1 < d2 <= 5
    ensures DifficultySettings(d1).rate < DifficultySettings(d2).rate
    ensures DifficultySettings(d1).height >= DifficultySettings(d2).height
    ensures SpawnPeriod(DifficultySettings(d1)) > SpawnPeriod(DifficultySettings(d2))
  {
    SpawnPeriods(d1);
    SpawnPeriods(d2);
  }

  /** True when a real number has no fractional part. */
  predicate IsWhole(r: real) {
    r.Floor as real == r
  }

  /** The original compares its integer frame counter with height / rate exactly, which
      can succeed only when the quotient is whole: for presets 1, 3 and 4, not 2 and 5. */
  lemma WholePeriodPresets(d: int)
    requires ValidDifficulty(d)
    ensures IsWhole(DifficultySettings(d).height as real / DifficultySettings(d).rate)
            <==> d == 1 || d == 3 || d == 4
  {
    var s := DifficultySettings(d);
    var q := s.height as real / s.rate;
    SpawnPeriods(d);
    if d == 2 {
      assert q * 3.0 == 100.0;
      assert q != 33.0;
    } else if d == 4 {
      assert q * 4.5 == 90.0;
    } else if d == 5 {
      assert q * 6.0 == 80.0;
      assert q != 13.0;
    }
  }

  /** A frame counter, being an integer, never equals a quotient that is not whole. */
  lemma CounterNeverMeetsFraction(counter: int, q: real)
    requires !IsWhole(q)
    ensures counter as real != q
  {
  }

  predicate Distinct(s: seq<int>) {
    forall i, j :: 0 <= i < j < |s| ==> s[i] != s[j]
  }

  /** The lanes of a spawn batch: every pick that repeats an earlier one is skipped, so
      each lane appears once, in the order of its first pick. */
  function FirstOccurrences(picks: seq<int>): (r: seq<int>)
    ensures |r| <= |picks|
    ensures forall x :: x in r <==> x in picks
    ensures Distinct(r)
  {
    if picks == [] then []
    else
      var used := FirstOccurrences(picks[..|picks| - 1]);
      var p := picks[|picks| - 1];
      assert picks == picks[..|picks| - 1] + [p];
      if p in used then used else used + [p]
  }

  /** The batch keeps the first pick and keeps the relative order of the picks it keeps:
      a lane comes before another exactly when its first pick does. */
  lemma {:induction false} FirstOccurrencesOrder(picks: seq<int>, i: int, j: int)
    requires 0 <= i < j < |FirstOccurrences(picks)|
    ensures FirstIndex(picks, FirstOccurrences(picks)[i]) < FirstIndex(picks, FirstOccurrences(picks)[j])
  {
    var n := |picks|;
    var init := picks[..n - 1];
    var r := FirstOccurrences(picks);
    var used := FirstOccurrences(init);
    assert picks == init + [picks[n - 1]];
    FirstIndexOfPrefix(picks, init, r[i]);
    if j < |used| {
      FirstIndexOfPrefix(picks, init, r[j]);
      FirstOccurrencesOrder(init, i, j);
    } else {
      FirstIndexOfPrefix(picks, init, r[i]);
      assert r[j] == picks[n - 1] && r[j] !in init;
      FirstIndexNotInPrefix(picks, init);
    }
  }

  /** The index of the first occurrence of x in s (|s| when absent). */
  function FirstIndex(s: seq<int>, x: int): (k: nat)
    ensures k <= |s|
    ensures k < |s| ==> s[k] == x
    ensures forall j :: 0 <= j < k ==> s[j] != x
    ensures x in s ==> k < |s|
  {
    if s == [] then 0 else if s[0] == x then 0 else 1 + FirstIndex(s[1..], x)
  }

  lemma FirstIndexOfPrefix(s: seq<int>, init: seq<int>, x: int)
    requires init <= s && x in init
    ensures FirstIndex(s, x) == FirstIndex(init, x) < |init|
  {
    var k, m := FirstIndex(s, x), FirstIndex(init, x);
    assert init[m] == s[m];
    assert !(m < k) && !(k < m);
  }

  lemma FirstIndexNotInPrefix(s: seq<int>, init: seq<int>)
    requires |s| == |init| + 1 && init <= s && s[|init|] !in init
    ensures FirstIndex(s, s[|init|]) == |init|
  {
  }

  /** One frame of the title screen's blink counter. */
  function NextBlink(blink: int): (r: int)
    ensures -30 <= blink < 30 ==> -30 <= r < 30
    ensures r < blink <==> blink == 29
  {
    if blink + 1 == 30 then -30 else blink + 1
  }

  /** The counter after the given number of title frames since it was reset to -30. */
  function BlinkAfter(frames: nat): int {
    if frames == 0 then -30 else NextBlink(BlinkAfter(frames - 1))
  }

  /** The blink counter runs through -30 .. 29 and repeats every 60 frames. */
  lemma {:induction false} BlinkPeriodic(frames: nat)
    ensures BlinkAfter(frames) == -30 + frames % 60
  {
    if frames > 0 {
      BlinkPeriodic(frames - 1);
      if (frames - 1) % 60 == 59 {
        assert frames % 60 == 0;
      } else {
        assert frames % 60 == (frames - 1) % 60 + 1;
      }
    }
  }

  /** "PRESS ANY KEY" is shown (the counter is negative) during the first 30 frames of
      every 60. */
  lemma PromptShown(frames: nat)
    ensures BlinkAfter(frames) < 0 <==> frames % 60 < 30
  {
    BlinkPeriodic(frames);
  }
}
