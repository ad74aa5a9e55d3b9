/** The application around a session in the Go port: the title screen, the current
    screen, the best score and its file, the invincibility flag, and the transitions
    between the title screen and a session. The globals of bblock.go (state, highscore,
    conf.invincible) are fields of App; os.Exit is the terminal screen Exited. */
module BblockApp {
  import opened Rules
  import opened Blocks
  import opened Bblock

  datatype Key = Escape | LeftAlt | RightAlt | OtherKey(code: int)

  /** The input events the game reacts to; a mouse event carries its button and window
      coordinates (y grows downwards). */
  datatype Event = Quit | KeyDown(key: Key) | MouseDown(button: int, x: int, y: int)

  datatype Screen = TitleScreen | GameScreen | Exited

  /** What the best-score file holds: nothing (it cannot be opened), text that does not
      scan as an unsigned 64-bit number, or a number. */
  datatype ScoreFile = Missing | Unreadable | Holds(value: int)

  const Uint64Limit: int := 0x1_0000_0000_0000_0000

  /** Loading the best score: a missing file keeps the current value, an unreadable one
      gives 0, and a value above MaxScore is clamped to it. */
  function LoadScore(file: ScoreFile, current: nat): (r: nat)
    ensures file.Missing? ==> r == current
    ensures !file.Missing? ==> r <= MaxScore
    ensures file.Unreadable? ==> r == 0
    ensures file.Holds? && 0 <= file.value ==> r <= file.value
    ensures file.Holds? && 0 <= file.value <= MaxScore ==> r == file.value
    ensures file.Holds? && MaxScore < file.value < Uint64Limit ==> r == MaxScore
    ensures file.Holds? && (file.value < 0 || Uint64Limit <= file.value) ==> r == 0
  {
    match file
    case Missing => current
    case Unreadable => 0
    case Holds(v) =>
      if v < 0 || v >= Uint64Limit then 0
      else if v > MaxScore then MaxScore
      else v
  }

  /** Writing the best score: the file then holds it as a readable number. */
  function SaveScore(high: nat): (f: ScoreFile)
    ensures f.Holds? && f.value == high
  {
    Holds(high)
  }

  /** Saving a best score and loading it again gives it back. */
  lemma LoadAfterSave(high: nat, current: nat)
    requires high <= MaxScore
    ensures LoadScore(SaveScore(high), current) == high
  {
  }

  /** The best score and its file. */
  datatype Persisted = Persisted(file: ScoreFile, high: nat)

  /** The end of a run as bblock.go orders it: the title screen reloads the file, then
      the (reloaded) best score is written back. */
  function ReloadThenSave(p: Persisted): Persisted {
    var high := LoadScore(p.file, p.high);
    Persisted(SaveScore(high), high)
  }

  /** The end of a run in the evidently intended order: the best score is written, then
      the title screen loads it back. */
  function SaveThenReload(p: Persisted): Persisted {
    var file := SaveScore(p.high);
    Persisted(file, LoadScore(file, p.high))
  }

  /** As written, once the file holds a score, the end of a run restores that score and
      the best score of the run is lost: with 5 on file and 10 reached, 5 remains. */
  lemma ReloadThenSaveForgetsRun(v: int, high: nat)
    requires 0 <= v <= MaxScore
    ensures ReloadThenSave(Persisted(Holds(v), high)) == Persisted(Holds(v), v)
    ensures ReloadThenSave(Persisted(Holds(5), 10)).high == 5
  {
  }

  /** In the intended order the best score survives and is on file. */
  lemma SaveThenReloadKeepsBest(p: Persisted)
    requires p.high <= MaxScore
    ensures SaveThenReload(p) == Persisted(Holds(p.high), p.high)
  {
    LoadAfterSave(p.high, p.high);
  }

  predicate IsExit(ev: Event) {
    ev.Quit? || ev == KeyDown(Escape)
  }

  /** Events that start a session from the title screen: any mouse button, any key but
      Escape and the two Alt keys. */
  predicate IsStart(ev: Event) {
    ev.MouseDown? || (ev.KeyDown? && ev.key.OtherKey?)
  }

  /** The screen after the title screen's event loop has handled the frame's events in
      order, starting from the given screen: an exit event ends the process at once, a
      start event (re)starts a session and the loop goes on. */
  function AfterTitleEvents(s: Screen, evs: seq<Event>): (r: Screen)
    ensures r == TitleScreen ==> s == TitleScreen
    ensures s == GameScreen ==> r != TitleScreen
    decreases |evs|
  {
    if evs == [] then s
    else match evs[0]
      case Quit => Exited
      case KeyDown(k) =>
        if k == Escape then Exited
        else if k == LeftAlt || k == RightAlt then AfterTitleEvents(s, evs[1..])
        else AfterTitleEvents(GameScreen, evs[1..])
      case MouseDown(_, _, _) => AfterTitleEvents(GameScreen, evs[1..])
  }

  /** The title screen exits exactly when an exit event arrives, starts a session exactly
      when a start event arrives and no exit event does, and stays otherwise. */
  lemma {:induction false} TitleEventsOutcome(s: Screen, evs: seq<Event>)
    requires s != Exited
    ensures AfterTitleEvents(s, evs) == Exited <==> exists k :: 0 <= k < |evs| && IsExit(evs[k])
    ensures AfterTitleEvents(s, evs) == GameScreen
            <==> (forall k :: 0 <= k < |evs| ==> !IsExit(evs[k]))
                 && (s == GameScreen || exists k :: 0 <= k < |evs| && IsStart(evs[k]))
    decreases |evs|
  {
    if evs != [] {
      var rest := evs[1..];
      assert forall k :: 1 <= k < |evs| ==> evs[k] == rest[k - 1];
      assert (exists k :: 0 <= k < |evs| && IsExit(evs[k]))
             <==> IsExit(evs[0]) || exists k :: 0 <= k < |rest| && IsExit(rest[k]) by {
        if exists k :: 0 <= k < |rest| && IsExit(rest[k]) {
          var k :| 0 <= k < |rest| && IsExit(rest[k]);
          assert IsExit(evs[k + 1]);
        }
      }
      assert (exists k :: 0 <= k < |evs| && IsStart(evs[k]))
             <==> IsStart(evs[0]) || exists k :: 0 <= k < |rest| && IsStart(rest[k]) by {
        if exists k :: 0 <= k < |rest| && IsStart(rest[k]) {
          var k :| 0 <= k < |rest| && IsStart(rest[k]);
          assert IsStart(evs[k + 1]);
        }
      }
      if !IsExit(evs[0]) {
        TitleEventsOutcome(if IsStart(evs[0]) then GameScreen else s, rest);
      }
    }
  }

  /** The title screen's blink counter. */
  class Title {
    var blink: int

    /** The zero value of a Go Title. */
    constructor ()
      ensures blink == 0
    {
      blink := 0;
    }

    /** The counter update the title screen makes each frame it is drawn. */
    method Tick()
      modifies this
      ensures blink == NextBlink(old(blink))
    {
      blink := blink + 1;
      if blink == 30 {
        blink := -30;
      }
    }
  }

  class App {
    var state: Screen
    var highscore: nat
    var invincible: bool
    var scoreFile: ScoreFile
    const difficulty: int
    const title: Title
    const game: Game

    /** The best score is within MaxScore, the blink counter within its cycle, and while a
        session runs it is valid and its score is no higher than the best score. */
    ghost predicate Valid()
      reads this, title, game
    {
      && ValidDifficulty(difficulty)
      && -30 <= title.blink < 30
      && highscore <= MaxScore
      && (state == GameScreen ==> game.Valid() && game.score <= highscore)
    }

    /** Start-up: the difficulty has passed the flag check, the title screen is reset
        (which loads the best score) and shown. */
    constructor (difficulty: int, invincible: bool, file: ScoreFile)
      requires ValidDifficulty(difficulty)
      ensures Valid() && fresh(title) && fresh(game)
      ensures state == TitleScreen && title.blink == -30
      ensures highscore == LoadScore(file, 0) && scoreFile == file
      ensures this.invincible == invincible && this.difficulty == difficulty
    {
      this.difficulty := difficulty;
      this.invincible := invincible;
      scoreFile := file;
      highscore := 0;
      state := TitleScreen;
      title := new Title();
      game := new Game();
      new;
      ResetTitle();
    }

    /** Title.Reset: the blink counter restarts and the best score is loaded. */
    method ResetTitle()
      requires highscore <= MaxScore
      modifies this, title
      ensures title.blink == -30
      ensures highscore == LoadScore(old(scoreFile), old(highscore)) && highscore <= MaxScore
      ensures state == old(state) && invincible == old(invincible) && scoreFile == old(scoreFile)
    {
      title.blink := -30;
      highscore := LoadScore(scoreFile, highscore);
    }

    /** Title.Event: the frame's events in order. Quit or Escape exits at once; an Alt key
        does nothing; any other key or a mouse button resets the session at the chosen
        difficulty and switches to it, and the remaining events are still handled here. */
    method TitleEvent(evs: seq<Event>)
      requires Valid() && state == TitleScreen
      modifies this, game
      ensures Valid()
      ensures state == AfterTitleEvents(TitleScreen, evs)
      ensures state == GameScreen ==>
                game.score == 0 && game.blocks == [] && game.count == 0
                && Settings(game.height, game.rate) == DifficultySettings(difficulty)
      ensures highscore == old(highscore) && invincible == old(invincible) && scoreFile == old(scoreFile)
      ensures state == TitleScreen ==> unchanged(game)
    {
      var i := 0;
      while i < |evs|
        invariant 0 <= i <= |evs|
        invariant state != Exited
        invariant AfterTitleEvents(state, evs[i..]) == AfterTitleEvents(TitleScreen, evs)
        invariant Valid()
        invariant state == GameScreen ==>
                    game.score == 0 && game.blocks == [] && game.count == 0
                    && Settings(game.height, game.rate) == DifficultySettings(difficulty)
        invariant highscore == old(highscore) && invincible == old(invincible) && scoreFile == old(scoreFile)
        invariant state == TitleScreen ==> unchanged(game)
      {
        assert evs[i..][1..] == evs[i + 1..];
        match evs[i] {
          case Quit =>
            state := Exited;
            return;
          case KeyDown(k) =>
            if k == Escape {
              state := Exited;
              return;
            } else if k == LeftAlt || k == RightAlt {
            } else {
              game.Reset(difficulty);
              state := GameScreen;
            }
          case MouseDown(_, _, _) =>
            game.Reset(difficulty);
            state := GameScreen;
        }
        i := i + 1;
      }
    }

    /** One event of Game.Event's loop: Quit or Escape exits, the left button is a click
        on the blocks, the right button toggles invincibility, anything else is ignored. */
    method GameEvent(ev: Event)
      requires Valid() && state == GameScreen
      modifies this, game
      ensures Valid()
      ensures scoreFile == old(scoreFile)
      ensures IsExit(ev) ==> state == Exited
      ensures !IsExit(ev) ==> state == GameScreen
      ensures ev.MouseDown? && ev.button == 3 ==> invincible == !old(invincible)
      ensures !(ev.MouseDown? && ev.button == 3) ==> invincible == old(invincible)
      ensures game.count == old(game.count) && game.rate == old(game.rate) && game.height == old(game.height)
      ensures ev.MouseDown? && ev.button == 1 ==>
                var hit := FirstHit(old(game.blocks), ev.x, ScreenHeight - ev.y, game.height);
                if hit.None? then game.blocks == old(game.blocks) && game.score == old(game.score)
                                  && highscore == old(highscore)
                else game.blocks == SwapRemove(old(game.blocks), hit.value)
                     && Tally(game.score, highscore) == Bump(Tally(old(game.score), old(highscore)))
      ensures !(ev.MouseDown? && ev.button == 1) ==>
                game.blocks == old(game.blocks) && game.score == old(game.score) && highscore == old(highscore)
    {
      match ev
      case Quit =>
        state := Exited;
      case KeyDown(k) =>
        if k == Escape {
          state := Exited;
        }
      case MouseDown(button, x, y) =>
        if button == 1 {
          highscore := game.Clicked(x, y, highscore);
        } else if button == 3 {
          invincible := !invincible;
        }
    }

    /** The end of a run as bblock.go writes it: the title screen is reset (reloading
        the best score from the file) before the best score is saved. */
    method EndRunAsWritten()
      requires Valid()
      modifies this, title
      ensures Valid() && state == TitleScreen && title.blink == -30
      ensures Persisted(scoreFile, highscore) == ReloadThenSave(old(Persisted(scoreFile, highscore)))
      ensures invincible == old(invincible)
    {
      ResetTitle();
      scoreFile := SaveScore(highscore);
      state := TitleScreen;
    }

    /** The end of a run with the best score saved before the title screen reloads it. */
    method EndRun()
      requires Valid()
      modifies this, title
      ensures Valid() && state == TitleScreen && title.blink == -30
      ensures Persisted(scoreFile, highscore) == SaveThenReload(old(Persisted(scoreFile, highscore)))
      ensures highscore == old(highscore) && scoreFile == Holds(old(highscore))
      ensures invincible == old(invincible)
    {
      scoreFile := SaveScore(highscore);
      ResetTitle();
      state := TitleScreen;
    }

    /** Game.Update with the run's end handled: a miss (when not invincible) ends the run
        and returns to the title screen with the best score saved. */
    method GameUpdate(picks: seq<int>)
      requires Valid() && state == GameScreen && ValidPicks(picks)
      modifies this, title, game
      ensures Valid()
      ensures game.rate == old(game.rate) && game.height == old(game.height)
      ensures game.score == old(game.score)
      ensures state == GameScreen ==> title.blink == old(title.blink)
      ensures game.count == if old(game.count) + 1 < old(game.Threshold()) then old(game.count) + 1 else 0
      ensures var bs := Spawned(old(game.count), old(game.Threshold()), old(game.blocks), picks);
              var miss := FirstMiss(bs, game.rate);
              if miss.Some? && !invincible then
                state == TitleScreen && title.blink == -30
                && game.blocks == AfterMiss(bs, game.rate, miss.value)
                && highscore == old(highscore) && scoreFile == Holds(old(highscore))
              else
                state == GameScreen && game.blocks == Survivors(bs, game.rate)
                && highscore == old(highscore) && scoreFile == old(scoreFile)
      ensures invincible == old(invincible)
    {
      var missed := game.Update(picks, invincible);
      if missed {
        EndRun();
      }
    }

    /** Title.Draw's counter update (the drawing itself is not modelled). */
    method TitleDraw()
      requires Valid() && state == TitleScreen
      modifies title
      ensures Valid()
      ensures title.blink == NextBlink(old(title.blink))
    {
      title.Tick();
    }
  }
}
