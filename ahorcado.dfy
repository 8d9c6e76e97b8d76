/**
 * AhorcadoGame (hangman) without its Swing panels: the secret word, the word as
 * shown (one character per letter, each followed by a space, '_' for a letter
 * not yet guessed), the remaining attempts, the letters already tried and the
 * score.
 */
module Ahorcado {
  import opened Basics
  import opened Events
  import opened Core

  const Name: string := "Ahorcado"
  const Version: string := "1.0"
  /** The word every round uses. */
  const SecretWord: string := "pluma"
  const InitialAttempts: int := 6
  const Hidden: char := '_'

  /** The letters tried that occur nowhere in the secret. */
  function Misses(used: set<char>, secret: string): (missed: set<char>) {
    set c | c in used && c !in secret
  }

  /** The shown word for `secret` when the letters in `used` have been tried. */
  ghost predicate Shows(shown: string, secret: string, used: set<char>) {
    |shown| == 2 * |secret|
    && (forall i :: 0 <= i < |secret| ==> shown[2 * i] == if secret[i] in used then secret[i] else Hidden)
    && (forall i :: 0 <= i < |secret| ==> shown[2 * i + 1] == ' ')
  }

  /**
   * When the secret has no '_' of its own, no '_' is left in the shown word
   * exactly when every letter of the secret has been tried.
   */
  lemma AllRevealed(shown: string, secret: string, used: set<char>)
    requires Shows(shown, secret, used) && Hidden !in secret
    ensures Hidden !in shown <==> forall i :: 0 <= i < |secret| ==> secret[i] in used
  {
    if Hidden !in shown {
      forall i | 0 <= i < |secret| ensures secret[i] in used {
        assert shown[2 * i] != Hidden;
      }
    }
    if forall i :: 0 <= i < |secret| ==> secret[i] in used {
      forall k | 0 <= k < |shown| ensures shown[k] != Hidden {
        var i := k / 2;
        assert k == 2 * i || k == 2 * i + 1;
        assert secret[i] != Hidden;
      }
    }
  }

  /** Trying a new letter changes the misses only when the letter is wrong, and then by one. */
  lemma MissesGrow(used: set<char>, secret: string, c: char)
    requires c !in used
    ensures c in secret ==> Misses(used + {c}, secret) == Misses(used, secret)
    ensures c !in secret ==> Misses(used + {c}, secret) == Misses(used, secret) + {c}
    ensures c !in secret ==> |Misses(used + {c}, secret)| == |Misses(used, secret)| + 1
  {
    if c !in secret {
      assert c !in Misses(used, secret);
    }
  }

  class AhorcadoGame {
    const core: GameCore
    var secret: string
    /** The word as shown; the source's StringBuilder. */
    var shown: string
    var attempts: int
    var used: set<char>
    var score: int

    /**
     * The shown word follows the tried letters, the attempts left are six minus
     * the wrong letters tried, and a running round still has attempts and a
     * hidden letter. The game never reports a score through
     * `notifyScoreUpdated`, so its own events carry score 0.
     */
    ghost predicate Valid()
      reads this, core
    {
      core.Valid() && core.gameName == Name && core.currentScore == 0
      && secret == SecretWord
      && Shows(shown, secret, used)
      && attempts == InitialAttempts - |Misses(used, secret)| && attempts >= 0
      && (core.isRunning ==> attempts > 0 && Hidden in shown)
    }

    /** The single instance: a fresh round, not running. */
    constructor ()
      ensures Valid() && fresh(core)
      ensures secret == SecretWord && attempts == InitialAttempts && used == {} && score == 0
      ensures !core.isRunning && core.listeners == [] && core.delivered == []
    {
      core := new GameCore(Name);
      secret := SecretWord;
      shown := "_ _ _ _ _ ";
      attempts := InitialAttempts;
      used := {};
      score := 0;
      new;
      assert Misses(used, secret) == {};
    }

    /**
     * `resetGame`: the secret is "pluma", "_ " is shown once per letter, six
     * attempts, no letters tried, score 0. The running flag is kept.
     */
    method ResetGame()
      requires Valid()
      modifies this
      ensures secret == SecretWord && attempts == InitialAttempts && used == {} && score == 0
      ensures |shown| == 2 * |secret| && forall k :: 0 <= k < |shown| ==> shown[k] == if k % 2 == 0 then Hidden else ' '
      ensures Shows(shown, secret, used) && Hidden in shown
      ensures core.isRunning == old(core.isRunning)
      ensures core.Valid() && core.gameName == Name && core.currentScore == 0
    {
      secret := SecretWord;
      var s := "";
      for i := 0 to |secret|
        invariant |s| == 2 * i
        invariant forall k :: 0 <= k < |s| ==> s[k] == if k % 2 == 0 then Hidden else ' '
      {
        s := s + [Hidden, ' '];
      }
      shown := s;
      attempts := InitialAttempts;
      used := {};
      score := 0;
      assert Misses(used, secret) == {};
      assert shown[0] == Hidden;
      forall i | 0 <= i < |secret| ensures shown[2 * i] == Hidden && shown[2 * i + 1] == ' ' {
        assert (2 * i) % 2 == 0 && (2 * i + 1) % 2 == 1;
      }
    }

    /** `startGame`: only when not running, reset, run and announce GAME_STARTED. */
    method StartGame()
      requires Valid()
      modifies this, core
      ensures Valid()
      ensures core.listeners == old(core.listeners)
      ensures old(core.isRunning) ==> unchanged(this, core)
      ensures !old(core.isRunning) ==>
        core.isRunning && attempts == InitialAttempts && used == {} && score == 0
        && fresh(core.lastEvent) && core.Announced(old(core.delivered), OnGameStateChanged, GameStarted, 0)
    {
      if !core.isRunning {
        ResetGame();
        core.isRunning := true;
        core.NotifyGameStateChanged(GameStarted);
      }
    }

    /** `pauseGame`: announces GAME_PAUSED when running and changes nothing else. */
    method PauseGame()
      requires Valid()
      modifies core
      ensures Valid()
      ensures core.listeners == old(core.listeners) && core.isRunning == old(core.isRunning)
      ensures !old(core.isRunning) ==> unchanged(core)
      ensures old(core.isRunning) ==>
        fresh(core.lastEvent) && core.Announced(old(core.delivered), OnGameStateChanged, GamePaused, 0)
    {
      if core.isRunning {
        core.NotifyGameStateChanged(GamePaused);
      }
    }

    /** `restartGame`: a reset, then a start when not running; the round ends up running. */
    method RestartGame()
      requires Valid()
      modifies this, core
      ensures Valid() && core.isRunning
      ensures core.listeners == old(core.listeners)
      ensures attempts == InitialAttempts && used == {} && score == 0
      ensures old(core.isRunning) ==> core.delivered == old(core.delivered)
      ensures !old(core.isRunning) ==>
        fresh(core.lastEvent) && core.Announced(old(core.delivered), OnGameStateChanged, GameStarted, 0)
    {
      ResetGame();
      if !core.isRunning {
        StartGame();
      }
    }

    /** `stopGame`: not running, and GAME_FINISHED announced as a state change. */
    method StopGame()
      requires Valid()
      modifies core
      ensures Valid() && !core.isRunning
      ensures core.listeners == old(core.listeners)
      ensures fresh(core.lastEvent) && core.Announced(old(core.delivered), OnGameStateChanged, EventType.GameFinished, 0)
    {
      core.isRunning := false;
      core.NotifyGameStateChanged(EventType.GameFinished);
    }

    /**
     * `finDelJuego`: the round stops; a won round scores 50 per attempt left
     * plus 20 per letter of the secret, a lost one 10 per letter tried; the
     * score goes out as GAME_FINISHED.
     */
    method FinishGame(won: bool)
      requires Valid() || (core.Valid() && core.gameName == Name && core.currentScore == 0
        && secret == SecretWord && Shows(shown, secret, used)
        && attempts == InitialAttempts - |Misses(used, secret)| && attempts >= 0)
      modifies this, core
      ensures Valid() && !core.isRunning
      ensures core.listeners == old(core.listeners)
      ensures secret == old(secret) && shown == old(shown) && attempts == old(attempts) && used == old(used)
      ensures won ==> score == attempts * 50 + |secret| * 20
      ensures !won ==> score == |used| * 10
      ensures fresh(core.lastEvent) && core.Announced(old(core.delivered), OnGameFinished, EventType.GameFinished, score)
    {
      core.isRunning := false;
      if won {
        score := attempts * 50 + |secret| * 20;
      } else {
        score := |used| * 10;
      }
      core.NotifyGameFinished(score);
    }

    /**
     * `procesarLetra`: a letter tried before changes nothing. A new one is
     * recorded and uncovered wherever it occurs; a wrong one costs one attempt
     * and loses the round at zero, a right one that leaves nothing hidden wins.
     */
    method ProcessLetter(letter: char)
      requires Valid() && core.isRunning
      modifies this, core
      ensures Valid()
      ensures core.listeners == old(core.listeners) && secret == old(secret)
      ensures letter in old(used) ==> unchanged(this, core)
      ensures letter !in old(used) ==>
        used == old(used) + {letter} && Shows(shown, secret, used)
        && (forall k :: 0 <= k < |shown| && k % 2 == 1 ==> shown[k] == old(shown)[k])
        && (letter !in secret ==>
              shown == old(shown) && attempts == old(attempts) - 1
              && (attempts == 0 ==>
                    !core.isRunning && score == |used| * 10
                    && core.Announced(old(core.delivered), OnGameFinished, EventType.GameFinished, score))
              && (attempts > 0 ==> core.isRunning && score == old(score) && core.delivered == old(core.delivered)))
        && (letter in secret ==>
              attempts == old(attempts)
              && (Hidden !in shown ==>
                    !core.isRunning && score == attempts * 50 + |secret| * 20
                    && core.Announced(old(core.delivered), OnGameFinished, EventType.GameFinished, score))
              && (Hidden in shown ==> core.isRunning && score == old(score) && core.delivered == old(core.delivered)))
    {
      if letter in used {
        return;
      }
      MissesGrow(used, secret, letter);
      ghost var before := used;
      used := used + {letter};
      assert used - {letter} == before;
      var correct := RevealLetter(letter);
      if !correct {
        attempts := attempts - 1;
        if attempts == 0 {
          FinishGame(false);
        }
      } else {
        if Hidden !in shown {
          FinishGame(true);
        }
      }
    }

    /**
     * The loop of `procesarLetra` once the letter is recorded: every place of
     * the secret holding the letter is uncovered, and `correct` tells whether
     * there was one.
     */
    method RevealLetter(letter: char) returns (correct: bool)
      requires letter in used && Shows(shown, secret, used - {letter})
      modifies this
      ensures Shows(shown, secret, used)
      ensures correct <==> letter in secret
      ensures !correct ==> shown == old(shown)
      ensures |shown| == |old(shown)| && forall k :: 0 <= k < |shown| && k % 2 == 1 ==> shown[k] == old(shown)[k]
      ensures secret == old(secret) && used == old(used) && attempts == old(attempts) && score == old(score)
    {
      correct := false;
      for i := 0 to |secret|
        invariant secret == old(secret) && used == old(used)
        invariant attempts == old(attempts) && score == old(score)
        invariant |shown| == 2 * |secret|
        invariant correct <==> letter in secret[..i]
        invariant forall j :: 0 <= j < |secret| ==>
          shown[2 * j] == if secret[j] in used && (j < i || secret[j] != letter) then secret[j] else Hidden
        invariant forall k :: 0 <= k < |shown| && k % 2 == 1 ==> shown[k] == old(shown)[k]
        invariant forall j :: 0 <= j < |secret| ==> shown[2 * j + 1] == ' '
      {
        if secret[i] == letter {
          shown := shown[2 * i := letter];
          correct := true;
        }
        assert secret[..i + 1] == secret[..i] + [secret[i]];
      }
      assert secret[..|secret|] == secret;
      if !correct {
        forall j | 0 <= j < |secret| ensures shown[2 * j] == old(shown)[2 * j] {
          assert secret[j] != letter;
        }
        forall k | 0 <= k < |shown| ensures shown[k] == old(shown)[k] {
          var j := k / 2;
          assert k == 2 * j || k == 2 * j + 1;
        }
      }
    }

    /** A letter button: it only counts while the round is running. */
    method PressLetter(letter: char)
      requires Valid()
      modifies this, core
      ensures Valid()
      ensures !old(core.isRunning) ==> unchanged(this, core)
    {
      if core.isRunning {
        ProcessLetter(letter);
      }
    }
  }
}
