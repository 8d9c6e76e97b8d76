/**
 * MainController: the list of games the host offers, the game being played,
 * and the listener that turns a finished game into a score record. The
 * built-in games come first, then the plugins the loader found; a plugin is
 * added only when the list does not already hold that very object.
 */
module Controller {
  import opened Basics
  import opened Events
  import opened Core
  import opened Records
  import opened Scores
  import opened Plugins
  import opened Loader
  import TicTacToe
  import Ahorcado

  /** The merge loop: each plugin in turn, appended when `contains` says it is new. */
  function Merge(games: seq<Plugin>, ps: seq<Plugin>): (merged: seq<Plugin>) {
    if ps == [] then games
    else
      var g := Merge(games, ps[..|ps| - 1]);
      if ps[|ps| - 1] in g then g else g + [ps[|ps| - 1]]
  }

  /**
   * Merging keeps the old list as a prefix and adds exactly the plugins of ps
   * it lacked, so a list without duplicates stays without duplicates.
   */
  lemma {:induction false} MergeProps(games: seq<Plugin>, ps: seq<Plugin>)
    ensures games <= Merge(games, ps)
    ensures forall p :: p in Merge(games, ps) <==> p in games || p in ps
    ensures NoDuplicates(games) ==> NoDuplicates(Merge(games, ps))
  {
    if ps != [] {
      var front := ps[..|ps| - 1];
      MergeProps(games, front);
      assert ps == front + [ps[|ps| - 1]];
    }
  }

  /** Nothing is appended exactly when every plugin of ps is already listed. */
  lemma {:induction false} MergeUnchanged(games: seq<Plugin>, ps: seq<Plugin>)
    ensures Merge(games, ps) == games <==> forall i :: 0 <= i < |ps| ==> ps[i] in games
  {
    MergeProps(games, ps);
    if ps != [] {
      var front := ps[..|ps| - 1];
      MergeUnchanged(games, front);
      MergeProps(games, front);
      assert forall i :: 0 <= i < |front| ==> front[i] == ps[i];
      if Merge(games, ps) == games {
        forall i | 0 <= i < |ps| ensures ps[i] in games {
          assert ps[i] in Merge(games, ps);
        }
      }
    }
  }

  /** Merging the same plugins again, in any order, appends nothing. */
  lemma MergeAgain(games: seq<Plugin>, ps: seq<Plugin>, qs: seq<Plugin>)
    requires forall q :: q in qs <==> q in ps
    ensures Merge(Merge(games, ps), qs) == Merge(games, ps)
  {
    MergeProps(games, ps);
    MergeUnchanged(Merge(games, ps), qs);
  }

  /** The `updateScore(name, score)` calls the deliveries ds cause in listener l, in order. */
  function ScoreWrites(ds: seq<Delivery>, l: ListenerId): (writes: seq<(string, int)>) {
    if ds == [] then []
    else
      var d := ds[|ds| - 1];
      ScoreWrites(ds[..|ds| - 1], l) + (if d.listener == l && d.handler == OnGameFinished then [(d.event.gameName, d.event.score)] else [])
  }

  lemma {:induction false} ScoreWritesAppend(a: seq<Delivery>, b: seq<Delivery>, l: ListenerId)
    ensures ScoreWrites(a + b, l) == ScoreWrites(a, l) + ScoreWrites(b, l)
  {
    if b == [] {
      assert a + b == a;
    } else {
      assert (a + b)[..|a + b| - 1] == a + b[..|b| - 1];
      ScoreWritesAppend(a, b[..|b| - 1], l);
    }
  }

  /** A run of deliveries none of which is a GAME_FINISHED callback writes no score. */
  lemma {:induction false} NoFinishedNoWrites(ds: seq<Delivery>, l: ListenerId)
    requires forall i :: 0 <= i < |ds| ==> ds[i].handler != OnGameFinished
    ensures ScoreWrites(ds, l) == []
  {
    if ds != [] {
      NoFinishedNoWrites(ds[..|ds| - 1], l);
    }
  }

  /** A game's own `stopGame` announcement never reaches the score table. */
  lemma StopIsNotRecorded(ls: seq<ListenerId>, e: GameEvent, l: ListenerId)
    ensures ScoreWrites(Fanout(ls, OnGameStateChanged, e), l) == []
  {
    NoFinishedNoWrites(Fanout(ls, OnGameStateChanged, e), l);
  }

  lemma {:induction false} AbsentNoWrites(ls: seq<ListenerId>, h: Handler, e: GameEvent, l: ListenerId)
    requires l !in ls
    ensures ScoreWrites(Fanout(ls, h, e), l) == []
  {
    if ls != [] {
      var front := ls[..|ls| - 1];
      AbsentNoWrites(front, h, e, l);
      ScoreWritesAppend(Fanout(front, h, e), [Delivery(ls[|ls| - 1], h, e)], l);
      assert [Delivery(ls[|ls| - 1], h, e)][..0] == [];
    }
  }

  /**
   * A GAME_FINISHED event fanned out to a list without duplicates that holds
   * l makes l write the event's name and score exactly once.
   */
  lemma {:induction false} FinishedRecordedOnce(ls: seq<ListenerId>, e: GameEvent, l: ListenerId)
    requires NoDuplicates(ls) && l in ls
    ensures ScoreWrites(Fanout(ls, OnGameFinished, e), l) == [(e.gameName, e.score)]
  {
    var front, last := ls[..|ls| - 1], ls[|ls| - 1];
    assert ls == front + [last];
    assert NoDuplicates(front);
    var d := Delivery(last, OnGameFinished, e);
    ScoreWritesAppend(Fanout(front, OnGameFinished, e), [d], l);
    assert [d][..0] == [];
    if last == l {
      assert l !in front;
      AbsentNoWrites(front, OnGameFinished, e, l);
    } else {
      FinishedRecordedOnce(front, e, l);
    }
  }

  /**
   * The text of the dialog `onGameError` shows, or None where one of its two
   * casts throws: the "errorMessage" entry must be a string or null, and the
   * "exception" entry an exception or null.
   */
  function ErrorDialog(gameName: string, message: DataValue, exception: DataValue): (text: Option<string>)
    ensures text.None? <==> message.Exception? || exception.Str?
    ensures text.Some? && message.Str? ==> text.value == "Error en " + gameName + ": " + message.text
    ensures text.Some? && message.Null? ==> text.value == "Error en " + gameName + ": null"
  {
    if message.Exception? || exception.Str? then None
    else Some("Error en " + gameName + ": " + if message.Str? then message.text else "null")
  }

  class MainController {
    const scoreManager: ScoreManager
    const pluginLoader: PluginLoader
    /** The controller in its role of GameListener. */
    const listenerId: ListenerId
    var availableGames: seq<Plugin>
    var currentGame: Option<Plugin>
    /**
     * An Error left the loader's scan during `initializeComponents`. Then it
     * leaves the constructor too, `getInstance` fails, and no view is made;
     * the fields hold what had been done when it was raised.
     */
    var startupFailed: bool

    ghost predicate Valid()
      reads this, pluginLoader
    {
      pluginLoader.Valid() && NoDuplicates(availableGames)
    }

    /**
     * The single instance: the loader's callback set, the two built-in games
     * listed, then the plugins of the directory listing. An Error of the scan
     * ends the start before the plugins are listed or the watcher started.
     */
    constructor (listenerId: ListenerId, files: seq<JarFile>)
      ensures Valid() && fresh(scoreManager) && fresh(pluginLoader)
      ensures |availableGames| >= 2 && availableGames[0].TicTacToePlugin? && availableGames[1].AhorcadoPlugin?
      ensures availableGames[0].Valid() && availableGames[1].Valid()
      ensures Scan(pluginLoader.State(), startupFailed) == Batch(Registry(map[], {}), JarsOnly(files))
      ensures pluginLoader.callbackSet
      ensures pluginLoader.watcherStarted == pluginLoader.watcherRunning == !startupFailed
      ensures startupFailed ==> |availableGames| == 2
      ensures !startupFailed ==> forall p :: p in availableGames <==> p in availableGames[..2] || p in pluginLoader.loadedPlugins.Values
      ensures currentGame.None? && scoreManager.gameRecords == map[]
    {
      scoreManager := new ScoreManager();
      pluginLoader := new PluginLoader();
      this.listenerId := listenerId;
      availableGames := [];
      currentGame := None;
      startupFailed := false;
      new;
      InitializeComponents(files);
    }

    /**
     * `initializeComponents` on a new controller and loader: the callback is
     * set, the built-in games are listed, then the plugins of the listing.
     */
    method InitializeComponents(files: seq<JarFile>)
      requires Valid() && availableGames == [] && !startupFailed
      requires pluginLoader.State() == Registry(map[], {}) && !pluginLoader.watcherStarted && !pluginLoader.watcherRunning
      modifies this, pluginLoader
      ensures Valid()
      ensures |availableGames| >= 2 && availableGames[0].TicTacToePlugin? && availableGames[1].AhorcadoPlugin?
      ensures availableGames[0].Valid() && availableGames[1].Valid()
      ensures Scan(pluginLoader.State(), startupFailed) == Batch(Registry(map[], {}), JarsOnly(files))
      ensures pluginLoader.callbackSet
      ensures pluginLoader.watcherStarted == pluginLoader.watcherRunning == !startupFailed
      ensures startupFailed ==> |availableGames| == 2
      ensures !startupFailed ==> forall p :: p in availableGames <==> p in availableGames[..2] || p in pluginLoader.loadedPlugins.Values
      ensures currentGame == old(currentGame)
    {
      pluginLoader.SetOnPluginAddedCallback();
      var t, a := LoadInternalGames();
      ghost var builtins := availableGames;
      var external, aborted := LoadExternalGames(files);
      startupFailed := aborted;
      MergeProps(builtins, external);
      assert availableGames[..2] == builtins;
    }

    /** `loadInternalGames`: Tic-Tac-Toe, then Ahorcado, each a new game. */
    method LoadInternalGames() returns (t: TicTacToe.TicTacToeGame, a: Ahorcado.AhorcadoGame)
      requires Valid()
      modifies this
      ensures Valid() && fresh(t) && fresh(t.core) && fresh(t.board) && fresh(a) && fresh(a.core)
      ensures availableGames == old(availableGames) + [TicTacToePlugin(t), AhorcadoPlugin(a)]
      ensures TicTacToePlugin(t).Valid() && AhorcadoPlugin(a).Valid()
      ensures currentGame == old(currentGame)
    {
      t := new TicTacToe.TicTacToeGame();
      availableGames := availableGames + [TicTacToePlugin(t)];
      a := new Ahorcado.AhorcadoGame();
      availableGames := availableGames + [AhorcadoPlugin(a)];
    }

    /**
     * `loadExternalGames`: the loader scans the listing, then every plugin it
     * holds that is not listed yet is appended, in the order the loader gives.
     * An Error of the scan passes the `catch (Exception e)` and leaves before
     * anything is listed; `aborted` records it.
     */
    method LoadExternalGames(files: seq<JarFile>) returns (external: seq<Plugin>, aborted: bool)
      requires Valid()
      modifies this, pluginLoader
      ensures Valid()
      ensures Scan(pluginLoader.State(), aborted) == Batch(old(pluginLoader.State()), JarsOnly(files))
      ensures pluginLoader.callbackSet == old(pluginLoader.callbackSet)
      ensures aborted ==> external == [] && availableGames == old(availableGames)
      ensures aborted ==>
        pluginLoader.watcherStarted == old(pluginLoader.watcherStarted)
        && pluginLoader.watcherRunning == old(pluginLoader.watcherRunning)
      ensures !aborted ==>
        pluginLoader.watcherStarted
        && pluginLoader.watcherRunning == (old(pluginLoader.watcherRunning) || !old(pluginLoader.watcherStarted))
      ensures !aborted ==> |external| == |pluginLoader.loadedPlugins| && NoDuplicates(external)
      ensures !aborted ==> forall p :: p in external <==> p in pluginLoader.loadedPlugins.Values
      ensures availableGames == Merge(old(availableGames), external)
      ensures startupFailed == old(startupFailed) && currentGame == old(currentGame)
    {
      external := [];
      aborted := pluginLoader.LoadExternalGames(files);
      if aborted {
        assert Merge(availableGames, []) == availableGames;
        return;
      }
      external := pluginLoader.GetLoadedPlugins();
      MergeProps(availableGames, external);
      ghost var before := availableGames;
      for i := 0 to |external|
        modifies this
        invariant availableGames == Merge(before, external[..i])
        invariant startupFailed == old(startupFailed) && currentGame == old(currentGame)
      {
        assert external[..i + 1][..i] == external[..i];
        if external[i] !in availableGames {
          availableGames := availableGames + [external[i]];
        }
      }
      assert external[..|external|] == external;
    }

    /**
     * `reloadExternalGames`, the loader's callback: the same merge, with
     * `updated` telling whether anything was appended.
     */
    method ReloadExternalGames() returns (updated: bool, external: seq<Plugin>)
      requires Valid()
      modifies this
      ensures Valid()
      ensures |external| == |pluginLoader.loadedPlugins| && NoDuplicates(external)
      ensures forall p :: p in external <==> p in pluginLoader.loadedPlugins.Values
      ensures availableGames == Merge(old(availableGames), external)
      ensures updated <==> exists i :: 0 <= i < |external| && external[i] !in old(availableGames)
      ensures currentGame == old(currentGame)
    {
      external := pluginLoader.GetLoadedPlugins();
      MergeProps(availableGames, external);
      MergeUnchanged(availableGames, external);
      ghost var before := availableGames;
      updated := false;
      for i := 0 to |external|
        invariant availableGames == Merge(before, external[..i])
        invariant before <= availableGames
        invariant updated <==> |availableGames| > |before|
        invariant currentGame == old(currentGame)
      {
        assert external[..i + 1][..i] == external[..i];
        if external[i] !in availableGames {
          availableGames := availableGames + [external[i]];
          updated := true;
        }
      }
      assert external[..|external|] == external;
    }

    /** `getAvailableGames`: a copy of the list. */
    method GetAvailableGames() returns (games: seq<Plugin>)
      ensures games == availableGames
    {
      games := availableGames;
    }

    /** `getTopScores`: the numbered lines of the game's table. */
    method GetTopScores(gameName: string) returns (lines: seq<string>)
      ensures scoreManager.GetTopScores(gameName) == [] ==> lines == [NoRecords]
      ensures scoreManager.GetTopScores(gameName) != [] ==>
        |lines| == |scoreManager.GetTopScores(gameName)|
        && forall i :: 0 <= i < |lines| ==> lines[i] == ScoreLine(i + 1, scoreManager.GetTopScores(gameName)[i])
    {
      lines := scoreManager.GetTopScoresAsStrings(gameName);
    }

    /** The first step of `selectGame`: a running current game is stopped, a stopped one is left alone. */
    method StopCurrentGame(game: Plugin)
      requires game.Valid()
      requires currentGame.Some? ==>
        currentGame.value.Valid() && (currentGame.value == game || currentGame.value.Repr() !! game.Repr())
      modifies if currentGame.Some? then currentGame.value.Repr() else {}
      ensures game.Valid() && game.Core().listeners == old(game.Core().listeners)
      ensures currentGame != Some(game) ==>
        game.Core().delivered == old(game.Core().delivered) && game.IsGameRunning() == old(game.IsGameRunning())
      ensures currentGame == Some(game) ==> !game.IsGameRunning() && OnlyStateChanges(old(game.Core().delivered), game.Core().delivered)
      ensures currentGame.Some? ==>
        var previous := currentGame.value;
        previous.Valid() && !previous.IsGameRunning() && previous.Core().listeners == old(previous.Core().listeners)
        && (old(previous.IsGameRunning()) ==>
              previous.Core().Announced(old(previous.Core().delivered), OnGameStateChanged,
                                        EventType.GameFinished, old(previous.GetCurrentScore())))
        && (!old(previous.IsGameRunning()) ==> previous.Core().delivered == old(previous.Core().delivered))
    {
      if currentGame.Some? && currentGame.value.IsGameRunning() {
        currentGame.value.StopGame();
      }
    }

    /** The last steps of `selectGame`: the controller subscribes to the game and restarts it. */
    method SubscribeAndRestart(game: Plugin)
      requires game.Valid()
      modifies game.Repr()
      ensures game.Valid() && game.IsGameRunning()
      ensures game.Core().listeners == WithListener(old(game.Core().listeners), Some(listenerId))
      ensures OnlyStateChanges(old(game.Core().delivered), game.Core().delivered)
      ensures old(game.IsGameRunning()) ==> game.Core().delivered == old(game.Core().delivered)
      ensures !old(game.IsGameRunning()) ==>
        game.Core().Announced(old(game.Core().delivered), OnGameStateChanged, GameStarted, 0)
        && |game.Core().listeners| <= |game.Core().delivered|
        && game.Core().Announced(game.Core().delivered[..|game.Core().delivered| - |game.Core().listeners|],
                                 OnGameStateChanged, GameStarted, 0)
    {
      game.AddGameListener(Some(listenerId));
      ghost var subscribed := game.Core().delivered;
      game.RestartGame();
      if !old(game.IsGameRunning()) {
        assert game.Core().delivered[..|game.Core().delivered| - |game.Core().listeners|] == subscribed;
      }
    }

    /**
     * `selectGame`: the current game is stopped when it is running; then the
     * chosen game becomes current, gets the controller as a listener (no
     * listener is removed from the previous game) and is restarted. Every
     * event this publishes to the chosen game's listeners is a state change,
     * and a game that was not running announces GAME_STARTED to all its
     * listeners last.
     */
    method SelectGame(game: Plugin)
      requires game.Valid()
      requires currentGame.Some? ==>
        currentGame.value.Valid() && (currentGame.value == game || currentGame.value.Repr() !! game.Repr())
      modifies this, game.Repr(), if currentGame.Some? then currentGame.value.Repr() else {}
      ensures currentGame == Some(game) && availableGames == old(availableGames)
      ensures game.Valid() && game.IsGameRunning()
      ensures game.Core().listeners == WithListener(old(game.Core().listeners), Some(listenerId))
      ensures OnlyStateChanges(old(game.Core().delivered), game.Core().delivered)
      ensures old(!game.IsGameRunning()) || old(currentGame) == Some(game) ==>
        |game.Core().listeners| <= |game.Core().delivered|
        && game.Core().Announced(game.Core().delivered[..|game.Core().delivered| - |game.Core().listeners|],
                                 OnGameStateChanged, GameStarted, 0)
      ensures old(game.IsGameRunning()) && old(currentGame) != Some(game) ==>
        game.Core().delivered == old(game.Core().delivered)
      ensures old(currentGame).Some? && old(currentGame).value != game ==>
        var previous := old(currentGame).value;
        var core := previous.Core();
        previous.Valid() && !core.isRunning && core.listeners == old(core.listeners)
        && (old(core.isRunning) ==>
              core.Announced(old(core.delivered), OnGameStateChanged, EventType.GameFinished, old(core.currentScore)))
        && (!old(core.isRunning) ==> core.delivered == old(core.delivered))
    {
      assert this !in game.Repr();
      assert currentGame.Some? ==> this !in currentGame.value.Repr();
      StopCurrentGame(game);
      ghost var stopped := game.Core().delivered;
      currentGame := Some(game);
      SubscribeAndRestart(game);
      OnlyStateChangesTrans(old(game.Core().delivered), stopped, game.Core().delivered);
    }

    /** `onGameFinished`: the event's game name and score become a record. */
    method OnGameFinished(event: GameEvent, now: Date, saveSucceeds: bool)
      modifies scoreManager
      ensures scoreManager.gameRecords == UpdatedTable(old(scoreManager.gameRecords), event.gameName, event.score, now)
      ensures saveSucceeds ==> scoreManager.stored == scoreManager.gameRecords
      ensures !saveSucceeds ==> scoreManager.stored == old(scoreManager.stored)
    {
      scoreManager.UpdateScore(event.gameName, event.score, now, saveSucceeds);
    }

    /**
     * `onGameError`: the dialog text, from the event's "errorMessage" entry;
     * None where a cast of either entry throws before the dialog is queued.
     */
    method OnGameError(event: GameEvent) returns (dialog: Option<string>)
      ensures dialog == ErrorDialog(event.gameName, event.GetData("errorMessage"), event.GetData("exception"))
    {
      var errorMsg := event.GetData("errorMessage");
      var exception := event.GetData("exception");
      if errorMsg.Exception? || exception.Str? {
        return None;
      }
      var text := if errorMsg.Str? then errorMsg.text else "null";
      dialog := Some("Error en " + event.gameName + ": " + text);
    }

    /**
     * A callback arriving at the controller: only GAME_FINISHED callbacks touch
     * the score table. `onScoreUpdated` and `onGameStateChanged` only update
     * the view and the log.
     */
    method Receive(d: Delivery, now: Date, saveSucceeds: bool)
      modifies scoreManager
      ensures d.handler == Handler.OnGameFinished ==>
        scoreManager.gameRecords == UpdatedTable(old(scoreManager.gameRecords), d.event.gameName, d.event.score, now)
        && (saveSucceeds ==> scoreManager.stored == scoreManager.gameRecords)
        && (!saveSucceeds ==> scoreManager.stored == old(scoreManager.stored))
      ensures d.handler != Handler.OnGameFinished ==> unchanged(scoreManager)
    {
      match d.handler
      case OnGameFinished() => OnGameFinished(d.event, now, saveSucceeds);
      case OnScoreUpdated =>
      case OnGameStateChanged =>
      case OnGameError() => var _ := OnGameError(d.event);
    }
  }
}
