/**
 * GamePlugin: what the host asks of every game. The model knows the three
 * games of the repository, so a plugin is one of those engines; two plugins
 * are equal exactly when they wrap the same object, as Java's default
 * `equals` has it.
 */
module Plugins {
  import opened Basics
  import opened Events
  import opened Core
  import TicTacToe
  import Ahorcado
  import PacMan

  const TicTacToeDescription: string := "Juego cl\U{00E1}sico de Tres en Raya. Gana el primero en formar una l\U{00ED}nea!"
  const AhorcadoDescription: string := "Adivina la palabra letra por letra antes de quedarte sin intentos!"
  const PacManDescription: string := "Juego cl\U{00E1}sico de Pac-Man. Come todos los puntos y evita a los fantasmas!"

  /** Only state changes were published since `before`. */
  ghost predicate OnlyStateChanges(before: seq<Delivery>, after: seq<Delivery>)
  {
    before <= after && forall i :: |before| <= i < |after| ==> after[i].handler == OnGameStateChanged
  }

  lemma OnlyStateChangesTrans(a: seq<Delivery>, b: seq<Delivery>, c: seq<Delivery>)
    requires OnlyStateChanges(a, b) && OnlyStateChanges(b, c)
    ensures OnlyStateChanges(a, c)
  {
    forall i | |a| <= i < |c| ensures c[i].handler == OnGameStateChanged {
      if i < |b| {
        assert c[i] == b[i];
      }
    }
  }

  datatype Plugin =
    | TicTacToePlugin(t: TicTacToe.TicTacToeGame)
    | AhorcadoPlugin(a: Ahorcado.AhorcadoGame)
    | PacManPlugin(p: PacMan.PacManGame)
  {
    /** The AbstractGame part of the engine. */
    function Core(): (core: GameCore) {
      match this
      case TicTacToePlugin(t) => t.core
      case AhorcadoPlugin(a) => a.core
      case PacManPlugin(p) => p.core
    }

    /** Every object the engine's state lives in. */
    ghost function Repr(): (objects: set<object>) {
      match this
      case TicTacToePlugin(t) => t.Repr()
      case AhorcadoPlugin(a) => {a, a.core}
      case PacManPlugin(p) => {p, p.core}
    }

    ghost predicate Valid()
      reads Repr()
    {
      match this
      case TicTacToePlugin(t) => t.Valid()
      case AhorcadoPlugin(a) => a.Valid()
      case PacManPlugin(p) => p.Valid()
    }

    /** `getGameName`. */
    function GetGameName(): (name: string) {
      Core().gameName
    }

    /** `getGameVersion`: every engine is at version "1.0". */
    function GetGameVersion(): (version: string)
      ensures version == "1.0"
    {
      match this
      case TicTacToePlugin(_) => TicTacToe.Version
      case AhorcadoPlugin(_) => Ahorcado.Version
      case PacManPlugin(_) => PacMan.Version
    }

    function GetGameDescription(): (description: string) {
      match this
      case TicTacToePlugin(_) => TicTacToeDescription
      case AhorcadoPlugin(_) => AhorcadoDescription
      case PacManPlugin(_) => PacManDescription
    }

    function IsGameRunning(): (running: bool)
      reads Core()
    {
      Core().isRunning
    }

    function GetCurrentScore(): (current: int)
      reads Core()
    {
      Core().currentScore
    }

    /** `addGameListener`, inherited from AbstractGame. */
    method AddGameListener(l: Option<ListenerId>)
      requires Valid()
      modifies Core()
      ensures Valid()
      ensures Core().listeners == WithListener(old(Core().listeners), l)
      ensures Core().isRunning == old(Core().isRunning) && Core().delivered == old(Core().delivered)
    {
      Core().AddGameListener(l);
    }

    /** `removeGameListener`, inherited from AbstractGame. */
    method RemoveGameListener(l: Option<ListenerId>)
      requires Valid()
      modifies Core()
      ensures Valid()
      ensures l.None? ==> Core().listeners == old(Core().listeners)
      ensures l.Some? ==> Core().listeners == RemoveFirst(old(Core().listeners), l.value)
      ensures Core().isRunning == old(Core().isRunning) && Core().delivered == old(Core().delivered)
    {
      Core().RemoveGameListener(l);
    }

    /** `stopGame`: every engine stops and publishes GAME_FINISHED as a state change with its current score. */
    method StopGame()
      requires Valid()
      modifies Repr()
      ensures Valid() && !Core().isRunning && Core().listeners == old(Core().listeners)
      ensures Core().Announced(old(Core().delivered), OnGameStateChanged, EventType.GameFinished, old(Core().currentScore))
    {
      match this
      case TicTacToePlugin(t) => t.StopGame();
      case AhorcadoPlugin(a) => a.StopGame();
      case PacManPlugin(p) => p.StopGame();
    }

    /**
     * `restartGame`: every engine ends up running; one that was stopped
     * publishes GAME_STARTED with score 0, one already running publishes nothing.
     */
    method RestartGame()
      requires Valid()
      modifies Repr()
      ensures Valid() && Core().isRunning && Core().listeners == old(Core().listeners)
      ensures old(Core().isRunning) ==> Core().delivered == old(Core().delivered)
      ensures !old(Core().isRunning) ==> Core().Announced(old(Core().delivered), OnGameStateChanged, GameStarted, 0)
    {
      match this
      case TicTacToePlugin(t) => t.RestartGame();
      case AhorcadoPlugin(a) => a.RestartGame();
      case PacManPlugin(p) => p.RestartGame();
    }
  }
}
