/**
 * AbstractGame: the part every game shares. A game keeps a list of listeners
 * without duplicates, a running flag and a current score, and publishes typed
 * events to its listeners synchronously, in list order.
 *
 * A listener is identified by a ListenerId. Calling a listener's handler is
 * recorded as one Delivery appended to the game's `delivered` log, so that what
 * a notification does is visible in the state: which listener, which of the
 * four handlers, which event object.
 */
module Core {
  import opened Basics
  import opened Events

  /** A subscriber (the source's GameListener). */
  datatype ListenerId = ListenerId(id: nat)

  /** The four callbacks of a listener. */
  datatype Handler = OnGameFinished | OnScoreUpdated | OnGameStateChanged | OnGameError

  /** One call `listener.handler(event)`. */
  datatype Delivery = Delivery(listener: ListenerId, handler: Handler, event: GameEvent)

  /** The calls a loop over `ls` makes when it hands the same event to every listener. */
  function Fanout(ls: seq<ListenerId>, h: Handler, e: GameEvent): (ds: seq<Delivery>)
    ensures |ds| == |ls|
    ensures forall i :: 0 <= i < |ls| ==> ds[i] == Delivery(ls[i], h, e)
  {
    if ls == [] then [] else Fanout(ls[..|ls| - 1], h, e) + [Delivery(ls[|ls| - 1], h, e)]
  }

  /** How many of the calls in ds went to listener l. */
  function DeliveriesTo(ds: seq<Delivery>, l: ListenerId): (count: nat) {
    if ds == [] then 0
    else DeliveriesTo(ds[..|ds| - 1], l) + (if ds[|ds| - 1].listener == l then 1 else 0)
  }

  /** Fanning out over a concatenation is fanning out over each part in turn. */
  lemma {:induction false} FanoutAppend(a: seq<ListenerId>, b: seq<ListenerId>, h: Handler, e: GameEvent)
    ensures Fanout(a + b, h, e) == Fanout(a, h, e) + Fanout(b, h, e)
  {
    var l, r := Fanout(a + b, h, e), Fanout(a, h, e) + Fanout(b, h, e);
    assert |l| == |r|;
    forall i | 0 <= i < |l| ensures l[i] == r[i] {
      if i < |a| {
        assert (a + b)[i] == a[i];
      } else {
        assert (a + b)[i] == b[i - |a|];
      }
    }
  }

  /** A list without duplicates gets each of its listeners called exactly once, and no one else. */
  lemma {:induction false} FanoutExactlyOnce(ls: seq<ListenerId>, h: Handler, e: GameEvent, l: ListenerId)
    requires NoDuplicates(ls)
    ensures DeliveriesTo(Fanout(ls, h, e), l) == if l in ls then 1 else 0
    decreases |ls|
  {
    if ls != [] {
      var front := ls[..|ls| - 1];
      assert NoDuplicates(front);
      FanoutExactlyOnce(front, h, e, l);
      var ds := Fanout(ls, h, e);
      assert ds[..|ds| - 1] == Fanout(front, h, e);
      assert ls == front + [ls[|ls| - 1]];
      if ls[|ls| - 1] == l {
        assert l !in front;
      }
    }
  }

  /** `List.add` after the guard of `addGameListener`: only a present, new listener is appended. */
  function WithListener(ls: seq<ListenerId>, l: Option<ListenerId>): (subscribed: seq<ListenerId>) {
    if l.Some? && l.value !in ls then ls + [l.value] else ls
  }

  /** `List.remove(Object)`: the first occurrence goes, the rest keep their order. */
  function RemoveFirst(ls: seq<ListenerId>, l: ListenerId): (rest: seq<ListenerId>) {
    if ls == [] then [] else if ls[0] == l then ls[1..] else [ls[0]] + RemoveFirst(ls[1..], l)
  }

  /** Subscribing keeps the list free of duplicates, and subscribing twice is the same as once. */
  lemma WithListenerProps(ls: seq<ListenerId>, l: Option<ListenerId>)
    requires NoDuplicates(ls)
    ensures NoDuplicates(WithListener(ls, l))
    ensures WithListener(WithListener(ls, l), l) == WithListener(ls, l)
    ensures l.Some? ==> l.value in WithListener(ls, l)
    ensures ls <= WithListener(ls, l) && |WithListener(ls, l)| <= |ls| + 1
  {
  }

  /**
   * Removing a listener that occurs at index k splices it out; one that does not
   * occur leaves the list as it was.
   */
  lemma {:induction false} RemoveFirstSplice(ls: seq<ListenerId>, l: ListenerId, k: nat)
    requires k < |ls| && ls[k] == l && l !in ls[..k]
    ensures RemoveFirst(ls, l) == ls[..k] + ls[k + 1..]
    decreases k
  {
    if k > 0 {
      assert ls[1..][..k - 1] == ls[1..k];
      RemoveFirstSplice(ls[1..], l, k - 1);
      assert ls[..k] == [ls[0]] + ls[1..][..k - 1];
      assert ls[1..][k..] == ls[k + 1..];
    }
  }

  lemma {:induction false} RemoveFirstAbsent(ls: seq<ListenerId>, l: ListenerId)
    requires l !in ls
    ensures RemoveFirst(ls, l) == ls
    decreases |ls|
  {
    if ls != [] {
      RemoveFirstAbsent(ls[1..], l);
    }
  }

  /**
   * On a list without duplicates, `removeGameListener` drops exactly l: the result
   * has no duplicates, does not contain l, and keeps every other listener.
   */
  lemma {:induction false} RemoveFirstProps(ls: seq<ListenerId>, l: ListenerId)
    requires NoDuplicates(ls)
    ensures NoDuplicates(RemoveFirst(ls, l))
    ensures l !in RemoveFirst(ls, l)
    ensures forall m :: m != l ==> (m in RemoveFirst(ls, l) <==> m in ls)
    decreases |ls|
  {
    if ls != [] {
      assert NoDuplicates(ls[1..]);
      RemoveFirstProps(ls[1..], l);
      if ls[0] == l {
        assert l !in ls[1..];
      } else {
        var r := RemoveFirst(ls, l);
        assert r == [ls[0]] + RemoveFirst(ls[1..], l);
        assert ls[0] !in ls[1..];
        forall i, j | 0 <= i < j < |r| ensures r[i] != r[j] {
          if i == 0 {
            assert r[j] in RemoveFirst(ls[1..], l);
          }
        }
      }
    }
  }

  /** Unsubscribing a listener that was just subscribed anew restores the list. */
  lemma AddThenRemove(ls: seq<ListenerId>, l: ListenerId)
    requires l !in ls
    ensures RemoveFirst(WithListener(ls, Some(l)), l) == ls
  {
    var s := ls + [l];
    assert s[..|ls|] == ls;
    RemoveFirstSplice(s, l, |ls|);
    assert s[|ls| + 1..] == [];
  }

  class GameCore {
    /** What `getGameName()` returns for this game. */
    const gameName: string
    var listeners: seq<ListenerId>
    var isRunning: bool
    var currentScore: int
    /** Every listener call this game has made, oldest first. */
    var delivered: seq<Delivery>
    /** The event object the latest notification created. */
    ghost var lastEvent: GameEvent?

    ghost predicate Valid()
      reads this
    {
      NoDuplicates(listeners)
    }

    /**
     * Since `before`, exactly one event went out: the latest one, of kind t with
     * score `score`, handed to every listener through handler h.
     */
    ghost predicate Announced(before: seq<Delivery>, h: Handler, t: EventType, score: int)
      reads this, lastEvent
    {
      lastEvent != null && lastEvent.gameName == gameName && lastEvent.eventType == t
      && lastEvent.score == score && delivered == before + Fanout(listeners, h, lastEvent)
    }

    /** A new game: no listeners, not running, score 0. */
    constructor (gameName: string)
      ensures Valid()
      ensures this.gameName == gameName && listeners == [] && !isRunning && currentScore == 0
      ensures delivered == [] && lastEvent == null
    {
      this.gameName := gameName;
      listeners := [];
      isRunning := false;
      currentScore := 0;
      delivered := [];
      lastEvent := null;
    }

    /** `addGameListener`: a null or already subscribed listener is ignored, any other is appended. */
    method AddGameListener(l: Option<ListenerId>)
      requires Valid()
      modifies this
      ensures Valid()
      ensures listeners == WithListener(old(listeners), l)
      ensures isRunning == old(isRunning) && currentScore == old(currentScore)
      ensures delivered == old(delivered) && lastEvent == old(lastEvent)
    {
      WithListenerProps(listeners, l);
      if l.Some? && l.value !in listeners {
        listeners := listeners + [l.value];
      }
    }

    /** `removeGameListener`: the listener goes, the others keep their order; null removes nothing. */
    method RemoveGameListener(l: Option<ListenerId>)
      requires Valid()
      modifies this
      ensures Valid()
      ensures l.None? ==> listeners == old(listeners)
      ensures l.Some? ==> listeners == RemoveFirst(old(listeners), l.value) && l.value !in listeners
      ensures isRunning == old(isRunning) && currentScore == old(currentScore)
      ensures delivered == old(delivered) && lastEvent == old(lastEvent)
    {
      if l.Some? {
        RemoveFirstProps(listeners, l.value);
        listeners := RemoveFirst(listeners, l.value);
      }
    }

    /** Hands e to every listener through handler h, in list order. */
    method Publish(h: Handler, e: GameEvent)
      modifies this
      ensures delivered == old(delivered) + Fanout(listeners, h, e)
      ensures listeners == old(listeners) && isRunning == old(isRunning) && currentScore == old(currentScore)
      ensures lastEvent == old(lastEvent)
    {
      var ls := listeners;
      for i := 0 to |ls|
        invariant listeners == ls && isRunning == old(isRunning) && currentScore == old(currentScore)
        invariant delivered == old(delivered) + Fanout(ls[..i], h, e)
        invariant lastEvent == old(lastEvent)
      {
        assert ls[..i + 1][..i] == ls[..i];
        delivered := delivered + [Delivery(ls[i], h, e)];
      }
      assert ls[..|ls|] == ls;
    }

    /** `notifyGameFinished`: a GAME_FINISHED event with the final score; currentScore is not touched. */
    method NotifyGameFinished(finalScore: int)
      requires Valid()
      modifies this
      ensures Valid() && listeners == old(listeners)
      ensures isRunning == old(isRunning) && currentScore == old(currentScore)
      ensures fresh(lastEvent)
      ensures lastEvent.gameName == gameName && lastEvent.eventType == GameFinished
      ensures lastEvent.score == finalScore && lastEvent.additionalData == map[]
      ensures delivered == old(delivered) + Fanout(listeners, OnGameFinished, lastEvent)
    {
      var event := new GameEvent(gameName, GameFinished, finalScore);
      lastEvent := event;
      Publish(OnGameFinished, event);
    }

    /** `notifyScoreUpdated`: currentScore becomes the new score before a SCORE_UPDATED event goes out. */
    method NotifyScoreUpdated(newScore: int)
      requires Valid()
      modifies this
      ensures Valid() && listeners == old(listeners)
      ensures isRunning == old(isRunning) && currentScore == newScore
      ensures fresh(lastEvent)
      ensures lastEvent.gameName == gameName && lastEvent.eventType == ScoreUpdated
      ensures lastEvent.score == newScore && lastEvent.additionalData == map[]
      ensures delivered == old(delivered) + Fanout(listeners, OnScoreUpdated, lastEvent)
    {
      currentScore := newScore;
      var event := new GameEvent(gameName, ScoreUpdated, newScore);
      lastEvent := event;
      Publish(OnScoreUpdated, event);
    }

    /** `notifyGameStateChanged`: an event of the given kind carrying the current score. */
    method NotifyGameStateChanged(state: EventType)
      requires Valid()
      modifies this
      ensures Valid() && listeners == old(listeners)
      ensures isRunning == old(isRunning) && currentScore == old(currentScore)
      ensures fresh(lastEvent)
      ensures lastEvent.gameName == gameName && lastEvent.eventType == state
      ensures lastEvent.score == currentScore && lastEvent.additionalData == map[]
      ensures delivered == old(delivered) + Fanout(listeners, OnGameStateChanged, lastEvent)
    {
      var event := new GameEvent(gameName, state, currentScore);
      lastEvent := event;
      Publish(OnGameStateChanged, event);
    }

    /**
     * `notifyGameError`: a GAME_ERROR event carrying the current score, with the
     * message and the exception, either possibly null, stored under their keys.
     */
    method NotifyGameError(errorMessage: Option<string>, exception: Option<Throwable>)
      requires Valid()
      modifies this
      ensures Valid() && listeners == old(listeners)
      ensures isRunning == old(isRunning) && currentScore == old(currentScore)
      ensures fresh(lastEvent)
      ensures lastEvent.gameName == gameName && lastEvent.eventType == GameError
      ensures lastEvent.score == currentScore
      ensures lastEvent.GetData("errorMessage") == if errorMessage.Some? then Str(errorMessage.value) else Null
      ensures lastEvent.GetData("exception") == if exception.Some? then Exception(exception.value) else Null
      ensures delivered == old(delivered) + Fanout(listeners, OnGameError, lastEvent)
    {
      var event := new GameEvent(gameName, GameError, currentScore);
      event.AddData("errorMessage", if errorMessage.Some? then Str(errorMessage.value) else Null);
      event.AddData("exception", if exception.Some? then Exception(exception.value) else Null);
      lastEvent := event;
      Publish(OnGameError, event);
    }

    /** `isGameRunning`. */
    function IsGameRunning(): (running: bool)
      reads this
    {
      isRunning
    }

    /** `getCurrentScore`. */
    function GetCurrentScore(): (current: int)
      reads this
    {
      currentScore
    }
  }
}
