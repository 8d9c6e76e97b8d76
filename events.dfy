/**
 * GameEvent: what a game tells its listeners, as an object with final fields
 * (name, kind, score) and a mutable side map of extra data.
 */
module Events {
  import opened Text

  /** The closed set of event kinds. */
  datatype EventType = GameStarted | GameFinished | ScoreUpdated | GamePaused | GameResumed | GameError

  /** The enum constant's name, as `toString` prints it. */
  function TypeName(t: EventType): (name: string) {
    match t
    case GameStarted => "GAME_STARTED"
    case GameFinished => "GAME_FINISHED"
    case ScoreUpdated => "SCORE_UPDATED"
    case GamePaused => "GAME_PAUSED"
    case GameResumed => "GAME_RESUMED"
    case GameError => "GAME_ERROR"
  }

  /** An exception object carried as event data; only its message is observed. */
  datatype Throwable = Throwable(message: string)

  /** A value of the side map: Java's `Object`, including null. */
  datatype DataValue = Null | Str(text: string) | Exception(thrown: Throwable)

  /** "GameEvent[" + name + " - " + kind + " - Score: ", the text before the score. */
  function EventTextPrefix(gameName: string, eventType: EventType): (prefix: string) {
    "GameEvent[" + gameName + " - " + TypeName(eventType) + " - Score: "
  }

  class GameEvent {
    const gameName: string
    const eventType: EventType
    const score: int
    var additionalData: map<string, DataValue>

    /** The three-argument constructor: the given fields and an empty side map. */
    constructor (gameName: string, eventType: EventType, score: int)
      ensures this.gameName == gameName && this.eventType == eventType && this.score == score
      ensures additionalData == map[]
    {
      this.gameName := gameName;
      this.eventType := eventType;
      this.score := score;
      additionalData := map[];
    }

    /** The two-argument constructor: score 0. */
    constructor Unscored(gameName: string, eventType: EventType)
      ensures this.gameName == gameName && this.eventType == eventType && this.score == 0
      ensures additionalData == map[]
    {
      this.gameName := gameName;
      this.eventType := eventType;
      this.score := 0;
      additionalData := map[];
    }

    /** `getData`: the stored value, or null for a key never added. */
    function GetData(key: string): (value: DataValue)
      reads this
    {
      if key in additionalData then additionalData[key] else Null
    }

    /** `addData`: a later value for the same key overwrites; no other key changes. */
    method AddData(key: string, value: DataValue)
      modifies this
      ensures GetData(key) == value
      ensures forall k :: k != key ==> GetData(k) == old(GetData(k))
      ensures additionalData == old(additionalData)[key := value]
    {
      additionalData := additionalData[key := value];
    }

    /**
     * `toString`: the name and the kind in a fixed frame, then the score, which
     * can be read back from the text between the frame and the closing bracket.
     */
    function ToString(): (s: string)
      ensures StartsWith(s, EventTextPrefix(gameName, eventType)) && EndsWith(s, "]")
      ensures |s| > |EventTextPrefix(gameName, eventType)| + 1
      ensures var digits := s[|EventTextPrefix(gameName, eventType)|..|s| - 1];
        IsNumeral(digits) && ParseInt(digits) == score
    {
      FramedNumber(EventTextPrefix(gameName, eventType), score, "]");
      EventTextPrefix(gameName, eventType) + IntToString(score) + "]"
    }
  }
}
