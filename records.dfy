/**
 * GameRecord: one entry of the score table, with a game name, a score and a
 * date. A Java reference that may be null is an Option.
 */
module Records {
  import opened Basics
  import opened Text

  /**
   * A point in time. Only its rendering in the "dd/MM/yyyy HH:mm" pattern is
   * ever observed, so that rendering is all the model keeps.
   */
  datatype Date = Date(formatted: string)

  const UnknownDate: string := "Fecha desconocida"

  /** How a possibly null date is shown. */
  function FormattedDate(d: Option<Date>): (s: string)
    ensures d.None? ==> s == UnknownDate
    ensures d.Some? ==> s == d.value.formatted
  {
    match d
    case None => UnknownDate
    case Some(date) => date.formatted
  }

  /** `%s` of a possibly null string. */
  function NameText(n: Option<string>): (text: string) {
    match n
    case None => "null"
    case Some(s) => s
  }

  /** The text `toString` puts before the score. */
  function RecordTextPrefix(gameName: Option<string>): (prefix: string) {
    "GameRecord[" + NameText(gameName) + ": "
  }

  /** The text `toString` puts after the score. */
  function RecordTextSuffix(formattedDate: string): (suffix: string) {
    " pts on " + formattedDate + "]"
  }

  /**
   * A record as a value. The no-argument constructor is EmptyRecord; a setter
   * gives the record with that one field replaced.
   */
  datatype GameRecord = GameRecord(gameName: Option<string>, score: int, date: Option<Date>)
  {
    function SetGameName(n: Option<string>): (r: GameRecord)
      ensures r.gameName == n && r.score == score && r.date == date
    {
      this.(gameName := n)
    }

    function SetScore(s: int): (r: GameRecord)
      ensures r.score == s && r.gameName == gameName && r.date == date
    {
      this.(score := s)
    }

    function SetDate(d: Option<Date>): (r: GameRecord)
      ensures r.date == d && r.gameName == gameName && r.score == score
    {
      this.(date := d)
    }

    /** `getFormattedDate`: the fixed text for a null date, else the date's rendering. */
    function GetFormattedDate(): (text: string) {
      FormattedDate(date)
    }

    /**
     * `toString`: "GameRecord[name: score pts on date]". The score can be read
     * back from the text between the fixed name part and the fixed date part.
     */
    function ToString(): (s: string)
      ensures StartsWith(s, RecordTextPrefix(gameName)) && EndsWith(s, RecordTextSuffix(GetFormattedDate()))
      ensures |s| > |RecordTextPrefix(gameName)| + |RecordTextSuffix(GetFormattedDate())|
      ensures var digits := s[|RecordTextPrefix(gameName)|..|s| - |RecordTextSuffix(GetFormattedDate())|];
        IsNumeral(digits) && ParseInt(digits) == score
    {
      FramedNumber(RecordTextPrefix(gameName), score, RecordTextSuffix(GetFormattedDate()));
      RecordTextPrefix(gameName) + IntToString(score) + RecordTextSuffix(GetFormattedDate())
    }
  }

  /** The no-argument constructor: name and date null, score 0. */
  function EmptyRecord(): (r: GameRecord)
    ensures r.gameName.None? && r.score == 0 && r.date.None?
  {
    GameRecord(None, 0, None)
  }
}
