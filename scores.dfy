/**
 * ScoreManager: per game, the three best records, best first. A new record is
 * appended to the game's list, the list is sorted by descending score with a
 * stable sort (records with equal scores keep their order), and cut to three.
 */
module Scores {
  import opened Basics
  import opened Text
  import opened Records

  /** How many records a game keeps. */
  const MaxRecords: nat := 3

  /** Best first: no record has a higher score than one before it. */
  ghost predicate SortedDesc(s: seq<GameRecord>)
  {
    forall i, j :: 0 <= i < j < |s| ==> s[i].score >= s[j].score
  }

  /**
   * Puts r into s just before the first record with a strictly lower score, so
   * that r ends up after every record whose score is at least its own.
   */
  function Insert(s: seq<GameRecord>, r: GameRecord): (t: seq<GameRecord>)
    ensures multiset(t) == multiset(s) + multiset{r}
  {
    if s == [] then [r]
    else if s[0].score < r.score then [r] + s
    else
      assert s == [s[0]] + s[1..];
      [s[0]] + Insert(s[1..], r)
  }

  /**
   * The order `List.sort` gives with a descending comparator: a stable
   * insertion sort, taking the records one by one from the front.
   */
  function Sort(s: seq<GameRecord>): (t: seq<GameRecord>)
    ensures multiset(t) == multiset(s)
  {
    if s == [] then []
    else
      assert s == s[..|s| - 1] + [s[|s| - 1]];
      Insert(Sort(s[..|s| - 1]), s[|s| - 1])
  }

  /** `subList(0, 3)` when the list is longer than three. */
  function TopThree(s: seq<GameRecord>): (t: seq<GameRecord>)
    ensures t <= s && |t| == if |s| <= MaxRecords then |s| else MaxRecords
  {
    if |s| > MaxRecords then s[..MaxRecords] else s
  }

  /** The records of s with score k, in the order in which they occur. */
  function WithScore(s: seq<GameRecord>, k: int): (selected: seq<GameRecord>)
  {
    if s == [] then [] else (if s[0].score == k then [s[0]] else []) + WithScore(s[1..], k)
  }

  lemma {:induction false} WithScoreAppend(a: seq<GameRecord>, b: seq<GameRecord>, k: int)
    ensures WithScore(a + b, k) == WithScore(a, k) + WithScore(b, k)
    decreases |a|
  {
    if a == [] {
      assert a + b == b;
    } else {
      var head := if a[0].score == k then [a[0]] else [];
      calc {
        WithScore(a + b, k);
        { assert (a + b)[0] == a[0] && (a + b)[1..] == a[1..] + b; }
        head + WithScore(a[1..] + b, k);
        { WithScoreAppend(a[1..], b, k); }
        head + (WithScore(a[1..], k) + WithScore(b, k));
        (head + WithScore(a[1..], k)) + WithScore(b, k);
        WithScore(a, k) + WithScore(b, k);
      }
    }
  }

  /** In a sorted list whose first score is below k, nothing has score k. */
  lemma {:induction false} WithScoreBelow(s: seq<GameRecord>, k: int)
    requires SortedDesc(s) && s != [] && s[0].score < k
    ensures WithScore(s, k) == []
    decreases |s|
  {
    if |s| > 1 {
      assert s[1].score <= s[0].score;
      WithScoreBelow(s[1..], k);
    }
  }

  /** Inserting into a sorted list keeps it sorted. */
  lemma {:induction false} InsertSorted(s: seq<GameRecord>, r: GameRecord)
    requires SortedDesc(s)
    ensures SortedDesc(Insert(s, r))
    decreases |s|
  {
    if s != [] && s[0].score >= r.score {
      InsertSorted(s[1..], r);
      var t := Insert(s, r);
      assert t == [s[0]] + Insert(s[1..], r);
      forall j | 0 < j < |t| ensures t[0].score >= t[j].score {
        assert t[j] in multiset(Insert(s[1..], r));
        assert t[j] in multiset(s[1..]) || t[j] == r;
      }
    }
  }

  /** Within one score, inserting into a sorted list puts the new record last. */
  lemma {:induction false} InsertStable(s: seq<GameRecord>, r: GameRecord, k: int)
    requires SortedDesc(s)
    ensures WithScore(Insert(s, r), k) == WithScore(s, k) + (if r.score == k then [r] else [])
    decreases |s|
  {
    var tail := if r.score == k then [r] else [];
    if s == [] {
      assert Insert(s, r) == [r];
    } else if s[0].score < r.score {
      calc {
        WithScore(Insert(s, r), k);
        WithScore([r] + s, k);
        { assert ([r] + s)[0] == r && ([r] + s)[1..] == s; }
        tail + WithScore(s, k);
        { if r.score == k { WithScoreBelow(s, k); } }
        WithScore(s, k) + tail;
      }
    } else {
      var head := if s[0].score == k then [s[0]] else [];
      calc {
        WithScore(Insert(s, r), k);
        WithScore([s[0]] + Insert(s[1..], r), k);
        { assert ([s[0]] + Insert(s[1..], r))[0] == s[0] && ([s[0]] + Insert(s[1..], r))[1..] == Insert(s[1..], r); }
        head + WithScore(Insert(s[1..], r), k);
        { InsertStable(s[1..], r, k); }
        head + (WithScore(s[1..], k) + tail);
        (head + WithScore(s[1..], k)) + tail;
        WithScore(s, k) + tail;
      }
    }
  }

  /** The sort's result is ordered best first. */
  lemma {:induction false} SortSorted(s: seq<GameRecord>)
    ensures SortedDesc(Sort(s))
    decreases |s|
  {
    if s != [] {
      SortSorted(s[..|s| - 1]);
      InsertSorted(Sort(s[..|s| - 1]), s[|s| - 1]);
    }
  }

  /** The sort is stable: the records of any one score keep their order. */
  lemma {:induction false} SortStable(s: seq<GameRecord>, k: int)
    ensures WithScore(Sort(s), k) == WithScore(s, k)
    decreases |s|
  {
    if s != [] {
      var front, last := s[..|s| - 1], s[|s| - 1];
      var sf := Sort(front);
      var tail := if last.score == k then [last] else [];
      calc {
        WithScore(Sort(s), k);
        WithScore(Insert(sf, last), k);
        { SortSorted(front); InsertStable(sf, last, k); }
        WithScore(sf, k) + tail;
        { SortStable(front, k); }
        WithScore(front, k) + tail;
        { assert [last][1..] == []; }
        WithScore(front, k) + WithScore([last], k);
        { WithScoreAppend(front, [last], k); }
        WithScore(front + [last], k);
        { assert s == front + [last]; }
        WithScore(s, k);
      }
    }
  }

  /** Cutting a sorted list after n records keeps every record better than the n-th. */
  lemma PrefixKeepsBetter(sorted: seq<GameRecord>, n: nat, x: GameRecord)
    requires SortedDesc(sorted) && 0 < n <= |sorted|
    requires x in sorted && x.score > sorted[n - 1].score
    ensures x in sorted[..n]
  {
    var j :| 0 <= j < |sorted| && sorted[j] == x;
    assert j < n;
    assert sorted[..n][j] == x;
  }

  /** The list `updateScore` keeps for a game: the first three of its old list and the new record, sorted. */
  function Kept(records: seq<GameRecord>, r: GameRecord): (kept: seq<GameRecord>)
    ensures |kept| == if |records| + 1 <= MaxRecords then |records| + 1 else MaxRecords
  {
    assert |Sort(records + [r])| == |multiset(records + [r])|;
    TopThree(Sort(records + [r]))
  }

  /**
   * What `updateScore` leaves for a game: best first, all taken from the old
   * list and the new record, with every record better than the worst kept
   * one kept.
   */
  lemma KeptRecords(old_: seq<GameRecord>, r: GameRecord)
    ensures var all := old_ + [r]; var kept := Kept(old_, r);
      SortedDesc(kept) && multiset(kept) <= multiset(all)
      && forall x :: x in all && x.score > kept[|kept| - 1].score ==> x in kept
  {
    var all := old_ + [r];
    var sorted := Sort(all);
    var kept := TopThree(sorted);
    SortSorted(all);
    assert sorted == kept + sorted[|kept|..];
    assert multiset(sorted) == multiset(kept) + multiset(sorted[|kept|..]);
    forall x | x in all && x.score > kept[|kept| - 1].score ensures x in kept {
      assert x in multiset(all);
      assert x in sorted;
      PrefixKeepsBetter(sorted, |kept|, x);
      assert sorted[..|kept|] == kept;
    }
  }

  /** One line of the printed table: "rank. score pts - date". */
  function ScoreLine(rank: int, r: GameRecord): (line: string)
  {
    (IntToString(rank) + ". ") + IntToString(r.score) + (" pts - " + r.GetFormattedDate())
  }

  /** A line starts with the rank and ends with the date, and the score can be read back from between them. */
  lemma ScoreLineReadsBack(rank: int, r: GameRecord)
    ensures var line := ScoreLine(rank, r);
      StartsWith(line, IntToString(rank) + ". ") && EndsWith(line, " pts - " + r.GetFormattedDate())
      && |line| > |IntToString(rank) + ". "| + |" pts - " + r.GetFormattedDate()|
      && var digits := line[|IntToString(rank) + ". "|..|line| - |" pts - " + r.GetFormattedDate()|];
         IsNumeral(digits) && ParseInt(digits) == r.score
  {
    FramedNumber(IntToString(rank) + ". ", r.score, " pts - " + r.GetFormattedDate());
  }

  /** The list a table holds for a game; a game never scored has none. */
  function RecordsOf(table: map<string, seq<GameRecord>>, gameName: string): (s: seq<GameRecord>)
    ensures gameName !in table ==> s == []
    ensures gameName in table ==> s == table[gameName]
  {
    if gameName in table then table[gameName] else []
  }

  /** The table after `updateScore`: the game's list is replaced, every other game keeps its list. */
  function UpdatedTable(table: map<string, seq<GameRecord>>, gameName: string, score: int, now: Date): (t: map<string, seq<GameRecord>>)
    ensures t.Keys == table.Keys + {gameName}
    ensures forall n :: n in table && n != gameName ==> t[n] == table[n]
    ensures t[gameName] == Kept(RecordsOf(table, gameName), GameRecord(Some(gameName), score, Some(now)))
  {
    table[gameName := Kept(RecordsOf(table, gameName), GameRecord(Some(gameName), score, Some(now)))]
  }

  const NoRecords: string := "No hay records a\U{00FA}n"

  class ScoreManager {
    /** The table in memory. */
    var gameRecords: map<string, seq<GameRecord>>
    /** The table as last written to the scores file. */
    var stored: map<string, seq<GameRecord>>

    /** An empty table; reading the scores file is not modelled. */
    constructor ()
      ensures gameRecords == map[] && stored == map[]
    {
      gameRecords := map[];
      stored := map[];
    }

    /** `getTopScores`: a game never scored has an empty list. */
    function GetTopScores(gameName: string): (s: seq<GameRecord>)
      reads this
      ensures gameName !in gameRecords ==> s == []
      ensures gameName in gameRecords ==> s == gameRecords[gameName]
    {
      if gameName in gameRecords then gameRecords[gameName] else []
    }

    /**
     * `updateScore`: a new record for (gameName, score, now) is appended, the
     * list sorted and cut to three; other games keep their lists. Writing the
     * file comes after the update, and when the write fails the exception is
     * caught, so the table in memory is updated either way.
     */
    method UpdateScore(gameName: string, score: int, now: Date, saveSucceeds: bool)
      modifies this
      ensures gameRecords == UpdatedTable(old(gameRecords), gameName, score, now)
      ensures |gameRecords[gameName]| <= MaxRecords && SortedDesc(gameRecords[gameName])
      ensures saveSucceeds ==> stored == gameRecords
      ensures !saveSucceeds ==> stored == old(stored)
    {
      var records := GetTopScores(gameName);
      assert records == RecordsOf(gameRecords, gameName);
      var newRecord := GameRecord(Some(gameName), score, Some(now));
      KeptRecords(records, newRecord);
      ghost var kept := Kept(records, newRecord);
      records := records + [newRecord];
      records := Sort(records);
      if |records| > MaxRecords {
        records := records[..MaxRecords];
      }
      assert records == kept;
      gameRecords := gameRecords[gameName := records];
      if saveSucceeds {
        stored := gameRecords;
      }
    }

    /**
     * `getTopScoresAsStrings`: the single "no records" line for an empty list,
     * otherwise one line per record, numbered from 1 in list order.
     */
    method GetTopScoresAsStrings(gameName: string) returns (lines: seq<string>)
      ensures GetTopScores(gameName) == [] ==> lines == [NoRecords]
      ensures GetTopScores(gameName) != [] ==>
        |lines| == |GetTopScores(gameName)|
        && forall i :: 0 <= i < |lines| ==> lines[i] == ScoreLine(i + 1, GetTopScores(gameName)[i])
    {
      var records := GetTopScores(gameName);
      lines := [];
      if records == [] {
        lines := lines + [NoRecords];
        return;
      }
      for i := 0 to |records|
        invariant |lines| == i
        invariant forall j :: 0 <= j < i ==> lines[j] == ScoreLine(j + 1, records[j])
      {
        lines := lines + [ScoreLine(i + 1, records[i])];
      }
    }
  }
}
