/**
 * The leaderboard: entries ordered by average score, best first, cut to the
 * top five after every insertion, and saved as one comma-separated line per
 * entry.
 */
module Scores {
  import opened Options
  import opened JavaText
  import opened StableSort
  import opened Seqs

  datatype ScoreEntry = ScoreEntry(playerName: string, averageScore: int, totalScore: int, rounds: int)

  const MaxEntries: nat := 5

  /** Java's `/` on ints: the quotient truncated toward zero. */
  function JavaDiv(a: int, b: int): (q: int)
    requires b != 0
  {
    var m := (if a < 0 then -a else a) / (if b < 0 then -b else b);
    if (a < 0) == (b < 0) then m else -m
  }

  /** ScoreEntry.compareTo: Integer.compare(other.averageScore, this.averageScore). */
  function CompareTo(e: ScoreEntry, other: ScoreEntry): (r: int)
    ensures -1 <= r <= 1
  {
    if other.averageScore < e.averageScore then -1
    else if other.averageScore == e.averageScore then 0
    else 1
  }

  /** The sort key that puts higher averages first. */
  function DescendingAverage(e: ScoreEntry): int
  {
    -e.averageScore
  }

  /** The new entry addScore builds: the average is truncated. */
  function NewEntry(playerName: string, totalScore: int, rounds: int): ScoreEntry
    requires rounds != 0
  {
    ScoreEntry(playerName, JavaDiv(totalScore, rounds), totalScore, rounds)
  }

  /** The table after addScore: sort old entries plus the new one, keep the first five. */
  function Inserted(scores: seq<ScoreEntry>, entry: ScoreEntry): seq<ScoreEntry>
  {
    var sorted := SortBy(scores + [entry], DescendingAverage);
    if |sorted| > MaxEntries then sorted[..MaxEntries] else sorted
  }

  /** A saved line: name, average, total and rounds joined with commas. */
  function EncodeLine(e: ScoreEntry): string
  {
    e.playerName + "," + IntToString(e.averageScore) + "," + IntToString(e.totalScore) + "," + IntToString(e.rounds)
  }

  function EncodeAll(scores: seq<ScoreEntry>): (lines: seq<string>)
    ensures |lines| == |scores|
    ensures forall i :: 0 <= i < |scores| ==> lines[i] == EncodeLine(scores[i])
  {
    if |scores| == 0 then [] else EncodeAll(scores[..|scores| - 1]) + [EncodeLine(scores[|scores| - 1])]
  }

  /**
   * Reading one line: skipped unless it splits into exactly four fields; a
   * four-field line with a field that is not an int makes parseInt throw
   * NumberFormatException, which loadScores does not catch.
   */
  datatype LineResult = Skipped | Parsed(entry: ScoreEntry) | NumberFormatError

  function DecodeLine(line: string): LineResult
  {
    var parts := Split(line, ',');
    if |parts| != 4 then Skipped
    else
      match (ParseInt(parts[1]), ParseInt(parts[2]), ParseInt(parts[3]))
      case (Some(avg), Some(total), Some(rounds)) => Parsed(ScoreEntry(parts[0], avg, total, rounds))
      case _ => NumberFormatError
  }

  /** The entries of the lines read, in file order; None when a line throws. */
  function DecodeAll(lines: seq<string>): Option<seq<ScoreEntry>>
  {
    if |lines| == 0 then Some([])
    else
      match DecodeAll(lines[..|lines| - 1])
      case None => None
      case Some(prev) =>
        match DecodeLine(lines[|lines| - 1])
        case Skipped => Some(prev)
        case Parsed(e) => Some(prev + [e])
        case NumberFormatError => None
  }

  /** loadScores: decode every line, then sort (no cut to five here). */
  function LoadScores(lines: seq<string>): Option<seq<ScoreEntry>>
  {
    match DecodeAll(lines)
    case None => None
    case Some(entries) => Some(SortBy(entries, DescendingAverage))
  }

  class ScoreTable {
    var scores: seq<ScoreEntry>

    /**
     * Loads the saved lines (an absent file reads as no lines). A file with a
     * non-numeric field makes the Java constructor throw, so it is excluded.
     */
    constructor (savedLines: seq<string>)
      requires LoadScores(savedLines).Some?
      ensures scores == LoadScores(savedLines).value
      ensures SortedBy(scores, DescendingAverage)
    {
      scores := LoadScores(savedLines).value;
      SortBySorted(DecodeAll(savedLines).value, DescendingAverage);
    }

    /** Inserts a game's result and returns the lines saveScores writes. */
    method AddScore(playerName: string, totalScore: int, rounds: int) returns (written: seq<string>)
      requires rounds != 0
      modifies this
      ensures scores == Inserted(old(scores), NewEntry(playerName, totalScore, rounds))
      ensures written == EncodeAll(scores)
    {
      var averageScore := JavaDiv(totalScore, rounds);
      scores := scores + [ScoreEntry(playerName, averageScore, totalScore, rounds)];
      scores := SortBy(scores, DescendingAverage);
      if |scores| > MaxEntries {
        scores := scores[..MaxEntries];
      }
      written := EncodeAll(scores);
    }
  }

  // ---------------------------------------------------------------------
  // Properties
  // ---------------------------------------------------------------------

  /** Truncating division on the game's values, and toward zero for negatives. */
  lemma JavaDivExamples()
    ensures JavaDiv(999, 3) == 333 && JavaDiv(90, 3) == 30 && JavaDiv(100, 3) == 33
    ensures JavaDiv(-7, 2) == -3 && JavaDiv(7, -2) == -3
  {
  }

  /** For non-negative totals and positive rounds the average is the floor quotient. */
  lemma JavaDivNonNegative(a: int, b: int)
    requires a >= 0 && b > 0
    ensures JavaDiv(a, b) * b <= a < (JavaDiv(a, b) + 1) * b
  {
  }

  /** compareTo orders by the sort key: negative exactly when e's average is higher. */
  lemma CompareToIsDescendingAverage(e: ScoreEntry, other: ScoreEntry)
    ensures CompareTo(e, other) < 0 <==> DescendingAverage(e) < DescendingAverage(other)
    ensures CompareTo(e, other) == 0 <==> DescendingAverage(e) == DescendingAverage(other)
    ensures CompareTo(e, other) == -CompareTo(other, e)
  {
  }

  /**
   * After addScore: averages are non-increasing, the size is the old size
   * plus one capped at five, and the entries are old ones or the new one.
   */
  lemma InsertedSpec(scores: seq<ScoreEntry>, entry: ScoreEntry)
    ensures var r := Inserted(scores, entry);
      && (forall i, j :: 0 <= i < j < |r| ==> r[i].averageScore >= r[j].averageScore)
      && |r| == (if |scores| + 1 < MaxEntries then |scores| + 1 else MaxEntries)
      && multiset(r) <= multiset(scores + [entry])
  {
    var sorted := SortBy(scores + [entry], DescendingAverage);
    SortBySorted(scores + [entry], DescendingAverage);
    SortByPermutes(scores + [entry], DescendingAverage);
    var r := Inserted(scores, entry);
    assert SortedBy(sorted, DescendingAverage);
    forall i, j | 0 <= i < j < |r| ensures r[i].averageScore >= r[j].averageScore {
      assert r[i] == sorted[i] && r[j] == sorted[j];
      assert DescendingAverage(sorted[i]) <= DescendingAverage(sorted[j]);
    }
    if |sorted| > MaxEntries {
      assert sorted == sorted[..MaxEntries] + sorted[MaxEntries..];
      assert multiset(sorted) == multiset(r) + multiset(sorted[MaxEntries..]);
    }
  }

  /**
   * On a sorted table the new entry goes after every entry with the same or a
   * higher average; so a new entry that only ties the fifth is dropped, and
   * the table is unchanged.
   */
  lemma TieWithFifthIsDropped(scores: seq<ScoreEntry>, entry: ScoreEntry)
    requires SortedBy(scores, DescendingAverage)
    requires |scores| == MaxEntries && entry.averageScore <= scores[MaxEntries - 1].averageScore
    ensures Inserted(scores, entry) == scores
  {
    SortByAppended(scores, entry, DescendingAverage);
    InsertLast(entry, scores, DescendingAverage);
    assert (scores + [entry])[..MaxEntries] == scores;
  }

  /** A new entry with a strictly higher average than the fifth is kept. */
  lemma HigherThanFifthIsKept(scores: seq<ScoreEntry>, entry: ScoreEntry)
    requires SortedBy(scores, DescendingAverage)
    requires |scores| >= MaxEntries && entry.averageScore > scores[MaxEntries - 1].averageScore
    ensures entry in Inserted(scores, entry)
  {
    SortByAppended(scores, entry, DescendingAverage);
    InsertedPosition(entry, scores, MaxEntries - 1);
  }

  lemma {:induction false} InsertedPosition(entry: ScoreEntry, s: seq<ScoreEntry>, k: nat)
    requires k < |s| && DescendingAverage(entry) < DescendingAverage(s[k])
    requires SortedBy(s, DescendingAverage)
    ensures entry in Insert(entry, s, DescendingAverage)[..k + 1]
  {
    if DescendingAverage(entry) >= DescendingAverage(s[0]) {
      assert k > 0;
      assert s[1..][k - 1] == s[k];
      InsertedPosition(entry, s[1..], k - 1);
      var t := Insert(entry, s[1..], DescendingAverage);
      assert Insert(entry, s, DescendingAverage) == [s[0]] + t;
      assert Insert(entry, s, DescendingAverage)[..k + 1] == [s[0]] + t[..k];
      assert entry in t[..k];
    } else {
      assert Insert(entry, s, DescendingAverage)[..k + 1][0] == entry;
    }
  }

  /** Adds the entries one after another, as repeated addScore calls do. */
  function InsertAll(scores: seq<ScoreEntry>, entries: seq<ScoreEntry>): seq<ScoreEntry>
    decreases |entries|
  {
    if |entries| == 0 then scores else InsertAll(Inserted(scores, entries[0]), entries[1..])
  }

  /**
   * Games finishing with strictly falling averages, added to an empty table,
   * leave exactly the first five (seven players scoring 100 down to 40 leave
   * the 100 to 60 ones).
   */
  lemma TopFiveOfDescending(es: seq<ScoreEntry>)
    requires forall i, j :: 0 <= i < j < |es| ==> es[i].averageScore > es[j].averageScore
    ensures InsertAll([], es) == es[..if |es| < MaxEntries then |es| else MaxEntries]
  {
    InsertAllFrom(es, 0);
  }

  lemma {:induction false} InsertAllFrom(es: seq<ScoreEntry>, j: nat)
    requires j <= |es|
    requires forall i, j :: 0 <= i < j < |es| ==> es[i].averageScore > es[j].averageScore
    ensures InsertAll(es[..if j < MaxEntries then j else MaxEntries], es[j..])
         == es[..if |es| < MaxEntries then |es| else MaxEntries]
    decreases |es| - j
  {
    var table := es[..if j < MaxEntries then j else MaxEntries];
    if j < |es| {
      var next := es[..if j + 1 < MaxEntries then j + 1 else MaxEntries];
      assert SortedBy(table, DescendingAverage);
      if j < MaxEntries {
        AppendLower(table, es[j]);
        assert table + [es[j]] == next;
      } else {
        TieWithFifthIsDropped(table, es[j]);
      }
      InsertAllFrom(es, j + 1);
      assert es[j..][1..] == es[j + 1..];
    } else {
      assert es[j..] == [];
    }
  }

  lemma AppendLower(s: seq<ScoreEntry>, e: ScoreEntry)
    requires |s| < MaxEntries
    requires SortedBy(s, DescendingAverage)
    requires forall i :: 0 <= i < |s| ==> s[i].averageScore > e.averageScore
    ensures Inserted(s, e) == s + [e]
  {
    SortByAppended(s, e, DescendingAverage);
    InsertLast(e, s, DescendingAverage);
  }

  // ---------------------------------------------------------------------
  // The saved line format
  // ---------------------------------------------------------------------

  /** The three numeric fields of an entry fit in a Java int. */
  predicate IntFields(e: ScoreEntry)
  {
    InInt(e.averageScore) && InInt(e.totalScore) && InInt(e.rounds)
  }

  /**
   * A saved line reads back as the same entry exactly when the name has no
   * comma; a name with a comma adds fields, and the line is skipped.
   */
  lemma DecodeEncodeLine(e: ScoreEntry)
    requires IntFields(e)
    ensures ',' !in e.playerName ==> DecodeLine(EncodeLine(e)) == Parsed(e)
    ensures ',' in e.playerName ==> DecodeLine(EncodeLine(e)) == Skipped
  {
    EncodeLineSplit(e);
    FieldsSingle(e.playerName, ',');
    if ',' !in e.playerName {
      FieldsNoSep(e.playerName, ',');
      IntToStringRoundTrip(e.averageScore);
      IntToStringRoundTrip(e.totalScore);
      IntToStringRoundTrip(e.rounds);
    }
  }

  /** A saved line splits at its commas into the name's fields and the three numbers. */
  lemma EncodeLineSplit(e: ScoreEntry)
    ensures Split(EncodeLine(e), ',')
         == Fields(e.playerName, ',') + [IntToString(e.averageScore), IntToString(e.totalScore), IntToString(e.rounds)]
  {
    var a, t, r := IntToString(e.averageScore), IntToString(e.totalScore), IntToString(e.rounds);
    var line := EncodeLine(e);
    assert line == e.playerName + [','] + (a + [','] + (t + [','] + r));
    IntToStringChars(e.averageScore, ',');
    IntToStringChars(e.totalScore, ',');
    IntToStringChars(e.rounds, ',');
    NumbersFields(a, t, r);
    FieldsAppend(e.playerName, ',', a + [','] + (t + [','] + r));
    var fs := Fields(line, ',');
    assert ',' in line by {
      assert line[|e.playerName|] == ',';
    }
    DropTrailingNonEmpty(fs);
  }

  /** Three comma-free texts joined by commas split back into those three. */
  lemma NumbersFields(a: string, t: string, r: string)
    requires ',' !in a && ',' !in t && ',' !in r
    ensures Fields(a + [','] + (t + [','] + r), ',') == [a, t, r]
  {
    FieldsAppend(a, ',', t + [','] + r);
    FieldsAppend(t, ',', r);
    FieldsNoSep(a, ',');
    FieldsNoSep(t, ',');
    FieldsNoSep(r, ',');
  }

  lemma DropTrailingNonEmpty(fs: seq<string>)
    requires |fs| > 0 && fs[|fs| - 1] != ""
    ensures DropTrailingEmpty(fs) == fs
  {
  }

  /** A string splits into one field exactly when it has no separator. */
  lemma {:induction false} FieldsSingle(s: string, sep: char)
    ensures |Fields(s, sep)| == 1 <==> sep !in s
  {
    if |s| > 0 {
      FieldsSingle(s[1..], sep);
      assert s == [s[0]] + s[1..];
    }
  }

  /** A name with a comma: its saved line comes back as five or more fields and is skipped. */
  lemma CommaInNameIsLost()
    ensures DecodeLine(EncodeLine(ScoreEntry("Smith, J", 30, 90, 3))) == Skipped
  {
    DecodeEncodeLine(ScoreEntry("Smith, J", 30, 90, 3));
  }

  /** Saving a sorted table of comma-free names and loading it back gives the same table. */
  lemma SaveThenLoad(scores: seq<ScoreEntry>)
    requires SortedBy(scores, DescendingAverage)
    requires forall i :: 0 <= i < |scores| ==> ',' !in scores[i].playerName && IntFields(scores[i])
    ensures LoadScores(EncodeAll(scores)) == Some(scores)
  {
    DecodeAllEncodeAll(scores);
    SortBySortedIsIdentity(scores, DescendingAverage);
  }

  lemma {:induction false} DecodeAllEncodeAll(scores: seq<ScoreEntry>)
    requires forall i :: 0 <= i < |scores| ==> ',' !in scores[i].playerName && IntFields(scores[i])
    ensures DecodeAll(EncodeAll(scores)) == Some(scores)
  {
    if |scores| > 0 {
      var n := |scores|;
      var init, last := scores[..n - 1], scores[n - 1];
      DecodeAllEncodeAll(init);
      DecodeEncodeLine(last);
      assert EncodeAll(scores) == EncodeAll(init) + [EncodeLine(last)];
      DecodeAllParsedLine(EncodeAll(init), EncodeLine(last), init, last);
      LastSplit(scores);
    }
  }

  /** A line that parses appends its entry to what the lines before it decoded to. */
  lemma DecodeAllParsedLine(lines: seq<string>, line: string, prev: seq<ScoreEntry>, e: ScoreEntry)
    requires DecodeAll(lines) == Some(prev) && DecodeLine(line) == Parsed(e)
    ensures DecodeAll(lines + [line]) == Some(prev + [e])
  {
    assert (lines + [line])[..|lines|] == lines;
  }
}
