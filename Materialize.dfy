/**
 * `pandasconvert` and the rest of `main` in trlog.py: `calldict` becomes a
 * frame with one row per key, rows that carry a duration get the class
 * `standard`, and the frame is sorted by call date.
 *
 * The frame is an array of records; a missing cell is `None`.
 */
module Materialize {
  import opened Wrappers
  import opened EventPatterns
  import opened CallLog

  /** The keys of a duplicate-free sequence are as many as its elements. */
  lemma {:induction false} DistinctSetSize(s: seq<int>)
    requires forall i, j :: 0 <= i < j < |s| ==> s[i] != s[j]
    ensures |set k | k in s| == |s|
  {
    if s != [] {
      var front := s[..|s| - 1];
      var x := s[|s| - 1];
      DistinctSetSize(front);
      assert (set k | k in s) == (set k | k in front) + {x};
      assert x !in (set k | k in front);
    }
  }

  lemma DictSize(d: CallDict)
    requires d.Valid()
    ensures |d.entries| == |d.order|
  {
    DistinctSetSize(d.order);
    assert d.entries.Keys == set k | k in d.order;
  }

  /** `pd.DataFrame.from_dict(calldict, orient="index")`: one row per key, in the dict's order. */
  function Frame(d: CallDict): (rows: seq<Record>)
    requires d.Valid()
    ensures |rows| == |d.entries| == |d.order|
    ensures forall i :: 0 <= i < |rows| ==> d.order[i] in d.entries && rows[i] == d.entries[d.order[i]]
    ensures forall i :: 0 <= i < |rows| ==> rows[i] in d.entries.Values
    ensures forall k :: k in d.entries ==> d.entries[k] in rows
  {
    DictSize(d);
    forall i | 0 <= i < |d.order| ensures d.order[i] in d.entries {
      assert d.order[i] in d.order;
    }
    var rows := seq(|d.order|, i requires 0 <= i < |d.order| && d.order[i] in d.entries => d.entries[d.order[i]]);
    assert forall k :: k in d.entries ==> d.entries[k] in rows by {
      forall k | k in d.entries ensures d.entries[k] in rows {
        var i :| 0 <= i < |d.order| && d.order[i] == k;
        assert rows[i] == d.entries[k];
      }
    }
    rows
  }

  /** Whether the frame has a "duration" column: some record carries a duration. */
  predicate HasDuration(rows: seq<Record>) {
    exists i :: 0 <= i < |rows| && rows[i].duration.Some?
  }

  /** `calldf.loc[calldf["duration"].notna(), "callclass"] = "standard"`, on one row. */
  function FixRow(r: Record): Record {
    if r.duration.Some? then r.(callClass := Some(Standard)) else r
  }

  function FixedUp(rows: seq<Record>): seq<Record> {
    seq(|rows|, i requires 0 <= i < |rows| => FixRow(rows[i]))
  }

  /**
   * On rows that `parselog` built, the fix-up gives every row a class, and the
   * class `standard` exactly to the rows with a duration; rows without one keep
   * their class, no other cell changes, and the row count is unchanged.
   */
  lemma FixUpClasses(rows: seq<Record>)
    requires forall i :: 0 <= i < |rows| ==> WellShaped(rows[i])
    ensures |FixedUp(rows)| == |rows|
    ensures forall i :: 0 <= i < |rows| ==>
      var f := FixedUp(rows)[i];
      && f.callClass.Some?
      && (f.callClass == Some(Standard) <==> rows[i].duration.Some?)
      && (rows[i].duration.None? ==> f == rows[i])
      && f.(callClass := rows[i].callClass) == rows[i]
  {
  }

  /**
   * `pandasconvert`: builds the frame and sets the class in place. Indexing the
   * "duration" column raises a KeyError when no record has a duration.
   */
  method PandasConvert(d: CallDict) returns (result: Result<array<Record>, LogError>)
    requires d.Valid()
    ensures result.Failure? <==> !HasDuration(Frame(d))
    ensures result.Failure? ==> result.error == MissingDurationColumn
    ensures result.Success? ==> fresh(result.value) && result.value[..] == FixedUp(Frame(d))
  {
    var rows := Frame(d);
    var frame := new Record[|rows|](i requires 0 <= i < |rows| => rows[i]);
    if !HasDuration(rows) {
      return Failure(MissingDurationColumn);
    }
    forall i | 0 <= i < frame.Length && frame[i].duration.Some? {
      frame[i] := frame[i].(callClass := Some(Standard));
    }
    assert frame[..] == FixedUp(rows);
    return Success(frame);
  }

  predicate SortedByDate(rows: seq<Record>) {
    forall i, j :: 0 <= i < j < |rows| ==> rows[i].callDate <= rows[j].callDate
  }

  /** A row no later than the first of sorted rows can go in front of them. */
  lemma SortedCons(x: Record, rows: seq<Record>)
    requires SortedByDate(rows)
    requires rows != [] ==> x.callDate <= rows[0].callDate
    ensures SortedByDate([x] + rows)
  {
    var out := [x] + rows;
    forall i, j | 0 <= i < j < |out|
      ensures out[i].callDate <= out[j].callDate
    {
      assert out[j] == rows[j - 1];
      if i == 0 {
        assert rows[0].callDate <= rows[j - 1].callDate;
      } else {
        assert out[i] == rows[i - 1];
      }
    }
  }

  /** Inserts `r` into rows sorted by date, before the first row that is not earlier. */
  function Insert(r: Record, rows: seq<Record>): (out: seq<Record>)
    requires SortedByDate(rows)
    ensures SortedByDate(out)
    ensures multiset(out) == multiset(rows) + multiset{r}
    ensures out[0] == r || (rows != [] && out[0] == rows[0])
  {
    if rows == [] || r.callDate <= rows[0].callDate then [r] + rows
    else
      var rest := Insert(r, rows[1..]);
      SortedCons(rows[0], rest);
      assert rows == [rows[0]] + rows[1..];
      [rows[0]] + rest
  }

  /** A sort by call date; pandas' own algorithm is not modelled, only its result. */
  function SortRows(rows: seq<Record>): (out: seq<Record>)
    ensures SortedByDate(out)
    ensures multiset(out) == multiset(rows)
  {
    if rows == [] then []
    else
      assert rows == rows[..|rows| - 1] + [rows[|rows| - 1]];
      Insert(rows[|rows| - 1], SortRows(rows[..|rows| - 1]))
  }

  /** `calldf.sort_values(by="calldate", inplace=True)`. */
  method SortByCallDate(a: array<Record>)
    modifies a
    ensures SortedByDate(a[..])
    ensures multiset(a[..]) == multiset(old(a[..]))
  {
    var sorted := SortRows(a[..]);
    assert |sorted| == |multiset(sorted)| == |multiset(a[..])| == a.Length;
    forall i | 0 <= i < a.Length {
      a[i] := sorted[i];
    }
    assert a[..] == sorted;
  }

  /**
   * `main` without its output: parse the log, convert to a frame, sort by call
   * date. The rows handed to `to_csv` are the fixed-up records in date order,
   * each with a class, and with the class `standard` exactly when it has a duration.
   */
  method ProcessLog(matcher: string -> HeaderMatch, lines: seq<string>) returns (result: Result<seq<Record>, LogError>)
    ensures ParseLines(matcher, lines).Success? ==> ParseLines(matcher, lines).value.Valid()
    ensures match ParseLines(matcher, lines)
      case Failure(e) => result == Failure(e)
      case Success(d) =>
        if HasDuration(Frame(d)) then
          result.Success? && SortedByDate(result.value)
          && multiset(result.value) == multiset(FixedUp(Frame(d)))
        else result == Failure(MissingDurationColumn)
    ensures result.Success? ==> forall i :: 0 <= i < |result.value| ==>
      var r := result.value[i];
      r.callClass.Some? && (r.callClass == Some(Standard) <==> r.duration.Some?)
  {
    ParseLinesWellFormed(matcher, lines);
    var parsed := ParseLog(matcher, lines);
    match parsed
    case Failure(e) =>
      return Failure(e);
    case Success(d) =>
      var converted := PandasConvert(d);
      match converted
      case Failure(e) =>
        return Failure(e);
      case Success(frame) =>
        SortByCallDate(frame);
        var rows := frame[..];
        var fixed := FixedUp(Frame(d));
        FixUpClasses(Frame(d));
        forall i | 0 <= i < |rows|
          ensures rows[i].callClass.Some? && (rows[i].callClass == Some(Standard) <==> rows[i].duration.Some?)
        {
          assert rows[i] in multiset(fixed);
          var j :| 0 <= j < |fixed| && fixed[j] == rows[i];
        }
        return Success(rows);
  }

  /** A table with one key has a frame of one row. */
  lemma SingleFrame(k: int, r: Record)
    ensures CallDict(map[k := r], [k]).Valid()
    ensures Frame(CallDict(map[k := r], [k])) == [r]
  {
  }

  /** The one-line log of an encrypted call, as `parselog` reads it. */
  lemma EncryptedOnlyParse(matcher: string -> HeaderMatch, line: string, h: Header)
    requires matcher(line) == Matched(h) && h.eventText == EncryptedPhrase
    ensures var k := CallIndex(h.timestamp);
      ParseLines(matcher, [line]) == Success(CallDict(map[k := Record(Some(Encrypted), None, h.timestamp,
        h.logLevel, h.system, h.callNumber, h.talkgroup, h.frequency)], [k]))
  {
    EncryptedMarkerAlone(h.eventText);
    var empty := CallDict(map[], []);
    assert [line][..0] == [];
    assert ParseLines(matcher, [line][..0]) == Success(empty);
    assert ParseLines(matcher, [line]) == StepLine(empty, Matched(h));
    TaggedLine(empty, h, Encrypted);
    var k := CallIndex(h.timestamp);
    var r := Record(Some(Encrypted), None, h.timestamp, h.logLevel, h.system, h.callNumber, h.talkgroup, h.frequency);
    assert Assign(empty, k, r) == CallDict(map[k := r], [k]);
  }

  /**
   * A log whose only classified line reports an encrypted call parses to one
   * record with the class encrypted, no duration, and the header's fields; the
   * frame then has no "duration" column, so `pandasconvert` raises.
   */
  lemma EncryptedOnlyLog(matcher: string -> HeaderMatch, line: string, h: Header)
    requires matcher(line) == Matched(h) && h.eventText == EncryptedPhrase
    ensures var k := CallIndex(h.timestamp);
      var d := CallDict(map[k := Record(Some(Encrypted), None, h.timestamp, h.logLevel, h.system, h.callNumber, h.talkgroup, h.frequency)], [k]);
      ParseLines(matcher, [line]) == Success(d) && d.Valid() && !HasDuration(Frame(d))
  {
    EncryptedOnlyParse(matcher, line, h);
    var k := CallIndex(h.timestamp);
    SingleFrame(k, Record(Some(Encrypted), None, h.timestamp, h.logLevel, h.system, h.callNumber, h.talkgroup, h.frequency));
  }
}
