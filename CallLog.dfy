/**
 * `parselog` in trlog.py: every log line whose header matches is classified by
 * the sub-patterns of EventPatterns, and each matching sub-pattern stores a
 * freshly built record in `calldict` under a key made from the line's
 * timestamp, truncated to whole seconds.
 *
 * Timestamps are integer microseconds since 1970-01-01 00:00:00 on the log's
 * naive clock. The header pattern and `strptime` are not modelled: the caller
 * supplies them as `matcher`.
 */
module CallLog {
  import opened Wrappers
  import opened EventPatterns

  /**
   * `datetime.min` (0001-01-01 00:00:00) on the same clock: 62 135 596 800
   * seconds before the epoch. A second is written 1_000_000 throughout, as a
   * literal, so that the verifier sees linear arithmetic.
   */
  const MinDate: int := -62_135_596_800_000_000

  /** The groups of the header pattern, converted as `parselog` converts them. */
  datatype Header = Header(
    timestamp: int,     // group 1 through strptime
    logLevel: string,   // group 2
    system: string,     // group 3
    callNumber: nat,    // int(group 4)
    talkgroup: string,  // group 5, stripped
    frequency: string,  // group 6, the text that float() reads
    eventText: string)  // group 7

  /** The outcome of `re.match(log_pattern, line)` followed by `strptime` on its first group. */
  datatype HeaderMatch = NoMatch | BadTimestamp | Matched(header: Header)

  /** The exceptions that end a run of the script. */
  datatype LogError =
    | TimestampUnparsable    // strptime raises ValueError
    | DateOutOfRange         // subtracting the elapsed seconds leaves datetime's range
    | MissingDurationColumn  // the frame has no "duration" column

  /**
   * One value of `calldict`. A record built by a `standard` match has a
   * duration and no class; every other record has a class and no duration.
   */
  datatype Record = Record(
    callClass: Option<CallClass>,
    duration: Option<nat>,
    callDate: int,
    logLevel: string,
    system: string,
    callNumber: nat,
    talkgroup: string,
    frequency: string)

  /** Exactly one of class and duration, and never the class `Standard`. */
  predicate WellShaped(r: Record) {
    r.callClass.Some? != r.duration.Some? && r.callClass != Some(Standard)
  }

  /** `calldict`: its entries, and its keys in insertion order (the order a Python dict keeps). */
  datatype CallDict = CallDict(entries: map<int, Record>, order: seq<int>) {
    ghost predicate Valid() {
      && (forall i, j :: 0 <= i < j < |order| ==> order[i] != order[j])
      && (forall k :: k in entries <==> k in order)
    }
  }

  /** `calldict[k] = r`: replaces the value at an existing key in its slot, or appends a new key. */
  function Assign(d: CallDict, k: int, r: Record): (d': CallDict)
    ensures d.Valid() ==> d'.Valid()
    ensures k in d'.entries && d'.entries[k] == r
    ensures forall k' :: k' != k ==> (k' in d'.entries <==> k' in d.entries)
    ensures forall k' :: k' != k && k' in d.entries ==> d'.entries[k'] == d.entries[k']
    ensures d.order <= d'.order
    ensures |d'.order| == if k in d.entries then |d.order| else |d.order| + 1
  {
    CallDict(d.entries[k := r], if k in d.entries then d.order else d.order + [k])
  }

  /** A second assignment to the same key leaves no trace of the first. */
  lemma AssignTwice(d: CallDict, k: int, r1: Record, r2: Record)
    ensures Assign(Assign(d, k, r1), k, r2) == Assign(d, k, r2)
  {
  }

  /**
   * `int(calldate.timestamp())`: the seconds since the epoch, truncated toward
   * zero. Only the timestamp enters the key; the talkgroup does not.
   */
  function CallIndex(ts: int): (k: int)
    ensures ts >= 0 ==> 0 <= k && k * 1_000_000 <= ts < (k + 1) * 1_000_000
    ensures ts < 0 ==> k <= 0 && (k - 1) * 1_000_000 < ts <= k * 1_000_000
  {
    if ts >= 0 then ts / 1_000_000 else -((-ts) / 1_000_000)
  }

  /** Lines stamped within the same whole second after the epoch share one key. */
  lemma SameSecondSameIndex(ts1: int, ts2: int, s: nat)
    requires s * 1_000_000 <= ts1 < (s + 1) * 1_000_000
    requires s * 1_000_000 <= ts2 < (s + 1) * 1_000_000
    ensures CallIndex(ts1) == CallIndex(ts2) == s
  {
  }

  /**
   * The record that a matching sub-pattern `c` leaves at the key: the dict
   * literal `{"callclass": c}` (for `standard`, `{"duration": seconds}` with the
   * date moved back by the elapsed seconds), then `.update` with the header fields.
   */
  function LineRecord(h: Header, c: CallClass): Result<Record, LogError>
    requires Matches(c, h.eventText)
  {
    if c == Standard then
      var seconds := ElapsedSeconds(h.eventText);
      var date := h.timestamp - seconds * 1_000_000;
      if date < MinDate then Failure(DateOutOfRange)
      else Success(Record(None, Some(seconds), date, h.logLevel, h.system, h.callNumber, h.talkgroup, h.frequency))
    else
      Success(Record(Some(c), None, h.timestamp, h.logLevel, h.system, h.callNumber, h.talkgroup, h.frequency))
  }

  /**
   * A proof aid for `StandardLine`: `LineRecord` unfolded for the standard
   * class, proved on its own to keep that lemma's proof small.
   */
  lemma StandardRecord(h: Header)
    requires Matches(Standard, h.eventText)
    ensures var s := ElapsedSeconds(h.eventText);
      var date := h.timestamp - s * 1_000_000;
      LineRecord(h, Standard) ==
        if date < MinDate then Failure(DateOutOfRange)
        else Success(Record(None, Some(s), date, h.logLevel, h.system, h.callNumber, h.talkgroup, h.frequency))
  {
  }

  /** What one pass of the outer loop of `parselog` does to `calldict`. */
  function StepLine(d: CallDict, m: HeaderMatch): Result<CallDict, LogError> {
    match m
    case NoMatch => Success(d)
    case BadTimestamp => Failure(TimestampUnparsable)
    case Matched(h) =>
      match Classify(h.eventText)
      case None => Success(d)
      case Some(c) =>
        match LineRecord(h, c)
        case Failure(e) => Failure(e)
        case Success(r) => Success(Assign(d, CallIndex(h.timestamp), r))
  }

  /** `parselog` over the lines of the log, read in order. */
  function ParseLines(matcher: string -> HeaderMatch, lines: seq<string>): Result<CallDict, LogError> {
    if lines == [] then Success(CallDict(map[], []))
    else
      match ParseLines(matcher, lines[..|lines| - 1])
      case Failure(e) => Failure(e)
      case Success(d) => StepLine(d, matcher(lines[|lines| - 1]))
  }

  /** An exception ends the run: no later line can undo it. */
  lemma {:induction false} FailureIsFinal(matcher: string -> HeaderMatch, lines: seq<string>, n: nat)
    requires n <= |lines| && ParseLines(matcher, lines[..n]).Failure?
    ensures ParseLines(matcher, lines) == ParseLines(matcher, lines[..n])
    decreases |lines| - n
  {
    if n < |lines| {
      var front := lines[..|lines| - 1];
      assert front[..n] == lines[..n];
      FailureIsFinal(matcher, front, n);
    } else {
      assert lines[..n] == lines;
    }
  }

  /** One more line read: the fold takes one more step from where it stood. */
  lemma ParseLinesNext(matcher: string -> HeaderMatch, lines: seq<string>, n: nat, d: CallDict)
    requires n < |lines| && ParseLines(matcher, lines[..n]) == Success(d)
    ensures ParseLines(matcher, lines[..n + 1]) == StepLine(d, matcher(lines[n]))
  {
    assert lines[..n + 1][..n] == lines[..n];
  }

  /**
   * The state of the inner loop of `parselog` after trying the first `j`
   * sub-patterns on a line: unchanged while none matched, otherwise the record
   * of the last one that matched stored at the key.
   */
  ghost predicate Scanned(before: CallDict, h: Header, j: nat, current: CallDict)
    requires j <= |PatternOrder|
  {
    var last := LastMatching(PatternOrder[..j], h.eventText);
    if last.None? then current == before
    else
      && LineRecord(h, last.value).Success?
      && current == Assign(before, CallIndex(h.timestamp), LineRecord(h, last.value).value)
  }

  /** A sub-pattern that does not match leaves the inner loop's state as it was. */
  lemma ScanMiss(before: CallDict, h: Header, j: nat, current: CallDict)
    requires j < |PatternOrder| && Scanned(before, h, j, current)
    requires !Matches(PatternOrder[j], h.eventText)
    ensures Scanned(before, h, j + 1, current)
  {
    assert PatternOrder[..j + 1] == PatternOrder[..j] + [PatternOrder[j]];
  }

  /** A sub-pattern that matches overwrites the record at the key, whatever an earlier match stored. */
  lemma ScanMatch(before: CallDict, h: Header, j: nat, current: CallDict, record: Record)
    requires j < |PatternOrder| && Scanned(before, h, j, current)
    requires Matches(PatternOrder[j], h.eventText)
    requires LineRecord(h, PatternOrder[j]) == Success(record)
    ensures Scanned(before, h, j + 1, Assign(current, CallIndex(h.timestamp), record))
  {
    assert PatternOrder[..j + 1] == PatternOrder[..j] + [PatternOrder[j]];
    var last := LastMatching(PatternOrder[..j], h.eventText);
    assert LastMatching(PatternOrder[..j + 1], h.eventText) == Some(PatternOrder[j]);
    if last.Some? {
      AssignTwice(before, CallIndex(h.timestamp), LineRecord(h, last.value).value, record);
    }
  }

  /** After all four sub-patterns the inner loop has done what `StepLine` does. */
  lemma ScanDone(before: CallDict, h: Header, current: CallDict)
    requires Scanned(before, h, |PatternOrder|, current)
    ensures StepLine(before, Matched(h)) == Success(current)
  {
    assert PatternOrder[..|PatternOrder|] == PatternOrder;
  }

  /**
   * Only a standard match can fail to build its record (its date moved back
   * before `datetime.min`), and that error ends the line and the run.
   */
  lemma StandardOutOfRange(before: CallDict, h: Header, c: CallClass)
    requires Matches(c, h.eventText) && LineRecord(h, c).Failure?
    ensures c == Standard && LineRecord(h, c) == Failure(DateOutOfRange)
    ensures StepLine(before, Matched(h)) == Failure(DateOutOfRange)
  {
    ClassifyPrecedence(h.eventText);
  }

  /**
   * The inner loop of `parselog` on a line whose header matched: tries the
   * sub-patterns in order and, with no `break`, lets every match overwrite the
   * record at the line's key.
   */
  method ScanLine(before: CallDict, h: Header) returns (result: Result<CallDict, LogError>)
    ensures result == StepLine(before, Matched(h))
  {
    var entries, order := before.entries, before.order;
    var text := h.eventText;
    var key := CallIndex(h.timestamp);
    for j := 0 to |PatternOrder|
      invariant Scanned(before, h, j, CallDict(entries, order))
    {
      var c := PatternOrder[j];
      if Matches(c, text) {
        var built := LineRecord(h, c);
        if built.Failure? {
          StandardOutOfRange(before, h, c);
          return Failure(built.error);
        }
        ScanMatch(before, h, j, CallDict(entries, order), built.value);
        if key !in entries {
          order := order + [key];
        }
        entries := entries[key := built.value];
      } else {
        ScanMiss(before, h, j, CallDict(entries, order));
      }
    }
    ScanDone(before, h, CallDict(entries, order));
    return Success(CallDict(entries, order));
  }

  /**
   * `parselog`: the outer loop reads the lines in order; a line whose header
   * matches goes through the inner loop, and an exception ends the run.
   */
  method ParseLog(matcher: string -> HeaderMatch, lines: seq<string>) returns (result: Result<CallDict, LogError>)
    ensures result == ParseLines(matcher, lines)
  {
    var entries: map<int, Record> := map[];
    var order: seq<int> := [];
    for n := 0 to |lines|
      invariant ParseLines(matcher, lines[..n]) == Success(CallDict(entries, order))
    {
      ParseLinesNext(matcher, lines, n, CallDict(entries, order));
      match matcher(lines[n])
      case NoMatch =>
      case BadTimestamp =>
        FailureIsFinal(matcher, lines, n + 1);
        return Failure(TimestampUnparsable);
      case Matched(h) =>
        var stepped := ScanLine(CallDict(entries, order), h);
        if stepped.Failure? {
          FailureIsFinal(matcher, lines, n + 1);
          return stepped;
        }
        entries, order := stepped.value.entries, stepped.value.order;
    }
    assert lines[..|lines|] == lines;
    return Success(CallDict(entries, order));
  }

  /** Every table `parselog` returns is a well-formed dict of well-shaped records. */
  lemma {:induction false} ParseLinesWellFormed(matcher: string -> HeaderMatch, lines: seq<string>)
    ensures ParseLines(matcher, lines).Success? ==>
      var d := ParseLines(matcher, lines).value;
      d.Valid() && forall k :: k in d.entries ==> WellShaped(d.entries[k])
  {
    if lines != [] {
      ParseLinesWellFormed(matcher, lines[..|lines| - 1]);
    }
  }

  /**
   * A line that fails the header pattern, or whose event text no sub-pattern
   * matches, creates and changes nothing.
   */
  lemma UnclassifiedLineIgnored(d: CallDict, m: HeaderMatch)
    requires m.NoMatch? || (m.Matched? && Classify(m.header.eventText) == None)
    ensures StepLine(d, m) == Success(d)
  {
  }

  /**
   * A classified line replaces the record at its key by one built from that
   * line alone, whatever the table held before, and leaves every other key as it was.
   */
  lemma ReplacedNotMerged(d1: CallDict, d2: CallDict, h: Header)
    requires Classify(h.eventText).Some?
    requires StepLine(d1, Matched(h)).Success?
    ensures StepLine(d2, Matched(h)).Success?
    ensures var k := CallIndex(h.timestamp);
      var e1 := StepLine(d1, Matched(h)).value.entries;
      var e2 := StepLine(d2, Matched(h)).value.entries;
      k in e1 && k in e2 && e1[k] == e2[k]
      && (forall k' :: k' != k ==> (k' in e1 <==> k' in d1.entries))
      && (forall k' :: k' != k && k' in d1.entries ==> e1[k'] == d1.entries[k'])
  {
  }

  /**
   * A line the standard pattern matches (whatever else it matches) stores the
   * captured seconds as the duration, no class, and a date moved back by the
   * duration; the run fails instead when that date falls before `datetime.min`.
   */
  lemma StandardLine(d: CallDict, h: Header)
    requires Matches(Standard, h.eventText)
    ensures var s := ElapsedSeconds(h.eventText);
      var date := h.timestamp - s * 1_000_000;
      StepLine(d, Matched(h)) ==
        if date < MinDate then Failure(DateOutOfRange)
        else Success(Assign(d, CallIndex(h.timestamp),
          Record(None, Some(s), date, h.logLevel, h.system, h.callNumber, h.talkgroup, h.frequency)))
  {
    StandardRecord(h);
    StandardWins(h.eventText);
  }

  /**
   * A line classified as excluded, encrypted or unknown_tg stores that class,
   * no duration, the line's own timestamp and the header fields.
   */
  lemma TaggedLine(d: CallDict, h: Header, c: CallClass)
    requires Classify(h.eventText) == Some(c) && c != Standard
    ensures StepLine(d, Matched(h)) == Success(Assign(d, CallIndex(h.timestamp),
      Record(Some(c), None, h.timestamp, h.logLevel, h.system, h.callNumber, h.talkgroup, h.frequency)))
  {
  }

  /**
   * Two classified lines whose timestamps truncate to the same second collide
   * on one key, whatever their talkgroups: after both, the table is exactly what
   * the second line alone would have made of it.
   */
  lemma SameSecondCollision(d: CallDict, h1: Header, h2: Header)
    requires CallIndex(h1.timestamp) == CallIndex(h2.timestamp)
    requires Classify(h1.eventText).Some? && Classify(h2.eventText).Some?
    requires StepLine(d, Matched(h1)).Success?
    ensures StepLine(StepLine(d, Matched(h1)).value, Matched(h2)) == StepLine(d, Matched(h2))
  {
    var k := CallIndex(h1.timestamp);
    var r1 := LineRecord(h1, Classify(h1.eventText).value).value;
    match LineRecord(h2, Classify(h2.eventText).value)
    case Failure(_) =>
    case Success(r2) =>
      AssignTwice(d, k, r1, r2);
  }

  /** Reading the same line a second time changes nothing more. */
  lemma StepLineIdempotent(d: CallDict, m: HeaderMatch)
    requires StepLine(d, m).Success?
    ensures StepLine(StepLine(d, m).value, m) == StepLine(d, m)
  {
    if m.Matched? && Classify(m.header.eventText).Some? {
      var h := m.header;
      var r := LineRecord(h, Classify(h.eventText).value).value;
      AssignTwice(d, CallIndex(h.timestamp), r, r);
    }
  }

  /** A clock time of day in microseconds. */
  function TimeOfDay(hours: nat, minutes: nat, seconds: nat, micros: nat): int {
    ((hours * 60 + minutes) * 60 + seconds) * 1_000_000 + micros
  }

  const SampleText: string :=
    "Concluding Recorded Call - Last Update: 4s\t" + "Recorder last write:4.72949\t" + "Call Elapsed: 12"

  /**
   * The sample line in the comment of `parselog`: logged at 12:31:45.009426
   * with "Call Elapsed: 12", the call is stored as starting at 12:31:33.009426.
   */
  lemma SampleLine(d: CallDict, day: int)
    requires day + TimeOfDay(12, 31, 33, 9426) >= MinDate
    ensures var h := Header(day + TimeOfDay(12, 31, 45, 9426), "info", "pwcp25", 126, "1007", "851.962500", SampleText);
      StepLine(d, Matched(h)) == Success(Assign(d, CallIndex(h.timestamp),
        Record(None, Some(12), day + TimeOfDay(12, 31, 33, 9426), "info", "pwcp25", 126, "1007", "851.962500")))
  {
    var p1 := "Concluding Recorded Call - Last Update: 4s\t";
    var p2 := "Recorder last write:4.72949\t";
    assert '\n' !in p1 && '\n' !in p2;
    var p := p1 + p2;
    assert Decimal(12) == "12";
    assert SampleText == p + ElapsedPhrase + " " + Decimal(12);
    ElapsedRoundTrip(p, 12);
    var h := Header(day + TimeOfDay(12, 31, 45, 9426), "info", "pwcp25", 126, "1007", "851.962500", SampleText);
    StandardLine(d, h);
  }

  /** Event text that both the excluded and the standard patterns match. */
  const ExcludedElapsedText: string := "Not recording talkgroup. Call Elapsed: 5"

  lemma ExcludedElapsedStandard()
    ensures Matches(Standard, ExcludedElapsedText) && ElapsedSeconds(ExcludedElapsedText) == 5
  {
    var p := "Not recording talkgroup. ";
    assert Decimal(5) == "5";
    assert ExcludedElapsedText == p + ElapsedPhrase + " " + Decimal(5);
    ElapsedRoundTrip(p, 5);
  }

  lemma ExcludedElapsedExcluded()
    ensures Matches(Excluded, ExcludedElapsedText)
  {
    assert MatchesAt(Excluded, ExcludedElapsedText, 0);
    MatchesIff(Excluded, ExcludedElapsedText);
  }

  /**
   * Text that both the excluded and the standard patterns match ends up with a
   * duration and no class: the standard match comes last and replaces the excluded one.
   */
  lemma ExcludedThenElapsed(d: CallDict, h: Header)
    requires h.eventText == ExcludedElapsedText
    requires h.timestamp - 5 * 1_000_000 >= MinDate
    ensures Matches(Excluded, h.eventText)
    ensures StepLine(d, Matched(h)) == Success(Assign(d, CallIndex(h.timestamp),
      Record(None, Some(5), h.timestamp - 5 * 1_000_000, h.logLevel, h.system, h.callNumber, h.talkgroup, h.frequency)))
  {
    ExcludedElapsedExcluded();
    ExcludedElapsedStandard();
    StandardLine(d, h);
  }
}
