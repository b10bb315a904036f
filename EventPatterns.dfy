/**
 * The second round of pattern matching in trlog.py: the four sub-patterns that
 * classify the trailing event text of a log line, and the elapsed-seconds value
 * that the `standard` pattern captures.
 *
 * Every sub-pattern starts with `.*`, which under `re.match` may consume any
 * prefix of the text that holds no line break. The engine tries the longest
 * such prefix first and backs off one character at a time, so the match that
 * is found (and whose group is captured) is the one at the LAST reachable
 * position.
 */
module EventPatterns {
  import opened Wrappers

  /** The keys of `regexp_dict`; `Standard` lines carry an elapsed duration. */
  datatype CallClass = Excluded | Encrypted | UnknownTg | Standard

  /** The order in which `regexp_dict.items()` yields the sub-patterns. */
  const PatternOrder: seq<CallClass> := [Excluded, Encrypted, UnknownTg, Standard]

  const NotRecordingPhrase: string := "Not recording talkgroup"
  const EncryptedPhrase: string := "ENCRYPTED"
  const UnknownTgPhrase: string := "TG not in Talkgroup File"
  const ElapsedPhrase: string := "Call Elapsed:"

  /** Python's `\s` on str patterns: the characters for which `str.isspace` holds. */
  predicate IsSpace(c: char) {
    var n := c as int;
    (9 <= n <= 13) || (28 <= n <= 32) || n == 0x85 || n == 0xA0 || n == 0x1680
    || (0x2000 <= n <= 0x200A) || n == 0x2028 || n == 0x2029 || n == 0x202F
    || n == 0x205F || n == 0x3000
  }

  /** `\d`, restricted to the ASCII digits. */
  predicate IsDigit(c: char) {
    '0' <= c <= '9'
  }

  predicate StartsWith(t: string, p: string, i: nat) {
    i + |p| <= |t| && t[i..i + |p|] == p
  }

  /** How far a leading `.*` can reach: the length of the prefix before the first line break. */
  function Horizon(t: string): (h: nat)
    ensures h <= |t|
    ensures forall m :: 0 <= m < h ==> t[m] != '\n'
    ensures h < |t| ==> t[h] == '\n'
  {
    if t == [] || t[0] == '\n' then 0 else 1 + Horizon(t[1..])
  }

  /** The end of the run of `\s` characters that starts at `j`. */
  function SkipSpaces(t: string, j: nat): (k: nat)
    requires j <= |t|
    ensures j <= k <= |t|
    ensures forall m :: j <= m < k ==> IsSpace(t[m])
    ensures k < |t| ==> !IsSpace(t[k])
    decreases |t| - j
  {
    if j < |t| && IsSpace(t[j]) then SkipSpaces(t, j + 1) else j
  }

  /** The end of the run of digits that starts at `j`: what a greedy `\d+` takes. */
  function SkipDigits(t: string, j: nat): (k: nat)
    requires j <= |t|
    ensures j <= k <= |t|
    ensures forall m :: j <= m < k ==> IsDigit(t[m])
    ensures k < |t| ==> !IsDigit(t[k])
    decreases |t| - j
  {
    if j < |t| && IsDigit(t[j]) then SkipDigits(t, j + 1) else j
  }

  /**
   * Whether the part of sub-pattern `c` after its leading `.*` matches at position `i`:
   *   excluded    `(Not recording talkgroup.).*`  (the `.` needs one more character, not a line break)
   *   encrypted   `(ENCRYPTED).*`
   *   unknown_tg  `(TG not in Talkgroup File).*`
   *   standard    `Call Elapsed:\s+(\d+)`
   */
  predicate MatchesAt(c: CallClass, t: string, i: nat)
    requires i <= |t|
  {
    match c
    case Excluded =>
      StartsWith(t, NotRecordingPhrase, i)
      && i + |NotRecordingPhrase| < |t| && t[i + |NotRecordingPhrase|] != '\n'
    case Encrypted => StartsWith(t, EncryptedPhrase, i)
    case UnknownTg => StartsWith(t, UnknownTgPhrase, i)
    case Standard =>
      StartsWith(t, ElapsedPhrase, i)
      && var k := SkipSpaces(t, i + |ElapsedPhrase|);
      i + |ElapsedPhrase| < k < |t| && IsDigit(t[k])
  }

  /** Backtracking of the leading `.*`: try position `i` first, then every shorter prefix. */
  function LastMatchAt(c: CallClass, t: string, i: nat): (r: Option<nat>)
    requires i <= |t|
    ensures r.Some? ==> r.value <= i && MatchesAt(c, t, r.value)
    ensures r.Some? ==> forall j :: r.value < j <= i ==> !MatchesAt(c, t, j)
    ensures r.None? ==> forall j :: 0 <= j <= i ==> !MatchesAt(c, t, j)
  {
    if MatchesAt(c, t, i) then Some(i)
    else if i == 0 then None
    else LastMatchAt(c, t, i - 1)
  }

  /** `re.match(pattern, t)` for sub-pattern `c`: the position where its body matched, if any. */
  function MatchPosition(c: CallClass, t: string): Option<nat> {
    LastMatchAt(c, t, Horizon(t))
  }

  predicate Matches(c: CallClass, t: string) {
    MatchPosition(c, t).Some?
  }

  /** A sub-pattern matches exactly when its body matches somewhere before the first line break. */
  lemma MatchesIff(c: CallClass, t: string)
    ensures Matches(c, t) <==> exists i :: 0 <= i <= |t| && '\n' !in t[..i] && MatchesAt(c, t, i)
  {
    var h := Horizon(t);
    if Matches(c, t) {
      var p := MatchPosition(c, t).value;
      assert '\n' !in t[..p] by {
        forall m | 0 <= m < p ensures t[..p][m] != '\n' { }
      }
    } else {
      forall i | 0 <= i <= |t| && '\n' !in t[..i]
        ensures !MatchesAt(c, t, i)
      {
      }
    }
  }

  /** The position found is the last reachable one: the greedy `.*` backs off as little as it can. */
  lemma MatchPositionIsLast(c: CallClass, t: string)
    requires Matches(c, t)
    ensures var p := MatchPosition(c, t).value;
      p <= |t| && '\n' !in t[..p] && MatchesAt(c, t, p)
      && forall j :: p < j <= |t| && '\n' !in t[..j] ==> !MatchesAt(c, t, j)
  {
    var h := Horizon(t);
    var p := MatchPosition(c, t).value;
    assert '\n' !in t[..p] by {
      forall m | 0 <= m < p ensures t[..p][m] != '\n' { }
    }
    forall j | p < j <= |t| && '\n' !in t[..j]
      ensures !MatchesAt(c, t, j)
    {
    }
  }

  function DigitValue(c: char): nat
    requires IsDigit(c)
  {
    c as int - '0' as int
  }

  /** The value of a string of decimal digits, as `int` reads it (leading zeros allowed). */
  function DigitsValue(s: string): nat
    requires forall m :: 0 <= m < |s| ==> IsDigit(s[m])
  {
    if s == [] then 0
    else 10 * DigitsValue(s[..|s| - 1]) + DigitValue(s[|s| - 1])
  }

  /** The integer that the group `(\d+)` captures when the standard pattern's body matches at `i`. */
  function CapturedSeconds(t: string, i: nat): nat
    requires i <= |t| && MatchesAt(Standard, t, i)
  {
    var k := SkipSpaces(t, i + |ElapsedPhrase|);
    var e := SkipDigits(t, k);
    DigitsValue(t[k..e])
  }

  /** `int(datamatch[1])` for the standard pattern. */
  function ElapsedSeconds(t: string): nat
    requires Matches(Standard, t)
  {
    CapturedSeconds(t, MatchPosition(Standard, t).value)
  }

  /** The class of the last sub-pattern of `ps` that matches `t`. */
  function LastMatching(ps: seq<CallClass>, t: string): (r: Option<CallClass>)
    ensures r.Some? ==> r.value in ps && Matches(r.value, t)
    ensures r.None? <==> forall k :: 0 <= k < |ps| ==> !Matches(ps[k], t)
  {
    if ps == [] then None
    else if Matches(ps[|ps| - 1], t) then Some(ps[|ps| - 1])
    else
      var front := ps[..|ps| - 1];
      assert ps == front + [ps[|ps| - 1]];
      LastMatching(front, t)
  }

  /** No class of `ps` after position `k` matches `t`. */
  predicate NoneMatchAfter(ps: seq<CallClass>, k: nat, t: string) {
    forall k' :: k < k' < |ps| ==> !Matches(ps[k'], t)
  }

  /** A class that does not match can be put after a run of classes none of which match. */
  lemma NoneMatchAfterExtend(ps: seq<CallClass>, k: nat, t: string)
    requires k < |ps| - 1 && NoneMatchAfter(ps[..|ps| - 1], k, t) && !Matches(ps[|ps| - 1], t)
    ensures NoneMatchAfter(ps, k, t)
  {
    forall k' | k < k' < |ps| ensures !Matches(ps[k'], t) {
      if k' < |ps| - 1 {
        assert ps[k'] == ps[..|ps| - 1][k'];
      }
    }
  }

  /** The class found is the last one in `ps` that matches: every later class fails. */
  lemma {:induction false} LastMatchingIsLast(ps: seq<CallClass>, t: string)
    requires LastMatching(ps, t).Some?
    ensures exists k :: 0 <= k < |ps| && ps[k] == LastMatching(ps, t).value && NoneMatchAfter(ps, k, t)
  {
    var n := |ps| - 1;
    if Matches(ps[n], t) {
      assert NoneMatchAfter(ps, n, t);
    } else {
      var front := ps[..n];
      LastMatchingIsLast(front, t);
      var k :| 0 <= k < |front| && front[k] == LastMatching(front, t).value && NoneMatchAfter(front, k, t);
      NoneMatchAfterExtend(ps, k, t);
      assert ps[k] == front[k];
    }
  }

  /**
   * The class the inner loop of `parselog` leaves behind: it has no `break`,
   * so every matching sub-pattern overwrites the record and the last one wins.
   */
  function Classify(t: string): Option<CallClass> {
    LastMatching(PatternOrder, t)
  }

  /** Later sub-patterns take precedence: standard over unknown_tg over encrypted over excluded. */
  lemma ClassifyPrecedence(t: string)
    ensures Classify(t) == Some(Standard) <==> Matches(Standard, t)
    ensures Classify(t) == Some(UnknownTg) <==> Matches(UnknownTg, t) && !Matches(Standard, t)
    ensures Classify(t) == Some(Encrypted) <==>
      Matches(Encrypted, t) && !Matches(UnknownTg, t) && !Matches(Standard, t)
    ensures Classify(t) == Some(Excluded) <==>
      Matches(Excluded, t) && !Matches(Encrypted, t) && !Matches(UnknownTg, t) && !Matches(Standard, t)
    ensures Classify(t) == None <==>
      !Matches(Excluded, t) && !Matches(Encrypted, t) && !Matches(UnknownTg, t) && !Matches(Standard, t)
  {
    var ps := PatternOrder;
    assert ps[..3] == [Excluded, Encrypted, UnknownTg];
    assert ps[..3][..2] == [Excluded, Encrypted];
    assert ps[..3][..2][..1] == [Excluded];
    assert ps[..3][..2][..1][..0] == [];
    assert LastMatching([], t) == None;
    assert LastMatching([Excluded], t) == if Matches(Excluded, t) then Some(Excluded) else None;
    assert LastMatching([Excluded, Encrypted], t) ==
      if Matches(Encrypted, t) then Some(Encrypted) else LastMatching([Excluded], t);
    assert LastMatching([Excluded, Encrypted, UnknownTg], t) ==
      if Matches(UnknownTg, t) then Some(UnknownTg) else LastMatching([Excluded, Encrypted], t);
    assert Classify(t) ==
      if Matches(Standard, t) then Some(Standard) else LastMatching([Excluded, Encrypted, UnknownTg], t);
  }

  /** Standard is tried last, so a text it matches is classified standard whatever else matches. */
  lemma StandardWins(t: string)
    requires Matches(Standard, t)
    ensures Classify(t) == Some(Standard)
  {
    assert PatternOrder[|PatternOrder| - 1] == Standard;
  }

  /** The character `int` reads as the digit `d`. */
  function DigitChar(d: nat): (c: char)
    requires d < 10
    ensures IsDigit(c) && c as int - '0' as int == d
  {
    ('0' as int + d) as char
  }

  /** The decimal rendering of `n`, as the recorder writes the elapsed seconds. */
  function Decimal(n: nat): (s: string)
    ensures |s| > 0 && forall m :: 0 <= m < |s| ==> IsDigit(s[m])
  {
    if n < 10 then [DigitChar(n)] else Decimal(n / 10) + [DigitChar(n % 10)]
  }

  lemma {:induction false} DecimalRoundTrip(n: nat)
    ensures DigitsValue(Decimal(n)) == n
  {
    if n >= 10 {
      DecimalRoundTrip(n / 10);
      var s := Decimal(n / 10);
      assert (s + [DigitChar(n % 10)])[..|s|] == s;
    }
  }

  /** With no line break in `t`, a leading `.*` can reach the end. */
  lemma HorizonNoBreak(t: string)
    requires forall m :: 0 <= m < |t| ==> t[m] != '\n'
    ensures Horizon(t) == |t|
  {
  }

  /**
   * A text whose tail from `i` is "Call Elapsed:", one space and the digits `d`:
   * the standard body matches at `i` and captures `d`.
   */
  lemma ElapsedAtTail(t: string, i: nat, d: string)
    requires |d| > 0 && forall m :: 0 <= m < |d| ==> IsDigit(d[m])
    requires i + |ElapsedPhrase| + 1 + |d| == |t|
    requires t[i..i + |ElapsedPhrase|] == ElapsedPhrase
    requires t[i + |ElapsedPhrase|] == ' '
    requires t[i + |ElapsedPhrase| + 1..] == d
    ensures MatchesAt(Standard, t, i)
    ensures CapturedSeconds(t, i) == DigitsValue(d)
  {
    var e := i + |ElapsedPhrase|;
    assert t[e + 1] == d[0];
    assert SkipSpaces(t, e + 1) == e + 1;
    assert SkipSpaces(t, e) == e + 1;
    forall m | e + 1 <= m < |t|
      ensures IsDigit(t[m])
    {
      assert t[m] == t[e + 1..][m - e - 1];
    }
    assert SkipDigits(t, e + 1) == |t|;
    assert t[e + 1..|t|] == d;
  }

  /** In such a text no later position starts another "Call Elapsed:". */
  lemma NoElapsedAfter(t: string, i: nat, d: string)
    requires forall m :: 0 <= m < |d| ==> IsDigit(d[m])
    requires i + |ElapsedPhrase| + 1 + |d| == |t|
    requires t[i..i + |ElapsedPhrase|] == ElapsedPhrase
    requires t[i + |ElapsedPhrase|] == ' '
    requires t[i + |ElapsedPhrase| + 1..] == d
    ensures forall j :: i < j <= |t| ==> !MatchesAt(Standard, t, j)
  {
    var e := i + |ElapsedPhrase|;
    forall j | i < j < |t|
      ensures t[j] != 'C'
    {
      if j < e {
        assert t[j] == t[i..e][j - i] == ElapsedPhrase[j - i];
      } else if j > e {
        assert t[j] == t[e + 1..][j - e - 1] == d[j - e - 1];
      }
    }
    forall j | i < j <= |t|
      ensures !StartsWith(t, ElapsedPhrase, j)
    {
      if j + |ElapsedPhrase| <= |t| {
        assert t[j..j + |ElapsedPhrase|][0] == t[j];
      }
    }
  }

  /** A line break-free prefix, "Call Elapsed:", a space and digits: the `.*` reaches the end. */
  lemma ElapsedLineUnbroken(p: string, d: string)
    requires '\n' !in p
    requires forall m :: 0 <= m < |d| ==> IsDigit(d[m])
    ensures Horizon(p + ElapsedPhrase + " " + d) == |p + ElapsedPhrase + " " + d|
  {
    var t := p + ElapsedPhrase + " " + d;
    var i := |p|;
    var e := i + |ElapsedPhrase|;
    forall m | 0 <= m < |t| ensures t[m] != '\n' {
      if m < i {
        assert t[m] == p[m];
      } else if m < e {
        assert t[m] == ElapsedPhrase[m - i];
      } else if m > e {
        assert t[m] == d[m - e - 1];
      }
    }
    HorizonNoBreak(t);
  }

  /**
   * Round trip: whatever precedes it on the line, a closing "Call Elapsed: <n>"
   * makes the standard pattern match and capture exactly `n`.
   */
  lemma ElapsedRoundTrip(p: string, n: nat)
    requires '\n' !in p
    ensures var t := p + ElapsedPhrase + " " + Decimal(n);
      Matches(Standard, t) && ElapsedSeconds(t) == n
  {
    var d := Decimal(n);
    var t := p + ElapsedPhrase + " " + d;
    var i := |p|;
    var e := i + |ElapsedPhrase|;
    assert t[i..e] == ElapsedPhrase;
    assert t[e + 1..] == d;
    ElapsedAtTail(t, i, d);
    NoElapsedAfter(t, i, d);
    ElapsedLineUnbroken(p, d);
    assert MatchPosition(Standard, t) == Some(i);
    DecimalRoundTrip(n);
  }

  /** The bare "ENCRYPTED" marker is classified encrypted: no other sub-pattern fits in it. */
  lemma EncryptedMarkerAlone(t: string)
    requires t == EncryptedPhrase
    ensures Classify(t) == Some(Encrypted)
  {
    assert MatchesAt(Encrypted, t, 0);
    MatchesIff(Encrypted, t);
    MatchesIff(Excluded, t);
    MatchesIff(UnknownTg, t);
    MatchesIff(Standard, t);
    ClassifyPrecedence(t);
  }
}
