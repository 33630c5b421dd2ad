/** Capture dates read from file names (main.go:121-143, 199-213). Each of
    the five regular expressions is written out as the leftmost-match scan
    RE2 performs; the patterns are tried in list order and the first one that
    both matches and parses to a real date wins. */
module FilenameDates {
  import opened Text
  import opened Options
  import opened Calendar

  /** The five filename conventions, in the order they are tried:
      `DJI_(\d{8})`, `^(\d{8})_C\d+`, `(\d{8})_\d{6}`,
      `(\d{4}-\d{2}-\d{2})` and `(\d{8})`. */
  datatype Pattern = Dji | SonyClip | Timestamp | IsoDate | CompactDigits

  const DatePatterns: seq<Pattern> := [Dji, SonyClip, Timestamp, IsoDate, CompactDigits]

  /** `n` ASCII digits start at position `i`. */
  predicate DigitsAt(s: string, i: nat, n: nat) {
    i + n <= |s| && AllDigits(s[i..i + n])
  }

  /** The whole pattern matches with its first character at position `i`. */
  predicate MatchesAt(p: Pattern, s: string, i: nat) {
    match p
    case Dji => i + 12 <= |s| && s[i..i + 4] == "DJI_" && DigitsAt(s, i + 4, 8)
    case SonyClip => i == 0 && DigitsAt(s, 0, 8) && 11 <= |s| && s[8] == '_' && s[9] == 'C' && IsDigit(s[10])
    case Timestamp => DigitsAt(s, i, 8) && i + 15 <= |s| && s[i + 8] == '_' && DigitsAt(s, i + 9, 6)
    case IsoDate =>
      DigitsAt(s, i, 4) && i + 10 <= |s| && s[i + 4] == '-' && DigitsAt(s, i + 5, 2)
      && s[i + 7] == '-' && DigitsAt(s, i + 8, 2)
    case CompactDigits => DigitsAt(s, i, 8)
  }

  /** Where the capture group starts relative to the match, and its length. */
  function GroupOffset(p: Pattern): nat {
    if p == Dji then 4 else 0
  }

  function GroupLength(p: Pattern): nat {
    if p == IsoDate then 10 else 8
  }

  /** The text of capture group 1 of a match at `i`. */
  function GroupAt(p: Pattern, s: string, i: nat): (g: string)
    requires MatchesAt(p, s, i)
    ensures |g| == GroupLength(p)
    ensures p != IsoDate ==> AllDigits(g)
  {
    s[i + GroupOffset(p)..i + GroupOffset(p) + GroupLength(p)]
  }

  /** The leftmost start position at or after `i` where `p` matches. */
  function LeftmostFrom(p: Pattern, s: string, i: nat): (r: Option<nat>)
    requires i <= |s|
    ensures r.Some? ==> i <= r.value <= |s| && MatchesAt(p, s, r.value)
    ensures r.Some? ==> forall k :: i <= k < r.value ==> !MatchesAt(p, s, k)
    ensures r.None? ==> forall k :: i <= k <= |s| ==> !MatchesAt(p, s, k)
    decreases |s| - i
  {
    if MatchesAt(p, s, i) then Some(i)
    else if i == |s| then None
    else LeftmostFrom(p, s, i + 1)
  }

  /** `regex.FindStringSubmatch(s)[1]`: the group of the leftmost match. */
  function FindGroup(p: Pattern, s: string): (r: Option<string>)
  {
    match LeftmostFrom(p, s, 0)
    case None => None
    case Some(i) => Some(GroupAt(p, s, i))
  }

  /** `time.Parse` with the pattern's layout. */
  function Parse(p: Pattern, text: string): Option<Instant> {
    if p == IsoDate then ParseIso(text) else ParseCompact(text)
  }

  /** One iteration of the loop in `getDateFromFilename`: the pattern matches
      and its group parses. */
  function Attempt(p: Pattern, name: string): Option<Instant> {
    match FindGroup(p, name)
    case None => None
    case Some(g) => Parse(p, g)
  }

  /** The first pattern of `ps`, in order, whose attempt succeeds. */
  function FirstDate(ps: seq<Pattern>, name: string): Option<Instant> {
    if ps == [] then None
    else
      match Attempt(ps[0], name)
      case Some(t) => Some(t)
      case None => FirstDate(ps[1..], name)
  }

  /** `getDateFromFilename`: the date from the first of the five patterns
      that both matches and parses; None (Go's `(zero, false)`) otherwise. */
  function DateFromFilename(name: string): Option<Instant> {
    FirstDate(DatePatterns, name)
  }

  /** The result is the attempt of the first pattern that succeeds: a pattern
      that matches but does not parse falls through to the next one, and no
      later pattern is consulted once one has succeeded. */
  lemma {:induction false} FirstDateIsFirstSuccess(ps: seq<Pattern>, name: string, k: nat)
    requires k < |ps|
    requires Attempt(ps[k], name).Some?
    requires forall j :: 0 <= j < k ==> Attempt(ps[j], name).None?
    ensures FirstDate(ps, name) == Attempt(ps[k], name)
  {
    if k > 0 {
      assert Attempt(ps[0], name).None?;
      FirstDateIsFirstSuccess(ps[1..], name, k - 1);
    }
  }

  /** No date exactly when no pattern both matches and parses. */
  lemma {:induction false} FirstDateNone(ps: seq<Pattern>, name: string)
    ensures FirstDate(ps, name).None? <==> forall k :: 0 <= k < |ps| ==> Attempt(ps[k], name).None?
  {
    if ps != [] {
      FirstDateNone(ps[1..], name);
      assert forall k :: 1 <= k < |ps| ==> ps[k] == ps[1..][k - 1];
    }
  }

  /** A found date is always the attempt of some pattern of the list. */
  lemma {:induction false} FirstDateFromSomePattern(ps: seq<Pattern>, name: string)
    requires FirstDate(ps, name).Some?
    ensures exists k :: 0 <= k < |ps| && Attempt(ps[k], name) == FirstDate(ps, name)
                        && forall j :: 0 <= j < k ==> Attempt(ps[j], name).None?
  {
    if Attempt(ps[0], name).None? {
      FirstDateFromSomePattern(ps[1..], name);
      var k :| 0 <= k < |ps[1..]| && Attempt(ps[1..][k], name) == FirstDate(ps[1..], name)
        && forall j :: 0 <= j < k ==> Attempt(ps[1..][j], name).None?;
      assert Attempt(ps[k + 1], name) == FirstDate(ps, name);
      assert forall j :: 0 <= j < k + 1 ==> Attempt(ps[j], name).None? by {
        forall j | 0 <= j < k + 1 ensures Attempt(ps[j], name).None? {
          if j > 0 { assert ps[j] == ps[1..][j - 1]; }
        }
      }
    } else {
      assert Attempt(ps[0], name) == FirstDate(ps, name);
    }
  }

  /** A date read from a file name is at midnight, in a year from 0 to
      9999. */
  lemma DateFromFilenameShape(name: string)
    requires DateFromFilename(name).Some?
    ensures var t := DateFromFilename(name).value;
      0 <= t.year < 10000 && t.hour == 0 && t.minute == 0 && t.second == 0
  {
    FirstDateFromSomePattern(DatePatterns, name);
    var k :| 0 <= k < |DatePatterns| && Attempt(DatePatterns[k], name) == DateFromFilename(name);
  }

  /** "20250619" parses to 19 June 2025 under the eight-digit layout. */
  lemma ParseJune19()
    ensures ParseCompact("20250619") == Some(Midnight(2025, 6, 19))
  {
    var g := "20250619";
    assert g == ['2', '0', '2', '5', '0', '6', '1', '9'];
    assert AllDigits(g);
    assert g[..4] == "2025" && g[4..6] == "06" && g[6..] == "19";
    DecimalValue4("2025");
    DecimalValue2("06");
    DecimalValue2("19");
  }

  /** A drone file name resolves through the DJI rule to its date. */
  lemma DjiExample(name: string)
    requires name == "DJI_20250619224111_0001_D.MP4"
    ensures DateFromFilename(name) == Some(Midnight(2025, 6, 19))
  {
    var g := "20250619";
    assert name == "DJI_" + g + "224111_0001_D.MP4";
    assert g == ['2', '0', '2', '5', '0', '6', '1', '9'];
    assert name[4..12] == g && name[0..4] == "DJI_";
    assert MatchesAt(Dji, name, 0);
    assert GroupAt(Dji, name, 0) == g;
    ParseJune19();
    assert Attempt(Dji, name) == Some(Midnight(2025, 6, 19));
    FirstDateIsFirstSuccess(DatePatterns, name, 0);
  }

  /** The leftmost match is at `j` when `p` matches there and nowhere
      before. */
  lemma {:induction false} LeftmostIs(p: Pattern, s: string, i: nat, j: nat)
    requires i <= j <= |s| && MatchesAt(p, s, j)
    requires forall k :: i <= k < j ==> !MatchesAt(p, s, k)
    ensures LeftmostFrom(p, s, i) == Some(j)
    decreases j - i
  {
    if i < j {
      LeftmostIs(p, s, i + 1, j);
    }
  }

  /** In the fall-through example the DJI rule matches, at position 15, a
      group with month 99, so its attempt fails. */
  lemma DjiAttemptFails(name: string)
    requires name == "20250619_C0001_DJI_20259999.MP4"
    ensures Attempt(Dji, name).None?
  {
    var bad := "20259999";
    assert bad == ['2', '0', '2', '5', '9', '9', '9', '9'];
    assert name[15..19] == "DJI_" && name[19..27] == bad;
    assert forall k :: 0 <= k < 15 ==> name[k] != 'D';
    assert forall k :: 0 <= k < 15 ==> !MatchesAt(Dji, name, k) by {
      forall k | 0 <= k < 15 ensures !MatchesAt(Dji, name, k) {
        assert k + 4 <= |name| ==> name[k..k + 4][0] == name[k];
      }
    }
    assert MatchesAt(Dji, name, 15);
    LeftmostIs(Dji, name, 0, 15);
    assert GroupAt(Dji, name, 15) == bad;
    assert bad[4..6] == "99";
    DecimalValue2("99");
  }

  /** In the fall-through example the Sony clip rule matches at the start
      and its group is 19 June 2025. */
  lemma SonyAttemptSucceeds(name: string)
    requires name == "20250619_C0001_DJI_20259999.MP4"
    ensures Attempt(SonyClip, name) == Some(Midnight(2025, 6, 19))
  {
    var g := "20250619";
    assert g == ['2', '0', '2', '5', '0', '6', '1', '9'];
    assert AllDigits(g);
    assert name[0..8] == g && name[..8] == g;
    assert MatchesAt(SonyClip, name, 0);
    assert GroupAt(SonyClip, name, 0) == g;
    ParseJune19();
  }

  /** A DJI group that is not a date (month 99) falls through to the next
      rule: here the Sony clip rule at the start of the name. */
  lemma FallThroughExample(name: string)
    requires name == "20250619_C0001_DJI_20259999.MP4"
    ensures DateFromFilename(name) == Some(Midnight(2025, 6, 19))
  {
    DjiAttemptFails(name);
    SonyAttemptSucceeds(name);
    var ps := DatePatterns;
    assert ps[0] == Dji && ps[1] == SonyClip;
    FirstDateIsFirstSuccess(ps, name, 1);
  }
}
