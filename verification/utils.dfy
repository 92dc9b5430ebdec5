/** The bot's pure helpers: reading the reward amount out of a game reply,
    classifying an account for the stats panel, and splitting the uptime.
 */
module Utils {
  import opened Common
  import opened Database

  /** The currency sign that precedes a reward amount (U+0404). */
  const Currency: char := '\U{0404}'

  /** An ASCII decimal digit. */
  predicate IsDigit(c: char) {
    '0' <= c <= '9'
  }

  function DigitValue(c: char): nat
    requires IsDigit(c)
  {
    (c as int) - ('0' as int)
  }

  /** Every character of `s` is a digit. */
  predicate AllDigits(s: string) {
    forall i :: 0 <= i < |s| ==> IsDigit(s[i])
  }

  /** The longest run of digits at the start of `s` (greedy `\d+`, possibly empty). */
  function LeadingDigits(s: string): (r: string)
    ensures r <= s
    ensures AllDigits(r)
    ensures |r| < |s| ==> !IsDigit(s[|r|])
  {
    if |s| > 0 && IsDigit(s[0]) then [s[0]] + LeadingDigits(s[1..]) else []
  }

  /** The number a digit string denotes, as Python's `int()` reads it. */
  function DigitsValue(ds: string): nat
    requires AllDigits(ds)
  {
    if |ds| == 0 then 0 else 10 * DigitsValue(ds[..|ds| - 1]) + DigitValue(ds[|ds| - 1])
  }

  /** Leading zeros do not change the value: `int("007") == 7`. */
  lemma {:induction false} LeadingZeroIgnored(ds: string)
    requires AllDigits(ds)
    ensures AllDigits("0" + ds)
    ensures DigitsValue("0" + ds) == DigitsValue(ds)
  {
    var z := "0" + ds;
    if |ds| > 0 {
      assert z[..|z| - 1] == "0" + ds[..|ds| - 1];
      LeadingZeroIgnored(ds[..|ds| - 1]);
    }
  }

  /** The pattern `Є\d` matches at position `i` of `t`. */
  predicate MatchAt(t: string, i: int) {
    0 <= i && i + 1 < |t| && t[i] == Currency && IsDigit(t[i + 1])
  }

  /** Matches in the tail of `t` are the matches of `t` shifted by one. */
  lemma MatchShift(t: string)
    requires |t| > 0
    ensures forall i :: 0 <= i ==> (MatchAt(t[1..], i) <==> MatchAt(t, i + 1))
  {
  }

  /** No match of `Є\d` starts before position `i` of `t`. */
  predicate NoMatchBefore(t: string, i: int) {
    forall j :: 0 <= j < i ==> !MatchAt(t, j)
  }

  /** `re.search(r'Є(\d+)', t)` read as an integer, or 0 when nothing matches. */
  function ParseExtols(t: string): nat {
    if |t| < 2 then 0
    else if t[0] == Currency && IsDigit(t[1]) then DigitsValue(LeadingDigits(t[1..]))
    else ParseExtols(t[1..])
  }

  /** The scan finds the leftmost currency sign that is followed by a digit and
      reads the whole digit run after it; with no such sign the reward is 0. */
  lemma {:induction false} ParseExtolsSpec(t: string)
    ensures (forall i :: !MatchAt(t, i)) ==> ParseExtols(t) == 0
    ensures forall i :: MatchAt(t, i) && NoMatchBefore(t, i) ==>
      ParseExtols(t) == DigitsValue(LeadingDigits(t[i + 1..]))
  {
    if |t| < 2 {
    } else if t[0] == Currency && IsDigit(t[1]) {
      assert MatchAt(t, 0);
    } else {
      assert !MatchAt(t, 0);
      MatchShift(t);
      ParseExtolsSpec(t[1..]);
      forall i | MatchAt(t, i) && NoMatchBefore(t, i)
        ensures ParseExtols(t) == DigitsValue(LeadingDigits(t[i + 1..]))
      {
        assert i >= 1;
        assert MatchAt(t[1..], i - 1);
        assert NoMatchBefore(t[1..], i - 1) by {
          forall j | 0 <= j < i - 1
            ensures !MatchAt(t[1..], j)
          {
            assert !MatchAt(t, j + 1);
          }
        }
        assert t[1..][i..] == t[i + 1..];
      }
    }
  }

  /** The leftmost match wins: "Є5 then Є7" reads 5. */
  lemma LeftmostMatchWins()
    ensures ParseExtols("\U{0404}5 then \U{0404}7") == 5
  {
    var t := "\U{0404}5 then \U{0404}7";
    ParseExtolsSpec(t);
    assert MatchAt(t, 0);
    assert LeadingDigits(t[1..]) == "5";
  }

  /** The digit run is read to its end: "Є459x" reads 459. */
  lemma WholeDigitRunRead()
    ensures ParseExtols("\U{0404}459x") == 459
  {
    var t := "\U{0404}459x";
    ParseExtolsSpec(t);
    assert MatchAt(t, 0);
    assert t[1..] == "459x" && "459x"[1..] == "59x" && "59x"[1..] == "9x" && "9x"[1..] == "x";
    assert LeadingDigits(t[1..]) == "459";
    assert "459"[..2] == "45" && "45"[..1] == "4" && "4"[..0] == "";
    assert DigitsValue("459") == 459;
  }

  /** Leading zeros are dropped: "Є007" reads 7. */
  lemma LeadingZerosRead()
    ensures ParseExtols("\U{0404}007") == 7
  {
    var t := "\U{0404}007";
    ParseExtolsSpec(t);
    assert MatchAt(t, 0);
    assert LeadingDigits(t[1..]) == "007";
    LeadingZeroIgnored("07");
    LeadingZeroIgnored("7");
  }

  /** A sign without a digit after it does not end the search: "Є Є12" reads 12. */
  lemma BareSignSkipped()
    ensures ParseExtols("\U{0404} \U{0404}12") == 12
  {
    var t := "\U{0404} \U{0404}12";
    ParseExtolsSpec(t);
    assert !MatchAt(t, 0) && !MatchAt(t, 1) && MatchAt(t, 2);
    assert NoMatchBefore(t, 2);
    assert t[3..] == "12" && "12"[1..] == "2" && "2"[1..] == "";
    assert LeadingDigits(t[3..]) == "12";
    assert "12"[..1] == "1" && "1"[..0] == "";
  }

  /** The icon an account shows in the stats panel. */
  datatype Status = Playing | Ready | Resting

  function StatusIcon(st: Status): string {
    match st
    case Playing => "\U{3010}\U{1F7E2}\U{3011}"
    case Ready => "\U{3010}\U{1F7E1}\U{3011}"
    case Resting => "\U{3010}\U{1F534}\U{3011}"
  }

  /** Distinct statuses show distinct icons. */
  lemma StatusIconInjective(a: Status, b: Status)
    requires a != b
    ensures StatusIcon(a) != StatusIcon(b)
  {
    assert StatusIcon(a)[1] != StatusIcon(b)[1];
  }

  /** `format_status`: the account being played is shown as playing whatever its
      cooldown; any other account is ready once its cooldown has passed and
      resting before. The record is only read for an account that is not
      being played. */
  function FormatStatus(uid: UserId, active: Option<UserId>, data: map<UserId, UserRecord>, now: int): (st: Status)
    requires active == Some(uid) || uid in data
    ensures st == Playing <==> active == Some(uid)
    ensures st == Ready <==> active != Some(uid) && Eligible(data[uid], now)
    ensures st == Resting <==> active != Some(uid) && !Eligible(data[uid], now)
  {
    if active == Some(uid) then Playing
    else if Eligible(data[uid], now) then Ready
    else Resting
  }

  /** Days, hours, minutes and seconds of an elapsed time. */
  datatype Uptime = Uptime(days: int, hours: int, minutes: int, seconds: int)

  /** The uptime, split as `timedelta` and `divmod` split it. */
  ghost predicate SplitsElapsed(u: Uptime, elapsed: int) {
    && u.days * 86400 + u.hours * 3600 + u.minutes * 60 + u.seconds == elapsed
    && 0 <= u.hours < 24 && 0 <= u.minutes < 60 && 0 <= u.seconds < 60
  }

  /** `get_uptime` for an integer elapsed time `now - start`. Python's
      `timedelta` normalises with a floored day count, which for the positive
      divisor 86400 is Dafny's Euclidean division. */
  function GetUptime(now: int, start: int): (u: Uptime)
    ensures SplitsElapsed(u, now - start)
  {
    var elapsed := now - start;
    var days := elapsed / 86400;
    var rest := elapsed % 86400;
    Uptime(days, rest / 3600, rest % 3600 / 60, rest % 60)
  }

  /** The split is the only one within the bounds: reading the four numbers
      back determines the elapsed time and vice versa. */
  lemma UptimeUnique(now: int, start: int, u: Uptime)
    requires SplitsElapsed(u, now - start)
    ensures GetUptime(now, start) == u
  {
    var v := GetUptime(now, start);
    var a := u.hours * 3600 + u.minutes * 60 + u.seconds;
    var b := v.hours * 3600 + v.minutes * 60 + v.seconds;
    assert 0 <= a < 86400 && 0 <= b < 86400;
    assert u.days == v.days by {
      assert (u.days - v.days) * 86400 == b - a;
    }
    assert u.hours == v.hours by {
      assert (u.hours - v.hours) * 3600 == (v.minutes * 60 + v.seconds) - (u.minutes * 60 + u.seconds);
    }
    assert u.minutes == v.minutes by {
      assert (u.minutes - v.minutes) * 60 == v.seconds - u.seconds;
    }
  }
}
