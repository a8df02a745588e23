/** Build numbers of calendar versions: the floors that a version string stands for. */
module SparkleBuild {
  import opened Text
  import opened Decimal

  datatype Floors = Floors(dateKey: nat, legacyFloor: nat, laneFloor: nat, lane: nat)

  /** A version `year.month.day` with the lane that its suffix selects. */
  datatype Version = Version(year: nat, month: nat, day: nat, lane: nat)

  /** `String(n).padStart(2, "0")`. */
  function Pad2(n: nat): (s: string)
    ensures Digits(s)
  {
    if n < 10 then "0" + Dec(n) else Dec(n)
  }

  lemma Pad2Law(n: nat)
    requires n < 100
    ensures |Pad2(n)| == 2 && ParseDec(Pad2(n)) == n
  {
    ParseDecOfDec(n);
    if n < 10 {
      ParseDecConcat("0", Dec(n));
      assert "0"[..0] == "";
    }
  }

  // ---------- sparkleBuildFloorsFromShortVersion ----------

  /** How many leading digits there are, up to `max`. */
  function LeadingDigits(s: string, max: nat): (n: nat)
    ensures n <= max && n <= |s| && Digits(s[..n])
    ensures n < max && n < |s| ==> !IsDigit(s[n])
  {
    if max == 0 || s == "" || !IsDigit(s[0]) then 0 else 1 + LeadingDigits(s[1..], max - 1)
  }

  /** The start of the digits that end the string. */
  function TrailingDigits(s: string): (n: nat)
    ensures n <= |s| && Digits(s[n..])
    ensures n > 0 ==> !IsDigit(s[n - 1])
  {
    if s == "" || !IsDigit(s[|s| - 1]) then |s|
    else
      var n := TrailingDigits(s[..|s| - 1]);
      assert s[n..] == s[..|s| - 1][n..] + [s[|s| - 1]];
      n
  }

  predicate IsLineEnd(c: char) {
    c == '\n' || c == '\r' || c == '\U{2028}' || c == '\U{2029}'
  }

  /** The optional suffix of the pattern: nothing, or a dot or dash and no line end. */
  predicate IsSuffix(s: string) {
    s == "" || ((s[0] == '.' || s[0] == '-') && forall c <- s[1..] :: !IsLineEnd(c))
  }

  function LaneOf(suffix: string): nat {
    if suffix == "" then 90
    else
      var digits := suffix[TrailingDigits(suffix)..];
      if digits == "" then 1 else if ParseDec(digits) < 89 then ParseDec(digits) else 89
  }

  /** A run of digits before a dot, and what follows the dot. */
  function DotField(s: string, min: nat, max: nat): (r: Option<(string, string)>)
    ensures r.Some? ==> Digits(r.value.0) && min <= |r.value.0| <= max
  {
    var n := LeadingDigits(s, max);
    if n < min || n == |s| || s[n] != '.' then None else Some((s[..n], s[n + 1..]))
  }

  /** The day and the suffix at the end of a version. */
  function DayField(s: string): (r: Option<(string, string)>)
    ensures r.Some? ==> Digits(r.value.0)
  {
    var n := LeadingDigits(s, 2);
    if n == 0 || !IsSuffix(s[n..]) then None else Some((s[..n], s[n..]))
  }

  /** The version in a trimmed string, if it has the calendar form and a possible date. */
  function ReadVersion(s: string): Option<Version> {
    match DotField(s, 4, 4)
    case None => None
    case Some((year, afterYear)) =>
      match DotField(afterYear, 1, 2)
      case None => None
      case Some((month, afterMonth)) =>
        match DayField(afterMonth)
        case None => None
        case Some((day, suffix)) =>
          if ParseDec(month) < 1 || ParseDec(month) > 12 || ParseDec(day) < 1 || ParseDec(day) > 31 then None
          else Some(Version(ParseDec(year), ParseDec(month), ParseDec(day), LaneOf(suffix)))
  }

  /** The numbers, put together as decimal strings. */
  function FloorsOf(v: Version): Floors {
    var dateKey := ParseDec(Dec(v.year) + Pad2(v.month) + Pad2(v.day));
    Floors(dateKey, ParseDec(Dec(dateKey) + "0"), ParseDec(Dec(dateKey) + Pad2(v.lane)), v.lane)
  }

  function SparkleBuildFloors(shortVersion: string): Option<Floors> {
    match ReadVersion(Trim(shortVersion))
    case None => None
    case Some(v) => Some(FloorsOf(v))
  }

  // ---------- what the numbers mean ----------

  predicate Possible(v: Version) {
    v.year <= 9999 && 1 <= v.month <= 12 && 1 <= v.day <= 31 && v.lane <= 90
  }

  lemma ReadIsPossible(s: string)
    ensures ReadVersion(s).Some? ==> Possible(ReadVersion(s).value)
  {
    if ReadVersion(s).Some? {
      ParseDecBelow(DotField(s, 4, 4).value.0);
      Pow10Small();
    }
  }

  /** A suffix never selects the lane of a version without one. */
  lemma SuffixStaysBelow(suffix: string)
    ensures LaneOf(suffix) == 90 <==> suffix == ""
    ensures suffix != "" ==> LaneOf(suffix) <= 89
  {
  }

  /** The decimal strings are the numbers one expects. */
  lemma FloorsArithmetic(v: Version)
    requires Possible(v)
    ensures var f := FloorsOf(v);
            && f.dateKey == v.year * 10000 + v.month * 100 + v.day
            && f.legacyFloor == f.dateKey * 10
            && f.laneFloor == f.dateKey * 100 + v.lane
  {
    var y, m, d := Dec(v.year), Pad2(v.month), Pad2(v.day);
    Pow10Small();
    ParseDecOfDec(v.year);
    Pad2Law(v.month);
    Pad2Law(v.day);
    Pad2Law(v.lane);
    ParseDecConcat(y, m);
    ParseDecConcat(y + m, d);
    var key := ParseDec(y + m + d);
    ParseDecOfDec(key);
    ParseDecConcat(Dec(key), "0");
    ParseDecConcat(Dec(key), Pad2(v.lane));
    assert "0"[..0] == "";
  }

  predicate Before(a: Version, b: Version) {
    a.year < b.year || (a.year == b.year && (a.month < b.month || (a.month == b.month &&
      (a.day < b.day || (a.day == b.day && a.lane < b.lane)))))
  }

  /** Lane floors compare exactly as versions do and decode back to them. */
  lemma LaneFloorsEmbedVersions(a: Version, b: Version)
    requires Possible(a) && Possible(b)
    ensures FloorsOf(a).laneFloor < FloorsOf(b).laneFloor <==> Before(a, b)
    ensures var n := FloorsOf(a).laneFloor;
            a == Version(n / 1000000, n / 10000 % 100, n / 100 % 100, n % 100)
  {
    FloorsArithmetic(a);
    FloorsArithmetic(b);
    Decode(a);
  }

  lemma Decode(v: Version)
    requires Possible(v)
    ensures var n := (v.year * 10000 + v.month * 100 + v.day) * 100 + v.lane;
            v == Version(n / 1000000, n / 10000 % 100, n / 100 % 100, n % 100)
  {
    var key := v.year * 10000 + v.month * 100 + v.day;
    var n := key * 100 + v.lane;
    assert n / 100 == key && n % 100 == v.lane;
    assert key % 100 == v.day;
    assert n / 10000 == v.year * 100 + v.month;
    assert (v.year * 100 + v.month) % 100 == v.month;
    assert n / 1000000 == v.year;
  }

  /** The two numbering lanes are disjoint for years with four digits: a lane floor
      reaches the threshold exactly from the year 1000 on, a legacy floor never. */
  lemma LanesDisjoint(v: Version)
    requires Possible(v)
    ensures FloorsOf(v).legacyFloor < 1_000_000_000
    ensures FloorsOf(v).laneFloor >= 1_000_000_000 <==> v.year >= 1000
    ensures FloorsOf(v).legacyFloor <= FloorsOf(v).laneFloor
  {
    FloorsArithmetic(v);
  }

  lemma {:induction false} LeadingOf(digits: string, rest: string, max: nat)
    requires Digits(digits) && |digits| <= max
    requires |digits| < max && rest != "" ==> !IsDigit(rest[0])
    ensures LeadingDigits(digits + rest, max) == |digits|
  {
    if digits != "" {
      assert (digits + rest)[1..] == digits[1..] + rest;
      LeadingOf(digits[1..], rest, max - 1);
    } else {
      assert digits + rest == rest;
    }
  }

  lemma DotFieldOf(digits: string, rest: string, min: nat, max: nat)
    requires Digits(digits) && min <= |digits| <= max
    ensures DotField(digits + "." + rest, min, max) == Some((digits, rest))
  {
    LeadingOf(digits, "." + rest, max);
    assert digits + "." + rest == digits + ("." + rest);
    assert (digits + "." + rest)[|digits| + 1..] == rest;
  }

  lemma DayFieldOf(digits: string, suffix: string)
    requires Digits(digits) && 1 <= |digits| <= 2 && IsSuffix(suffix)
    ensures DayField(digits + suffix) == Some((digits, suffix))
  {
    LeadingOf(digits, suffix, 2);
    assert (digits + suffix)[|digits|..] == suffix;
  }

  /** Reading back a version that is written out: four year digits, one or two month and
      day digits, and a suffix. */
  lemma ReadsWhatIsWritten(year: string, month: string, day: string, suffix: string)
    requires Digits(year) && |year| == 4
    requires Digits(month) && 1 <= |month| <= 2 && 1 <= ParseDec(month) <= 12
    requires Digits(day) && 1 <= |day| <= 2 && 1 <= ParseDec(day) <= 31
    requires suffix == "" || suffix[0] == '.' || suffix[0] == '-'
    requires forall c <- suffix :: c != '\n' && c != '\r' && c != '\U{2028}' && c != '\U{2029}'
    ensures ReadVersion(year + "." + (month + "." + (day + suffix)))
         == Some(Version(ParseDec(year), ParseDec(month), ParseDec(day), LaneOf(suffix)))
  {
    SuffixMeans(suffix);
    DotFieldOf(year, month + "." + (day + suffix), 4, 4);
    DotFieldOf(month, day + suffix, 1, 2);
    DayFieldOf(day, suffix);
  }

  lemma DotFieldParts(s: string, min: nat, max: nat)
    requires DotField(s, min, max).Some?
    ensures s == DotField(s, min, max).value.0 + "." + DotField(s, min, max).value.1
  {
  }

  lemma DayFieldParts(s: string)
    requires DayField(s).Some?
    ensures var (day, suffix) := DayField(s).value;
            s == day + suffix && Digits(day) && 1 <= |day| <= 2 && IsSuffix(suffix)
  {
  }

  /** Nothing else is read: the string is such a version with these numbers. */
  lemma ReadsOnlyWritten(s: string) returns (year: string, month: string, day: string, suffix: string)
    requires ReadVersion(s).Some?
    ensures s == year + "." + (month + "." + (day + suffix))
    ensures Digits(year) && |year| == 4
    ensures Digits(month) && 1 <= |month| <= 2 && 1 <= ParseDec(month) <= 12
    ensures Digits(day) && 1 <= |day| <= 2 && 1 <= ParseDec(day) <= 31
    ensures suffix == "" || suffix[0] == '.' || suffix[0] == '-'
    ensures forall c <- suffix :: c != '\n' && c != '\r' && c != '\U{2028}' && c != '\U{2029}'
  {
    hide ParseDec, Digits, IsSuffix, LaneOf;
    DotFieldParts(s, 4, 4);
    year := DotField(s, 4, 4).value.0;
    var afterYear := DotField(s, 4, 4).value.1;
    DotFieldParts(afterYear, 1, 2);
    month := DotField(afterYear, 1, 2).value.0;
    var afterMonth := DotField(afterYear, 1, 2).value.1;
    DayFieldParts(afterMonth);
    day, suffix := DayField(afterMonth).value.0, DayField(afterMonth).value.1;
    SuffixMeans(suffix);
  }

  lemma SuffixMeans(suffix: string)
    ensures IsSuffix(suffix) <==>
              && (suffix == "" || suffix[0] == '.' || suffix[0] == '-')
              && forall c <- suffix :: c != '\n' && c != '\r' && c != '\U{2028}' && c != '\U{2029}'
  {
    if suffix != "" {
      assert suffix == [suffix[0]] + suffix[1..];
      assert forall c :: c in suffix <==> c == suffix[0] || c in suffix[1..];
    }
  }

  /** The lane of a suffix is the number at its end, capped at 89, or 1 without one. */
  lemma LaneIsNumber(pre: string, digits: string)
    requires pre != "" && !IsDigit(pre[|pre| - 1]) && Digits(digits)
    ensures LaneOf(pre + digits) ==
            if digits == "" then 1 else if ParseDec(digits) < 89 then ParseDec(digits) else 89
  {
    TrailingOf(pre, digits);
    assert (pre + digits)[|pre|..] == digits;
  }

  lemma {:induction false} TrailingOf(pre: string, digits: string)
    requires pre != "" ==> !IsDigit(pre[|pre| - 1])
    requires Digits(digits)
    ensures TrailingDigits(pre + digits) == |pre|
  {
    if digits == "" {
      assert pre + digits == pre;
    } else {
      TrailingOf(pre, digits[..|digits| - 1]);
      assert (pre + digits)[..|pre + digits| - 1] == pre + digits[..|digits| - 1];
    }
  }
}
