/** The translation of a cron schedule into a systemd `OnCalendar=` value
    (src/agent_systemd.rs), against a meaning for each side: the instants at
    which a crontab line runs its command (the crontab utility of
    POSIX.1-2017, with steps and weekday 7 as Sunday), and the instants a
    calendar event denotes (the section "Calendar Events" of systemd.time(7)). */
module CronCalendar {
  import opened Text
  import opened Schedules

  datatype Instant = Instant(year: nat, month: nat, day: nat, hour: nat, minute: nat, second: nat, weekday: nat)

  predicate ValidInstant(t: Instant) {
    1 <= t.month <= 12 && 1 <= t.day <= 31 && t.hour < 24 && t.minute < 60 && t.second < 60 && t.weekday < 7
  }

  // ---- what a crontab line means ------------------------------------------

  /** One element of a comma-separated field, as it is spelled. */
  datatype Element =
    | Star
    | StarStep(step: string)
    | One(value: string)
    | Span(first: string, last: string)
    | SpanStep(first: string, last: string, step: string)

  predicate IsStep(s: string) {
    IsNumeral(s) && DigitsValue(s) > 0
  }

  predicate Spells(e: Element, text: string) {
    match e
    case Star => text == "*"
    case StarStep(s) => IsStep(s) && text == "*/" + s
    case One(n) => IsNumeral(n) && text == n
    case Span(a, b) => IsNumeral(a) && IsNumeral(b) && text == a + "-" + b
    case SpanStep(a, b, s) => IsNumeral(a) && IsNumeral(b) && IsStep(s) && text == a + "-" + b + "/" + s
  }

  /** The value `v` is one of low, low + step, low + 2 * step, ... up to high. */
  predicate OnSteps(v: nat, low: nat, high: nat, step: nat)
    requires step > 0
  {
    low <= v <= high && (v - low) % step == 0
  }

  predicate ElementMatches(e: Element, text: string, min: nat, max: nat, v: nat)
    requires Spells(e, text)
  {
    match e
    case Star => min <= v <= max
    case StarStep(s) => OnSteps(v, min, max, DigitsValue(s))
    case One(n) => v == DigitsValue(n)
    case Span(a, b) => DigitsValue(a) <= v <= DigitsValue(b)
    case SpanStep(a, b, s) => OnSteps(v, DigitsValue(a), DigitsValue(b), DigitsValue(s))
  }

  ghost predicate PartMatches(part: string, min: nat, max: nat, v: nat) {
    exists e :: Spells(e, part) && ElementMatches(e, part, min, max, v)
  }

  ghost predicate FieldMatches(field: string, min: nat, max: nat, v: nat) {
    exists part | part in Split(field, ',') :: PartMatches(part, min, max, v)
  }

  ghost predicate WeekdayMatches(field: string, weekday: nat) {
    FieldMatches(field, 0, 7, weekday) || (weekday == 0 && FieldMatches(field, 0, 7, 7))
  }

  /** A day field that is not `*` restricts the day. When both are restricted,
      either one selects the day; otherwise both must. */
  ghost predicate DayMatches(day: string, weekday: string, t: Instant) {
    var d, w := FieldMatches(day, 1, 31, t.day), WeekdayMatches(weekday, t.weekday);
    if day != "*" && weekday != "*" then d || w else d && w
  }

  ghost predicate FieldsFire(fields: seq<string>, t: Instant)
    requires |fields| == 5
  {
    && FieldMatches(fields[0], 0, 59, t.minute)
    && FieldMatches(fields[1], 0, 23, t.hour)
    && FieldMatches(fields[3], 1, 12, t.month)
    && DayMatches(fields[2], fields[4], t)
  }

  predicate KeywordFires(keyword: Keyword, t: Instant) {
    match keyword
    case Hourly => t.minute == 0
    case Daily => t.minute == 0 && t.hour == 0
    case Midnight => t.minute == 0 && t.hour == 0
    case Weekly => t.minute == 0 && t.hour == 0 && t.weekday == 0
    case Monthly => t.minute == 0 && t.hour == 0 && t.day == 1
    case Yearly => t.minute == 0 && t.hour == 0 && t.day == 1 && t.month == 1
    case Annually => t.minute == 0 && t.hour == 0 && t.day == 1 && t.month == 1
  }

  /** Cron looks once a minute, at its first second. */
  ghost predicate CronFires(schedule: string, t: Instant) {
    && t.second == 0
    && match AsKeyword(schedule)
       case Some(keyword) => KeywordFires(keyword, t)
       case None =>
         var fields := SplitWhitespace(schedule);
         |fields| == 5 && FieldsFire(fields, t)
  }

  // ---- what a calendar event means ----------------------------------------

  /** The weekday that a name stands for. */
  function WeekdayNamed(name: string): Option<nat> {
    if name == "Sun" then Some(0)
    else if name == "Mon" then Some(1)
    else if name == "Tue" then Some(2)
    else if name == "Wed" then Some(3)
    else if name == "Thu" then Some(4)
    else if name == "Fri" then Some(5)
    else if name == "Sat" then Some(6)
    else None
  }

  ghost predicate NamesWeekday(names: string, weekday: nat) {
    exists n | n in Split(names, ',') :: WeekdayNamed(n) == Some(weekday)
  }

  predicate IsValueOf(n: string, v: nat) {
    IsNumeral(n) && DigitsValue(n) == v
  }

  ghost predicate ComponentMatches(text: string, v: nat) {
    text == "*" || exists n | n in Split(text, ',') :: IsValueOf(n, v)
  }

  /** `YEAR-MONTH-DAY HOUR:MINUTE:SECOND`. */
  ghost predicate DateTimeMatches(date: string, time: string, t: Instant) {
    var d, c := Split(date, '-'), Split(time, ':');
    && |d| == 3 && |c| == 3
    && ComponentMatches(d[0], t.year) && ComponentMatches(d[1], t.month) && ComponentMatches(d[2], t.day)
    && ComponentMatches(c[0], t.hour) && ComponentMatches(c[1], t.minute) && ComponentMatches(c[2], t.second)
  }

  /** An optional list of weekday names, then the date and the time: all must match. */
  ghost predicate CalendarFires(text: string, t: Instant)
    requires ValidInstant(t)
  {
    var parts := Split(text, ' ');
    || (|parts| == 2 && DateTimeMatches(parts[0], parts[1], t))
    || (|parts| == 3 && NamesWeekday(parts[0], t.weekday) && DateTimeMatches(parts[1], parts[2], t))
  }

  // ---- expanding one field ------------------------------------------------

  datatype Range = Range(low: nat, high: nat, step: nat)

  predicate InRange(v: nat, r: Range) {
    r.step > 0 && OnSteps(v, r.low, r.high, r.step)
  }

  function ParseStep(part: string): Option<(string, nat)> {
    match SplitOnce(part, '/')
    case Some((range, s)) =>
      (match ParseU32(s)
       case Some(step) => if step > 0 then Some((range, step)) else None
       case None => None)
    case None => Some((part, 1))
  }

  function ParseBounds(part: string, range: string, min: nat, max: nat): Option<(nat, nat)> {
    if range == "*" then Some((min, max)) else
      match SplitOnce(range, '-')
      case Some((a, b)) =>
        (match (ParseU32(a), ParseU32(b))
         case (Some(low), Some(high)) => Some((low, high))
         case _ => None)
      case None =>
        if '/' in part then None else
          match ParseU32(range)
          case Some(v) => Some((v, v))
          case None => None
  }

  /** One pass of the loop in `expand`: the range one comma part names. */
  function ParsePart(part: string, min: nat, max: nat): (r: Option<Range>)
    ensures r.Some? ==> min <= r.value.low <= r.value.high <= max && r.value.step > 0
  {
    match ParseStep(part)
    case None => None
    case Some((range, step)) =>
      match ParseBounds(part, range, min, max)
      case None => None
      case Some((low, high)) =>
        if low < min || high > max || low > high then None else Some(Range(low, high, step))
  }

  lemma ModUnique(x: int, m: nat, q: int, r: nat)
    requires r < m && x == q * m + r
    ensures x % m == r
  {
    var d := x / m - q;
    assert x == (x / m) * m + x % m;
    assert d * m == r - x % m;
    assert d >= 1 ==> d * m >= m;
    assert d <= -1 ==> d * m <= -1 * m;
  }

  lemma OnStepsNext(v: nat, low: nat, high: nat, step: nat)
    requires step > 0 && low <= high
    ensures OnSteps(v, low, high, step) <==> v == low || OnSteps(v, low + step, high, step)
  {
    var x := v - low;
    if low < v < low + step {
      ModUnique(x, step, 0, x);
    } else if low + step <= v {
      assert x == (x / step) * step + x % step;
      ModUnique(x - step, step, x / step - 1, x % step);
    }
  }

  /** `(low..=high).step_by(step)`. */
  function StepBy(low: nat, high: nat, step: nat): seq<nat>
    requires step > 0
    decreases high - low
  {
    if low > high then [] else [low] + StepBy(low + step, high, step)
  }

  lemma {:induction false} StepByMembers(low: nat, high: nat, step: nat, v: nat)
    requires step > 0
    ensures v in StepBy(low, high, step) <==> OnSteps(v, low, high, step)
    decreases high - low
  {
    if low <= high {
      OnStepsNext(v, low, high, step);
      StepByMembers(low + step, high, step, v);
    }
  }

  predicate Ascending(s: seq<nat>) {
    forall i, j | 0 <= i < j < |s| :: s[i] <= s[j]
  }

  predicate StrictlyAscending(s: seq<nat>) {
    forall i, j | 0 <= i < j < |s| :: s[i] < s[j]
  }

  function Insert(v: nat, s: seq<nat>): (r: seq<nat>)
    requires Ascending(s)
    ensures Ascending(r) && forall x :: x in r <==> x == v || x in s
  {
    if s == [] || v <= s[0] then [v] + s else
      assert s == [s[0]] + s[1..];
      var t := Insert(v, s[1..]);
      assert forall i | 0 <= i < |t| :: t[i] in t;
      [s[0]] + t
  }

  /** `sort_unstable`. */
  function Sort(s: seq<nat>): (r: seq<nat>)
    ensures Ascending(r) && forall x :: x in r <==> x in s
  {
    if s == [] then [] else
      assert s == [s[0]] + s[1..];
      Insert(s[0], Sort(s[1..]))
  }

  /** `dedup`: drops elements equal to their predecessor. */
  function Dedup(s: seq<nat>): (r: seq<nat>)
    requires Ascending(s)
    ensures StrictlyAscending(r)
    ensures forall v :: v in r <==> v in s
  {
    if |s| < 2 then s
    else if s[0] == s[1] then
      assert s == [s[0]] + s[1..];
      Dedup(s[1..])
    else
      assert s == [s[0]] + s[1..];
      var t := Dedup(s[1..]);
      assert forall i | 0 <= i < |t| :: t[i] in s[1..];
      [s[0]] + t
  }

  ghost predicate InParts(v: nat, parts: seq<string>, min: nat, max: nat) {
    exists part | part in parts :: ParsePart(part, min, max).Some? && InRange(v, ParsePart(part, min, max).value)
  }

  /** `expand`. */
  method Expand(field: string, min: nat, max: nat) returns (r: Option<seq<nat>>)
    ensures r.Some? <==> forall part | part in Split(field, ',') :: ParsePart(part, min, max).Some?
    ensures r.Some? ==> StrictlyAscending(r.value)
    ensures r.Some? ==> forall v | v in r.value :: min <= v <= max
    ensures r.Some? ==> forall v: nat :: v in r.value <==> InParts(v, Split(field, ','), min, max)
  {
    var values: seq<nat> := [];
    var parts := Split(field, ',');
    for i := 0 to |parts|
      invariant forall part | part in parts[..i] :: ParsePart(part, min, max).Some?
      invariant forall v: nat :: v in values <==> InParts(v, parts[..i], min, max)
    {
      assert parts[..i + 1] == parts[..i] + [parts[i]];
      match ParsePart(parts[i], min, max) {
        case None => return None;
        case Some(range) =>
          forall v: nat ensures v in StepBy(range.low, range.high, range.step) <==> InRange(v, range) {
            StepByMembers(range.low, range.high, range.step, v);
          }
          values := values + StepBy(range.low, range.high, range.step);
      }
    }
    assert parts[..|parts|] == parts;
    r := Some(Dedup(Sort(values)));
  }

  // ---- a field's ranges are its meaning -----------------------------------

  /** The numbers of the element fit the field and 32 bits. */
  predicate ElementInBounds(e: Element, text: string, min: nat, max: nat)
    requires Spells(e, text)
  {
    match e
    case Star => true
    case StarStep(s) => DigitsValue(s) <= U32_MAX
    case One(n) => min <= DigitsValue(n) <= max
    case Span(a, b) => min <= DigitsValue(a) <= DigitsValue(b) <= max
    case SpanStep(a, b, s) => min <= DigitsValue(a) <= DigitsValue(b) <= max && DigitsValue(s) <= U32_MAX
  }

  function ElementRange(e: Element, text: string, min: nat, max: nat): Range
    requires Spells(e, text)
  {
    match e
    case Star => Range(min, max, 1)
    case StarStep(s) => Range(min, max, DigitsValue(s))
    case One(n) => Range(DigitsValue(n), DigitsValue(n), 1)
    case Span(a, b) => Range(DigitsValue(a), DigitsValue(b), 1)
    case SpanStep(a, b, s) => Range(DigitsValue(a), DigitsValue(b), DigitsValue(s))
  }

  lemma NumeralChars(n: string)
    requires IsNumeral(n)
    ensures '/' !in n && '-' !in n && '+' !in n && n != "*"
  {
    assert n[0] in n;
  }

  lemma NumeralValue(n: string)
    requires IsNumeral(n)
    ensures ParseU32(n) == if DigitsValue(n) <= U32_MAX then Some(DigitsValue(n)) else None
  {
  }

  lemma ParseSpelledStep(range: string, s: string)
    requires '/' !in range && IsStep(s)
    ensures ParseStep(range + "/" + s) == if DigitsValue(s) <= U32_MAX then Some((range, DigitsValue(s))) else None
  {
    SplitOnceAt(range, '/', s);
    NumeralValue(s);
  }

  lemma ParseSpelledSpan(part: string, a: string, b: string, min: nat, max: nat)
    requires IsNumeral(a) && IsNumeral(b)
    ensures '/' !in a + "-" + b
    ensures ParseBounds(part, a + "-" + b, min, max) ==
            if DigitsValue(a) <= U32_MAX && DigitsValue(b) <= U32_MAX then Some((DigitsValue(a), DigitsValue(b))) else None
  {
    NumeralChars(a);
    NumeralChars(b);
    NumeralValue(a);
    NumeralValue(b);
    SplitOnceAt(a, '-', b);
  }

  lemma ParseUnstepped(e: Element, part: string, min: nat, max: nat)
    requires Spells(e, part) && (e.Star? || e.One? || e.Span?) && min <= max <= U32_MAX
    ensures ParsePart(part, min, max) ==
            if ElementInBounds(e, part, min, max) then Some(ElementRange(e, part, min, max)) else None
  {
    match e
    case Star =>
    case One(n) =>
      NumeralChars(n);
      NumeralValue(n);
    case Span(a, b) =>
      ParseSpelledSpan(part, a, b, min, max);
  }

  /** Reading a spelled element gives its range, exactly when its numbers fit. */
  lemma ParseSpelled(e: Element, part: string, min: nat, max: nat)
    requires Spells(e, part) && min <= max <= U32_MAX
    ensures ParsePart(part, min, max) ==
            if ElementInBounds(e, part, min, max) then Some(ElementRange(e, part, min, max)) else None
  {
    match e
    case StarStep(s) =>
      assert part == "*" + "/" + s;
      ParseSpelledStep("*", s);
    case SpanStep(a, b, s) =>
      ParseSpelledSpan(part, a, b, min, max);
      ParseSpelledStep(a + "-" + b, s);
    case _ =>
      ParseUnstepped(e, part, min, max);
  }

  /** Whatever is read was spelled by an element. */
  lemma SpellingOf(part: string, min: nat, max: nat) returns (e: Element)
    requires '+' !in part
    requires ParsePart(part, min, max).Some?
    ensures Spells(e, part)
  {
    var (range, step) := ParseStep(part).value;
    var slashed := SplitOnce(part, '/');
    var dashed := SplitOnce(range, '-');
    if slashed.None? {
      e := if range == "*" then Star
      else if dashed.Some? then Span(dashed.value.0, dashed.value.1)
      else One(range);
    } else {
      assert '+' !in range && '+' !in slashed.value.1;
      e := if range == "*" then StarStep(slashed.value.1)
      else SpanStep(dashed.value.0, dashed.value.1, slashed.value.1);
    }
  }

  lemma PartMeaning(part: string, min: nat, max: nat, v: nat)
    requires '+' !in part && min <= max <= U32_MAX
    requires ParsePart(part, min, max).Some?
    ensures PartMatches(part, min, max, v) <==> InRange(v, ParsePart(part, min, max).value)
  {
    var e := SpellingOf(part, min, max);
    ParseSpelled(e, part, min, max);
    forall e' | Spells(e', part)
      ensures ElementMatches(e', part, min, max, v) <==> InRange(v, ParsePart(part, min, max).value)
    {
      ParseSpelled(e', part, min, max);
    }
  }

  /** Every part of the field is a number, a range or `*`, with an optional
      step, whose numbers fit the field. */
  ghost predicate Numeric(field: string, min: nat, max: nat) {
    forall part | part in Split(field, ',') :: exists e :: Spells(e, part) && ElementInBounds(e, part, min, max)
  }

  lemma {:induction false} SplitChars(s: string, c: char, part: string, d: char)
    requires part in Split(s, c) && d in part
    ensures d in s
    decreases |s|
  {
    var i := IndexOf(s, c);
    if i < |s| && part != s[..i] {
      SplitChars(s[i + 1..], c, part, d);
    }
  }

  lemma FieldMeaning(field: string, min: nat, max: nat)
    requires '+' !in field && min <= max <= U32_MAX
    ensures Numeric(field, min, max) <==> forall part | part in Split(field, ',') :: ParsePart(part, min, max).Some?
    ensures Numeric(field, min, max) ==>
              forall v: nat :: FieldMatches(field, min, max, v) <==> InParts(v, Split(field, ','), min, max)
  {
    forall part | part in Split(field, ',')
      ensures ParsePart(part, min, max).Some? <==> exists e :: Spells(e, part) && ElementInBounds(e, part, min, max)
      ensures ParsePart(part, min, max).Some? ==>
                forall v: nat :: PartMatches(part, min, max, v) <==> InRange(v, ParsePart(part, min, max).value)
    {
      if '+' in part {
        SplitChars(field, ',', part, '+');
      }
      forall e | Spells(e, part) {
        ParseSpelled(e, part, min, max);
      }
      if ParsePart(part, min, max).Some? {
        var e := SpellingOf(part, min, max);
        forall v: nat {
          PartMeaning(part, min, max, v);
        }
      }
    }
  }

  // ---- printing the calendar event ----------------------------------------

  function Texts(values: seq<nat>): (ts: seq<string>)
    ensures |ts| == |values|
    ensures forall i | 0 <= i < |ts| :: IsValueOf(ts[i], values[i])
  {
    if values == [] then [] else [Padded(values[0])] + Texts(values[1..])
  }

  /** `list` with width 2. */
  function List(values: seq<nat>, min: nat, max: nat): string {
    if |values| == max - min + 1 then "*" else Join(Texts(values), ',')
  }

  /** A strictly ascending list fills its interval exactly when it is as long as the interval. */
  lemma Pigeonhole(values: seq<nat>, min: nat, max: nat)
    requires StrictlyAscending(values) && min <= max && forall v | v in values :: min <= v <= max
    ensures |values| <= max - min + 1
    ensures |values| == max - min + 1 <==> forall v | min <= v <= max :: v in values
  {
    LowerBound(values, min);
    UpperBound(values, max);
    if values != [] {
      assert values[0] in values && values[|values| - 1] in values;
    }
    if |values| == max - min + 1 {
      forall v | min <= v <= max ensures v in values {
        assert values[v - min] == v;
      }
    }
    if forall v | min <= v <= max :: v in values {
      Dense(values, min, max);
    }
  }

  lemma {:induction false} LowerBound(values: seq<nat>, min: nat)
    requires StrictlyAscending(values) && forall v | v in values :: min <= v
    ensures forall i | 0 <= i < |values| :: min + i <= values[i]
  {
    if values != [] {
      assert forall v | v in values[1..] :: min + 1 <= v by { assert values[0] in values; }
      LowerBound(values[1..], min + 1);
      assert forall i | 0 <= i < |values| :: values[i] in values;
      assert forall i | 1 <= i < |values| :: values[i] == values[1..][i - 1];
    }
  }

  lemma {:induction false} UpperBound(values: seq<nat>, max: nat)
    requires StrictlyAscending(values) && forall v | v in values :: v <= max
    ensures forall i | 0 <= i < |values| :: values[i] <= max - (|values| - 1 - i)
    decreases |values|
  {
    if values != [] {
      var last := values[|values| - 1];
      assert last in values;
      if |values| > 1 {
        var init := values[..|values| - 1];
        assert init[0] < last;
        assert forall v | v in init :: v <= last - 1;
        UpperBound(init, last - 1);
        assert forall i | 0 <= i < |init| :: values[i] == init[i];
      }
    }
  }

  /** Holding every value of the interval takes at least as many places. */
  lemma {:induction false} Dense(values: seq<nat>, min: nat, max: nat)
    requires StrictlyAscending(values)
    requires min <= max && forall v | min <= v <= max :: v in values
    ensures |values| >= max - min + 1
    decreases max
  {
    if min < max {
      assert max in values;
      var k :| 0 <= k < |values| && values[k] == max;
      forall v | min <= v <= max - 1 ensures v in values[..k] {
        assert v in values;
        var j :| 0 <= j < |values| && values[j] == v;
        assert values[..k][j] == v;
      }
      Dense(values[..k], min, max - 1);
    } else {
      assert min in values;
    }
  }

  predicate IsListChar(c: char) {
    IsDigit(c) || c == ',' || c == '*'
  }

  lemma ListChars(values: seq<nat>, min: nat, max: nat)
    ensures forall c | c in List(values, min, max) :: IsListChar(c)
  {
    forall c | c in List(values, min, max) && |values| != max - min + 1 ensures IsListChar(c) {
      JoinChars(Texts(values), ',', c);
    }
  }

  /** What `list` prints selects exactly the listed values. */
  lemma ListMeaning(values: seq<nat>, min: nat, max: nat, v: nat)
    requires StrictlyAscending(values) && forall x | x in values :: min <= x <= max
    requires values != [] && min <= v <= max
    ensures ComponentMatches(List(values, min, max), v) <==> v in values
  {
    if |values| == max - min + 1 {
      Pigeonhole(values, min, max);
    } else {
      var ts := Texts(values);
      forall t | t in ts ensures ',' !in t && IsNumeral(t) {
        var i :| 0 <= i < |ts| && ts[i] == t;
        assert IsValueOf(ts[i], values[i]);
      }
      SplitJoin(ts, ',');
      assert '*' !in Join(ts, ',') by {
        if '*' in Join(ts, ',') {
          JoinChars(ts, ',', '*');
        }
      }
      assert Join(ts, ',') != "*" by { assert '*' in "*"; }
      if v in values {
        var i :| 0 <= i < |values| && values[i] == v;
        assert IsValueOf(ts[i], v);
      }
    }
  }

  const NAMES := ["Sun", "Mon", "Tue", "Wed", "Thu", "Fri", "Sat"]

  function WeekdayName(d: nat): string
    requires d < 7
  {
    NAMES[d]
  }

  function Names(week: seq<nat>): (names: seq<string>)
    requires forall d | d in week :: d < 7
    ensures |names| == |week|
    ensures forall i | 0 <= i < |names| :: week[i] < 7 && names[i] == WeekdayName(week[i])
  {
    if week == [] then [] else
      assert week[0] in week && forall d | d in week[1..] :: d in week;
      [WeekdayName(week[0])] + Names(week[1..])
  }

  predicate IsNameChar(c: char) {
    'a' <= c <= 'z' || 'A' <= c <= 'Z'
  }

  lemma WeekdayNames(d: nat)
    requires d < 7
    ensures WeekdayNamed(WeekdayName(d)) == Some(d) && WeekdayName(d) != ""
    ensures forall c | c in WeekdayName(d) :: IsNameChar(c)
  {
  }

  lemma NamesMeaning(week: seq<nat>, weekday: nat)
    requires week != [] && forall d | d in week :: d < 7
    ensures NamesWeekday(Join(Names(week), ','), weekday) <==> weekday in week
    ensures Join(Names(week), ',') != "" && ' ' !in Join(Names(week), ',')
    ensures forall c | c in Join(Names(week), ',') :: IsNameChar(c) || c == ','
  {
    var names := Names(week);
    forall i | 0 <= i < |week| ensures WeekdayNamed(names[i]) == Some(week[i]) && forall c | c in names[i] :: IsNameChar(c) {
      WeekdayNames(week[i]);
    }
    forall n | n in names ensures forall c | c in n :: IsNameChar(c) {
      var i :| 0 <= i < |names| && names[i] == n;
    }
    SplitJoin(names, ',');
    forall c | c in Join(names, ',') ensures IsNameChar(c) || c == ',' {
      JoinChars(names, ',', c);
    }
    WeekdayNames(week[0]);
    assert WeekdayName(week[0]) != "" && Join(names, ',')[0] == names[0][0];
    if weekday in week {
      var i :| 0 <= i < |week| && week[i] == weekday;
      assert names[i] in names;
    }
    if NamesWeekday(Join(names, ','), weekday) {
      var n :| n in names && WeekdayNamed(n) == Some(weekday);
      var i :| 0 <= i < |names| && names[i] == n;
      assert week[i] in week;
    }
  }

  function CalendarText(weekdays: Option<string>, months: string, days: string, hours: string, minutes: string): string {
    var date := "*-" + months + "-" + days;
    var time := hours + ":" + minutes + ":00";
    match weekdays
    case None => date + " " + time
    case Some(names) => names + " " + date + " " + time
  }

  predicate PlainList(s: string) {
    forall c | c in s :: IsListChar(c)
  }

  lemma DateTimeText(months: string, days: string, hours: string, minutes: string, t: Instant)
    requires PlainList(months) && PlainList(days) && PlainList(hours) && PlainList(minutes)
    ensures ' ' !in "*-" + months + "-" + days && ' ' !in hours + ":" + minutes + ":00"
    ensures DateTimeMatches("*-" + months + "-" + days, hours + ":" + minutes + ":00", t) <==>
            && ComponentMatches(months, t.month) && ComponentMatches(days, t.day)
            && ComponentMatches(hours, t.hour) && ComponentMatches(minutes, t.minute) && t.second == 0
  {
    SplitDate(months, days);
    SplitTime(hours, minutes);
    SplitOne("00", ',');
    assert "00"[..1] == "0" && "0"[..0] == "";
    assert IsValueOf("00", 0);
  }

  lemma SplitDate(months: string, days: string)
    requires PlainList(months) && PlainList(days)
    ensures Split("*-" + months + "-" + days, '-') == ["*", months, days]
  {
    assert "*-" + months + "-" + days == "*" + ['-'] + (months + ['-'] + days);
    SplitCons("*", '-', months + ['-'] + days);
    SplitCons(months, '-', days);
    SplitOne(days, '-');
  }

  lemma SplitTime(hours: string, minutes: string)
    requires PlainList(hours) && PlainList(minutes)
    ensures Split(hours + ":" + minutes + ":00", ':') == [hours, minutes, "00"]
  {
    assert hours + ":" + minutes + ":00" == hours + [':'] + (minutes + [':'] + "00");
    SplitCons(hours, ':', minutes + [':'] + "00");
    SplitCons(minutes, ':', "00");
    SplitOne("00", ':');
  }

  lemma TextParts(weekdays: string, date: string, time: string)
    requires ' ' !in weekdays && ' ' !in date && ' ' !in time
    ensures Split(date + " " + time, ' ') == [date, time]
    ensures Split(weekdays + " " + date + " " + time, ' ') == [weekdays, date, time]
  {
    SplitCons(date, ' ', time);
    SplitOne(time, ' ');
    assert weekdays + " " + date + " " + time == weekdays + [' '] + (date + " " + time);
    SplitCons(weekdays, ' ', date + " " + time);
  }

  /** The text stands on one line, without blanks around it. */
  lemma CalendarTextTight(weekdays: Option<string>, months: string, days: string, hours: string, minutes: string)
    requires PlainList(months) && PlainList(days) && PlainList(hours) && PlainList(minutes)
    requires weekdays.Some? ==> forall c | c in weekdays.value :: IsNameChar(c) || c == ','
    ensures var text := CalendarText(weekdays, months, days, hours, minutes);
            '\n' !in text && (weekdays != Some("") ==> Tight(text))
  {
    var date, time := "*-" + months + "-" + days, hours + ":" + minutes + ":00";
    assert '\n' !in date && '\n' !in time && time[|time| - 1] == '0' && date[0] == '*';
    if weekdays.Some? && weekdays.value != "" {
      assert weekdays.value[0] in weekdays.value;
    }
  }

  lemma CalendarTextMeaning(
      weekdays: Option<string>, months: string, days: string, hours: string, minutes: string, t: Instant)
    requires PlainList(months) && PlainList(days) && PlainList(hours) && PlainList(minutes)
    requires weekdays.Some? ==> ' ' !in weekdays.value
    requires ValidInstant(t)
    ensures CalendarFires(CalendarText(weekdays, months, days, hours, minutes), t) <==>
            && (weekdays.Some? ==> NamesWeekday(weekdays.value, t.weekday))
            && ComponentMatches(months, t.month) && ComponentMatches(days, t.day)
            && ComponentMatches(hours, t.hour) && ComponentMatches(minutes, t.minute) && t.second == 0
  {
    var date := "*-" + months + "-" + days;
    var time := hours + ":" + minutes + ":00";
    DateTimeText(months, days, hours, minutes, t);
    TextParts(if weekdays.Some? then weekdays.value else "", date, time);
    if weekdays.Some? {
      assert CalendarText(weekdays, months, days, hours, minutes) == weekdays.value + " " + date + " " + time;
    } else {
      assert CalendarText(weekdays, months, days, hours, minutes) == date + " " + time;
    }
  }

  // ---- the translation ----------------------------------------------------

  /** The five fields a keyword stands for. */
  function KeywordFields(keyword: Keyword): (fields: seq<string>)
    ensures |fields| == 5 && forall f | f in fields :: IsWord(f) && '+' !in f
  {
    match keyword
    case Hourly => ["0", "*", "*", "*", "*"]
    case Daily => ["0", "0", "*", "*", "*"]
    case Midnight => ["0", "0", "*", "*", "*"]
    case Weekly => ["0", "0", "*", "*", "0"]
    case Monthly => ["0", "0", "1", "*", "*"]
    case Yearly => ["0", "0", "1", "1", "*"]
    case Annually => ["0", "0", "1", "1", "*"]
  }

  function Expanded(schedule: string): string {
    match AsKeyword(schedule)
    case Some(keyword) => Join(KeywordFields(keyword), ' ')
    case None => schedule
  }

  /** The schedules a calendar event can say exactly: numeric fields that do
      not restrict both the day of the month and the weekday. */
  ghost predicate NumericFields(fields: seq<string>) {
    && |fields| == 5
    && (fields[2] == "*" || fields[4] == "*")
    && Numeric(fields[0], 0, 59) && Numeric(fields[1], 0, 23)
    && Numeric(fields[2], 1, 31) && Numeric(fields[3], 1, 12) && Numeric(fields[4], 0, 7)
  }

  lemma SingleMeaning(text: string, n: nat, min: nat, max: nat, v: nat)
    requires (text == "0" && n == 0) || (text == "1" && n == 1)
    requires min <= n <= max <= U32_MAX
    ensures FieldMatches(text, min, max, v) <==> v == n
    ensures Numeric(text, min, max)
  {
    SplitOne(text, ',');
    assert text[..0] == "";
    assert IsNumeral(text) && DigitsValue(text) == n;
    assert Spells(One(text), text) && ElementInBounds(One(text), text, min, max);
    ParseSpelled(One(text), text, min, max);
    PartMeaning(text, min, max, v);
  }

  lemma StarMeaning(min: nat, max: nat, v: nat)
    requires min <= max <= U32_MAX
    ensures FieldMatches("*", min, max, v) <==> min <= v <= max
    ensures Numeric("*", min, max)
  {
    SplitOne("*", ',');
    assert Spells(Star, "*") && ElementInBounds(Star, "*", min, max);
    ParseSpelled(Star, "*", min, max);
    PartMeaning("*", min, max, v);
  }

  lemma StarOrSingle(text: string, n: nat, min: nat, max: nat, v: nat)
    requires text == "*" || (text == "0" && n == 0) || (text == "1" && n == 1)
    requires min <= n <= max <= U32_MAX && min <= v <= max
    ensures FieldMatches(text, min, max, v) <==> text == "*" || v == n
    ensures Numeric(text, min, max)
  {
    if text == "*" {
      StarMeaning(min, max, v);
    } else {
      SingleMeaning(text, n, min, max, v);
    }
  }

  lemma SimpleFieldsFire(fields: seq<string>, t: Instant)
    requires |fields| == 5 && ValidInstant(t)
    requires fields[0] == "0" && (fields[1] == "*" || fields[1] == "0") && (fields[2] == "*" || fields[2] == "1")
    requires (fields[3] == "*" || fields[3] == "1") && (fields[4] == "*" || fields[4] == "0")
    requires fields[2] == "*" || fields[4] == "*"
    ensures NumericFields(fields)
    ensures FieldsFire(fields, t) <==>
            && t.minute == 0 && (fields[1] == "*" || t.hour == 0) && (fields[2] == "*" || t.day == 1)
            && (fields[3] == "*" || t.month == 1) && (fields[4] == "*" || t.weekday == 0)
  {
    StarOrSingle(fields[0], 0, 0, 59, t.minute);
    StarOrSingle(fields[1], 0, 0, 23, t.hour);
    StarOrSingle(fields[2], 1, 1, 31, t.day);
    StarOrSingle(fields[3], 1, 1, 12, t.month);
    StarOrSingle(fields[4], 0, 0, 7, t.weekday);
    StarOrSingle(fields[4], 0, 0, 7, 7);
  }

  /** A keyword means what its five fields mean. */
  lemma KeywordMeaning(keyword: Keyword, t: Instant)
    requires ValidInstant(t)
    ensures NumericFields(KeywordFields(keyword))
    ensures KeywordFires(keyword, t) <==> FieldsFire(KeywordFields(keyword), t)
  {
    SimpleFieldsFire(KeywordFields(keyword), t);
  }

  /** What the seven keywords mean. */
  lemma KeywordTexts(t: Instant)
    ensures CronFires("@hourly", t) <==> t.second == 0 && t.minute == 0
    ensures CronFires("@daily", t) <==> t.second == 0 && t.minute == 0 && t.hour == 0
    ensures CronFires("@midnight", t) <==> t.second == 0 && t.minute == 0 && t.hour == 0
    ensures CronFires("@weekly", t) <==> t.second == 0 && t.minute == 0 && t.hour == 0 && t.weekday == 0
    ensures CronFires("@monthly", t) <==> t.second == 0 && t.minute == 0 && t.hour == 0 && t.day == 1
    ensures CronFires("@yearly", t) <==> t.second == 0 && t.minute == 0 && t.hour == 0 && t.day == 1 && t.month == 1
    ensures CronFires("@annually", t) <==> t.second == 0 && t.minute == 0 && t.hour == 0 && t.day == 1 && t.month == 1
  {
    KeywordsDiffer();
  }

  lemma KeywordsDiffer()
    ensures AsKeyword("@hourly") == Some(Hourly) && AsKeyword("@daily") == Some(Daily)
    ensures AsKeyword("@midnight") == Some(Midnight) && AsKeyword("@weekly") == Some(Weekly)
    ensures AsKeyword("@monthly") == Some(Monthly) && AsKeyword("@yearly") == Some(Yearly)
    ensures AsKeyword("@annually") == Some(Annually)
  {
    assert "@hourly"[1] == 'h' && "@daily"[1] == 'd' && "@midnight"[2] == 'i' && "@weekly"[1] == 'w';
    assert "@monthly"[2] == 'o' && "@yearly"[1] == 'y' && "@annually"[1] == 'a';
  }

  /** A schedule that a calendar event can say exactly. */
  ghost predicate Convertible(schedule: string) {
    AsKeyword(schedule).Some? || NumericFields(SplitWhitespace(schedule))
  }

  lemma FiveFields(schedule: string)
    requires IsSchedule(schedule) && AsKeyword(schedule).None?
    ensures var fields := SplitWhitespace(schedule);
            |fields| == 5 && (forall f | f in fields :: '+' !in f)
  {
    var fields := ScheduleFields(schedule);
    assert !IsFieldChar('+');
  }

  lemma ScheduleMeaning(schedule: string, t: Instant)
    requires IsSchedule(schedule) && ValidInstant(t)
    ensures var fields := SplitWhitespace(Expanded(schedule));
            && |fields| == 5 && (forall f | f in fields :: '+' !in f)
            && (Convertible(schedule) <==> NumericFields(fields))
            && (CronFires(schedule, t) <==> t.second == 0 && FieldsFire(fields, t))
  {
    if AsKeyword(schedule).Some? {
      var keyword := AsKeyword(schedule).value;
      KeywordMeaning(keyword, t);
      SplitWhitespaceJoin(KeywordFields(keyword));
    } else {
      FiveFields(schedule);
    }
  }

  /** The weekdays of a cron field with 7 folded onto Sunday. */
  function Fold(weekdays: seq<nat>): (week: seq<nat>)
    requires forall d | d in weekdays :: d <= 7
    ensures forall d | d in week :: d < 7
    ensures |week| == |weekdays|
    ensures forall d: nat | d < 7 :: d in week <==> d in weekdays || (d == 0 && 7 in weekdays)
  {
    if weekdays == [] then [] else
      assert weekdays == [weekdays[0]] + weekdays[1..] && weekdays[0] in weekdays;
      assert forall d | d in weekdays[1..] :: d in weekdays;
      [weekdays[0] % 7] + Fold(weekdays[1..])
  }

  /** The fields' values and the printed weekdays, hours and minutes together
      select the instants at which the fields fire. */
  ghost predicate Selects(field: string, min: nat, max: nat, values: seq<nat>) {
    && values != [] && StrictlyAscending(values)
    && (forall v | v in values :: min <= v <= max)
    && forall v: nat :: v in values <==> FieldMatches(field, min, max, v)
  }

  method ExpandField(field: string, min: nat, max: nat) returns (r: Option<seq<nat>>)
    requires '+' !in field && min <= max <= U32_MAX
    ensures r.Some? <==> Numeric(field, min, max)
    ensures r.Some? ==> Selects(field, min, max, r.value)
  {
    r := Expand(field, min, max);
    FieldMeaning(field, min, max);
    if r.Some? {
      var parts := Split(field, ',');
      var low := ParsePart(parts[0], min, max).value.low;
      assert parts[0] in parts && InRange(low, ParsePart(parts[0], min, max).value);
      assert InParts(low, parts, min, max);
    }
  }

  /** `on_calendar`: an answer is given exactly for the convertible schedules,
      and fires exactly when cron would. */
  method OnCalendar(schedule: string) returns (r: Option<string>)
    requires IsSchedule(schedule)
    ensures r.Some? <==> Convertible(schedule)
    ensures r.Some? ==> forall t | ValidInstant(t) :: CalendarFires(r.value, t) <==> CronFires(schedule, t)
    ensures r.Some? ==> Tight(r.value) && '\n' !in r.value
  {
    ghost var epoch := Instant(1970, 1, 1, 0, 0, 0, 4);
    ScheduleMeaning(schedule, epoch);
    var fields := SplitWhitespace(Expanded(schedule));
    var minute, hour, day, month, weekday := fields[0], fields[1], fields[2], fields[3], fields[4];
    if day != "*" && weekday != "*" {
      return None;
    }
    var minutes := ExpandField(minute, 0, 59);
    if minutes.None? { return None; }
    var hours := ExpandField(hour, 0, 23);
    if hours.None? { return None; }
    var days := ExpandField(day, 1, 31);
    if days.None? { return None; }
    var months := ExpandField(month, 1, 12);
    if months.None? { return None; }
    var weekdays := ExpandField(weekday, 0, 7);
    if weekdays.None? { return None; }
    var week := Dedup(Sort(Fold(weekdays.value)));
    var names := if |week| == 7 then None else Some(Join(Names(week), ','));
    r := Some(CalendarText(names, List(months.value, 1, 12), List(days.value, 1, 31),
                           List(hours.value, 0, 23), List(minutes.value, 0, 59)));
    PrintedTight(weekday, minutes.value, hours.value, days.value, months.value, weekdays.value);
    forall t | ValidInstant(t) ensures CalendarFires(r.value, t) <==> CronFires(schedule, t) {
      ScheduleMeaning(schedule, t);
      PrintedMeaning(fields, minutes.value, hours.value, days.value, months.value, weekdays.value, t);
    }
  }

  lemma WeekMeaning(field: string, weekdays: seq<nat>, weekday: nat)
    requires Selects(field, 0, 7, weekdays) && weekday < 7
    ensures var week := Dedup(Sort(Fold(weekdays)));
            && week != [] && (forall d | d in week :: d < 7)
            && (WeekdayMatches(field, weekday) <==> weekday in week)
            && (|week| == 7 ==> weekday in week)
  {
    var fold := Fold(weekdays);
    var week := Dedup(Sort(fold));
    assert forall d :: d in week <==> d in fold;
    assert fold[0] in week;
    Pigeonhole(week, 0, 6);
  }

  lemma PrintedTight(
      weekday: string, minutes: seq<nat>, hours: seq<nat>, days: seq<nat>, months: seq<nat>, weekdays: seq<nat>)
    requires Selects(weekday, 0, 7, weekdays)
    ensures var week := Dedup(Sort(Fold(weekdays)));
            var names := if |week| == 7 then None else Some(Join(Names(week), ','));
            var text := CalendarText(names, List(months, 1, 12), List(days, 1, 31), List(hours, 0, 23),
                                     List(minutes, 0, 59));
            Tight(text) && '\n' !in text
  {
    var week := Dedup(Sort(Fold(weekdays)));
    ListChars(months, 1, 12);
    ListChars(days, 1, 31);
    ListChars(hours, 0, 23);
    ListChars(minutes, 0, 59);
    WeekMeaning(weekday, weekdays, 0);
    NamesMeaning(week, 0);
    var names := if |week| == 7 then None else Some(Join(Names(week), ','));
    CalendarTextTight(names, List(months, 1, 12), List(days, 1, 31), List(hours, 0, 23), List(minutes, 0, 59));
  }

  lemma PrintedMeaning(
      fields: seq<string>, minutes: seq<nat>, hours: seq<nat>, days: seq<nat>, months: seq<nat>, weekdays: seq<nat>,
      t: Instant)
    requires |fields| == 5 && (fields[2] == "*" || fields[4] == "*") && ValidInstant(t)
    requires Selects(fields[0], 0, 59, minutes) && Selects(fields[1], 0, 23, hours)
    requires Selects(fields[2], 1, 31, days) && Selects(fields[3], 1, 12, months) && Selects(fields[4], 0, 7, weekdays)
    ensures var week := Dedup(Sort(Fold(weekdays)));
            var names := if |week| == 7 then None else Some(Join(Names(week), ','));
            var text := CalendarText(names, List(months, 1, 12), List(days, 1, 31), List(hours, 0, 23),
                                     List(minutes, 0, 59));
            CalendarFires(text, t) <==> t.second == 0 && FieldsFire(fields, t)
  {
    var week := Dedup(Sort(Fold(weekdays)));
    WeekMeaning(fields[4], weekdays, t.weekday);
    NamesMeaning(week, t.weekday);
    var names := if |week| == 7 then None else Some(Join(Names(week), ','));
    ListMeaning(months, 1, 12, t.month);
    ListMeaning(days, 1, 31, t.day);
    ListMeaning(hours, 0, 23, t.hour);
    ListMeaning(minutes, 0, 59, t.minute);
    ListChars(months, 1, 12);
    ListChars(days, 1, 31);
    ListChars(hours, 0, 23);
    ListChars(minutes, 0, 59);
    CalendarTextMeaning(names, List(months, 1, 12), List(days, 1, 31), List(hours, 0, 23), List(minutes, 0, 59), t);
  }
}
