/** The systemd units of a sandboxed agent (src/agent_systemd.rs): the timer, and
    the service that it starts. */
module AgentTimer {
  import opened Text
  import opened Schedules
  import opened UnitFiles
  import AgentTab
  import CronCalendar

  const MANAGED_BY := "# Managed by "
  const MANAGED := MANAGED_BY + "the operations engine" + " ([wcp-agent]). " + "Do not edit."
  const SCHEDULE_COMMENT := "# wcp-agent-schedule: "

  /** `service_name`. */
  function ServiceName(name: string): string {
    "wcp-agent-" + name + ".service"
  }

  function TimerSections(name: string, calendar: string): seq<Section> {
    [ Section("Unit", [("Description", "WCP agent " + name + " schedule")]),
      Section("Timer", [("OnCalendar", calendar), ("AccuracySec", "1s"), ("Persistent", "false"),
                        ("Unit", ServiceName(name))]),
      Section("Install", [("WantedBy", "timers.target")]) ]
  }

  /** `timer_unit`. */
  function TimerUnit(name: string, schedule: string, calendar: string): string {
    UnitText([MANAGED, SCHEDULE_COMMENT + schedule], TimerSections(name, calendar))
  }

  function FirstWithPrefix(prefix: string, lines: seq<string>): Option<string> {
    if lines == [] then None
    else if StartsWith(lines[0], prefix) then Some(lines[0][|prefix|..])
    else FirstWithPrefix(prefix, lines[1..])
  }

  /** `schedule_from_timer`. */
  function ScheduleFromTimer(text: string): Option<string> {
    match FirstWithPrefix(SCHEDULE_COMMENT, Lines(text))
    case None => None
    case Some(line) => Parse(line)
  }

  lemma Pieces()
    ensures '\n' !in MANAGED_BY && '\n' !in "the operations engine"
    ensures '\n' !in " ([wcp-agent]). " && '\n' !in "Do not edit."
    ensures MANAGED_BY[0] == '#' && MANAGED_BY[2] == 'M'
  {
  }

  lemma CommentStart()
    ensures '\n' !in SCHEDULE_COMMENT && SCHEDULE_COMMENT[0] == '#' && SCHEDULE_COMMENT[2] == 'w'
  {
  }

  lemma ManagedText(a: string, b: string, c: string, d: string, prefix: string)
    requires '\n' !in a && '\n' !in b && '\n' !in c && '\n' !in d
    requires |a| > 2 && a[0] == '#' && |prefix| > 2 && a[2] != prefix[2] && d != "" && !IsWhitespace(d[|d| - 1])
    ensures var s := a + b + c + d; IsCommentLine(s) && !StartsWith(s, prefix)
  {
    var s := a + b + c + d;
    assert s[2] == a[2] && s[|s| - 1] == d[|d| - 1];
  }

  lemma Comments(schedule: string)
    requires IsSchedule(schedule)
    ensures forall l | l in [MANAGED, SCHEDULE_COMMENT + schedule] :: IsCommentLine(l)
    ensures !StartsWith(MANAGED, SCHEDULE_COMMENT)
  {
    Pieces();
    CommentStart();
    assert !IsWhitespace("Do not edit."[|"Do not edit."| - 1]);
    ManagedText(MANAGED_BY, "the operations engine", " ([wcp-agent]). ", "Do not edit.", SCHEDULE_COMMENT);
    ScheduleText(schedule);
    AgentTab.ForeignChars();
    var line := SCHEDULE_COMMENT + schedule;
    assert line[|line| - 1] == schedule[|schedule| - 1];
  }

  lemma NameText(name: string)
    requires AgentTab.ValidName(name)
    ensures '\n' !in name
  {
  }

  lemma Surrounded(a: string, name: string, b: string)
    requires a != "" && b != "" && !IsWhitespace(a[0]) && !IsWhitespace(b[|b| - 1])
    requires '\n' !in a && '\n' !in name && '\n' !in b
    ensures IsValue(a + name + b)
  {
  }

  lemma TimerValues(name: string)
    requires AgentTab.ValidName(name)
    ensures IsValue("WCP agent " + name + " schedule") && IsValue(ServiceName(name))
    ensures IsValue("1s") && IsValue("false") && IsValue("timers.target")
  {
    NameText(name);
    Surrounded("WCP agent ", name, " schedule");
    Surrounded("wcp-agent-", name, ".service");
  }

  lemma TimerKeys()
    ensures IsKey("Unit") && IsKey("Description") && IsKey("Timer") && IsKey("OnCalendar") && IsKey("AccuracySec")
    ensures IsKey("Persistent") && IsKey("Install") && IsKey("WantedBy")
  {
  }

  lemma TimerIsUnit(name: string, calendar: string)
    requires AgentTab.ValidName(name) && IsValue(calendar)
    ensures forall s | s in TimerSections(name, calendar) :: IsSection(s)
  {
    TimerKeys();
    TimerValues(name);
  }

  /** The operator's schedule survives in the timer, whatever the name and the
      calendar expression it was translated to. */
  lemma TimerKeepsSchedule(name: string, schedule: string, calendar: string)
    requires IsSchedule(schedule)
    ensures ScheduleFromTimer(TimerUnit(name, schedule, calendar)) == Some(schedule)
  {
    Comments(schedule);
    var line := SCHEDULE_COMMENT + schedule;
    assert MANAGED in [MANAGED, line] && line in [MANAGED, line];
    SecondOfUnit(MANAGED, SCHEDULE_COMMENT, schedule, TimerSections(name, calendar));
    ParseIdempotent(schedule);
  }

  lemma FirstLine(a: string, rest: seq<string>)
    requires IsValue(a)
    ensures Lines(Render([a] + rest)) == [a] + Lines(Render(rest))
  {
    ValueIsLine(a);
    RenderCons(a, rest);
    LinesCons(a, Render(rest));
  }

  lemma SecondOfUnit(managed: string, prefix: string, value: string, sections: seq<Section>)
    requires IsValue(managed) && IsValue(prefix + value) && !StartsWith(managed, prefix)
    ensures FirstWithPrefix(prefix, Lines(UnitText([managed, prefix + value], sections))) == Some(value)
  {
    var rest := UnitLines(sections);
    assert [managed, prefix + value] + rest == [managed] + ([prefix + value] + rest);
    SecondOfText([managed, prefix + value] + rest, managed, prefix, value, rest);
  }

  lemma SecondOfText(lines: seq<string>, managed: string, prefix: string, value: string, rest: seq<string>)
    requires IsValue(managed) && IsValue(prefix + value) && !StartsWith(managed, prefix)
    requires lines == [managed] + ([prefix + value] + rest)
    ensures FirstWithPrefix(prefix, Lines(Render(lines))) == Some(value)
  {
    TwoLines(managed, prefix + value, rest);
    SecondLine(managed, prefix, value, Lines(Render(rest)));
  }

  lemma TwoLines(a: string, b: string, rest: seq<string>)
    requires IsValue(a) && IsValue(b)
    ensures Lines(Render([a] + ([b] + rest))) == [a] + ([b] + Lines(Render(rest)))
  {
    FirstLine(b, rest);
    FirstLine(a, [b] + rest);
  }

  /** The first two lines, as an older or newer engine has to find them. */
  lemma TimerHead(name: string, schedule: string, calendar: string)
    ensures var managed := "# Managed by " + "the operations engine" + " ([wcp-agent]). " + "Do not edit.";
            StartsWith(TimerUnit(name, schedule, calendar), managed + "\n" + "# wcp-agent-schedule: " + schedule + "\n")
  {
    var rest := UnitLines(TimerSections(name, calendar));
    Head(MANAGED, SCHEDULE_COMMENT, schedule, rest);
  }

  lemma Head(managed: string, comment: string, schedule: string, rest: seq<string>)
    ensures StartsWith(Render([managed, comment + schedule] + rest), managed + "\n" + comment + schedule + "\n")
  {
    var line := comment + schedule;
    assert [managed, line] + rest == [managed] + ([line] + rest);
    RenderCons(managed, [line] + rest);
    RenderCons(line, rest);
    HeadOf(managed, comment, schedule, Render(rest));
  }

  lemma HeadOf(managed: string, comment: string, schedule: string, tail: string)
    ensures StartsWith(managed + "\n" + (comment + schedule + "\n" + tail), managed + "\n" + comment + schedule + "\n")
  {
    var head := managed + "\n" + comment + schedule + "\n";
    assert managed + "\n" + (comment + schedule + "\n" + tail) == head + tail;
  }

  /** The second line is the first that carries the comment. */
  lemma {:induction false} SecondLine(managed: string, prefix: string, value: string, rest: seq<string>)
    requires !StartsWith(managed, prefix)
    ensures FirstWithPrefix(prefix, [managed] + ([prefix + value] + rest)) == Some(value)
  {
    var line := prefix + value;
    assert ([managed] + ([line] + rest))[1..] == [line] + rest;
    assert line[..|prefix|] == prefix && line[|prefix|..] == value;
  }

  lemma {:induction false} ThreeSections(a: Section, b: Section, c: Section)
    ensures Entries([a, b, c]) ==
            SectionEntries(a.name, a.settings) + (SectionEntries(b.name, b.settings) + SectionEntries(c.name, c.settings))
  {
    assert [a, b, c][1..] == [b, c] && [b, c][1..] == [c] && [c][1..] == [];
    assert Entries([c]) == SectionEntries(c.name, c.settings) + [];
    assert Entries([b, c]) == SectionEntries(b.name, b.settings) + Entries([c]);
  }

  lemma {:induction false} OneSetting(section: string, key: string, value: string)
    ensures SectionEntries(section, [(key, value)]) == [Entry(section, key, value)]
  {
    assert [(key, value)][1..] == [];
  }

  lemma {:induction false} FourSettings(section: string, a: (string, string), b: (string, string), c: (string, string),
                                        d: (string, string))
    ensures SectionEntries(section, [a, b, c, d]) ==
            [Entry(section, a.0, a.1), Entry(section, b.0, b.1), Entry(section, c.0, c.1), Entry(section, d.0, d.1)]
  {
    assert [a, b, c, d][1..] == [b, c, d] && [b, c, d][1..] == [c, d] && [c, d][1..] == [d];
    OneSetting(section, d.0, d.1);
    assert SectionEntries(section, [c, d]) == [Entry(section, c.0, c.1)] + SectionEntries(section, [d]);
    assert SectionEntries(section, [b, c, d]) == [Entry(section, b.0, b.1)] + SectionEntries(section, [c, d]);
  }

  /** What systemd reads in the timer: it fires at the calendar expression and
      starts the agent's service. */
  lemma TimerReads(name: string, schedule: string, calendar: string)
    requires AgentTab.ValidName(name) && IsSchedule(schedule) && IsValue(calendar)
    ensures ReadUnit(TimerUnit(name, schedule, calendar)) ==
            [ Entry("Unit", "Description", "WCP agent " + name + " schedule"),
              Entry("Timer", "OnCalendar", calendar),
              Entry("Timer", "AccuracySec", "1s"),
              Entry("Timer", "Persistent", "false"),
              Entry("Timer", "Unit", "wcp-agent-" + name + ".service"),
              Entry("Install", "WantedBy", "timers.target") ]
  {
    Comments(schedule);
    TimerIsUnit(name, calendar);
    var sections := TimerSections(name, calendar);
    UnitReads([MANAGED, SCHEDULE_COMMENT + schedule], sections);
    TimerEntries(("Description", "WCP agent " + name + " schedule"), ("OnCalendar", calendar), ("AccuracySec", "1s"),
                 ("Persistent", "false"), ("Unit", ServiceName(name)), ("WantedBy", "timers.target"));
  }

  lemma TimerEntries(a: (string, string), b: (string, string), c: (string, string), d: (string, string),
                     e: (string, string), f: (string, string))
    ensures Entries([Section("Unit", [a]), Section("Timer", [b, c, d, e]), Section("Install", [f])]) ==
            [ Entry("Unit", a.0, a.1), Entry("Timer", b.0, b.1), Entry("Timer", c.0, c.1), Entry("Timer", d.0, d.1),
              Entry("Timer", e.0, e.1), Entry("Install", f.0, f.1) ]
  {
    ThreeSections(Section("Unit", [a]), Section("Timer", [b, c, d, e]), Section("Install", [f]));
    OneSetting("Unit", a.0, a.1);
    FourSettings("Timer", b, c, d, e);
    OneSetting("Install", f.0, f.1);
  }

  /** The values of a key, in the order of the file. */
  function Values(entries: seq<Entry>, section: string, key: string): seq<string> {
    if entries == [] then []
    else (if entries[0].section == section && entries[0].key == key then [entries[0].value] else []) +
         Values(entries[1..], section, key)
  }

  /** The timer an agent gets: exactly for the schedules that systemd can say,
      and then it fires exactly when cron would. */
  method Timer(name: string, schedule: string) returns (text: Option<string>)
    requires AgentTab.ValidName(name) && IsSchedule(schedule)
    ensures text.Some? <==> CronCalendar.Convertible(schedule)
    ensures text.Some? ==>
            var calendars := Values(ReadUnit(text.value), "Timer", "OnCalendar");
            && |calendars| == 1
            && forall t | CronCalendar.ValidInstant(t) ::
                 CronCalendar.CalendarFires(calendars[0], t) <==> CronCalendar.CronFires(schedule, t)
    ensures text.Some? ==> Values(ReadUnit(text.value), "Timer", "Unit") == ["wcp-agent-" + name + ".service"]
    ensures text.Some? ==> ScheduleFromTimer(text.value) == Some(schedule)
  {
    var calendar := CronCalendar.OnCalendar(schedule);
    if calendar.None? {
      return None;
    }
    TimerValuesRead(name, schedule, calendar.value);
    TimerKeepsSchedule(name, schedule, calendar.value);
    text := Some(TimerUnit(name, schedule, calendar.value));
  }

  lemma TimerValuesRead(name: string, schedule: string, calendar: string)
    requires AgentTab.ValidName(name) && IsSchedule(schedule) && IsValue(calendar)
    ensures var entries := ReadUnit(TimerUnit(name, schedule, calendar));
            && Values(entries, "Timer", "OnCalendar") == [calendar]
            && Values(entries, "Timer", "Unit") == ["wcp-agent-" + name + ".service"]
  {
    TimerReads(name, schedule, calendar);
    SixValues(ReadUnit(TimerUnit(name, schedule, calendar)), calendar, "wcp-agent-" + name + ".service");
  }

  lemma SixValues(entries: seq<Entry>, calendar: string, service: string)
    requires |entries| == 6 && entries[0].section == "Unit" && entries[1] == Entry("Timer", "OnCalendar", calendar)
    requires entries[2].key == "AccuracySec" && entries[3].key == "Persistent"
    requires entries[4] == Entry("Timer", "Unit", service) && entries[5].section == "Install"
    ensures Values(entries, "Timer", "OnCalendar") == [calendar] && Values(entries, "Timer", "Unit") == [service]
  {
    assert entries == [entries[0], entries[1], entries[2]] + [entries[3], entries[4], entries[5]];
    ThreeValues(entries[0], entries[1], entries[2], entries[3..], "Timer", "OnCalendar");
    ThreeValues(entries[0], entries[1], entries[2], entries[3..], "Timer", "Unit");
    ThreeValues(entries[3], entries[4], entries[5], [], "Timer", "OnCalendar");
    ThreeValues(entries[3], entries[4], entries[5], [], "Timer", "Unit");
    assert entries[3..] == [entries[3], entries[4], entries[5]] + [];
  }

  lemma {:induction false} ThreeValues(a: Entry, b: Entry, c: Entry, rest: seq<Entry>, section: string, key: string)
    ensures Values([a, b, c] + rest, section, key) ==
            (if a.section == section && a.key == key then [a.value] else []) +
            ((if b.section == section && b.key == key then [b.value] else []) +
             ((if c.section == section && c.key == key then [c.value] else []) + Values(rest, section, key)))
  {
    var third, second := [c] + rest, [b] + ([c] + rest);
    assert ([a, b, c] + rest)[1..] == second && second[1..] == third && third[1..] == rest;
    assert Values(third, section, key) ==
           (if c.section == section && c.key == key then [c.value] else []) + Values(rest, section, key);
    assert Values(second, section, key) ==
           (if b.section == section && b.key == key then [b.value] else []) + Values(third, section, key);
  }
}
