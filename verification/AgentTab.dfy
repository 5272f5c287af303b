/** The cron lines and timer units of the host agents
    (src/agent_lifecycle.rs, src/agent_systemd.rs): a map from agent names to
    schedules, kept in the text of a crontab among lines that belong to others. */
module AgentTab {
  import opened Text
  import opened Schedules
  import opened LineStore
  import CronCommands

  const TAG := "[wcp-agent] "
  const WCP_DIR := "WCP_DIR=/root/.wcp"
  const LOCAL_BIN := "/usr/local/bin"
  const OPS_ENGINE := "OPS_ENGINE=" + LOCAL_BIN + "/ops-engine"
  const AGENT_PATH := "PATH=" + LOCAL_BIN + ":/usr/sbin:/usr/bin" + ":/sbin:/bin"
  const AGENTS_DIR := "/root/.wcp/agents/"

  predicate IsNameChar(c: char) {
    IsLower(c) || IsDigit(c) || c == '-'
  }

  /** `valid_agent_name`. */
  predicate ValidName(name: string) {
    && 0 < |name| <= 64
    && name[0] != '-'
    && forall c | c in name :: IsNameChar(c)
  }

  predicate EndsField(s: string, i: nat) {
    i == |s| || (i < |s| && IsWhitespace(s[i]))
  }

  /** The tag stands at `i`, followed by whitespace or the end of the line. */
  predicate TaggedAt(line: string, tag: string, i: nat) {
    OccursAt(line, tag, i) && EndsField(line, i + |tag|)
  }

  /** `is_agent_line`. An occurrence of the tag cannot overlap another one, so
      looking at all of them is looking at those `match_indices` yields. */
  predicate IsAgentLine(line: string, name: string) {
    exists i: nat | i <= |line| :: TaggedAt(line, TAG + name, i)
  }

  /** What stands between the schedule and the tag. */
  function Command(name: string): string {
    WCP_DIR + " " + OPS_ENGINE + " " + AGENT_PATH + " bash '" + AGENTS_DIR + name + ".sh' # "
  }

  /** `cron_line`. */
  function CronLine(name: string, schedule: string): string {
    schedule + " " + Command(name) + (TAG + name)
  }

  /** The schedule in the first words of a line: one keyword or five fields. */
  function Leading(fields: seq<string>): Option<string> {
    if fields == [] then None
    else if StartsWith(fields[0], "@") then Parse(fields[0])
    else Parse(Join(if |fields| < 5 then fields else fields[..5], ' '))
  }

  /** The schedule of an enabled or disabled line. */
  function ScheduleOf(line: string): Option<string> {
    Leading(SplitWhitespace(TrimHashes(Trim(line))))
  }

  function FirstHit(hit: string -> bool, lines: seq<string>): Option<string> {
    if lines == [] then None
    else if hit(lines[0]) then Some(lines[0])
    else FirstHit(hit, lines[1..])
  }

  function HitsAgent(name: string): string -> bool {
    line => IsAgentLine(line, name)
  }

  /** `current_schedule`. */
  function CurrentSchedule(tab: string, name: string): Option<string> {
    match FirstHit(HitsAgent(name), Lines(tab))
    case None => None
    case Some(line) => ScheduleOf(line)
  }

  /** `with_agent`; `without_agent` is the case without a schedule. */
  method WithAgent(tab: string, name: string, schedule: Option<string>) returns (text: string, replaced: nat)
    ensures text == Edited(tab, name, schedule)
    ensures replaced == |Lines(tab)| - |Kept(HitsAgent(name), Lines(tab))|
  {
    var lines;
    lines, replaced := Filter(HitsAgent(name), Lines(tab));
    assert lines + [] == lines;
    if schedule.Some? {
      lines := lines + [CronLine(name, schedule.value)];
    }
    text := Render(lines);
  }

  function Edited(tab: string, name: string, schedule: Option<string>): string {
    Replaced(HitsAgent(name), tab, if schedule.Some? then Some(CronLine(name, schedule.value)) else None)
  }

  // ---- one line, one agent ------------------------------------------------

  lemma TagBrackets(k: nat)
    requires k < |TAG|
    ensures TAG[k] == '[' <==> k == 0
  {
  }

  lemma OneBracket(before: string, n: string)
    requires '[' !in before && '[' !in n
    ensures var line := before + (TAG + n); forall k | 0 <= k < |line| :: line[k] == '[' <==> k == |before|
  {
  }

  /** In a line with one opening bracket, a tag stands at that bracket. */
  lemma TagsAtBracket(before: string, n: string, m: string, i: nat)
    requires '[' !in before && '[' !in n
    requires OccursAt(before + (TAG + n), TAG + m, i)
    ensures i == |before| && StartsWith(n, m)
  {
    var line := before + (TAG + n);
    var piece := line[i..i + |TAG + m|];
    assert line[i] == piece[0] == (TAG + m)[0] == TAG[0];
    TagBrackets(0);
    OneBracket(before, n);
    assert piece == (TAG + n)[..|TAG| + |m|];
    assert piece[|TAG|..] == n[..|m|] && (TAG + m)[|TAG|..] == m;
  }

  /** A tagged line belongs to the agent it names and to no other, also when one
      name begins with the other. */
  lemma TaggedLine(before: string, n: string, m: string)
    requires '[' !in before && ValidName(n) && ValidName(m)
    ensures IsAgentLine(before + (TAG + n), m) <==> n == m
  {
    var line := before + (TAG + n);
    if n == m {
      assert line[|before|..|before| + |TAG + n|] == TAG + n;
      assert TaggedAt(line, TAG + n, |before|);
    }
    forall i: nat | i <= |line| && TaggedAt(line, TAG + m, i) ensures n == m {
      TagsAtBracket(before, n, m, i);
      assert forall k | 0 <= k < |n| :: n[k] == line[|before| + |TAG| + k] && n[k] in n;
      assert n[..|n|] == n;
    }
  }

  /** What may stand before the tag. */
  predicate Untagged(s: string) {
    '[' !in s && '\n' !in s
  }

  lemma EnvironmentUntagged()
    ensures Untagged(WCP_DIR) && Untagged(OPS_ENGINE) && Untagged(AGENT_PATH) && Untagged(AGENTS_DIR)
  {
    PiecesUntagged();
    PathUntagged();
    EngineUntagged();
    var c, d, p, q, r, e := "OPS_ENGINE=", "/ops-engine", "PATH=", ":/usr/sbin:/usr/bin", ":/sbin:/bin", LOCAL_BIN;
    AppendUntagged(c, e);
    AppendUntagged(c + e, d);
    AppendUntagged(p, e);
    AppendUntagged(p + e, q);
    AppendUntagged(p + e + q, r);
  }

  lemma AppendUntagged(a: string, b: string)
    requires Untagged(a) && Untagged(b)
    ensures Untagged(a + b)
  {
  }

  lemma PiecesUntagged()
    ensures Untagged(WCP_DIR) && Untagged(AGENTS_DIR) && Untagged("OPS_ENGINE=")
  {
  }

  lemma PathUntagged()
    ensures Untagged("PATH=") && Untagged(":/usr/sbin:/usr/bin") && Untagged(":/sbin:/bin")
  {
  }

  lemma EngineUntagged()
    ensures Untagged(LOCAL_BIN) && Untagged("/ops-engine")
  {
  }

  lemma CommandUntagged(name: string)
    requires ValidName(name)
    ensures Untagged(Command(name))
  {
    EnvironmentUntagged();
    UntaggedCommand(WCP_DIR, OPS_ENGINE, AGENT_PATH, AGENTS_DIR, name);
  }

  lemma UntaggedCommand(a: string, b: string, c: string, d: string, name: string)
    requires Untagged(a) && Untagged(b) && Untagged(c) && Untagged(d) && ValidName(name)
    ensures Untagged(a + " " + b + " " + c + " bash '" + d + name + ".sh' # ")
  {
  }

  lemma LineShape(line: string, schedule: string, command: string, tag: string, name: string)
    requires Tight(schedule) && schedule[0] != '#' && ValidName(name)
    requires Untagged(schedule) && Untagged(command) && '\n' !in tag
    requires line == schedule + " " + command + (tag + name)
    ensures Untagged(schedule + " " + command)
    ensures OneLine(line) && Tight(line) && line[0] != '#'
  {
    assert line[0] == schedule[0];
    assert line[|line| - 1] == name[|name| - 1] && name[|name| - 1] in name;
  }

  lemma TagText()
    ensures '\n' !in TAG
  {
  }

  lemma ScheduleUntagged(schedule: string)
    requires IsSchedule(schedule)
    ensures Tight(schedule) && schedule[0] != '#' && Untagged(schedule)
  {
    ScheduleText(schedule);
    ForeignChars();
    assert schedule[0] in schedule;
  }

  lemma ForeignChars()
    ensures !IsScheduleChar('[') && !IsScheduleChar('\n') && !IsScheduleChar('#')
  {
  }

  lemma CronLineShape(name: string, schedule: string)
    requires ValidName(name) && IsSchedule(schedule)
    ensures Untagged(schedule + " " + Command(name))
    ensures OneLine(CronLine(name, schedule)) && Tight(CronLine(name, schedule)) && CronLine(name, schedule)[0] != '#'
  {
    CommandUntagged(name);
    ScheduleUntagged(schedule);
    TagText();
    LineShape(CronLine(name, schedule), schedule, Command(name), TAG, name);
  }

  /** A cron line belongs to the agent it was written for and to no other. */
  lemma CronLineTagged(name: string, schedule: string, other: string)
    requires ValidName(name) && ValidName(other) && IsSchedule(schedule)
    ensures IsAgentLine(CronLine(name, schedule), other) <==> name == other
  {
    CronLineShape(name, schedule);
    TaggedLine(schedule + " " + Command(name), name, other);
  }

  // ---- the schedule survives ----------------------------------------------

  lemma LeadingFields(fields: seq<string>, more: seq<string>)
    requires ValidFields(fields)
    ensures Leading(fields + more) == Parse(Join(fields, ' '))
  {
    FieldsAreWords(fields);
    var all := fields + more;
    assert all[0] == fields[0] && fields[0][..1] == [fields[0][0]];
    if |fields| == 1 {
      assert fields == [fields[0]];
    } else {
      assert all[..5] == fields;
    }
  }

  lemma LeadingSchedule(schedule: string, rest: string)
    requires IsSchedule(schedule)
    ensures Leading(SplitWhitespace(schedule + " " + rest)) == Some(schedule)
  {
    var fields := ScheduleFields(schedule);
    FieldsAreWords(fields);
    SplitWhitespaceJoinRest(fields, rest);
    LeadingFields(fields, SplitWhitespace(rest));
    ParseIdempotent(schedule);
  }

  lemma TrimmedLine(line: string)
    requires Tight(line) && line[0] != '#'
    ensures TrimHashes(Trim(line)) == line && TrimHashes(Trim("#" + line)) == line
  {
  }

  /** The schedule survives in the cron line, also when it is commented out. */
  lemma CronLineSchedule(name: string, schedule: string)
    requires ValidName(name) && IsSchedule(schedule)
    ensures ScheduleOf(CronLine(name, schedule)) == Some(schedule)
    ensures ScheduleOf("#" + CronLine(name, schedule)) == Some(schedule)
  {
    CronLineShape(name, schedule);
    TrimmedLine(CronLine(name, schedule));
    Regroup(schedule + " ", Command(name), TAG + name);
    LeadingSchedule(schedule, Command(name) + (TAG + name));
  }

  // ---- what cron runs -----------------------------------------------------

  function ScriptPath(name: string): string {
    AGENTS_DIR + name + ".sh"
  }

  function CommandWords(name: string): seq<string> {
    [WCP_DIR, OPS_ENGINE, AGENT_PATH, "bash", "'" + ScriptPath(name) + "'"]
  }

  function TagWords(name: string): seq<string> {
    ["#", "[wcp-agent]", name]
  }

  lemma FixedWords()
    ensures IsWord(WCP_DIR) && IsWord(OPS_ENGINE) && IsWord(AGENT_PATH)
  {
    GraphicWord(WCP_DIR);
    GraphicWord(OPS_ENGINE);
    GraphicWord(AGENT_PATH);
  }

  lemma ScriptWord(name: string)
    requires ValidName(name)
    ensures IsWord("'" + ScriptPath(name) + "'") && IsWord(name)
  {
    GraphicWord(AGENTS_DIR);
    GraphicWord(".sh");
  }

  lemma TagSplits(name: string)
    requires IsWord(name)
    ensures SplitWhitespace("# " + (TAG + name)) == TagWords(name)
  {
    GraphicWord("[wcp-agent]");
    assert "# " + (TAG + name) == "#" + " " + ("[wcp-agent]" + " " + name);
    SplitWhitespaceCons("#", "[wcp-agent]" + " " + name);
    SplitWhitespaceCons("[wcp-agent]", name);
    SplitWhitespaceWord(name);
  }

  lemma FiveJoined(a: string, b: string, c: string, d: string, e: string)
    ensures Join([a, b, c, d, e], ' ') == a + " " + b + " " + c + " " + d + " " + e
  {
    JoinCons(d, [e], ' ');
    JoinCons(c, [d, e], ' ');
    JoinCons(b, [c, d, e], ' ');
    JoinCons(a, [b, c, d, e], ' ');
    assert [d] + [e] == [d, e] && [c] + [d, e] == [c, d, e] && [b] + [c, d, e] == [b, c, d, e];
    assert [a] + [b, c, d, e] == [a, b, c, d, e];
  }

  lemma CommandText(a: string, b: string, c: string, dir: string, name: string, tag: string)
    ensures a + " " + b + " " + c + " bash '" + dir + name + ".sh' # " + tag ==
            a + " " + b + " " + c + " " + "bash" + " " + ("'" + (dir + name + ".sh") + "'") + " " + ("# " + tag)
  {
  }

  lemma CommandSplits(name: string)
    requires ValidName(name)
    ensures SplitWhitespace(Command(name) + (TAG + name)) == CommandWords(name) + TagWords(name)
  {
    FixedWords();
    ScriptWord(name);
    GraphicWord("bash");
    CommandText(WCP_DIR, OPS_ENGINE, AGENT_PATH, AGENTS_DIR, name, TAG + name);
    TagSplits(name);
    FiveJoined(WCP_DIR, OPS_ENGINE, AGENT_PATH, "bash", "'" + ScriptPath(name) + "'");
    SplitWhitespaceJoinRest(CommandWords(name), "# " + (TAG + name));
  }

  /** The environment of every agent. */
  function AgentEnvironment(): map<string, string> {
    map["WCP_DIR" := "/root/.wcp", "OPS_ENGINE" := "/usr/local/bin/ops-engine",
        "PATH" := "/usr/local/bin:/usr/sbin:/usr/bin" + ":/sbin:/bin"]
  }

  lemma Assignments()
    ensures WCP_DIR == "WCP_DIR" + "=" + "/root/.wcp"
    ensures OPS_ENGINE == "OPS_ENGINE" + "=" + "/usr/local/bin/ops-engine"
    ensures AGENT_PATH == "PATH" + "=" + ("/usr/local/bin:/usr/sbin:/usr/bin" + ":/sbin:/bin")
  {
  }

  lemma ThreeAssignments(a: string, x: string, b: string, y: string, c: string, z: string, rest: seq<string>)
    requires a != "" && b != "" && c != "" && forall d | d in a + b + c :: CronCommands.IsVariableChar(d)
    requires rest != [] && '=' !in rest[0]
    ensures CronCommands.ReadEnvironment([a + "=" + x, b + "=" + y, c + "=" + z] + rest) ==
            (map[a := x] + (map[b := y] + (map[c := z] + map[])), rest)
  {
    assert forall d | d in a || d in b || d in c :: d in a + b + c;
    assert !CronCommands.IsAssignment(rest[0]);
    var third, second := [c + "=" + z] + rest, [b + "=" + y] + ([c + "=" + z] + rest);
    assert [a + "=" + x, b + "=" + y, c + "=" + z] + rest == [a + "=" + x] + second;
    CronCommands.AssignmentReads(c, z, rest);
    CronCommands.AssignmentReads(b, y, third);
    CronCommands.AssignmentReads(a, x, second);
  }

  lemma VariableChars()
    ensures forall d | d in "WCP_DIR" + "OPS_ENGINE" + "PATH" :: CronCommands.IsVariableChar(d)
  {
  }

  lemma NoComments(name: string)
    ensures forall w | w in CommandWords(name) :: !StartsWith(w, "#")
  {
    assert WCP_DIR[0] == 'W' && OPS_ENGINE[0] == 'O' && AGENT_PATH[0] == 'P';
    CronCommands.NotStarting(WCP_DIR, '#');
    CronCommands.NotStarting(OPS_ENGINE, '#');
    CronCommands.NotStarting(AGENT_PATH, '#');
    CronCommands.NotStarting("bash", '#');
    CronCommands.NotStarting("'" + ScriptPath(name) + "'", '#');
  }

  lemma ScriptArguments(path: string)
    ensures CronCommands.Arguments(["bash", "'" + path + "'"]) == ["bash", path]
    ensures CronCommands.Output(["bash", "'" + path + "'"]) == None
  {
    var word := "'" + path + "'";
    CronCommands.PlainWord("bash");
    CronCommands.PlainThen(["bash"], word);
    CronCommands.NotStarting(word, '>');
    CronCommands.LastWord(word);
    assert word[1..|word| - 1] == path;
    assert ["bash"] + [word] == ["bash", word];
  }

  lemma EnvironmentReads(rest: seq<string>)
    requires rest != [] && '=' !in rest[0]
    ensures CronCommands.ReadEnvironment([WCP_DIR, OPS_ENGINE, AGENT_PATH] + rest) == (AgentEnvironment(), rest)
  {
    var a, x, b, y := "WCP_DIR", "/root/.wcp", "OPS_ENGINE", "/usr/local/bin/ops-engine";
    var c, z := "PATH", "/usr/local/bin:/usr/sbin:/usr/bin" + ":/sbin:/bin";
    Assignments();
    VariableChars();
    ThreeAssignments(a, x, b, y, c, z, rest);
    VariablesDiffer();
    ThreeEntries(a, x, b, y, c, z);
  }

  lemma VariablesDiffer()
    ensures |"WCP_DIR"| == 7 && |"OPS_ENGINE"| == 10 && |"PATH"| == 4
  {
  }

  lemma ThreeEntries(a: string, x: string, b: string, y: string, c: string, z: string)
    requires |a| != |b| && |b| != |c| && |a| != |c|
    ensures map[a := x] + (map[b := y] + (map[c := z] + map[])) == map[a := x, b := y, c := z]
  {
  }

  lemma CommandReads(name: string)
    ensures CronCommands.ReadCommand(CommandWords(name) + TagWords(name)) ==
            Some(CronCommands.Command(AgentEnvironment(), "bash", [ScriptPath(name)], None))
  {
    var words, rest := CommandWords(name), ["bash", "'" + ScriptPath(name) + "'"];
    NoComments(name);
    CronCommands.CommentEnds(words, TagWords(name));
    assert words == [WCP_DIR, OPS_ENGINE, AGENT_PATH] + rest;
    EnvironmentReads(rest);
    ScriptArguments(ScriptPath(name));
  }

  /** Cron runs an agent's line on its schedule, and runs that agent's script with
      the agents' environment. */
  lemma CronLineRuns(name: string, schedule: string)
    requires ValidName(name) && IsSchedule(schedule)
    ensures CronCommands.CronRuns(CronLine(name, schedule)) ==
            Some((schedule, CronCommands.Command(AgentEnvironment(), "bash", ["/root/.wcp/agents/" + name + ".sh"], None)))
  {
    CommandSplits(name);
    CommandReads(name);
    CronCommands.LineRuns(schedule, Command(name) + (TAG + name));
    Regroup(schedule + " ", Command(name), TAG + name);
  }

  // ---- the tab as a map from names to schedules ---------------------------

  /** The lines that belong to the agent, in their order. */
  function Owned(name: string, lines: seq<string>): seq<string> {
    Kept(Misses(name), lines)
  }

  function Misses(name: string): string -> bool {
    line => !IsAgentLine(line, name)
  }

  lemma {:induction false} CurrentScheduleOwned(name: string, lines: seq<string>)
    ensures FirstHit(HitsAgent(name), lines) == if Owned(name, lines) == [] then None else Some(Owned(name, lines)[0])
  {
    if lines != [] {
      CurrentScheduleOwned(name, lines[1..]);
    }
  }

  /** A tag followed by the carriage return is a tag at the end of the line. */
  lemma TagBeforeReturn(line: string, tag: string, i: nat)
    requires tag != "" && '\r' !in tag && line != "" && line[|line| - 1] == '\r'
    requires i <= |line|
    ensures TaggedAt(line, tag, i) <==> i < |line| && TaggedAt(StripReturn(line), tag, i)
  {
  }

  lemma HitsReturnBlind(name: string)
    requires ValidName(name)
    ensures ReturnBlind(HitsAgent(name)) && ReturnBlind(Misses(name))
  {
    forall line {:trigger StripReturn(line)} ensures IsAgentLine(StripReturn(line), name) == IsAgentLine(line, name) {
      var short := StripReturn(line);
      if short != line {
        NameHasNoReturn(name);
        forall i: nat | i <= |line| {
          TagBeforeReturn(line, TAG + name, i);
        }
      }
    }
  }

  lemma NameHasNoReturn(name: string)
    requires ValidName(name)
    ensures '\r' !in TAG + name && TAG + name != ""
  {
  }

  /** One edit, exactly: the agent owns the new line and nothing else; any other
      agent keeps the lines that did not also carry the edited agent's tag. */
  lemma EditedOwned(tab: string, name: string, schedule: Option<string>, other: string)
    requires ValidName(name) && ValidName(other)
    requires schedule.Some? ==> IsSchedule(schedule.value)
    ensures Owned(other, Lines(Edited(tab, name, schedule))) ==
            if other == name then Put(if schedule.Some? then Some(CronLine(name, schedule.value)) else None)
            else StripReturns(Kept(HitsAgent(name), Owned(other, Lines(tab))))
  {
    var line := if schedule.Some? then Some(CronLine(name, schedule.value)) else None;
    if schedule.Some? {
      CronLineShape(name, schedule.value);
      CronLineTagged(name, schedule.value, other);
    }
    var kept := Kept(HitsAgent(name), Lines(tab));
    ReplacedLines(HitsAgent(name), tab, line);
    HitsReturnBlind(other);
    KeptAppend(Misses(other), StripReturns(kept), Put(line));
    KeptStrip(Misses(other), kept);
    KeptTwice(Misses(other), HitsAgent(name), Lines(tab));
    if schedule.Some? {
      KeptCons(Misses(other), line.value, []);
    }
  }

  datatype Edit = Edit(name: string, schedule: Option<string>)

  ghost predicate ValidEdits(edits: seq<Edit>) {
    forall e | e in edits :: ValidName(e.name) && (e.schedule.Some? ==> IsSchedule(e.schedule.value))
  }

  /** The tab after a run of installations and removals. */
  function Run(tab: string, edits: seq<Edit>): string {
    if edits == [] then tab
    else
      var last := edits[|edits| - 1];
      Edited(Run(tab, edits[..|edits| - 1]), last.name, last.schedule)
  }

  /** What the run last said about an agent. */
  function LastWord(edits: seq<Edit>, name: string): Option<Option<string>> {
    if edits == [] then None
    else if edits[|edits| - 1].name == name then Some(edits[|edits| - 1].schedule)
    else LastWord(edits[..|edits| - 1], name)
  }

  function StripTimes(k: nat, lines: seq<string>): seq<string> {
    if k == 0 then lines else StripReturns(StripTimes(k - 1, lines))
  }

  /** No line carries the tags of two agents. */
  ghost predicate SingleTagged(tab: string) {
    forall l, n, m | l in Lines(tab) && ValidName(n) && ValidName(m) && n != m :: !(IsAgentLine(l, n) && IsAgentLine(l, m))
  }

  lemma {:induction false} StripMisses(hit: string -> bool, lines: seq<string>)
    requires ReturnBlind(hit) && forall l | l in lines :: !hit(l)
    ensures forall l | l in StripReturns(lines) :: !hit(l)
  {
    if lines != [] {
      assert lines[0] in lines;
      StripMisses(hit, lines[1..]);
    }
  }

  lemma {:induction false} StripTimesMisses(hit: string -> bool, k: nat, lines: seq<string>)
    requires ReturnBlind(hit) && forall l | l in lines :: !hit(l)
    ensures forall l | l in StripTimes(k, lines) :: !hit(l)
  {
    if k != 0 {
      StripTimesMisses(hit, k - 1, lines);
      StripMisses(hit, StripTimes(k - 1, lines));
    }
  }

  /** What an agent owns after a run that begins with `lines` of its own. */
  function Expected(edits: seq<Edit>, name: string, lines: seq<string>): seq<string> {
    match LastWord(edits, name)
    case None => StripTimes(|edits|, lines)
    case Some(None) => []
    case Some(Some(schedule)) => [CronLine(name, schedule)]
  }

  lemma {:induction false} LastWordValid(edits: seq<Edit>, name: string)
    requires ValidEdits(edits)
    ensures var word := LastWord(edits, name);
            word.Some? && word.value.Some? ==> ValidName(name) && IsSchedule(word.value.value)
  {
    if edits != [] {
      assert edits[|edits| - 1] in edits;
      LastWordValid(edits[..|edits| - 1], name);
    }
  }

  /** A line an agent owns after a run carries no other agent's tag. */
  lemma ExpectedMisses(tab: string, edits: seq<Edit>, name: string, other: string)
    requires ValidEdits(edits) && ValidName(name) && ValidName(other) && name != other && SingleTagged(tab)
    ensures forall l | l in Expected(edits, name, Owned(name, Lines(tab))) :: !IsAgentLine(l, other)
  {
    var lines := Owned(name, Lines(tab));
    KeptMembers(Misses(name), Lines(tab));
    HitsReturnBlind(other);
    StripTimesMisses(HitsAgent(other), |edits|, lines);
    LastWordValid(edits, name);
    var word := LastWord(edits, name);
    if word.Some? && word.value.Some? {
      CronLineTagged(name, word.value.value, other);
    }
  }

  /** A run, exactly: each agent owns the one line of its last installation,
      nothing after its last removal, and its own lines when the run did not
      mention it. */
  lemma {:induction false} RunOwned(tab: string, edits: seq<Edit>, name: string)
    requires ValidEdits(edits) && ValidName(name) && SingleTagged(tab)
    ensures Owned(name, Lines(Run(tab, edits))) == Expected(edits, name, Owned(name, Lines(tab)))
  {
    if edits != [] {
      var last, front := edits[|edits| - 1], edits[..|edits| - 1];
      assert last in edits && forall e | e in front :: e in edits;
      RunOwned(tab, front, name);
      EditedOwned(Run(tab, front), last.name, last.schedule, name);
      if last.name != name {
        ExpectedStays(tab, front, name, last.name);
      }
    }
  }

  lemma ExpectedStays(tab: string, edits: seq<Edit>, name: string, other: string)
    requires ValidEdits(edits) && ValidName(name) && ValidName(other) && name != other && SingleTagged(tab)
    ensures var lines := Expected(edits, name, Owned(name, Lines(tab)));
            StripReturns(Kept(HitsAgent(other), lines)) ==
            if LastWord(edits, name).None? then StripTimes(|edits| + 1, Owned(name, Lines(tab))) else lines
  {
    var lines := Expected(edits, name, Owned(name, Lines(tab)));
    ExpectedMisses(tab, edits, name, other);
    KeptAll(HitsAgent(other), lines);
    LastWordValid(edits, name);
    var word := LastWord(edits, name);
    if word.Some? && word.value.Some? {
      CronLineShape(name, word.value.value);
      StripReturnsSame(lines);
    }
  }

  lemma {:induction false} StripTimesFirst(k: nat, lines: seq<string>)
    ensures |StripTimes(k, lines)| == |lines|
    ensures lines != [] ==> ScheduleOf(StripTimes(k, lines)[0]) == ScheduleOf(lines[0])
  {
    if k != 0 {
      StripTimesFirst(k - 1, lines);
      if lines != [] {
        TrimStripReturn(StripTimes(k - 1, lines)[0]);
      }
    }
  }

  /** The tab is a map from names to schedules: after any run, looking up an
      agent gives what the run last said about it. */
  lemma RunIsMap(tab: string, edits: seq<Edit>, name: string)
    requires ValidEdits(edits) && ValidName(name) && SingleTagged(tab)
    ensures CurrentSchedule(Run(tab, edits), name) ==
            match LastWord(edits, name)
            case None => CurrentSchedule(tab, name)
            case Some(schedule) => schedule
  {
    RunOwned(tab, edits, name);
    CurrentScheduleOwned(name, Lines(tab));
    CurrentScheduleOwned(name, Lines(Run(tab, edits)));
    StripTimesFirst(|edits|, Owned(name, Lines(tab)));
    LastWordValid(edits, name);
    var word := LastWord(edits, name);
    if word.Some? && word.value.Some? {
      CronLineSchedule(name, word.value.value);
    }
  }

  // ---- the lines of others ------------------------------------------------

  ghost predicate IsTagged(line: string) {
    exists n :: ValidName(n) && IsAgentLine(line, n)
  }

  ghost function Tagged(): string -> bool {
    line => IsTagged(line)
  }

  lemma TaggedReturnBlind()
    ensures ReturnBlind(Tagged())
  {
    forall line {:trigger StripReturn(line)} ensures IsTagged(StripReturn(line)) == IsTagged(line) {
      forall n | ValidName(n) ensures IsAgentLine(StripReturn(line), n) == IsAgentLine(line, n) {
        HitsReturnBlind(n);
        assert HitsAgent(n)(StripReturn(line)) == HitsAgent(n)(line);
      }
    }
  }

  /** The lines of nobody. */
  ghost function Foreign(lines: seq<string>): seq<string> {
    Kept(Tagged(), lines)
  }

  /** One edit takes a carriage return off those that end with a newline. */
  lemma EditedForeign(tab: string, name: string, schedule: Option<string>)
    requires ValidName(name) && (schedule.Some? ==> IsSchedule(schedule.value))
    ensures var edited := Edited(tab, name, schedule);
            && Unterminated(edited) == ""
            && Foreign(Terminated(edited)) == StripReturns(Foreign(Terminated(tab))) + Foreign(Last(Unterminated(tab)))
  {
    var line := if schedule.Some? then Some(CronLine(name, schedule.value)) else None;
    if schedule.Some? {
      CronLineShape(name, schedule.value);
      CronLineTagged(name, schedule.value, name);
    }
    HitsReturnBlind(name);
    TaggedReturnBlind();
    ReplacedOthers(Tagged(), HitsAgent(name), tab, line);
  }

  /** They keep their order and their text through any run, except that each
      edit takes one carriage return off the end of those that then end with a
      newline; the first edit gives a newline to the last line. */
  lemma {:induction false} RunKeepsForeign(tab: string, edits: seq<Edit>)
    requires ValidEdits(edits) && edits != []
    ensures var after := Run(tab, edits);
            && Unterminated(after) == ""
            && Foreign(Terminated(after)) ==
               StripTimes(|edits|, Foreign(Terminated(tab))) + StripTimes(|edits| - 1, Foreign(Last(Unterminated(tab))))
  {
    var last, front := edits[|edits| - 1], edits[..|edits| - 1];
    assert last in edits && forall e | e in front :: e in edits;
    EditedForeign(Run(tab, front), last.name, last.schedule);
    var terminated, rest := Foreign(Terminated(tab)), Foreign(Last(Unterminated(tab)));
    if front == [] {
      assert StripTimes(1, terminated) == StripReturns(StripTimes(0, terminated));
    } else {
      RunKeepsForeign(tab, front);
      StripReturnsAppend(StripTimes(|front|, terminated), StripTimes(|front| - 1, rest));
      assert Foreign(Last("")) == [];
    }
  }

  lemma {:induction false} StripReturnsAt(lines: seq<string>, i: nat)
    requires i < |lines|
    ensures StripReturns(lines)[i] == StripReturn(lines[i])
  {
    if i != 0 {
      StripReturnsAt(lines[1..], i - 1);
    }
  }

  lemma {:induction false} StripTimesShorter(k: nat, lines: seq<string>, i: nat)
    requires k > 0 && i < |lines|
    ensures |StripTimes(k, lines)| == |lines|
    ensures |StripTimes(k, lines)[i]| <= |StripReturn(lines[i])|
  {
    if k == 1 {
      StripReturnsAt(lines, i);
    } else {
      StripTimesShorter(k - 1, lines, i);
      StripReturnsAt(StripTimes(k - 1, lines), i);
    }
  }

  lemma {:induction false} StripTimesKeeps(k: nat, lines: seq<string>)
    requires NoReturns(lines)
    ensures StripTimes(k, lines) == lines
  {
    if k != 0 {
      StripReturnsSame(lines);
      StripTimesKeeps(k - 1, lines);
    }
  }

  lemma StripTimesSame(k: nat, lines: seq<string>)
    ensures |StripTimes(k, lines)| == |lines|
    ensures StripTimes(k, lines) == lines <==> k == 0 || NoReturns(lines)
  {
    StripTimesFirst(k, lines);
    if NoReturns(lines) {
      StripTimesKeeps(k, lines);
    }
    if k != 0 && StripTimes(k, lines) == lines {
      forall l | l in lines ensures StripReturn(l) == l {
        var i: nat :| i < |lines| && lines[i] == l;
        StripTimesShorter(k, lines, i);
      }
    }
  }

  /** Hence a run preserves them byte for byte exactly when none of them that
      ends with a newline has a carriage return before it, and, from the second
      edit on, neither has the last line. */
  lemma RunLeavesForeign(tab: string, edits: seq<Edit>)
    requires ValidEdits(edits) && edits != []
    ensures Foreign(RawLines(Run(tab, edits))) == Foreign(RawLines(tab)) <==>
            && NoReturns(Foreign(Terminated(tab)))
            && (|edits| > 1 ==> NoReturns(Foreign(Last(Unterminated(tab)))))
  {
    var after := Run(tab, edits);
    var terminated, rest := Foreign(Terminated(tab)), Foreign(Last(Unterminated(tab)));
    RunKeepsForeign(tab, edits);
    assert RawLines(after) == Terminated(after);
    KeptAppend(Tagged(), Terminated(tab), Last(Unterminated(tab)));
    StripTimesSame(|edits|, terminated);
    StripTimesSame(|edits| - 1, rest);
    BothSame(StripTimes(|edits|, terminated), terminated, StripTimes(|edits| - 1, rest), rest);
  }

  lemma BothSame(a: seq<string>, b: seq<string>, c: seq<string>, d: seq<string>)
    requires |a| == |b| && |c| == |d|
    ensures a + c == b + d <==> a == b && c == d
  {
    assert (a + c)[..|a|] == a && (b + d)[..|b|] == b && (a + c)[|a|..] == c && (b + d)[|b|..] == d;
  }

  // ---- edits that touch other lines ---------------------------------------

  lemma ShortUntagged(line: string, name: string)
    requires |line| < |TAG|
    ensures !IsAgentLine(line, name)
  {
  }

  /** A tab with the line ends of another system loses them. */
  lemma CarriageReturnLost(name: string)
    requires ValidName(name)
    ensures Run("A\r\n", [Edit(name, None)]) == "A\n"
  {
    var edits := [Edit(name, None)];
    assert edits[..0] == [] && "A\r\n" == "A\r" + "\n" + "";
    LinesCons("A\r", "");
    assert StripReturn("A\r") == "A" && Lines("A\r\n") == ["A"];
    ShortUntagged("A", name);
    KeptCons(HitsAgent(name), "A", []);
    assert ["A"] + [] == ["A"];
  }

  /** A line with the tags of two agents goes with either. */
  lemma TwoTagsGoTogether()
    ensures var tab := TAG + "a " + (TAG + "b") + "\n";
            && |Owned("b", Lines(tab))| == 1
            && Owned("b", Lines(Run(tab, [Edit("a", None)]))) == []
  {
    var line := TAG + "a " + (TAG + "b");
    var edits := [Edit("a", None)];
    assert edits[..0] == [];
    LineTwice(line);
    assert line + "\n" == line + "\n" + "";
    LinesCons(line, "");
    assert Lines(line + "\n") == [line];
    KeptCons(HitsAgent("a"), line, []);
    KeptCons(Misses("b"), line, []);
  }

  lemma LineTwice(line: string)
    requires line == TAG + "a " + (TAG + "b")
    ensures IsAgentLine(line, "a") && IsAgentLine(line, "b") && OneLine(line)
  {
    TagText();
    var n := |TAG| + 2;
    assert line[0..|TAG + "a"|] == TAG + "a" && line[|TAG + "a"|] == ' ';
    assert TaggedAt(line, TAG + "a", 0);
    assert line[n..n + |TAG + "b"|] == TAG + "b";
    assert TaggedAt(line, TAG + "b", n);
  }
}
