/** The crontab lines of scheduled database backups (src/backup_schedule.rs):
    a store of jobs keyed by target and schedule, kept in the text of a tab
    among lines that belong to others. */
module BackupTab {
  import opened Text
  import opened Schedules
  import opened Redaction
  import opened LineStore
  import opened CronCommands

  datatype DbType = Mariadb | Postgres

  function DbTypeText(t: DbType): string {
    match t
    case Mariadb => "mariadb"
    case Postgres => "postgres"
  }

  function ParseDbType(s: string): Option<DbType> {
    if s == "mariadb" then Some(Mariadb)
    else if s == "postgres" then Some(Postgres)
    else None
  }

  predicate IsNameChar(c: char) {
    IsAlphanumeric(c) || c == '_'
  }

  /** `DatabaseName::parse`. */
  predicate IsDatabaseName(s: string) {
    s != "" && |s| <= 64 && forall c | c in s :: IsNameChar(c)
  }

  datatype Target = Target(dbType: DbType, database: string)

  predicate IsTarget(t: Target) {
    IsDatabaseName(t.database)
  }

  function ParseTarget(dbType: string, database: string): (r: Option<Target>)
    ensures r.Some? ==> IsTarget(r.value)
  {
    match ParseDbType(dbType)
    case Some(t) => if IsDatabaseName(database) then Some(Target(t, database)) else None
    case None => None
  }

  datatype Format = Engine | Legacy

  /** What a tagged line says; `BackupListing` adds the line that is listed. */
  datatype Job = Job(target: Target, schedule: string, retentionDays: nat, enabled: bool, format: Format, secret: bool)

  const ENGINE_BINARY := "/usr/local/bin/ops-engine"
  /** The comment that tags a line, with the spaces around it. */
  const TAG_COMMENT := " # [db-backup] "
  const RETENTION := "--retention-days"

  /** The words of the installed command. */
  function CommandWords(t: Target, retentionDays: nat): seq<string> {
    [ENGINE_BINARY, "backup", "run-scheduled", "--db-type", DbTypeText(t.dbType), "--database", t.database,
     RETENTION, Decimal(retentionDays), ">/dev/null"]
  }

  /** `engine_line`. */
  function EngineLine(t: Target, schedule: string, retentionDays: nat): string {
    schedule + " " + Join(CommandWords(t, retentionDays), ' ') + TAG_COMMENT + (DbTypeText(t.dbType) + ":" + t.database)
  }

  function DigitPrefix(s: string): (d: string)
    ensures AllDigits(d)
  {
    if s != "" && IsDigit(s[0]) then [s[0]] + DigitPrefix(s[1..]) else ""
  }

  /** `number_after`. */
  function NumberAfter(command: string, marker: string): nat {
    match Find(command, marker)
    case None => 0
    case Some(at) =>
      match ParseU32(DigitPrefix(command[at + |marker|..]))
      case None => 0
      case Some(n) => n
  }

  /** `finish`, without the line's text. */
  function Finish(enabled: bool, schedule: string, command: string, t: Target): Job {
    var format := if StartsWith(command, ENGINE_BINARY + " backup run-scheduled ") then Engine else Legacy;
    var secret := format == Legacy && (Find(command, MARIADB_MARKER).Some? || Find(command, POSTGRES_MARKER).Some?);
    Job(t, schedule, NumberAfter(command, if format == Engine then RETENTION + " " else "-mtime +"), enabled, format, secret)
  }

  function ParseContent(enabled: bool, content: string): Option<Job> {
    match FindLast(content, TAG_COMMENT)
    case None => None
    case Some(at) =>
      match SplitOnce(Trim(content[at + |TAG_COMMENT|..]), ':')
      case None => None
      case Some((dbType, database)) =>
        match ParseTarget(Trim(dbType), Trim(database))
        case None => None
        case Some(target) =>
          match SplitFields(SplitWhitespace(Trim(content[..at])))
          case None => None
          case Some((schedule, words)) =>
            if words == [] then None else Some(Finish(enabled, schedule, Join(words, ' '), target))
  }

  /** `parse_line`. */
  function ParseLine(raw: string): Option<Job> {
    var trimmed := Trim(raw);
    ParseContent(!StartsWith(trimmed, "#"), Trim(TrimHashes(trimmed)))
  }

  // ---- an installed line reads back ---------------------------------------

  lemma TagChars(k: nat)
    requires k < |TAG_COMMENT|
    ensures TAG_COMMENT[k] == '[' <==> k == 3
  {
  }

  /** The last tag of a line is its own when nothing after it opens a bracket. */
  lemma {:induction false} TagPosition(before: string, meta: string)
    requires '[' !in meta
    ensures FindLast(before + (TAG_COMMENT + meta), TAG_COMMENT) == Some(|before|)
  {
    var s, at := before + (TAG_COMMENT + meta), |before|;
    assert s[at..at + |TAG_COMMENT|] == TAG_COMMENT;
    forall k | at + 3 < k < |s| ensures s[k] != '[' {
      if k < at + |TAG_COMMENT| {
        assert s[k] == TAG_COMMENT[k - at];
        TagChars(k - at);
      } else {
        assert s[k] == meta[k - at - |TAG_COMMENT|];
        assert meta[k - at - |TAG_COMMENT|] in meta;
      }
    }
    forall j: nat | j > at ensures !OccursAt(s, TAG_COMMENT, j) {
      if OccursAt(s, TAG_COMMENT, j) {
        assert s[j + 3] == s[j..j + |TAG_COMMENT|][3];
        TagChars(3);
      }
    }
    assert OccursAt(s, TAG_COMMENT, at);
  }

  lemma TagTight(before: string, meta: string)
    requires before != "" && !IsWhitespace(before[0]) && Tight(meta)
    ensures Tight(before + (TAG_COMMENT + meta))
  {
  }

  /** A line that is not commented out is read at its tag. */
  lemma {:induction false} ParseTagged(before: string, meta: string, enabled: bool)
    requires Tight(meta) && '[' !in meta
    ensures ParseContent(enabled, before + (TAG_COMMENT + meta)) ==
            match SplitOnce(meta, ':')
            case None => None
            case Some((dbType, database)) =>
              match (ParseTarget(Trim(dbType), Trim(database)), SplitFields(SplitWhitespace(before)))
              case (Some(target), Some((schedule, words))) =>
                if words == [] then None else Some(Finish(enabled, schedule, Join(words, ' '), target))
              case _ => None
  {
    var s := before + (TAG_COMMENT + meta);
    TagPosition(before, meta);
    assert s[|before| + |TAG_COMMENT|..] == meta && s[..|before|] == before;
    TrimTight(meta);
    SplitTrim(before);
  }

  lemma {:induction false} DigitPrefixOf(d: string, rest: string)
    requires AllDigits(d) && (rest == "" || !IsDigit(rest[0]))
    ensures DigitPrefix(d + rest) == d
  {
    if d != "" {
      assert d[0] in d && (d + rest)[1..] == d[1..] + rest;
      assert forall c | c in d[1..] :: c in d;
      DigitPrefixOf(d[1..], rest);
    } else {
      assert d + rest == rest;
    }
  }

  predicate EndsWith(s: string, p: string) {
    |p| <= |s| && s[|s| - |p|..] == p
  }

  /** A marker without a space, found with a space after it, ends a word. */
  lemma OccursEndsWord(w: string, rest: string, m: string, j: nat)
    requires ' ' !in w && ' ' !in m && m != "" && j <= |w|
    requires OccursAt(w + " " + rest, m + " ", j)
    ensures EndsWith(w, m)
  {
    var s, piece := w + " " + rest, m + " ";
    OccursChars(s, piece, j);
    assert s[|w|] == ' ' && s[j + |m|] == ' ';
    assert forall k | 0 <= k < |w| :: s[k] == w[k] && w[k] in w;
    assert forall k | j <= k < j + |m| :: s[k] == m[k - j] && m[k - j] in m;
    assert j + |m| == |w|;
    assert w[|w| - |m|..] == m;
  }

  lemma {:induction false} FindSkipsWord(w: string, rest: string, m: string)
    requires ' ' !in w && ' ' !in m && m != "" && !EndsWith(w, m)
    requires Find(rest, m + " ").Some?
    ensures Find(w + " " + rest, m + " ") == Some(|w| + 1 + Find(rest, m + " ").value)
  {
    var s, p, at := w + " " + rest, m + " ", Find(rest, m + " ").value;
    forall j: nat | j < |w| + 1 + at ensures !OccursAt(s, p, j) {
      if j > |w| {
        OccursLater(w + " ", rest, p, j);
      } else if OccursAt(s, p, j) {
        OccursEndsWord(w, rest, m, j);
      }
    }
    OccursLater(w + " ", rest, p, |w| + 1 + at);
    FindIs(s, p, |w| + 1 + at);
  }

  /** The marker after words that do not end with it is found right after them. */
  lemma {:induction false} FindAfterWords(ws: seq<string>, m: string, rest: string)
    requires ws != [] && forall w | w in ws :: IsWord(w) && !EndsWith(w, m)
    requires IsWord(m)
    ensures Find(Join(ws, ' ') + " " + (m + " " + rest), m + " ") == Some(|Join(ws, ' ')| + 1)
    decreases |ws|
  {
    var target := m + " " + rest;
    assert ws[0] in ws && IsWord(ws[0]);
    assert ' ' !in m && forall w | w in ws :: ' ' !in w;
    if |ws| == 1 {
      assert target[0..|m| + 1] == m + " ";
      FindIs(target, m + " ", 0);
      FindSkipsWord(ws[0], target, m);
    } else {
      FindAfterWords(ws[1..], m, rest);
      JoinRest(ws, target);
      FindSkipsWord(ws[0], Join(ws[1..], ' ') + " " + target, m);
    }
  }

  lemma AfterMarker(before: string, m: string, tail: string)
    ensures (before + (m + " " + tail))[|before| + |m| + 1..] == tail
  {
  }

  lemma {:induction false} NumberAfterWords(ws: seq<string>, m: string, n: nat, rest: string)
    requires ws != [] && forall w | w in ws :: IsWord(w) && !EndsWith(w, m)
    requires IsWord(m) && n <= U32_MAX
    ensures NumberAfter(Join(ws, ' ') + " " + (m + " " + (Decimal(n) + " " + rest)), m + " ") == n
  {
    var d, before := Decimal(n), Join(ws, ' ') + " ";
    var tail := d + " " + rest;
    var command := before + (m + " " + tail);
    FindAfterWords(ws, m, tail);
    AfterMarker(before, m, tail);
    Regroup(d, " ", rest);
    NumberRead(command, m + " ", |before|, n, " " + rest);
  }

  lemma NumberRead(command: string, marker: string, at: nat, n: nat, rest: string)
    requires Find(command, marker) == Some(at) && at + |marker| <= |command| && n <= U32_MAX
    requires command[at + |marker|..] == Decimal(n) + rest && (rest == "" || !IsDigit(rest[0]))
    ensures NumberAfter(command, marker) == n
  {
    DigitPrefixOf(Decimal(n), rest);
    assert '+' !in Decimal(n);
  }

  function HeadWords(t: Target): seq<string> {
    [ENGINE_BINARY, "backup", "run-scheduled", "--db-type", DbTypeText(t.dbType), "--database", t.database]
  }

  lemma DbTypeChars(t: DbType)
    ensures DbTypeText(t) != "" && forall c | c in DbTypeText(t) :: IsLower(c)
    ensures ParseDbType(DbTypeText(t)) == Some(t)
  {
  }

  lemma NotEndsWith(w: string, m: string)
    requires w != "" && m != "" && (|w| < |m| || w[|w| - 1] != m[|m| - 1] || m[0] !in w)
    ensures !EndsWith(w, m)
  {
  }

  predicate PlainWord(w: string) {
    IsWord(w) && !EndsWith(w, RETENTION)
  }

  lemma WordPlain(w: string)
    requires w != "" && w[|w| - 1] != 's' && forall c | c in w :: IsGraphic(c)
    ensures PlainWord(w)
  {
  }

  lemma FixedWordsPlain()
    ensures PlainWord(ENGINE_BINARY) && PlainWord("backup") && PlainWord("run-scheduled")
    ensures PlainWord("--db-type") && PlainWord("--database")
  {
    WordPlain(ENGINE_BINARY);
    WordPlain("backup");
    WordPlain("run-scheduled");
    WordPlain("--db-type");
    WordPlain("--database");
  }

  lemma TargetWordsPlain(t: Target)
    requires IsTarget(t)
    ensures PlainWord(DbTypeText(t.dbType)) && PlainWord(t.database)
  {
    DbTypeChars(t.dbType);
    NotEndsWith(DbTypeText(t.dbType), RETENTION);
    NotEndsWith(t.database, RETENTION);
  }

  lemma HeadWordsPlain(t: Target)
    requires IsTarget(t)
    ensures forall w | w in HeadWords(t) :: PlainWord(w)
  {
    FixedWordsPlain();
    TargetWordsPlain(t);
  }

  lemma Join3(a: string, b: string, c: string)
    ensures Join([a, b, c], ' ') == a + " " + (b + " " + c)
  {
    assert [a, b, c][1..] == [b, c] && [b, c][1..] == [c];
    assert Join([b, c], ' ') == b + [' '] + c;
  }

  lemma TailWords(retentionDays: nat)
    ensures IsWord(RETENTION) && IsWord(Decimal(retentionDays)) && IsWord(">/dev/null")
  {
    GraphicWord(RETENTION);
    GraphicWord(Decimal(retentionDays));
    GraphicWord(">/dev/null");
  }

  lemma CommandWordsSplit(t: Target, retentionDays: nat)
    requires IsTarget(t)
    ensures forall w | w in CommandWords(t, retentionDays) :: IsWord(w)
    ensures Join(CommandWords(t, retentionDays), ' ')
         == Join(HeadWords(t), ' ') + " " + (RETENTION + " " + (Decimal(retentionDays) + " " + ">/dev/null"))
  {
    var tail := [RETENTION, Decimal(retentionDays), ">/dev/null"];
    HeadWordsPlain(t);
    TailWords(retentionDays);
    assert CommandWords(t, retentionDays) == HeadWords(t) + tail;
    JoinAppend(HeadWords(t), tail, ' ');
    Join3(RETENTION, Decimal(retentionDays), ">/dev/null");
  }

  lemma CommandStart(t: Target, retentionDays: nat)
    ensures StartsWith(Join(CommandWords(t, retentionDays), ' '), ENGINE_BINARY + " backup run-scheduled ")
  {
    var words := CommandWords(t, retentionDays);
    var first := [ENGINE_BINARY, "backup", "run-scheduled"];
    assert words == first + words[3..];
    JoinAppend(first, words[3..], ' ');
    assert first[1..] == ["backup", "run-scheduled"];
    assert Join(["backup", "run-scheduled"], ' ') == "backup" + [' '] + "run-scheduled";
    assert Join(first, ' ') + [' '] == ENGINE_BINARY + " backup run-scheduled ";
  }

  /** The job an installed line stands for. */
  function EngineJob(t: Target, schedule: string, retentionDays: nat): Job {
    Job(t, schedule, retentionDays, true, Engine, false)
  }

  lemma FinishEngine(t: Target, schedule: string, retentionDays: nat)
    requires IsTarget(t) && retentionDays <= U32_MAX
    ensures Finish(true, schedule, Join(CommandWords(t, retentionDays), ' '), t) == EngineJob(t, schedule, retentionDays)
  {
    CommandStart(t, retentionDays);
    CommandWordsSplit(t, retentionDays);
    HeadWordsPlain(t);
    NumberAfterWords(HeadWords(t), RETENTION, retentionDays, ">/dev/null");
  }

  function Meta(t: Target): string {
    DbTypeText(t.dbType) + ":" + t.database
  }

  lemma NameText(s: string)
    requires s != "" && forall c | c in s :: IsNameChar(c)
    ensures Tight(s) && Trim(s) == s && ':' !in s && '[' !in s
  {
    assert s[0] in s && s[|s| - 1] in s;
    TrimTight(s);
  }

  lemma MetaText(d: string, name: string)
    requires Tight(d) && Tight(name) && ':' !in d && '[' !in d && '[' !in name
    ensures Tight(d + ":" + name) && '[' !in d + ":" + name
    ensures SplitOnce(d + ":" + name, ':') == Some((d, name))
  {
    SplitOnceAt(d, ':', name);
  }

  lemma MetaParses(t: Target)
    requires IsTarget(t)
    ensures Tight(Meta(t)) && '[' !in Meta(t)
    ensures SplitOnce(Meta(t), ':') == Some((DbTypeText(t.dbType), t.database))
    ensures ParseTarget(Trim(DbTypeText(t.dbType)), Trim(t.database)) == Some(t)
  {
    DbTypeChars(t.dbType);
    NameText(DbTypeText(t.dbType));
    NameText(t.database);
    MetaText(DbTypeText(t.dbType), t.database);
  }

  /** A schedule's fields followed by a command's words are split again. */
  lemma {:induction false} FieldsThenWords(fields: seq<string>, words: seq<string>)
    requires ValidFields(fields) && words != [] && forall w | w in words :: IsWord(w)
    ensures var before := Join(fields, ' ') + " " + Join(words, ' ');
            && Tight(before) && before[0] == fields[0][0]
            && SplitWhitespace(before) == fields + words
    ensures SplitFields(fields + words) == Some((Join(fields, ' '), words))
  {
    FieldsAreWords(fields);
    var all := fields + words;
    JoinAppend(fields, words, ' ');
    SplitWhitespaceJoin(all);
    JoinWordsTight(all);
    FieldsSplit(fields, words);
  }

  lemma {:induction false} ScheduleThenWords(schedule: string, words: seq<string>)
    requires IsSchedule(schedule) && words != [] && forall w | w in words :: IsWord(w)
    ensures var before := schedule + " " + Join(words, ' ');
            && Tight(before) && before[0] != '#'
            && SplitFields(SplitWhitespace(before)) == Some((schedule, words))
  {
    var fields := ScheduleFields(schedule);
    FieldsThenWords(fields, words);
    FieldsAreWords(fields);
    assert fields[0] in fields && fields[0][0] in fields[0];
  }

  lemma EngineFields(t: Target, schedule: string, retentionDays: nat)
    requires IsTarget(t) && IsSchedule(schedule)
    ensures var before := schedule + " " + Join(CommandWords(t, retentionDays), ' ');
            && Tight(before) && before[0] != '#'
            && SplitFields(SplitWhitespace(before)) == Some((schedule, CommandWords(t, retentionDays)))
  {
    CommandWordsSplit(t, retentionDays);
    ScheduleThenWords(schedule, CommandWords(t, retentionDays));
  }

  lemma EngineLineShape(t: Target, schedule: string, retentionDays: nat)
    ensures EngineLine(t, schedule, retentionDays)
         == schedule + " " + Join(CommandWords(t, retentionDays), ' ') + (TAG_COMMENT + Meta(t))
  {
  }

  lemma EngineContent(t: Target, schedule: string, retentionDays: nat, enabled: bool)
    requires IsTarget(t) && IsSchedule(schedule) && retentionDays <= U32_MAX
    ensures ParseContent(enabled, EngineLine(t, schedule, retentionDays))
         == Some(EngineJob(t, schedule, retentionDays).(enabled := enabled))
  {
    EngineLineShape(t, schedule, retentionDays);
    EngineFields(t, schedule, retentionDays);
    MetaParses(t);
    ParseTagged(schedule + " " + Join(CommandWords(t, retentionDays), ' '), Meta(t), enabled);
    FinishEngine(t, schedule, retentionDays);
  }

  lemma EngineLineTight(t: Target, schedule: string, retentionDays: nat)
    requires IsTarget(t) && IsSchedule(schedule)
    ensures var line := EngineLine(t, schedule, retentionDays); Tight(line) && line[0] != '#'
  {
    EngineLineShape(t, schedule, retentionDays);
    EngineFields(t, schedule, retentionDays);
    MetaParses(t);
    TagTight(schedule + " " + Join(CommandWords(t, retentionDays), ' '), Meta(t));
  }

  lemma ParseTight(line: string)
    requires Tight(line) && line[0] != '#'
    ensures ParseLine(line) == ParseContent(true, line)
    ensures ParseLine("#" + line) == ParseContent(false, line)
  {
    TrimTight(line);
    assert line[..1][0] == line[0];
    var commented := "#" + line;
    assert commented[..1] == "#" && commented[1..] == line;
    TrimTight(commented);
  }

  /** An installed line reads back as its job, and as the same job, disabled,
      when it is commented out. */
  lemma EngineLineParses(t: Target, schedule: string, retentionDays: nat)
    requires IsTarget(t) && IsSchedule(schedule) && retentionDays <= U32_MAX
    ensures ParseLine(EngineLine(t, schedule, retentionDays)) == Some(EngineJob(t, schedule, retentionDays))
    ensures ParseLine("#" + EngineLine(t, schedule, retentionDays))
         == Some(EngineJob(t, schedule, retentionDays).(enabled := false))
  {
    EngineLineTight(t, schedule, retentionDays);
    ParseTight(EngineLine(t, schedule, retentionDays));
    EngineContent(t, schedule, retentionDays, true);
    EngineContent(t, schedule, retentionDays, false);
  }

  // ---- what cron runs -----------------------------------------------------

  /** The options of `backup run-scheduled` for a target. */
  function RunOptions(dbType: string, database: string, retentionDays: string): map<string, string> {
    map["--db-type" := dbType, "--database" := database, "--retention-days" := retentionDays]
  }

  lemma OptionsRead(a: string, b: string, c: string)
    ensures ReadOptions(["--db-type", a, "--database", b, "--retention-days", c]) == Some(RunOptions(a, b, c))
  {
    var one, two, three := "--db-type", "--database", "--retention-days";
    assert one[..2] == "--" && two[..2] == "--" && three[..2] == "--";
    ThreeOptions(one, a, two, b, three, c);
    assert one[2] == 'd' && three[2] == 'r' && |one| == 9 && |two| == 10;
    assert map[three := c][two := b][one := a] == RunOptions(a, b, c);
  }

  lemma ThreeOptions(one: string, a: string, two: string, b: string, three: string, c: string)
    requires StartsWith(one, "--") && StartsWith(two, "--") && StartsWith(three, "--")
    ensures ReadOptions([one, a, two, b, three, c]) == Some(map[three := c][two := b][one := a])
  {
    assert [three, c][2..] == [] && [two, b, three, c][2..] == [three, c];
    assert [one, a, two, b, three, c][2..] == [two, b, three, c];
    assert ReadOptions([three, c]) == Some(map[three := c]);
    assert ReadOptions([two, b, three, c]) == Some(map[three := c][two := b]);
  }

  lemma {:induction false} PlainCommand(t: Target, retentionDays: nat)
    requires IsTarget(t)
    ensures var words := CommandWords(t, retentionDays); forall w | w in words[..9] :: IsPlain(w)
  {
    DbTypeChars(t.dbType);
    assert t.database[0] in t.database;
    assert Decimal(retentionDays)[0] in Decimal(retentionDays);
    assert IsPlain(ENGINE_BINARY) && IsPlain("backup") && IsPlain("run-scheduled") && IsPlain("--db-type");
    assert IsPlain("--database") && IsPlain(RETENTION);
  }

  lemma TagPieces(meta: string)
    ensures TAG_COMMENT[1..] + meta == "#" + " " + ("[db-backup]" + " " + meta)
  {
    assert TAG_COMMENT[1..] == "# [db-backup] ";
    assert "# [db-backup] " == "#" + " " + ("[db-backup]" + " ");
  }

  lemma TagWords(t: Target)
    requires IsTarget(t)
    ensures SplitWhitespace(TAG_COMMENT[1..] + Meta(t)) == ["#", "[db-backup]", Meta(t)]
  {
    MetaWord(t);
    GraphicWord("[db-backup]");
    TagPieces(Meta(t));
    SplitWhitespaceCons("#", "[db-backup]" + " " + Meta(t));
    SplitWhitespaceCons("[db-backup]", Meta(t));
    SplitWhitespaceWord(Meta(t));
  }

  lemma MetaWord(t: Target)
    requires IsTarget(t)
    ensures IsWord(Meta(t))
  {
    DbTypeChars(t.dbType);
  }

  lemma CommentedRuns(schedule: string, words: seq<string>, comment: string)
    requires IsSchedule(schedule) && words != [] && forall w | w in words :: IsWord(w)
    ensures CronRuns(schedule + " " + (Join(words, ' ') + " " + comment)) ==
            match ReadCommand(words + SplitWhitespace(comment))
            case None => None
            case Some(command) => Some((schedule, command))
  {
    SplitWhitespaceJoinRest(words, comment);
    LineRuns(schedule, Join(words, ' ') + " " + comment);
  }

  lemma TagStart(words: string, meta: string)
    ensures words + (TAG_COMMENT + meta) == words + " " + (TAG_COMMENT[1..] + meta)
  {
    assert TAG_COMMENT == " " + TAG_COMMENT[1..];
  }

  /** An installed line, whatever its command, is run on its schedule. */
  lemma TaggedRuns(schedule: string, words: seq<string>, t: Target)
    requires IsSchedule(schedule) && IsTarget(t) && words != [] && forall w | w in words :: IsWord(w)
    ensures CronRuns(schedule + " " + Join(words, ' ') + (TAG_COMMENT + Meta(t))) ==
            match ReadCommand(words + ["#", "[db-backup]", Meta(t)])
            case None => None
            case Some(command) => Some((schedule, command))
  {
    TagWords(t);
    TagStart(Join(words, ' '), Meta(t));
    CommentedRuns(schedule, words, TAG_COMMENT[1..] + Meta(t));
    Regroup(schedule + " ", Join(words, ' '), TAG_COMMENT + Meta(t));
  }

  lemma EngineCommandReads(t: Target, retentionDays: nat)
    requires IsTarget(t)
    ensures var command := ReadCommand(CommandWords(t, retentionDays) + ["#", "[db-backup]", Meta(t)]);
            && command.Some? && command.value.environment == map[]
            && command.value.program == ENGINE_BINARY && command.value.output == Some("/dev/null")
            && command.value.arguments == CommandWords(t, retentionDays)[1..9]
  {
    var words := CommandWords(t, retentionDays);
    PlainCommand(t, retentionDays);
    assert words == words[..9] + [">/dev/null"];
    assert '=' !in ENGINE_BINARY && ">/dev/null"[1..] == "/dev/null";
    CommandReads(words[..9], ">/dev/null", ["#", "[db-backup]", Meta(t)]);
    assert words[..9][1..] == words[1..9];
  }

  /** The installed line makes cron run the engine's scheduled backup, on the
      line's schedule, for the line's target and with its retention; and that is
      what the engine reads from the options. */
  lemma InstalledCommand(t: Target, schedule: string, retentionDays: nat)
    requires IsTarget(t) && IsSchedule(schedule) && retentionDays <= U32_MAX
    ensures var runs := CronRuns(EngineLine(t, schedule, retentionDays));
            && runs.Some? && runs.value.0 == schedule
            && var command := runs.value.1;
               && command.program == "/usr/local/bin/ops-engine" && command.environment == map[]
               && command.output == Some("/dev/null")
               && |command.arguments| > 2 && command.arguments[..2] == ["backup", "run-scheduled"]
               && var options := ReadOptions(command.arguments[2..]);
                  && options.Some?
                  && options.value.Keys == {"--db-type", "--database", "--retention-days"}
                  && options.value["--db-type"] == (if t.dbType.Mariadb? then "mariadb" else "postgres")
                  && options.value["--database"] == t.database
                  && ParseU32(options.value["--retention-days"]) == Some(retentionDays)
                  && ParseTarget(options.value["--db-type"], options.value["--database"]) == Some(t)
  {
    EngineRuns(t, schedule, retentionDays);
    EngineOptions(t, retentionDays);
  }

  lemma EngineRuns(t: Target, schedule: string, retentionDays: nat)
    requires IsTarget(t) && IsSchedule(schedule) && retentionDays <= U32_MAX
    ensures var arguments := CommandWords(t, retentionDays)[1..9];
            CronRuns(EngineLine(t, schedule, retentionDays)) ==
            Some((schedule, Command(map[], ENGINE_BINARY, arguments, Some("/dev/null"))))
  {
    CommandWordsSplit(t, retentionDays);
    EngineLineShape(t, schedule, retentionDays);
    TaggedRuns(schedule, CommandWords(t, retentionDays), t);
    EngineCommandReads(t, retentionDays);
  }

  lemma EngineOptions(t: Target, retentionDays: nat)
    requires IsTarget(t) && retentionDays <= U32_MAX
    ensures var arguments := CommandWords(t, retentionDays)[1..9];
            && arguments[..2] == ["backup", "run-scheduled"]
            && ReadOptions(arguments[2..]) == Some(RunOptions(DbTypeText(t.dbType), t.database, Decimal(retentionDays)))
    ensures ParseTarget(DbTypeText(t.dbType), t.database) == Some(t) && ParseU32(Decimal(retentionDays)) == Some(retentionDays)
  {
    var arguments := CommandWords(t, retentionDays)[1..9];
    assert arguments[..2] == ["backup", "run-scheduled"];
    assert arguments[2..] == ["--db-type", DbTypeText(t.dbType), "--database", t.database, RETENTION, Decimal(retentionDays)];
    OptionsRead(DbTypeText(t.dbType), t.database, Decimal(retentionDays));
    DbTypeChars(t.dbType);
    assert '+' !in Decimal(retentionDays);
  }

  // ---- the retention of a legacy line -------------------------------------

  const MTIME := "-mtime"

  /** The number after a marker that is followed by ` +`. */
  lemma {:induction false} NumberAfterPlus(ws: seq<string>, m: string, n: nat, rest: string)
    requires ws != [] && forall w | w in ws :: IsWord(w) && !EndsWith(w, m)
    requires IsWord(m) && n <= U32_MAX && (rest == "" || rest[0] == ' ')
    ensures NumberAfter(Join(ws, ' ') + " " + (m + " " + ("+" + (Decimal(n) + rest))), m + " +") == n
  {
    var d, before := Decimal(n), Join(ws, ' ') + " ";
    FindAfterWords(ws, m, "+" + (d + rest));
    FindPlus(before, m, d + rest);
    DigitPrefixOf(d, rest);
    assert '+' !in d;
  }

  lemma {:induction false} FindPlus(before: string, m: string, tail: string)
    requires Find(before + (m + " " + ("+" + tail)), m + " ") == Some(|before|)
    ensures var command := before + (m + " " + ("+" + tail));
            Find(command, m + " +") == Some(|before|) && command[|before| + |m + " +"|..] == tail
  {
    var p, command := m + " +", before + (m + " " + ("+" + tail));
    forall j: nat | j < |before| ensures !OccursAt(command, p, j) {
      PlusOccurs(command, m, j);
    }
    assert command == before + (p + tail);
    assert command[|before|..|before| + |p|] == p;
    FindIs(command, p, |before|);
  }

  lemma PlusOccurs(s: string, m: string, j: nat)
    ensures OccursAt(s, m + " +", j) ==> OccursAt(s, m + " ", j)
  {
    if OccursAt(s, m + " +", j) {
      assert s[j..j + |m| + 1] == s[j..j + |m| + 2][..|m| + 1];
    }
  }

  lemma LegacyText(ws: seq<string>, plus: string, more: seq<string>)
    requires ws != []
    ensures var rest := if more == [] then "" else " " + Join(more, ' ');
            Join(ws + ([MTIME, plus] + more), ' ') == Join(ws, ' ') + " " + (MTIME + " " + (plus + rest))
  {
    var tail := [MTIME, plus] + more;
    JoinAppend(ws, tail, ' ');
    assert tail[1..] == [plus] + more;
    if more == [] {
      assert tail == [MTIME, plus] && tail[1..] == [plus];
    } else {
      assert tail[1..][1..] == more;
      assert Join(tail[1..], ' ') == plus + [' '] + Join(more, ' ');
    }
  }

  /** A tagged line with another command than the engine's is a legacy job, and
      its retention is the number that its clean-up is called with. */
  lemma LegacyRetention(t: Target, schedule: string, ws: seq<string>, n: nat, more: seq<string>)
    requires IsTarget(t) && IsSchedule(schedule) && n <= U32_MAX
    requires ws != [] && (forall w | w in ws :: IsWord(w) && !EndsWith(w, MTIME)) && (forall w | w in more :: IsWord(w))
    requires var words := ws + ([MTIME, "+" + Decimal(n)] + more);
             !StartsWith(Join(words, ' '), ENGINE_BINARY + " backup run-scheduled ")
    ensures var words := ws + ([MTIME, "+" + Decimal(n)] + more);
            var job := ParseLine(schedule + " " + Join(words, ' ') + (TAG_COMMENT + Meta(t)));
            && job.Some? && job.value.format == Legacy && job.value.retentionDays == n
            && job.value.target == t && job.value.schedule == schedule && job.value.enabled
  {
    var plus := "+" + Decimal(n);
    var words := ws + ([MTIME, plus] + more);
    GraphicWord(MTIME);
    GraphicWord(plus);
    TaggedParses(t, schedule, words);
    LegacyNumber(ws, n, more);
    FinishLegacy(t, schedule, Join(words, ' '));
  }

  lemma FinishLegacy(t: Target, schedule: string, command: string)
    requires !StartsWith(command, ENGINE_BINARY + " backup run-scheduled ")
    ensures var job := Finish(true, schedule, command, t);
            && job.format == Legacy && job.retentionDays == NumberAfter(command, MTIME + " +")
            && job.target == t && job.schedule == schedule && job.enabled
  {
    assert MTIME + " +" == "-mtime +";
  }

  lemma LegacyNumber(ws: seq<string>, n: nat, more: seq<string>)
    requires n <= U32_MAX && ws != [] && forall w | w in ws :: IsWord(w) && !EndsWith(w, MTIME)
    ensures NumberAfter(Join(ws + ([MTIME, "+" + Decimal(n)] + more), ' '), MTIME + " +") == n
  {
    var rest := if more == [] then "" else " " + Join(more, ' ');
    GraphicWord(MTIME);
    LegacyText(ws, "+" + Decimal(n), more);
    Regroup("+", Decimal(n), rest);
    NumberAfterPlus(ws, MTIME, n, rest);
  }

  /** A tagged line is read as its command. */
  lemma TaggedParses(t: Target, schedule: string, words: seq<string>)
    requires IsTarget(t) && IsSchedule(schedule) && words != [] && forall w | w in words :: IsWord(w)
    ensures ParseLine(schedule + " " + Join(words, ' ') + (TAG_COMMENT + Meta(t))) ==
            Some(Finish(true, schedule, Join(words, ' '), t))
  {
    var before := schedule + " " + Join(words, ' ');
    ScheduleThenWords(schedule, words);
    MetaParses(t);
    TagTight(before, Meta(t));
    ParseTight(before + (TAG_COMMENT + Meta(t)));
    ParseTagged(before, Meta(t), true);
  }

  // ---- the tab as a store of jobs -----------------------------------------

  predicate HasKey(job: Job, t: Target, schedule: string) {
    job.target == t && job.schedule == schedule
  }

  /** `matches_job`. */
  predicate MatchesJob(line: string, t: Target, schedule: string) {
    var job := ParseLine(line);
    job.Some? && HasKey(job.value, t, schedule)
  }

  function HitsJob(t: Target, schedule: string): string -> bool {
    line => MatchesJob(line, t, schedule)
  }

  function HitsKey(t: Target, schedule: string): Job -> bool {
    job => HasKey(job, t, schedule)
  }

  /** Every tagged job in the tab, in file order: `list_jobs`. */
  function Jobs(tab: string): seq<Job> {
    Items(ParseLine, Lines(tab))
  }

  /** `with_job`: the new tab and how many lines it replaces. */
  method WithJob(tab: string, t: Target, schedule: string, retentionDays: nat) returns (text: string, replaced: nat)
    ensures text == Replaced(HitsJob(t, schedule), tab, Some(EngineLine(t, schedule, retentionDays)))
    ensures replaced == |Lines(tab)| - |Kept(HitsJob(t, schedule), Lines(tab))|
  {
    var lines;
    lines, replaced := Filter(HitsJob(t, schedule), Lines(tab));
    lines := lines + [EngineLine(t, schedule, retentionDays)];
    text := Render(lines);
  }

  /** `without_job`: the new tab and how many lines it removes. */
  method WithoutJob(tab: string, t: Target, schedule: string) returns (text: string, removed: nat)
    ensures text == Replaced(HitsJob(t, schedule), tab, None)
    ensures removed == |Lines(tab)| - |Kept(HitsJob(t, schedule), Lines(tab))|
  {
    var lines;
    lines, removed := Filter(HitsJob(t, schedule), Lines(tab));
    assert lines + [] == lines;
    text := Render(lines);
  }

  /** `needs_credentials`. */
  predicate NeedsCredentials(tab: string, t: Target) {
    exists job | job in Jobs(tab) :: job.format == Engine && job.target == t
  }

  lemma HitsReflect(t: Target, schedule: string)
    ensures Reflects(ParseLine, HitsJob(t, schedule), HitsKey(t, schedule))
  {
  }

  lemma ParseBlind()
    ensures ParseReturnBlind(ParseLine)
  {
    forall l {:trigger StripReturn(l)} ensures ParseLine(StripReturn(l)) == ParseLine(l) {
      TrimStripReturn(l);
    }
  }

  lemma HitsBlind(t: Target, schedule: string)
    ensures ReturnBlind(HitsJob(t, schedule))
  {
    forall l {:trigger StripReturn(l)} ensures HitsJob(t, schedule)(StripReturn(l)) == HitsJob(t, schedule)(l) {
      TrimStripReturn(l);
    }
  }

  lemma NoNewline(words: seq<string>)
    requires forall w | w in words :: IsWord(w)
    ensures '\n' !in Join(words, ' ')
  {
    if '\n' in Join(words, ' ') {
      JoinChars(words, ' ', '\n');
    }
  }

  lemma TaggedOneLine(schedule: string, command: string, meta: string)
    requires '\n' !in schedule && '\n' !in command && '\n' !in meta
    requires Tight(schedule + " " + command + (TAG_COMMENT + meta))
    ensures OneLine(schedule + " " + command + (TAG_COMMENT + meta))
  {
  }

  lemma EngineTexts(t: Target, retentionDays: nat)
    requires IsTarget(t)
    ensures '\n' !in Join(CommandWords(t, retentionDays), ' ') && '\n' !in Meta(t)
  {
    CommandWordsSplit(t, retentionDays);
    NoNewline(CommandWords(t, retentionDays));
    DbTypeChars(t.dbType);
  }

  lemma EngineLineOneLine(t: Target, schedule: string, retentionDays: nat)
    requires IsTarget(t) && IsSchedule(schedule)
    ensures OneLine(EngineLine(t, schedule, retentionDays))
  {
    EngineLineTight(t, schedule, retentionDays);
    EngineLineShape(t, schedule, retentionDays);
    ScheduleText(schedule);
    EngineTexts(t, retentionDays);
    TaggedOneLine(schedule, Join(CommandWords(t, retentionDays), ' '), Meta(t));
  }

  /** Scheduling a job replaces the jobs with its target and schedule by one
      engine job with the requested retention; all other jobs stay. */
  lemma WithJobRefines(tab: string, t: Target, schedule: string, retentionDays: nat)
    requires IsTarget(t) && IsSchedule(schedule) && retentionDays <= U32_MAX
    ensures Jobs(Replaced(HitsJob(t, schedule), tab, Some(EngineLine(t, schedule, retentionDays))))
         == Kept(HitsKey(t, schedule), Jobs(tab)) + [EngineJob(t, schedule, retentionDays)]
  {
    var line := EngineLine(t, schedule, retentionDays);
    HitsReflect(t, schedule);
    ParseBlind();
    EngineLineOneLine(t, schedule, retentionDays);
    EngineLineParses(t, schedule, retentionDays);
    ReplacedByItem(ParseLine, HitsJob(t, schedule), HitsKey(t, schedule), tab, line, EngineJob(t, schedule, retentionDays));
  }

  /** Unscheduling removes exactly the jobs with that target and schedule. */
  lemma WithoutJobRefines(tab: string, t: Target, schedule: string)
    ensures Jobs(Replaced(HitsJob(t, schedule), tab, None)) == Kept(HitsKey(t, schedule), Jobs(tab))
  {
    HitsReflect(t, schedule);
    ParseBlind();
    ReplacedItems(ParseLine, HitsJob(t, schedule), HitsKey(t, schedule), tab, None);
  }

  lemma PutThenUnschedule(tab: string, t: Target, schedule: string, line: string)
    requires OneLine(line) && MatchesJob(line, t, schedule)
    ensures var scheduled := Replaced(HitsJob(t, schedule), tab, Some(line));
            Replaced(HitsJob(t, schedule), scheduled, None) == Replaced(HitsJob(t, schedule), tab, None)
            <==> NoReturns(Kept(HitsJob(t, schedule), Lines(tab)))
  {
    HitsBlind(t, schedule);
    ReplaceThenRemove(HitsJob(t, schedule), tab, line);
  }

  /** "All other lines are preserved byte for byte", exactly when none of those
      that end with a newline has a carriage return before it. */
  lemma EditPreserves(tab: string, t: Target, schedule: string, line: Option<string>)
    requires line.Some? ==> '\n' !in line.value
    ensures RawLines(Replaced(HitsJob(t, schedule), tab, line)) == Kept(HitsJob(t, schedule), RawLines(tab)) + Put(line)
       <==> NoReturns(Kept(HitsJob(t, schedule), Terminated(tab)))
  {
    HitsBlind(t, schedule);
    ReplacedPreserves(HitsJob(t, schedule), tab, line);
  }

  lemma SchedulePreserves(tab: string, t: Target, schedule: string, retentionDays: nat)
    requires IsTarget(t) && IsSchedule(schedule)
    ensures var line := EngineLine(t, schedule, retentionDays);
            RawLines(Replaced(HitsJob(t, schedule), tab, Some(line))) == Kept(HitsJob(t, schedule), RawLines(tab)) + [line]
            <==> NoReturns(Kept(HitsJob(t, schedule), Terminated(tab)))
  {
    EngineLineOneLine(t, schedule, retentionDays);
    EditPreserves(tab, t, schedule, Some(EngineLine(t, schedule, retentionDays)));
  }

  lemma ShortNoJob(line: string)
    requires line == "A"
    ensures ParseLine(line).None?
  {
    TrimTight(line);
    assert line[..1] == "A" && !StartsWith(line, "#");
  }

  /** A tab with the line ends of another system loses them. */
  lemma CarriageReturnLost(t: Target, schedule: string)
    ensures Replaced(HitsJob(t, schedule), "A\r\n", None) == "A\n"
  {
    assert "A\r\n" == "A\r" + "\n" + "";
    LinesCons("A\r", "");
    assert StripReturn("A\r") == "A" && Lines("A\r\n") == ["A"];
    ShortNoJob("A");
    KeptCons(HitsJob(t, schedule), "A", []);
    assert ["A"] + [] == ["A"];
  }

  /** Scheduling and then unscheduling is unscheduling, exactly when no line
      that stays ends with a carriage return. */
  lemma ScheduleThenUnschedule(tab: string, t: Target, schedule: string, retentionDays: nat)
    requires IsTarget(t) && IsSchedule(schedule) && retentionDays <= U32_MAX
    ensures var scheduled := Replaced(HitsJob(t, schedule), tab, Some(EngineLine(t, schedule, retentionDays)));
            Replaced(HitsJob(t, schedule), scheduled, None) == Replaced(HitsJob(t, schedule), tab, None)
            <==> NoReturns(Kept(HitsJob(t, schedule), Lines(tab)))
  {
    var line := EngineLine(t, schedule, retentionDays);
    assert OneLine(line) by { EngineLineOneLine(t, schedule, retentionDays); }
    assert MatchesJob(line, t, schedule) by { EngineLineParses(t, schedule, retentionDays); }
    PutThenUnschedule(tab, t, schedule, line);
  }

  /** The credential file is needed while an engine job for the target is left:
      always after scheduling one, and after unscheduling exactly when one with
      another schedule remains. */
  lemma CredentialsFollowJobs(tab: string, t: Target, schedule: string, retentionDays: nat)
    requires IsTarget(t) && IsSchedule(schedule) && retentionDays <= U32_MAX
    ensures NeedsCredentials(Replaced(HitsJob(t, schedule), tab, Some(EngineLine(t, schedule, retentionDays))), t)
    ensures NeedsCredentials(Replaced(HitsJob(t, schedule), tab, None), t)
       <==> exists job | job in Jobs(tab) :: job.format == Engine && job.target == t && job.schedule != schedule
  {
    WithJobRefines(tab, t, schedule, retentionDays);
    assert EngineJob(t, schedule, retentionDays)
           in Jobs(Replaced(HitsJob(t, schedule), tab, Some(EngineLine(t, schedule, retentionDays))));
    WithoutJobRefines(tab, t, schedule);
    KeptMembers(HitsKey(t, schedule), Jobs(tab));
  }
}
