/** What the list of backup jobs shows of a crontab line (src/backup_schedule.rs):
    the line itself, redacted when its command holds a password. The password is
    looked for in the command with its words joined by single spaces, and
    redacted in the line as it is. */
module BackupListing {
  import opened Text
  import opened Schedules
  import opened Redaction
  import opened BackupTab
  import opened CronCommands

  datatype ListedJob = ListedJob(job: Job, line: string)

  /** `parse_line` with the line that `finish` lists. */
  function ParseListed(raw: string): Option<ListedJob> {
    match ParseLine(raw)
    case None => None
    case Some(job) => Some(ListedJob(job, if job.secret then RedactLegacy(raw) else raw))
  }

  function ListedLine(raw: string): Option<string> {
    match ParseListed(raw)
    case None => None
    case Some(listed) => Some(listed.line)
  }

  ghost predicate HoldsSecret(raw: string) {
    ParseLine(raw).Some? && ParseLine(raw).value.secret
  }

  lemma SecretLine(raw: string)
    requires HoldsSecret(raw)
    ensures ListedLine(raw) == Some(RedactLegacy(raw))
  {
  }

  /** The listed line is the same for every password. */
  ghost predicate Hidden(prefix: string, suffix: string) {
    forall a, b :: ListedLine(Quoted(prefix, a, suffix)) == ListedLine(Quoted(prefix, b, suffix))
  }

  /** For jobs that hold a secret whatever the password is: the listed line is
      independent of the password exactly when the marker stands before it in
      the raw line. */
  lemma ListedPassword(prefix: string, suffix: string)
    requires forall password :: HoldsSecret(Quoted(prefix, password, suffix))
    requires Contains(prefix, MARIADB_MARKER) ==> EndsWithFirst(prefix, MARIADB_MARKER)
    requires !Contains(prefix, POSTGRES_MARKER) && !StartsWith(suffix, "\\''")
    ensures Hidden(prefix, suffix) <==> Contains(prefix, MARIADB_MARKER)
  {
    HiddenIffMarked(prefix, suffix);
    forall password
      ensures ListedLine(Quoted(prefix, password, suffix)) == Some(RedactLegacy(Quoted(prefix, password, suffix)))
    {
      SecretLine(Quoted(prefix, password, suffix));
    }
  }

  // ---- the lines of the old panel -----------------------------------------

  const DUMP := "mariadb-dump"
  const ROOT := "-uroot"
  const PASSWORD := "-p'"
  const ENGINE_COMMAND := ENGINE_BINARY + " backup run-scheduled "

  /** A line that dumps a MariaDB database: the schedule, any text before the
      name of the dump program, what stands between the three words of the
      marker, and any text after the password. */
  datatype DumpLine = DumpLine(schedule: string, head: string, first: string, second: string, tail: string, target: Target)

  predicate IsBlank(s: string) {
    forall c | c in s :: IsWhitespace(c)
  }

  /** The text with its words one space apart, as `finish` gets a command. */
  function Command(text: string): string {
    Join(SplitWhitespace(text), ' ')
  }

  ghost predicate IsLegacy(l: DumpLine) {
    && IsSchedule(l.schedule) && IsTarget(l.target)
    && l.first != "" && IsBlank(l.first) && l.second != "" && IsBlank(l.second)
    && !StartsWith(Command(l.head + DUMP), ENGINE_COMMAND)
  }

  function Lead(l: DumpLine): string {
    l.schedule + " " + l.head
  }

  /** From the dump program to the opening quote. */
  function Marked(first: string, second: string): string {
    DUMP + (first + (ROOT + (second + PASSWORD)))
  }

  function LegacyPrefix(l: DumpLine): string {
    Lead(l) + Marked(l.first, l.second)
  }

  function LegacySuffix(l: DumpLine): string {
    l.tail + (TAG_COMMENT + Meta(l.target))
  }

  function LegacyLine(l: DumpLine, password: string): string {
    Quoted(LegacyPrefix(l), password, LegacySuffix(l))
  }

  lemma {:induction false} SplitBlanks(blanks: string, s: string)
    requires IsBlank(blanks)
    ensures SplitWhitespace(blanks + s) == SplitWhitespace(s)
  {
    if blanks == "" {
      assert blanks + s == s;
    } else {
      assert blanks[0] in blanks && blanks + s == [blanks[0]] + (blanks[1..] + s);
      SplitWhitespaceBlank(blanks[0], blanks[1..] + s);
      SplitBlanks(blanks[1..], s);
    }
  }

  /** Words do not reach over blanks. */
  lemma {:induction false} SplitGap(a: string, gap: string, b: string)
    requires gap != "" && IsBlank(gap)
    ensures SplitWhitespace(a + (gap + b)) == SplitWhitespace(a) + SplitWhitespace(b)
  {
    assert gap[0] in gap && gap == [gap[0]] + gap[1..];
    Regroup([gap[0]], gap[1..], b);
    Regroup(a, [gap[0]], gap[1..] + b);
    SplitAtBlank(a, gap[0], gap[1..] + b);
    SplitBlanks(gap[1..], b);
  }

  lemma CommandGap(a: string, gap: string, b: string)
    requires gap != "" && IsBlank(gap) && SplitWhitespace(a) != [] && SplitWhitespace(b) != []
    ensures Command(a + (gap + b)) == Command(a) + " " + Command(b)
  {
    SplitGap(a, gap, b);
    JoinAppend(SplitWhitespace(a), SplitWhitespace(b), ' ');
  }

  lemma FirstWordStarts(p: string, x: string)
    requires IsWord(p)
    ensures var words := SplitWhitespace(p + x); words != [] && StartsWith(words[0], p)
  {
    var s := p + x;
    assert s[0] == p[0] && p[0] in p;
    var n := WordLength(s);
    assert forall k | 0 <= k < |p| :: s[k] == p[k] && p[k] in p;
    assert n >= |p|;
    assert s[..n][..|p|] == p;
  }

  lemma CommandStarts(p: string, x: string)
    requires IsWord(p)
    ensures SplitWhitespace(p + x) != [] && StartsWith(Command(p + x), p)
  {
    FirstWordStarts(p, x);
    var words := SplitWhitespace(p + x);
    assert Command(p + x)[..|p|] == words[0][..|p|];
  }

  lemma EndsAppend(a: string, y: string, name: string)
    requires EndsWith(y, name)
    ensures EndsWith(a + y, name)
  {
    assert (a + y)[|a + y| - |name|..] == y[|y| - |name|..];
  }

  lemma {:induction false} CommandEnds(x: string, p: string)
    requires IsWord(p)
    ensures SplitWhitespace(x + p) != [] && EndsWith(Command(x + p), p)
    decreases |x|
  {
    if x == "" {
      assert x + p == p;
      SplitWhitespaceWord(p);
    } else if IsWhitespace(x[0]) {
      assert x + p == [x[0]] + (x[1..] + p);
      SplitWhitespaceBlank(x[0], x[1..] + p);
      CommandEnds(x[1..], p);
    } else {
      FirstWordEnds(x, p);
    }
  }

  lemma {:induction false} FirstWordEnds(x: string, p: string)
    requires IsWord(p) && x != "" && !IsWhitespace(x[0])
    ensures SplitWhitespace(x + p) != [] && EndsWith(Command(x + p), p)
    decreases |x|, 0
  {
    var n := WordLength(x);
    if n == |x| {
      assert x[..n] == x;
      assert forall c | c in x + p :: c in x[..n] || c in p;
      SplitWhitespaceWord(x + p);
      assert EndsWith(p, p);
      EndsAppend(x, p, p);
    } else {
      assert x + p == x[..n] + ([x[n]] + (x[n + 1..] + p));
      CommandEnds(x[n + 1..], p);
      assert forall c | c in x[..n] :: !IsWhitespace(c);
      SplitWhitespaceWord(x[..n]);
      CommandGap(x[..n], [x[n]], x[n + 1..] + p);
      EndsAppend(Command(x[..n]) + " ", Command(x[n + 1..] + p), p);
    }
  }

  lemma PiecesAreWords()
    ensures IsWord(DUMP) && IsWord(ROOT) && IsWord(PASSWORD)
    ensures MARIADB_MARKER == DUMP + (" " + (ROOT + (" " + PASSWORD)))
  {
    GraphicWord(DUMP);
    GraphicWord(ROOT);
    GraphicWord(PASSWORD);
  }

  /** The command of a line: the blanks between its words are single spaces. */
  lemma LegacyCommand(l: DumpLine, x: string)
    requires IsLegacy(l)
    ensures var rest := l.head + (Marked(l.first, l.second) + x);
            && SplitWhitespace(rest) != []
            && Command(rest) == Command(l.head + DUMP) + " " + (ROOT + " " + Command(PASSWORD + x))
  {
    PiecesAreWords();
    var last := PASSWORD + x;
    CommandStarts(PASSWORD, x);
    SplitWhitespaceWord(ROOT);
    CommandGap(ROOT, l.second, last);
    SplitGap(ROOT, l.second, last);
    CommandEnds(l.head, DUMP);
    CommandGap(l.head + DUMP, l.first, ROOT + (l.second + last));
    SplitGap(l.head + DUMP, l.first, ROOT + (l.second + last));
    MarkedText(l.head, l.first, l.second, x);
  }

  lemma MarkedText(a: string, first: string, second: string, x: string)
    ensures a + (Marked(first, second) + x) == a + DUMP + (first + (ROOT + (second + (PASSWORD + x))))
  {
    Regroup(second, PASSWORD, x);
    Regroup(ROOT, second + PASSWORD, x);
    Regroup(first, ROOT + (second + PASSWORD), x);
    Regroup(DUMP, first + (ROOT + (second + PASSWORD)), x);
    Regroup(a, DUMP, first + (ROOT + (second + (PASSWORD + x))));
  }

  /** A text that is no engine command stays none when text is added after a
      character that no engine command has. */
  lemma StaysNoEngine(a: string, k: nat, y: string, engine: string)
    requires k < |a| && a[k] !in engine && !StartsWith(a, engine)
    ensures !StartsWith(a + y, engine)
  {
    if |engine| <= |a| {
      assert (a + y)[..|engine|] == a[..|engine|];
    } else if |engine| <= |a + y| {
      assert (a + y)[..|engine|][k] == a[k];
    }
  }

  lemma NoDumpInEngine()
    ensures DUMP[0] == 'm' && 'm' !in ENGINE_COMMAND
  {
    assert 'm' !in ENGINE_BINARY && 'm' !in " backup run-scheduled ";
  }

  lemma MarkerInside(a: string, b: string, j: string)
    requires EndsWith(a, DUMP) && StartsWith(j, PASSWORD) && b == a + " " + (ROOT + " " + j)
    ensures Contains(b, MARIADB_MARKER)
  {
    PiecesAreWords();
    var at := |a| - |DUMP|;
    assert a == a[..at] + DUMP && j == PASSWORD + j[|PASSWORD|..];
    assert b == a[..at] + (MARIADB_MARKER + j[|PASSWORD|..]);
    assert OccursAt(b, MARIADB_MARKER, at);
  }

  lemma SecretText(a: string, j: string, command: string)
    requires EndsWith(a, DUMP) && !StartsWith(a, ENGINE_COMMAND) && StartsWith(j, PASSWORD)
    requires command == a + " " + (ROOT + " " + j)
    ensures Find(command, MARIADB_MARKER).Some? && !StartsWith(command, ENGINE_COMMAND)
  {
    MarkerInside(a, command, j);
    NoDumpInEngine();
    assert a[|a| - |DUMP|] == a[|a| - |DUMP|..][0];
    var y := " " + (ROOT + " " + j);
    assert command == a + y;
    StaysNoEngine(a, |a| - |DUMP|, y, ENGINE_COMMAND);
  }

  lemma CommandHoldsSecret(l: DumpLine, x: string)
    requires IsLegacy(l)
    ensures var command := Command(l.head + (Marked(l.first, l.second) + x));
            Find(command, MARIADB_MARKER).Some? && !StartsWith(command, ENGINE_COMMAND)
  {
    PiecesAreWords();
    LegacyCommand(l, x);
    CommandEnds(l.head, DUMP);
    CommandStarts(PASSWORD, x);
    SecretText(Command(l.head + DUMP), Command(PASSWORD + x), Command(l.head + (Marked(l.first, l.second) + x)));
  }

  lemma ScheduleStart(schedule: string)
    requires IsSchedule(schedule)
    ensures Tight(schedule) && schedule[0] != '#'
  {
    ScheduleText(schedule);
    NoHash();
    assert schedule[0] in schedule;
  }

  lemma NoHash()
    ensures !IsScheduleChar('#')
  {
  }

  /** A schedule followed by a text with words is split after its fields. */
  lemma ScheduleThenText(schedule: string, rest: string)
    requires IsSchedule(schedule) && SplitWhitespace(rest) != []
    ensures SplitFields(SplitWhitespace(schedule + " " + rest)) == Some((schedule, SplitWhitespace(rest)))
  {
    var fields := ScheduleFields(schedule);
    FieldsAreWords(fields);
    SplitWhitespaceJoinRest(fields, rest);
    FieldsThenWords(fields, SplitWhitespace(rest));
  }

  /** A tagged line with such a command is a job that holds a secret. */
  lemma TaggedSecret(schedule: string, rest: string, t: Target)
    requires IsSchedule(schedule) && IsTarget(t) && SplitWhitespace(rest) != []
    requires Find(Command(rest), MARIADB_MARKER).Some? && !StartsWith(Command(rest), ENGINE_COMMAND)
    ensures HoldsSecret(schedule + " " + rest + (TAG_COMMENT + Meta(t)))
  {
    var before := schedule + " " + rest;
    ScheduleStart(schedule);
    assert before[0] == schedule[0];
    MetaParses(t);
    TagTight(before, Meta(t));
    ParseTight(before + (TAG_COMMENT + Meta(t)));
    ParseTagged(before, Meta(t), true);
    ScheduleThenText(schedule, rest);
  }

  /** Every such line is a job that holds a secret, whatever the password, the
      blanks and the text around it are. */
  lemma LegacySecret(l: DumpLine, password: string)
    requires IsLegacy(l)
    ensures HoldsSecret(LegacyLine(l, password))
  {
    var x := Escape(password) + ("'" + l.tail);
    LegacyCommand(l, x);
    CommandHoldsSecret(l, x);
    TaggedSecret(l.schedule, l.head + (Marked(l.first, l.second) + x), l.target);
    LineText(l.schedule + " ", l.head, Marked(l.first, l.second), Escape(password), l.tail, TAG_COMMENT + Meta(l.target));
  }

  lemma LineText(schedule: string, head: string, marked: string, e: string, tail: string, tag: string)
    ensures schedule + head + marked + (e + ("'" + (tail + tag))) == schedule + (head + (marked + (e + ("'" + tail)))) + tag
  {
    Regroup("'", tail, tag);
    Regroup(e, "'" + tail, tag);
    Regroup(marked, e + ("'" + tail), tag);
    Regroup(schedule + head, marked, e + ("'" + tail) + tag);
    Regroup(schedule, head, marked + (e + ("'" + tail) + tag));
    Regroup(head, marked + (e + ("'" + tail)), tag);
    Regroup(schedule, head + (marked + (e + ("'" + tail))), tag);
  }

  // ---- which of them show their password ----------------------------------

  /** Neither marker is in the text. */
  ghost predicate IsUnmarked(s: string) {
    !Contains(s, MARIADB_MARKER) && !Contains(s, POSTGRES_MARKER)
  }

  lemma EndOccurs(s: string, p: string)
    requires EndsWith(s, p)
    ensures OccursAt(s, p, |s| - |p|)
  {
    assert s[|s| - |p|..] == s[|s| - |p|..|s|];
  }

  /** After a text without the marker, and with one more quote at its end, the
      marker can only be at that end. */
  lemma OnlyAtEnd(lead: string, front: string, marker: string)
    requires OpensQuote(marker) && !Contains(lead, marker) && '\'' !in front
    ensures var prefix := lead + (front + "'");
            && (Contains(prefix, marker) ==> EndsWith(prefix, marker) && EndsWithFirst(prefix, marker))
            && (EndsWith(prefix, marker) ==> Contains(prefix, marker))
  {
    var prefix := lead + (front + "'");
    var at := |prefix| - |marker|;
    assert forall i | |lead| <= i < |prefix| - 1 :: prefix[i] == front[i - |lead|] && front[i - |lead|] in front;
    NotBefore(prefix, lead, marker);
    forall j: nat | OccursAt(prefix, marker, j) ensures j == at {
      OccursChars(prefix, marker, j);
      assert prefix[j + |marker| - 1] == '\'';
    }
    if EndsWith(prefix, marker) {
      EndOccurs(prefix, marker);
    }
    if Contains(prefix, marker) {
      FindIs(prefix, marker, at);
    }
  }

  /** From the dump program to the password, without the quote. */
  function MarkedFront(first: string, second: string): string {
    DUMP + (first + (ROOT + (second + "-p")))
  }

  lemma MarkedQuotes(first: string, second: string)
    requires IsBlank(first) && IsBlank(second)
    ensures Marked(first, second) == MarkedFront(first, second) + "'" && '\'' !in MarkedFront(first, second)
  {
    assert PASSWORD == "-p" + "'";
    Regroup(second, "-p", "'");
    Regroup(ROOT, second + "-p", "'");
    Regroup(first, ROOT + (second + "-p"), "'");
    Regroup(DUMP, first + (ROOT + (second + "-p")), "'");
    assert '\'' !in DUMP && '\'' !in ROOT && '\'' !in "-p" && !IsWhitespace('\'');
  }

  lemma DiffersNearEnd(s: string, p: string, k: nat)
    requires k < |p| <= |s| && s[|s| - |p| + k] != p[k]
    ensures !EndsWith(s, p)
  {
    assert s[|s| - |p|..][k] == s[|s| - |p| + k];
  }

  /** Blanks that are not one space differ from one space at their end. */
  lemma GapEnds(before: string, gap: string, after: string)
    requires gap != "" && IsBlank(gap) && gap != " "
    ensures var s := before + (gap + after);
            && (s[|s| - |after| - 1] != ' ' || (|gap| > 1 && IsWhitespace(s[|s| - |after| - 2])))
  {
    var s := before + (gap + after);
    assert s[|s| - |after| - 1] == gap[|gap| - 1];
    if |gap| > 1 {
      assert s[|s| - |after| - 2] == gap[|gap| - 2] && gap[|gap| - 2] in gap;
    } else {
      assert gap == [gap[0]];
    }
  }

  lemma MarkerChars()
    ensures |MARIADB_MARKER| == 23 && |ROOT| == 6 && |PASSWORD| == 3
    ensures MARIADB_MARKER[11] == 'p' && MARIADB_MARKER[12] == ' ' && MARIADB_MARKER[18] == 't' && MARIADB_MARKER[19] == ' '
    ensures !IsWhitespace('p') && !IsWhitespace('t')
  {
  }

  lemma GapDiffers(before: string, gap: string, after: string, k: nat)
    requires gap != "" && IsBlank(gap) && gap != " " && |after| + k + 1 == 23 && k > 0 && |before| + |gap| + |after| >= 23
    requires MARIADB_MARKER[k] == ' ' && !IsWhitespace(MARIADB_MARKER[k - 1])
    ensures !EndsWith(before + (gap + after), MARIADB_MARKER)
  {
    MarkerChars();
    GapEnds(before, gap, after);
    var s := before + (gap + after);
    if s[|s| - |after| - 1] != ' ' {
      DiffersNearEnd(s, MARIADB_MARKER, k);
    } else {
      DiffersNearEnd(s, MARIADB_MARKER, k - 1);
    }
  }

  /** The prefix ends with the marker exactly when its words are one space apart. */
  lemma PrefixMarker(lead: string, first: string, second: string)
    requires first != "" && IsBlank(first) && second != "" && IsBlank(second)
    ensures EndsWith(lead + Marked(first, second), MARIADB_MARKER) <==> first == " " && second == " "
  {
    PiecesAreWords();
    MarkerChars();
    var prefix := lead + Marked(first, second);
    if second != " " {
      var before := lead + (DUMP + (first + ROOT));
      assert prefix == before + (second + PASSWORD);
      GapDiffers(before, second, PASSWORD, 19);
    } else if first != " " {
      var before, after := lead + DUMP, ROOT + (second + PASSWORD);
      assert prefix == before + (first + after);
      GapDiffers(before, first, after, 12);
    } else {
      assert prefix == lead + MARIADB_MARKER;
    }
  }

  lemma PrefixNoPostgres(lead: string, first: string, second: string)
    ensures !EndsWith(lead + Marked(first, second), POSTGRES_MARKER)
  {
    var prefix := lead + Marked(first, second);
    assert POSTGRES_MARKER[10] == '=' && |POSTGRES_MARKER| == 12;
    assert prefix[|prefix| - 2] == PASSWORD[1] == 'p';
    DiffersNearEnd(prefix, POSTGRES_MARKER, 10);
  }

  /** Where the markers are in the text up to the password. */
  lemma PrefixMarkers(l: DumpLine)
    requires IsLegacy(l) && IsUnmarked(Lead(l))
    ensures Contains(LegacyPrefix(l), MARIADB_MARKER) <==> l.first == " " && l.second == " "
    ensures Contains(LegacyPrefix(l), MARIADB_MARKER) ==> EndsWithFirst(LegacyPrefix(l), MARIADB_MARKER)
    ensures !Contains(LegacyPrefix(l), POSTGRES_MARKER)
  {
    MarkersOpenQuotes();
    MarkedQuotes(l.first, l.second);
    OnlyAtEnd(Lead(l), MarkedFront(l.first, l.second), MARIADB_MARKER);
    OnlyAtEnd(Lead(l), MarkedFront(l.first, l.second), POSTGRES_MARKER);
    PrefixMarker(Lead(l), l.first, l.second);
    PrefixNoPostgres(Lead(l), l.first, l.second);
  }

  /** The password of a line without an earlier marker is hidden in the list
      exactly when the three words of the marker are one space apart. */
  lemma LegacyPasswordListed(l: DumpLine)
    requires IsLegacy(l) && IsUnmarked(Lead(l)) && !StartsWith(LegacySuffix(l), "\\''")
    ensures Hidden(LegacyPrefix(l), LegacySuffix(l)) <==> l.first == " " && l.second == " "
  {
    forall password ensures HoldsSecret(Quoted(LegacyPrefix(l), password, LegacySuffix(l))) {
      LegacySecret(l, password);
    }
    PrefixMarkers(l);
    ListedPassword(LegacyPrefix(l), LegacySuffix(l));
  }

  // ---- lines that are listed as they are ----------------------------------

  /** A marker is before the password, or ends at its quote, or is after it. */
  lemma UnmarkedLine(prefix: string, word: string, suffix: string, marker: string)
    requires OpensQuote(marker) && prefix != "" && prefix[|prefix| - 1] == '\''
    requires word != "" && '\'' !in word && word[|word| - 1] != marker[|marker| - 2]
    requires !Contains(prefix, marker) && !Contains(suffix, marker)
    ensures !Contains(prefix + (word + ("'" + suffix)), marker)
  {
    var s, quote := prefix + (word + ("'" + suffix)), |prefix| + |word|;
    assert s[|prefix| - 1] == '\'' && s[quote] == '\'' && s[quote - 1] == word[|word| - 1];
    assert forall i | |prefix| <= i < quote :: s[i] == word[i - |prefix|] && word[i - |prefix|] in word;
    NotBefore(s, prefix, marker);
    var before := prefix + (word + "'");
    assert s == before + suffix && |before| == quote + 1;
    forall j: nat ensures !OccursAt(s, marker, j) {
      if j > quote {
        OccursLater(before, suffix, marker, j);
      } else if OccursAt(s, marker, j) {
        OccursChars(s, marker, j);
        MarkerEndsAtQuote(s, marker, j, quote);
      }
    }
  }

  lemma BeforeQuotes()
    ensures MARIADB_MARKER[|MARIADB_MARKER| - 2] == 'p' && POSTGRES_MARKER[|POSTGRES_MARKER| - 2] == '='
  {
  }

  lemma UnmarkedListed(prefix: string, word: string, suffix: string)
    requires HoldsSecret(Quoted(prefix, word, suffix)) && prefix != "" && prefix[|prefix| - 1] == '\''
    requires word != "" && '\'' !in word && word[|word| - 1] != 'p' && word[|word| - 1] != '='
    requires IsUnmarked(prefix) && IsUnmarked(suffix)
    ensures ListedLine(Quoted(prefix, word, suffix)) == Some(Quoted(prefix, word, suffix))
  {
    SecretLine(Quoted(prefix, word, suffix));
    PlainEscape(word);
    MarkersOpenQuotes();
    BeforeQuotes();
    UnmarkedLine(prefix, word, suffix, MARIADB_MARKER);
    UnmarkedLine(prefix, word, suffix, POSTGRES_MARKER);
  }

  /** Other blanks: the job is known to hold a secret, and its line is listed as
      it is. The password is any plain one that does not end like a marker. */
  lemma OtherBlanksListed(l: DumpLine, word: string)
    requires IsLegacy(l) && IsUnmarked(Lead(l)) && IsUnmarked(LegacySuffix(l)) && !(l.first == " " && l.second == " ")
    requires word != "" && '\'' !in word && word[|word| - 1] != 'p' && word[|word| - 1] != '='
    ensures var line := LegacyLine(l, word); HoldsSecret(line) && ListedLine(line) == Some(line)
  {
    LegacySecret(l, word);
    PrefixMarkers(l);
    MarkedQuotes(l.first, l.second);
    UnmarkedListed(LegacyPrefix(l), word, LegacySuffix(l));
  }

  lemma {:induction false} PlainEscape(word: string)
    requires '\'' !in word
    ensures Escape(word) == word
  {
    if word != "" {
      PlainEscape(word[1..]);
      assert word == [word[0]] + word[1..];
    }
  }

  // ---- the panel's own line -----------------------------------------------

  const QUOTED_CONTAINER := "'db-1'"
  const QUOTED_DATABASE := "'wp_prod'"
  const BEFORE_CONTAINER := "mkdir" + " -p /root/db-backups && docker exec "
  const BEFORE_DATABASE := " --single-transaction --routines --triggers "
  const AFTER_DATABASE := " > /root/db-backups/wp_prod.sql"

  /** As the panel wrote it, but for the blanks after the dump program. */
  function PanelLine(schedule: string, first: string, t: Target): DumpLine {
    DumpLine(schedule, BEFORE_CONTAINER + (QUOTED_CONTAINER + " "), first, " ",
           BEFORE_DATABASE + (QUOTED_DATABASE + AFTER_DATABASE), t)
  }

  predicate EndsMarker(c: char) {
    c == 'p' || c == '='
  }

  /** No quote stands where a marker has one. */
  predicate IsClean(s: string) {
    forall i | 0 < i < |s| && s[i] == '\'' :: !EndsMarker(s[i - 1])
  }

  lemma CleanIsUnmarked(s: string)
    requires IsClean(s)
    ensures IsUnmarked(s)
  {
    MarkersOpenQuotes();
    BeforeQuotes();
    CleanHasNone(s, MARIADB_MARKER);
    CleanHasNone(s, POSTGRES_MARKER);
  }

  lemma CleanHasNone(s: string, marker: string)
    requires IsClean(s) && OpensQuote(marker) && EndsMarker(marker[|marker| - 2])
    ensures !Contains(s, marker)
  {
    forall j: nat ensures !OccursAt(s, marker, j) {
      if OccursAt(s, marker, j) {
        OccursChars(s, marker, j);
      }
    }
  }

  lemma CleanAppend(a: string, b: string)
    requires IsClean(a) && IsClean(b) && (a == "" || !EndsMarker(a[|a| - 1]))
    ensures IsClean(a + b)
  {
    var s := a + b;
    forall i | 0 < i < |s| && s[i] == '\'' ensures !EndsMarker(s[i - 1]) {
      if i > |a| {
        assert b[i - |a|] == '\'' && s[i - 1] == b[i - |a| - 1];
      }
    }
  }

  lemma PlainIsClean(s: string)
    requires '\'' !in s
    ensures IsClean(s)
  {
  }

  lemma PanelPieces()
    ensures IsClean(QUOTED_CONTAINER) && IsClean(QUOTED_DATABASE)
    ensures QUOTED_CONTAINER[|QUOTED_CONTAINER| - 1] == '\'' && QUOTED_DATABASE[|QUOTED_DATABASE| - 1] == '\''
  {
  }

  lemma ContainerPlain()
    ensures IsClean(BEFORE_CONTAINER) && BEFORE_CONTAINER[|BEFORE_CONTAINER| - 1] == ' ' && IsClean(" ")
  {
    assert '\'' !in BEFORE_CONTAINER;
  }

  lemma DatabasePlain()
    ensures IsClean(BEFORE_DATABASE) && BEFORE_DATABASE[0] == ' ' && BEFORE_DATABASE[|BEFORE_DATABASE| - 1] == ' '
  {
    assert '\'' !in BEFORE_DATABASE;
  }

  lemma AfterPlain()
    ensures IsClean(AFTER_DATABASE) && AFTER_DATABASE[|AFTER_DATABASE| - 1] == 'l'
  {
    assert '\'' !in AFTER_DATABASE;
  }

  lemma PanelLead(schedule: string, first: string, t: Target)
    requires IsSchedule(schedule)
    ensures IsUnmarked(Lead(PanelLine(schedule, first, t)))
  {
    PanelPieces();
    ContainerPlain();
    CleanAppend(QUOTED_CONTAINER, " ");
    CleanAppend(BEFORE_CONTAINER, QUOTED_CONTAINER + " ");
    ScheduleText(schedule);
    assert !IsScheduleChar('\'');
    PlainIsClean(schedule + " ");
    CleanAppend(schedule + " ", BEFORE_CONTAINER + (QUOTED_CONTAINER + " "));
    CleanIsUnmarked(Lead(PanelLine(schedule, first, t)));
  }

  lemma PanelSuffix(schedule: string, first: string, t: Target)
    requires IsTarget(t)
    ensures var suffix := LegacySuffix(PanelLine(schedule, first, t));
            IsUnmarked(suffix) && !StartsWith(suffix, "\\''")
  {
    PanelPieces();
    DatabasePlain();
    AfterPlain();
    CleanAppend(QUOTED_DATABASE, AFTER_DATABASE);
    CleanAppend(BEFORE_DATABASE, QUOTED_DATABASE + AFTER_DATABASE);
    DbTypeChars(t.dbType);
    assert '\'' !in TAG_COMMENT;
    PlainIsClean(TAG_COMMENT + Meta(t));
    var tail := BEFORE_DATABASE + (QUOTED_DATABASE + AFTER_DATABASE);
    assert tail[|tail| - 1] == 'l' && (tail + (TAG_COMMENT + Meta(t)))[0] == ' ';
    CleanAppend(tail, TAG_COMMENT + Meta(t));
    CleanIsUnmarked(tail + (TAG_COMMENT + Meta(t)));
    assert "\\''"[0] == '\\';
    DiffersAt(tail + (TAG_COMMENT + Meta(t)), "\\''", 0);
  }

  lemma PanelIsLegacy(schedule: string, first: string, t: Target)
    requires IsSchedule(schedule) && IsTarget(t) && first != "" && IsBlank(first)
    ensures IsLegacy(PanelLine(schedule, first, t))
  {
    var l := PanelLine(schedule, first, t);
    var word, more := "mkdir", " -p /root/db-backups && docker exec " + (QUOTED_CONTAINER + " ") + DUMP;
    assert l.head + DUMP == word + more;
    GraphicWord(word);
    CommandStarts(word, more);
    var command := Command(l.head + DUMP);
    assert command[0] == command[..|word|][0] == 'm' && ENGINE_COMMAND[0] == '/';
    DiffersAt(command, ENGINE_COMMAND, 0);
    assert IsBlank(" ");
  }

  /** A line as the panel wrote it hides its password in the list. */
  lemma PanelLineHidden(schedule: string, t: Target)
    requires IsSchedule(schedule) && IsTarget(t)
    ensures var l := PanelLine(schedule, " ", t); Hidden(LegacyPrefix(l), LegacySuffix(l))
  {
    assert IsBlank(" ");
    PanelIsLegacy(schedule, " ", t);
    PanelLead(schedule, " ", t);
    PanelSuffix(schedule, " ", t);
    LegacyPasswordListed(PanelLine(schedule, " ", t));
  }

  const HUNTER := "hunter2"

  lemma HunterIsPlain()
    ensures HUNTER != "" && '\'' !in HUNTER && HUNTER[|HUNTER| - 1] == '2'
  {
  }

  lemma MoreSpacesListed(schedule: string, first: string, word: string, t: Target)
    requires IsSchedule(schedule) && IsTarget(t) && first != "" && first != " " && IsBlank(first)
    requires word != "" && '\'' !in word && word[|word| - 1] != 'p' && word[|word| - 1] != '='
    ensures var line := LegacyLine(PanelLine(schedule, first, t), word); HoldsSecret(line) && ListedLine(line) == Some(line)
  {
    PanelIsLegacy(schedule, first, t);
    PanelLead(schedule, first, t);
    PanelSuffix(schedule, first, t);
    OtherBlanksListed(PanelLine(schedule, first, t), word);
  }

  /** With one more space it is flagged, and listed with its password. */
  lemma DoubleSpaceListed(schedule: string, t: Target)
    requires IsSchedule(schedule) && IsTarget(t)
    ensures var line := LegacyLine(PanelLine(schedule, "  ", t), HUNTER); HoldsSecret(line) && ListedLine(line) == Some(line)
  {
    var first := "  ";
    assert IsBlank(first);
    HunterIsPlain();
    MoreSpacesListed(schedule, first, HUNTER, t);
  }
}
