/** The override block that a site copy's `settings.php` gets
    (src/drupal_clone.rs), and what it means to PHP. */
module PhpSettings {
  import opened Text

  // ---- writing ------------------------------------------------------------

  /** `str::replace` of one character. */
  function Replace(s: string, c: char, replacement: string): string {
    if s == "" then "" else (if s[0] == c then replacement else [s[0]]) + Replace(s[1..], c, replacement)
  }

  function Escaped(value: string): string {
    Replace(Replace(value, '\\', "\\\\"), '\'', "\\'")
  }

  /** `quote`. */
  function Quote(value: string): string {
    "'" + Escaped(value) + "'"
  }

  datatype Overrides = Overrides(
    name: string,
    user: string,
    password: string,
    host: string,
    salt: string,
    domain: Option<string>,
    sourceRoot: string,
    blockMail: bool)

  const CONNECTION := "$databases" + "['default']" + "['default']"
  const DATABASE := CONNECTION + "['database']"
  const USERNAME := CONNECTION + "['username']"
  const PASSWORD := CONNECTION + "['password']"
  const HOST := CONNECTION + "['host']"
  const PORT := CONNECTION + "['port']"
  const UNIX_SOCKET := CONNECTION + "['unix_socket']"
  const SALT := "$settings" + "['hash_salt']"
  const PATTERNS := "$settings" + "['trusted_host_patterns']"
  const MAIL := "$config" + "['system.mail']" + "['interface']" + "['default']"
  const MAIL_COLLECTOR := "test_mail_collector"

  /** `host_pattern`. */
  function HostPattern(domain: string): string {
    "^" + Replace(domain, '.', "\\.") + "$"
  }

  /** The lines of the block, each with what it means. */
  datatype Line =
    | Blank
    | Comment(text: string)
    | Assign(key: string, value: string)
    | AssignList(key: string, value: string)
    | Unset(key: string)

  function LineText(line: Line): string {
    match line
    case Blank => "\n"
    case Comment(text) => "//" + text + "\n"
    case Assign(key, value) => key + " = " + Quote(value) + ";\n"
    case AssignList(key, value) => key + " = [" + Quote(value) + "];\n"
    case Unset(key) => "unset(" + key + ");\n"
  }

  function Source(lines: seq<Line>): string {
    if lines == [] then "" else LineText(lines[0]) + Source(lines[1..])
  }

  function Connection(o: Overrides): seq<Line> {
    [ Assign(DATABASE, o.name), Assign(USERNAME, o.user), Assign(PASSWORD, o.password),
      Assign(HOST, o.host), Assign(PORT, "3306"), Unset(UNIX_SOCKET) ]
  }

  function Rest(o: Overrides): seq<Line> {
    [Assign(SALT, o.salt)] +
    (if o.domain.Some? then [AssignList(PATTERNS, HostPattern(o.domain.value))] else []) +
    (if o.blockMail then [Assign(MAIL, MAIL_COLLECTOR)] else [])
  }

  const BEGIN := " BEGIN wcp staging clone" + " (generated by " + "operations-engine)"
  const END := " END wcp staging clone"

  /** What is appended to the file. */
  function Block(text: string, o: Overrides): seq<Line> {
    (if text != "" && text[|text| - 1] == '\n' then [] else [Blank]) +
    [Blank, Comment(BEGIN)] + Connection(o) + Rest(o) + [Comment(END)]
  }

  datatype Appended = Ok(text: string) | ClosedPhp | NamesSource

  /** `append_overrides`. */
  function AppendOverrides(text: string, o: Overrides): Appended {
    if Find(text, "?>").Some? then ClosedPhp
    else if Find(text, o.sourceRoot).Some? then NamesSource
    else Ok(text + Source(Block(text, o)))
  }

  // ---- reading ------------------------------------------------------------

  datatype Value = Str(text: string) | List(text: string)

  type Variables = map<string, Value>

  /** What follows the opening quote of a single-quoted PHP string: a backslash
      escapes a backslash and a quote, and stands for itself before anything
      else. */
  function ReadQuoted(s: string): Option<(string, string)> {
    if s == "" then None
    else if s[0] == '\'' then Some(("", s[1..]))
    else if |s| > 1 && s[0] == '\\' && (s[1] == '\\' || s[1] == '\'') then Prepend(s[1], ReadQuoted(s[2..]))
    else Prepend(s[0], ReadQuoted(s[1..]))
  }

  function Prepend(c: char, r: Option<(string, string)>): Option<(string, string)> {
    match r
    case None => None
    case Some((value, rest)) => Some(([c] + value, rest))
  }

  function After(s: string, p: string): Option<string> {
    if StartsWith(s, p) then Some(s[|p|..]) else None
  }

  /** One statement or comment of the kinds the block has. */
  function ReadLine(s: string): Option<(Line, string)> {
    if StartsWith(s, "\n") then Some((Blank, s[1..]))
    else if StartsWith(s, "//") then
      var i := IndexOf(s, '\n');
      if i == |s| then None else Some((Comment(s[2..i]), s[i + 1..]))
    else if StartsWith(s, "unset(") then
      var i := IndexOf(s, ')');
      match After(s[i..], ");\n")
      case None => None
      case Some(rest) => Some((Unset(s[6..i]), rest))
    else
      var i := IndexOf(s, ' ');
      ReadAssigned(s[..i], s[i..])
  }

  function ReadAssigned(key: string, s: string): Option<(Line, string)> {
    if StartsWith(s, " = '") then
      match ReadQuoted(s[4..])
      case None => None
      case Some((value, more)) =>
        match After(more, ";\n")
        case None => None
        case Some(rest) => Some((Assign(key, value), rest))
    else if StartsWith(s, " = ['") then
      match ReadQuoted(s[5..])
      case None => None
      case Some((value, more)) =>
        match After(more, "];\n")
        case None => None
        case Some(rest) => Some((AssignList(key, value), rest))
    else None
  }

  function Apply(line: Line, vars: Variables): Variables {
    match line
    case Blank => vars
    case Comment(_) => vars
    case Assign(key, value) => vars[key := Str(value)]
    case AssignList(key, value) => vars[key := List(value)]
    case Unset(key) => vars - {key}
  }

  /** Running statements one after the other. */
  function Run(s: string, vars: Variables): Option<Variables>
    decreases |s|
  {
    if s == "" then Some(vars)
    else match ReadLine(s)
         case None => None
         case Some((line, rest)) => if |rest| < |s| then Run(rest, Apply(line, vars)) else None
  }

  // ---- a quoted value is read back ----------------------------------------

  lemma {:induction false} ReplaceAppend(a: string, b: string, c: char, replacement: string)
    ensures Replace(a + b, c, replacement) == Replace(a, c, replacement) + Replace(b, c, replacement)
  {
    if a == "" {
      assert a + b == b;
    } else {
      assert (a + b)[1..] == a[1..] + b;
      ReplaceAppend(a[1..], b, c, replacement);
    }
  }

  function EscapedChar(c: char): string {
    if c == '\\' then "\\\\" else if c == '\'' then "\\'" else [c]
  }

  lemma EscapedCons(value: string)
    requires value != ""
    ensures Escaped(value) == EscapedChar(value[0]) + Escaped(value[1..])
  {
    var first := if value[0] == '\\' then "\\\\" else [value[0]];
    ReplaceAppend(first, Replace(value[1..], '\\', "\\\\"), '\'', "\\'");
    assert first == "\\\\" ==> Replace(first, '\'', "\\'") == first by {
      assert "\\\\"[1..] == "\\";
    }
    assert |first| == 1 ==> first[1..] == "";
  }

  lemma EscapedReads(c: char, more: string)
    ensures ReadQuoted(EscapedChar(c) + more) == Prepend(c, ReadQuoted(more))
  {
  }

  /** A quoted value is a PHP literal for that value, whatever it holds. */
  lemma {:induction false} QuotedReads(value: string, rest: string)
    ensures ReadQuoted(Escaped(value) + ("'" + rest)) == Some((value, rest))
  {
    var tail := "'" + rest;
    if value == "" {
      assert tail[1..] == rest && Escaped(value) + tail == tail;
    } else {
      EscapedCons(value);
      QuotedReads(value[1..], rest);
      Regroup(EscapedChar(value[0]), Escaped(value[1..]), tail);
      EscapedReads(value[0], Escaped(value[1..]) + tail);
      assert [value[0]] + value[1..] == value;
    }
  }

  // ---- the block is read back ---------------------------------------------

  predicate IsKey(key: string) {
    key != "" && key[0] == '$' && ' ' !in key && ')' !in key
  }

  predicate Readable(line: Line) {
    match line
    case Blank => true
    case Comment(text) => '\n' !in text
    case Assign(key, _) => IsKey(key)
    case AssignList(key, _) => IsKey(key)
    case Unset(key) => IsKey(key)
  }

  lemma AssignReads(key: string, value: string, rest: string)
    ensures ReadAssigned(key, " = '" + (Escaped(value) + ("'" + (";\n" + rest)))) == Some((Assign(key, value), rest))
    ensures ReadAssigned(key, " = ['" + (Escaped(value) + ("'" + ("];\n" + rest)))) == Some((AssignList(key, value), rest))
  {
    AssignedText(key, value, Escaped(value) + ("'" + (";\n" + rest)), rest);
    AssignedList(key, value, Escaped(value) + ("'" + ("];\n" + rest)), rest);
    QuotedReads(value, ";\n" + rest);
    QuotedReads(value, "];\n" + rest);
  }

  lemma AssignedText(key: string, value: string, literal: string, rest: string)
    ensures ReadQuoted(literal) == Some((value, ";\n" + rest)) ==>
            ReadAssigned(key, " = '" + literal) == Some((Assign(key, value), rest))
  {
  }

  lemma AssignedList(key: string, value: string, literal: string, rest: string)
    ensures ReadQuoted(literal) == Some((value, "];\n" + rest)) ==>
            ReadAssigned(key, " = ['" + literal) == Some((AssignList(key, value), rest))
  {
    var s := " = ['" + literal;
    assert s[3] == '[' && s[..4][3] == '[';
    assert s[..5] == " = ['" && s[5..] == literal;
    var more := "];\n" + rest;
    assert more[..3] == "];\n" && more[3..] == rest;
  }

  /** A statement that begins with a variable is an assignment to it. */
  lemma KeyReads(key: string, s: string)
    requires IsKey(key) && s != "" && s[0] == ' '
    ensures ReadLine(key + s) == ReadAssigned(key, s)
  {
    var all := key + s;
    assert all[0] == '$';
    assert all[..1] == "$" && (|all| > 1 ==> all[..2][0] == '$') && (|all| > 5 ==> all[..6][0] == '$');
    IndexOfUnique(all, ' ', |key|);
    assert all[..|key|] == key && all[|key|..] == s;
  }

  lemma CommentReads(text: string, rest: string)
    requires '\n' !in text
    ensures ReadLine("//" + text + "\n" + rest) == Some((Comment(text), rest))
  {
    var s := "//" + text + "\n" + rest;
    assert s[0] == '/' && s[..1][0] == '/' && s[..2] == "//";
    var i := |text| + 2;
    assert s[..i] == "//" + text && s[2..i] == text && s[i + 1..] == rest;
    IndexOfUnique(s, '\n', i);
  }

  lemma UnsetReads(key: string, rest: string)
    requires IsKey(key)
    ensures ReadLine("unset(" + key + ");\n" + rest) == Some((Unset(key), rest))
  {
    var open, close := "unset(", ");\n";
    var s := open + key + close + rest;
    UnsetText(open, key, close, rest);
    assert s[..1][0] == 'u' && s[..2][0] == 'u';
    assert ')' !in open + key;
    IndexOfUnique(s, ')', |open + key|);
    AfterText(close, rest);
  }

  lemma UnsetText(open: string, key: string, close: string, rest: string)
    requires open != "" && close != ""
    ensures var s := open + key + close + rest; var i := |open + key|;
            && s[..|open|] == open && s[0] == open[0]
            && s[..i] == open + key && s[|open|..i] == key && s[i..] == close + rest && s[i] == close[0]
  {
  }

  lemma AfterText(p: string, rest: string)
    ensures After(p + rest, p) == Some(rest)
  {
  }

  lemma AssignText(key: string, q: string, rest: string)
    ensures key + " = " + ("'" + q + "'") + ";\n" + rest == key + (" = '" + (q + ("'" + (";\n" + rest))))
    ensures key + " = [" + ("'" + q + "'") + "];\n" + rest == key + (" = ['" + (q + ("'" + ("];\n" + rest))))
  {
  }

  lemma AssignLineReads(key: string, value: string, rest: string)
    requires IsKey(key)
    ensures ReadLine(LineText(Assign(key, value)) + rest) == Some((Assign(key, value), rest))
    ensures ReadLine(LineText(AssignList(key, value)) + rest) == Some((AssignList(key, value), rest))
  {
    var q := Escaped(value);
    AssignText(key, q, rest);
    KeyReads(key, " = '" + (q + ("'" + (";\n" + rest))));
    KeyReads(key, " = ['" + (q + ("'" + ("];\n" + rest))));
    AssignReads(key, value, rest);
  }

  lemma BlankReads(rest: string)
    ensures ReadLine("\n" + rest) == Some((Blank, rest))
  {
  }

  lemma LineReads(line: Line, rest: string)
    requires Readable(line)
    ensures ReadLine(LineText(line) + rest) == Some((line, rest))
  {
    match line
    case Blank => BlankReads(rest);
    case Comment(text) => CommentReads(text, rest);
    case Assign(key, value) => AssignLineReads(key, value, rest);
    case AssignList(key, value) => AssignLineReads(key, value, rest);
    case Unset(key) => UnsetReads(key, rest);
  }

  /** Applying the lines one after the other. */
  function Applied(lines: seq<Line>, vars: Variables): Variables {
    if lines == [] then vars else Applied(lines[1..], Apply(lines[0], vars))
  }

  /** Running the text of the lines is applying the lines. */
  lemma {:induction false} SourceRuns(lines: seq<Line>, vars: Variables)
    requires forall line | line in lines :: Readable(line)
    ensures Run(Source(lines), vars) == Some(Applied(lines, vars))
  {
    if lines != [] {
      assert lines[0] in lines;
      LineReads(lines[0], Source(lines[1..]));
      SourceRuns(lines[1..], Apply(lines[0], vars));
      assert |LineText(lines[0])| > 0;
    }
  }

  // ---- what the copy's settings say ---------------------------------------

  lemma {:induction false} AppliedAppend(a: seq<Line>, b: seq<Line>, vars: Variables)
    ensures Applied(a + b, vars) == Applied(b, Applied(a, vars))
  {
    if a == [] {
      assert a + b == b;
    } else {
      assert (a + b)[1..] == a[1..] + b;
      AppliedAppend(a[1..], b, Apply(a[0], vars));
    }
  }

  lemma IsKeyAppend(a: string, b: string)
    requires IsKey(a) && ' ' !in b && ')' !in b
    ensures IsKey(a + b)
  {
  }

  lemma ConnectionKeys()
    ensures IsKey(DATABASE) && IsKey(USERNAME) && IsKey(PASSWORD)
    ensures IsKey(HOST) && IsKey(PORT) && IsKey(UNIX_SOCKET)
  {
    ConnectionIsKey();
    IsKeyAppend(CONNECTION, "['database']");
    IsKeyAppend(CONNECTION, "['username']");
    IsKeyAppend(CONNECTION, "['password']");
    IsKeyAppend(CONNECTION, "['host']");
    IsKeyAppend(CONNECTION, "['port']");
    IsKeyAppend(CONNECTION, "['unix_socket']");
  }

  lemma ConnectionIsKey()
    ensures IsKey(CONNECTION) && |CONNECTION| == 32
  {
  }

  lemma OtherKeys()
    ensures IsKey(SALT) && IsKey(PATTERNS) && IsKey(MAIL)
    ensures |SALT| == 22 && |PATTERNS| == 34 && |MAIL| == 46
  {
    assert IsKey("$settings") && IsKey("$config");
    IsKeyAppend("$settings", "['hash_salt']");
    IsKeyAppend("$settings", "['trusted_host_patterns']");
    IsKeyAppend("$config", "['system.mail']");
    IsKeyAppend("$config" + "['system.mail']", "['interface']");
    IsKeyAppend("$config" + "['system.mail']" + "['interface']", "['default']");
  }

  lemma KeysDiffer()
    ensures DATABASE != USERNAME && USERNAME != PASSWORD && PASSWORD != DATABASE && HOST != PORT
    ensures |DATABASE| == |USERNAME| == |PASSWORD| == 44 && |HOST| == |PORT| == 40 && |UNIX_SOCKET| == 47
  {
    ConnectionIsKey();
    assert DATABASE[34] == 'd' && USERNAME[34] == 'u' && PASSWORD[34] == 'p' && HOST[34] == 'h' && PORT[34] == 'p';
  }

  lemma AppliedCons(line: Line, rest: seq<Line>, vars: Variables)
    ensures Applied([line] + rest, vars) == Applied(rest, Apply(line, vars))
  {
  }

  lemma BlockReadable(text: string, o: Overrides)
    ensures forall line | line in Block(text, o) :: Readable(line)
  {
    ConnectionKeys();
    OtherKeys();
    CommentsReadable();
  }

  lemma CommentsReadable()
    ensures '\n' !in BEGIN && '\n' !in END
  {
  }

  /** The connection after the block. */
  function Connected(o: Overrides, vars: Variables): Variables {
    vars[DATABASE := Str(o.name)][USERNAME := Str(o.user)][PASSWORD := Str(o.password)][HOST := Str(o.host)]
        [PORT := Str("3306")] - {UNIX_SOCKET}
  }

  lemma ConnectionApplied(o: Overrides, vars: Variables)
    ensures Applied(Connection(o), vars) == Connected(o, vars)
  {
    SixLines(DATABASE, o.name, USERNAME, o.user, PASSWORD, o.password, HOST, o.host, PORT, "3306", UNIX_SOCKET, vars);
  }

  lemma SixLines(k1: string, v1: string, k2: string, v2: string, k3: string, v3: string, k4: string, v4: string,
                 k5: string, v5: string, k6: string, vars: Variables)
    ensures Applied([Assign(k1, v1), Assign(k2, v2), Assign(k3, v3), Assign(k4, v4), Assign(k5, v5), Unset(k6)], vars) ==
            vars[k1 := Str(v1)][k2 := Str(v2)][k3 := Str(v3)][k4 := Str(v4)][k5 := Str(v5)] - {k6}
  {
    var a, b, c := Assign(k1, v1), Assign(k2, v2), Assign(k3, v3);
    var d, e, f := Assign(k4, v4), Assign(k5, v5), Unset(k6);
    assert [a, b, c, d, e, f] == [a] + ([b] + ([c] + ([d] + ([e] + ([f] + [])))));
    var w1 := Apply(a, vars);
    var w2 := Apply(b, w1);
    var w3 := Apply(c, w2);
    var w4 := Apply(d, w3);
    var w5 := Apply(e, w4);
    AppliedCons(a, [b] + ([c] + ([d] + ([e] + ([f] + [])))), vars);
    AppliedCons(b, [c] + ([d] + ([e] + ([f] + []))), w1);
    AppliedCons(c, [d] + ([e] + ([f] + [])), w2);
    AppliedCons(d, [e] + ([f] + []), w3);
    AppliedCons(e, [f] + [], w4);
    AppliedCons(f, [], w5);
  }

  /** The rest of the block. */
  function Completed(o: Overrides, vars: Variables): Variables {
    var salted := vars[SALT := Str(o.salt)];
    var trusted := if o.domain.Some? then salted[PATTERNS := List(HostPattern(o.domain.value))] else salted;
    if o.blockMail then trusted[MAIL := Str(MAIL_COLLECTOR)] else trusted
  }

  lemma RestApplied(o: Overrides, vars: Variables)
    ensures Applied(Rest(o), vars) == Completed(o, vars)
  {
    var a := [Assign(SALT, o.salt)];
    var b := if o.domain.Some? then [AssignList(PATTERNS, HostPattern(o.domain.value))] else [];
    var c := if o.blockMail then [Assign(MAIL, MAIL_COLLECTOR)] else [];
    AppliedAppend(a + b, c, vars);
    AppliedAppend(a, b, vars);
  }

  lemma BlockApplied(text: string, o: Overrides, vars: Variables)
    ensures Applied(Block(text, o), vars) == Completed(o, Connected(o, vars))
  {
    var pre: seq<Line> := if text != "" && text[|text| - 1] == '\n' then [] else [Blank];
    var begin, end := [Blank, Comment(BEGIN)], [Comment(END)];
    AppliedAppend(pre + begin + Connection(o) + Rest(o), end, vars);
    AppliedAppend(pre + begin + Connection(o), Rest(o), vars);
    AppliedAppend(pre + begin, Connection(o), vars);
    AppliedAppend(pre, begin, vars);
    assert Applied(begin, vars) == vars by {
      assert begin == [Blank] + [Comment(BEGIN)];
      AppliedCons(Blank, [Comment(BEGIN)], vars);
    }
    ConnectionApplied(o, vars);
    RestApplied(o, Connected(o, vars));
  }

  // ---- which hosts the copy trusts ----------------------------------------

  /** Whether a host name matches the rest of a pattern, as Drupal compares them:
      without regard to case, `\` before a character stands for that character,
      `.` for any, and `$` at the end for the end of the name, also before a
      final newline. Other operators do not occur. */
  predicate MatchesRest(pattern: string, host: string) {
    if pattern == "" then true
    else if pattern == "$" then host == "" || host == "\n"
    else if |pattern| > 1 && pattern[0] == '\\' then
      host != "" && LowerChar(pattern[1]) == LowerChar(host[0]) && MatchesRest(pattern[2..], host[1..])
    else
      && host != ""
      && (if pattern[0] == '.' then host[0] != '\n' else LowerChar(pattern[0]) == LowerChar(host[0]))
      && MatchesRest(pattern[1..], host[1..])
  }

  predicate Matches(pattern: string, host: string) {
    pattern != "" && pattern[0] == '^' && MatchesRest(pattern[1..], host)
  }

  predicate IsDomainChar(c: char) {
    'a' <= c <= 'z' || '0' <= c <= '9' || c == '-' || c == '.'
  }

  /** The value is a list of one pattern that matches exactly this domain. */
  ghost predicate Trusts(value: Value, domain: string) {
    && value.List?
    && ((forall c | c in domain :: IsDomainChar(c)) ==>
          forall host | '\n' !in host :: Matches(value.text, host) <==> AsciiLower(host) == domain)
  }

  lemma AsciiLowerCons(host: string)
    requires host != ""
    ensures AsciiLower(host) == [LowerChar(host[0])] + AsciiLower(host[1..])
  {
  }

  lemma {:induction false} DotsMatch(domain: string, host: string)
    requires '\n' !in host && forall c | c in domain :: IsDomainChar(c)
    ensures MatchesRest(Replace(domain, '.', "\\.") + "$", host) <==> AsciiLower(host) == domain
  {
    var pattern := Replace(domain, '.', "\\.") + "$";
    if domain == "" {
      assert pattern == "$";
    } else {
      var rest := Replace(domain[1..], '.', "\\.") + "$";
      assert domain[0] in domain && domain == [domain[0]] + domain[1..];
      if domain[0] == '.' {
        assert pattern[0] == '\\' && pattern[1] == '.' && pattern[2..] == rest;
      } else {
        assert pattern[0] == domain[0] && pattern[1..] == rest;
      }
      if host != "" {
        DotsMatch(domain[1..], host[1..]);
        AsciiLowerCons(host);
      }
    }
  }

  lemma TrustsDomain(domain: string)
    ensures Trusts(List(HostPattern(domain)), domain)
  {
    var dots := Replace(domain, '.', "\\.");
    assert HostPattern(domain)[0] == '^' && HostPattern(domain)[1..] == dots + "$";
    if forall c | c in domain :: IsDomainChar(c) {
      forall host | '\n' !in host ensures Matches(HostPattern(domain), host) <==> AsciiLower(host) == domain {
        DotsMatch(domain, host);
      }
    }
  }

  const KEYS := {DATABASE, USERNAME, PASSWORD, HOST, PORT, UNIX_SOCKET, SALT, PATTERNS, MAIL}

  /** The settings are the copy's own, and everything else is as it was. */
  ghost predicate IsCopys(after: Variables, o: Overrides, vars: Variables) {
    && Lookup(after, DATABASE) == Some(Str(o.name))
    && Lookup(after, USERNAME) == Some(Str(o.user))
    && Lookup(after, PASSWORD) == Some(Str(o.password))
    && Lookup(after, HOST) == Some(Str(o.host))
    && Lookup(after, PORT) == Some(Str("3306"))
    && Lookup(after, UNIX_SOCKET) == None
    && Lookup(after, SALT) == Some(Str(o.salt))
    && (o.domain.Some? ==> Lookup(after, PATTERNS).Some? && Trusts(Lookup(after, PATTERNS).value, o.domain.value))
    && (o.blockMail ==> Lookup(after, MAIL) == Some(Str(MAIL_COLLECTOR)))
    && (forall key | key !in KEYS :: Lookup(after, key) == Lookup(vars, key))
  }

  lemma CompletedIsCopys(o: Overrides, vars: Variables)
    ensures IsCopys(Completed(o, Connected(o, vars)), o, vars)
  {
    KeysDiffer();
    OtherKeys();
    if o.domain.Some? {
      TrustsDomain(o.domain.value);
    }
  }

  /** The file keeps its text, and whatever that text has set, running what is
      appended leaves exactly the copy's connection and salt. */
  lemma CopySettings(text: string, o: Overrides, vars: Variables)
    ensures AppendOverrides(text, o).Ok? <==> forall i: nat :: !OccursAt(text, "?>", i) && !OccursAt(text, o.sourceRoot, i)
    ensures AppendOverrides(text, o).Ok? ==>
              var out := AppendOverrides(text, o).text;
              text <= out && exists after :: Run(out[|text|..], vars) == Some(after) && IsCopys(after, o, vars)
  {
    var block := Block(text, o);
    BlockReadable(text, o);
    SourceRuns(block, vars);
    BlockApplied(text, o, vars);
    CompletedIsCopys(o, vars);
    assert (text + Source(block))[|text|..] == Source(block);
  }
}
