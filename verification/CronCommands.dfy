/** What cron makes of a line: the schedule, and the command that the shell
    reads from the words after it. Quotes stand around whole words, and no other
    special character of the shell occurs in the lines the engine writes. */
module CronCommands {
  import opened Text
  import opened Schedules

  datatype Command = Command(
    environment: map<string, string>,
    program: string,
    arguments: seq<string>,
    output: Option<string>)

  /** The schedule and the words of the command. */
  function SplitFields(fields: seq<string>): Option<(string, seq<string>)> {
    if fields == [] then None
    else if StartsWith(fields[0], "@") then Some((fields[0], fields[1..]))
    else if |fields| < 5 then None
    else Some((Join(fields[..5], ' '), fields[5..]))
  }

  /** The words before a comment. */
  function UpToComment(words: seq<string>): seq<string> {
    if words == [] || StartsWith(words[0], "#") then [] else [words[0]] + UpToComment(words[1..])
  }

  predicate IsVariableChar(c: char) {
    'A' <= c <= 'Z' || c == '_'
  }

  /** `NAME=value`. */
  predicate IsAssignment(word: string) {
    var i := IndexOf(word, '=');
    0 < i < |word| && forall c | c in word[..i] :: IsVariableChar(c)
  }

  /** The assignments before the command, and the command. */
  function ReadEnvironment(words: seq<string>): (map<string, string>, seq<string>) {
    if words == [] || !IsAssignment(words[0]) then (map[], words) else
      var i, (environment, rest) := IndexOf(words[0], '='), ReadEnvironment(words[1..]);
      ((map[words[0][..i] := words[0][i + 1..]]) + environment, rest)
  }

  predicate Redirects(word: string) {
    StartsWith(word, ">")
  }

  function Unquoted(word: string): string {
    if |word| > 1 && word[0] == '\'' && word[|word| - 1] == '\'' then word[1..|word| - 1] else word
  }

  function Arguments(words: seq<string>): seq<string> {
    if words == [] then []
    else (if Redirects(words[0]) then [] else [Unquoted(words[0])]) + Arguments(words[1..])
  }

  function Output(words: seq<string>): Option<string> {
    if words == [] then None
    else if Redirects(words[0]) then Some(words[0][1..])
    else Output(words[1..])
  }

  function ReadCommand(words: seq<string>): Option<Command> {
    var (environment, rest) := ReadEnvironment(UpToComment(words));
    var arguments := Arguments(rest);
    if arguments == [] then None else Some(Command(environment, arguments[0], arguments[1..], Output(rest)))
  }

  /** When cron runs a line, and what. */
  function CronRuns(line: string): Option<(string, Command)> {
    WordsRun(SplitWhitespace(line))
  }

  function WordsRun(words: seq<string>): Option<(string, Command)> {
    if words == [] || StartsWith(words[0], "#") then None else
      match SplitFields(words)
      case None => None
      case Some((schedule, rest)) =>
        match ReadCommand(rest)
        case None => None
        case Some(command) => Some((schedule, command))
  }

  /** Options with their values. */
  function ReadOptions(arguments: seq<string>): Option<map<string, string>> {
    if arguments == [] then Some(map[])
    else if |arguments| < 2 || !StartsWith(arguments[0], "--") then None
    else match ReadOptions(arguments[2..])
         case None => None
         case Some(options) => Some(options[arguments[0] := arguments[1]])
  }

  // ---- plain words --------------------------------------------------------

  /** A word that the shell takes as it is. */
  predicate IsPlain(word: string) {
    word != "" && word[0] != '#' && word[0] != '>' && word[0] != '\''
  }

  lemma NotStarting(word: string, c: char)
    requires word != "" && word[0] != c
    ensures !StartsWith(word, [c])
  {
    assert word[..1] == [word[0]];
  }

  lemma PlainWord(word: string)
    requires IsPlain(word)
    ensures !StartsWith(word, "#") && !Redirects(word) && Unquoted(word) == word
  {
    NotStarting(word, '#');
    NotStarting(word, '>');
  }

  lemma {:induction false} CommentEnds(words: seq<string>, comment: seq<string>)
    requires forall w | w in words :: !StartsWith(w, "#")
    requires comment != [] && StartsWith(comment[0], "#")
    ensures UpToComment(words + comment) == words
  {
    if words == [] {
      assert words + comment == comment;
    } else {
      assert words[0] in words && (words + comment)[1..] == words[1..] + comment;
      CommentEnds(words[1..], comment);
    }
  }

  lemma {:induction false} PlainArguments(words: seq<string>)
    requires forall w | w in words :: IsPlain(w)
    ensures Arguments(words) == words && Output(words).None?
  {
    if words != [] {
      assert words[0] in words;
      PlainWord(words[0]);
      PlainArguments(words[1..]);
    }
  }

  lemma {:induction false} PlainThen(words: seq<string>, last: string)
    requires forall w | w in words :: IsPlain(w)
    ensures Arguments(words + [last]) == words + Arguments([last]) && Output(words + [last]) == Output([last])
  {
    if words == [] {
      assert words + [last] == [last];
    } else {
      assert words[0] in words && (words + [last])[1..] == words[1..] + [last];
      PlainWord(words[0]);
      PlainThen(words[1..], last);
    }
  }

  lemma LastWord(last: string)
    ensures Arguments([last]) == (if Redirects(last) then [] else [Unquoted(last)])
    ensures Output([last]) == (if Redirects(last) then Some(last[1..]) else None)
  {
    assert [last][1..] == [];
  }

  /** A command of plain words and one more is read as these words. */
  lemma CommandReads(words: seq<string>, last: string, comment: seq<string>)
    requires words != [] && (forall w | w in words :: IsPlain(w)) && '=' !in words[0]
    requires last != "" && last[0] != '#' && comment != [] && StartsWith(comment[0], "#")
    ensures ReadCommand(words + [last] + comment) ==
            Some(if Redirects(last) then Command(map[], words[0], words[1..], Some(last[1..]))
                 else Command(map[], words[0], words[1..] + [Unquoted(last)], None))
  {
    var all := words + [last];
    forall w | w in all ensures !StartsWith(w, "#") {
      if w in words {
        PlainWord(w);
      } else {
        NotStarting(last, '#');
      }
    }
    CommentEnds(all, comment);
    assert all[0] == words[0] && !IsAssignment(words[0]);
    assert ReadEnvironment(all) == (map[], all);
    PlainThen(words, last);
    LastWord(last);
    var more := Arguments([last]);
    assert (words + more)[0] == words[0] && (words + more)[1..] == words[1..] + more;
    assert words[1..] + [] == words[1..];
  }

  lemma AssignmentReads(name: string, value: string, rest: seq<string>)
    requires name != "" && forall c | c in name :: IsVariableChar(c)
    ensures var (environment, more) := ReadEnvironment(rest);
            ReadEnvironment([name + "=" + value] + rest) == (map[name := value] + environment, more)
  {
    var word := name + "=" + value;
    assert '=' !in name;
    IndexOfUnique(word, '=', |name|);
    assert word[..|name|] == name && word[|name| + 1..] == value;
    assert ([word] + rest)[0] == word && ([word] + rest)[1..] == rest;
  }

  /** A line is run when its schedule says, with the command after it. */
  lemma LineRuns(schedule: string, rest: string)
    requires IsSchedule(schedule) && SplitWhitespace(rest) != []
    ensures CronRuns(schedule + " " + rest) ==
            match ReadCommand(SplitWhitespace(rest))
            case None => None
            case Some(command) => Some((schedule, command))
  {
    var fields := ScheduleFields(schedule);
    FieldsAreWords(fields);
    SplitWhitespaceJoinRest(fields, rest);
    FieldsRun(fields, SplitWhitespace(rest));
  }

  lemma FieldsRun(fields: seq<string>, words: seq<string>)
    requires ValidFields(fields)
    ensures WordsRun(fields + words) ==
            match ReadCommand(words)
            case None => None
            case Some(command) => Some((Join(fields, ' '), command))
  {
    FieldsSplit(fields, words);
    FieldsAreWords(fields);
    assert fields[0] in fields && fields[0][0] in fields[0] && (fields + words)[0] == fields[0];
    NotStarting(fields[0], '#');
  }

  lemma FieldsSplit(fields: seq<string>, words: seq<string>)
    requires ValidFields(fields)
    ensures SplitFields(fields + words) == Some((Join(fields, ' '), words))
  {
    FieldsAreWords(fields);
    var all := fields + words;
    assert all[0] == fields[0] && fields[0][..1] == [fields[0][0]];
    if |fields| == 1 {
      assert all[1..] == words && fields == [fields[0]];
    } else {
      assert all[..5] == fields && all[5..] == words;
    }
  }
}
