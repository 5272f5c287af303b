/** The cron schedules that the backup jobs and the agents share
    (src/backup_schedule.rs). */
module Schedules {
  import opened Text

  datatype Keyword = Hourly | Daily | Midnight | Weekly | Monthly | Yearly | Annually

  function AsKeyword(s: string): Option<Keyword> {
    if s == "@hourly" then Some(Hourly)
    else if s == "@daily" then Some(Daily)
    else if s == "@midnight" then Some(Midnight)
    else if s == "@weekly" then Some(Weekly)
    else if s == "@monthly" then Some(Monthly)
    else if s == "@yearly" then Some(Yearly)
    else if s == "@annually" then Some(Annually)
    else None
  }

  lemma KeywordChars(s: string)
    requires AsKeyword(s).Some?
    ensures s != "" && s[0] == '@' && forall c | c in s :: c == '@' || IsLower(c)
  {
  }

  predicate IsFieldChar(c: char) {
    IsAlphanumeric(c) || c == '*' || c == '/' || c == ',' || c == '-'
  }

  predicate IsField(f: string) {
    f != "" && |f| <= 64 && forall c | c in f :: IsFieldChar(c)
  }

  predicate ValidFields(fields: seq<string>) {
    || (|fields| == 1 && AsKeyword(fields[0]).Some?)
    || (|fields| == 5 && forall f | f in fields :: IsField(f))
  }

  /** `Schedule::parse`. The fields are the whitespace-separated words. */
  function Parse(value: string): Option<string> {
    var fields := SplitWhitespace(value);
    if ValidFields(fields) then Some(Join(fields, ' ')) else None
  }

  /** The values of the type `Schedule`: what `Parse` can answer. */
  ghost predicate IsSchedule(s: string) {
    exists value :: Parse(value) == Some(s)
  }

  lemma FieldsAreWords(fields: seq<string>)
    requires ValidFields(fields)
    ensures forall f | f in fields :: IsWord(f) && forall c | c in f :: IsFieldChar(c) || c == '@'
    ensures fields[0] != "" && (|fields| == 1 <==> fields[0][0] == '@')
  {
    if |fields| == 1 {
      KeywordChars(fields[0]);
    } else {
      assert fields[0] in fields && fields[0][0] in fields[0];
    }
  }

  /** Every accepted schedule is its fields joined by single spaces. */
  lemma ScheduleFields(s: string) returns (fields: seq<string>)
    requires IsSchedule(s)
    ensures ValidFields(fields) && fields == SplitWhitespace(s) && s == Join(fields, ' ')
  {
    var value :| Parse(value) == Some(s);
    fields := SplitWhitespace(value);
    FieldsAreWords(fields);
    SplitWhitespaceJoin(fields);
  }

  /** `Parse` normalizes: its answers are exactly its fixed points. */
  lemma ParseIdempotent(s: string)
    ensures IsSchedule(s) <==> Parse(s) == Some(s)
  {
    if IsSchedule(s) {
      var fields := ScheduleFields(s);
    }
  }

  /** Two spellings are accepted as the same schedule exactly when their words agree. */
  lemma ParseDependsOnWords(a: string, b: string)
    requires Parse(a).Some?
    ensures Parse(a) == Parse(b) <==> SplitWhitespace(a) == SplitWhitespace(b)
  {
    if Parse(a) == Parse(b) {
      var fa, fb := SplitWhitespace(a), SplitWhitespace(b);
      FieldsAreWords(fa);
      FieldsAreWords(fb);
      SplitWhitespaceJoin(fa);
      SplitWhitespaceJoin(fb);
    }
  }

  /** A schedule's text: word characters and spaces, no `#`, no newline, no
      tag bracket, and no whitespace at either end. */
  predicate IsScheduleChar(c: char) {
    IsFieldChar(c) || c == '@' || c == ' '
  }

  lemma {:induction false} ScheduleText(s: string)
    requires IsSchedule(s)
    ensures Tight(s)
    ensures forall c | c in s :: IsScheduleChar(c)
  {
    var fields := ScheduleFields(s);
    FieldsAreWords(fields);
    JoinWordsTight(fields);
    forall c | c in s ensures IsScheduleChar(c) {
      JoinChars(fields, ' ', c);
    }
  }
}
