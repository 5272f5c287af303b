/** Removing passwords from crontab lines of the pre-engine format
    (src/backup_schedule.rs). */
module Redaction {
  import opened Text

  const REDACTED := "[redacted]"
  /** How the panel wrote a single quote inside a single-quoted shell string. */
  const ESCAPED_QUOTE := "'\\''"

  predicate EscapeAt(s: string, i: nat) {
    i + 4 <= |s| && s[i] == '\'' && s[i + 1] == '\\' && s[i + 2] == '\'' && s[i + 3] == '\''
  }

  /** The quote that closes a single-quoted string, looking from `i`. */
  function ClosingQuote(s: string, i: nat): (r: Option<nat>)
    ensures r.Some? ==> i <= r.value < |s| && s[r.value] == '\''
    decreases |s| - i
  {
    if i >= |s| then None
    else if s[i] != '\'' then ClosingQuote(s, i + 1)
    else if EscapeAt(s, i) then ClosingQuote(s, i + 4)
    else Some(i)
  }

  /** What `redact_quoted_after` answers. */
  function Redact(command: string, marker: string): string
    requires marker != ""
    decreases |command|, 1
  {
    match Find(command, marker)
    case None => command
    case Some(position) =>
      var start := position + |marker|;
      command[..start] + (REDACTED + Resume(command[start..], marker))
  }

  /** The rest of the command from the closing quote on; an unterminated string takes it all. */
  function Resume(tail: string, marker: string): string
    requires marker != ""
    decreases |tail|, 2
  {
    match ClosingQuote(tail, 0)
    case None => ""
    case Some(quote) => Redact(tail[quote..], marker)
  }

  lemma {:induction false} ClosingQuoteSkipsTo(s: string, i: nat, j: nat)
    requires i <= j <= |s| && forall k | i <= k < j :: s[k] != '\''
    ensures ClosingQuote(s, i) == ClosingQuote(s, j)
    decreases j - i
  {
    if i < j {
      ClosingQuoteSkipsTo(s, i + 1, j);
    }
  }

  /** The inner loop of `redact_quoted_after`. */
  method FindClosingQuote(tail: string) returns (end: Option<nat>)
    ensures end == ClosingQuote(tail, 0)
  {
    var index := 0;
    while true
      invariant index <= |tail|
      invariant ClosingQuote(tail, 0) == ClosingQuote(tail, index)
      decreases |tail| - index
    {
      var found := IndexOf(tail[index..], '\'');
      var quote := index + found;
      assert forall k | index <= k < quote :: tail[k] == tail[index..][..found][k - index];
      ClosingQuoteSkipsTo(tail, index, quote);
      if quote == |tail| {
        return None;
      }
      assert tail[quote] == tail[index..][found];
      if EscapeAt(tail, quote) {
        index := quote + 4;
      } else {
        return Some(quote);
      }
    }
  }

  /** `redact_quoted_after`. */
  method RedactQuotedAfter(command: string, marker: string) returns (out: string)
    requires marker != ""
    ensures out == Redact(command, marker)
  {
    out := "";
    var rest := command;
    var position := Find(rest, marker);
    while position.Some?
      invariant position == Find(rest, marker)
      invariant Redact(command, marker) == out + Redact(rest, marker)
      decreases |rest|
    {
      var start := position.value + |marker|;
      var tail := rest[start..];
      var end := FindClosingQuote(tail);
      Regroup(out, rest[..start] + REDACTED, Resume(tail, marker));
      Regroup(rest[..start], REDACTED, Resume(tail, marker));
      out := out + (rest[..start] + REDACTED);
      match end {
        case Some(quote) => rest := tail[quote..];
        case None => rest := "";
      }
      position := Find(rest, marker);
    }
    out := out + rest;
  }

  // ---- passwords do not show ----------------------------------------------

  /** How the panel quoted a password. */
  function Escape(password: string): string {
    if password == "" then ""
    else (if password[0] == '\'' then ESCAPED_QUOTE else [password[0]]) + Escape(password[1..])
  }

  /** Scanning over an escaped text arrives at what follows it. */
  lemma {:induction false} ClosingQuoteSkips(before: string, password: string, after: string)
    ensures var s := before + Escape(password) + after;
            ClosingQuote(s, |before|) == ClosingQuote(s, |before + Escape(password)|)
    decreases |password|
  {
    if password != "" {
      var first := if password[0] == '\'' then ESCAPED_QUOTE else [password[0]];
      Regroup(before, first, Escape(password[1..]));
      var s := before + Escape(password) + after;
      assert s[|before|] == first[0];
      assert password[0] == '\'' ==> EscapeAt(s, |before|);
      ClosingQuoteSkips(before + first, password[1..], after);
    }
  }

  /** A quote not continued as an escape closes the password before it. */
  lemma ClosingQuoteAfter(password: string, suffix: string)
    requires !StartsWith(suffix, "\\''")
    ensures ClosingQuote(Escape(password) + ("'" + suffix), 0) == Some(|Escape(password)|)
  {
    var s, at := Escape(password) + ("'" + suffix), |Escape(password)|;
    assert "" + Escape(password) == Escape(password);
    ClosingQuoteSkips("", password, "'" + suffix);
    assert |suffix| >= 3 ==> suffix[..3] == [suffix[0], suffix[1], suffix[2]];
    assert forall k | 0 <= k < |suffix| :: s[at + 1 + k] == suffix[k];
  }

  /** The prefix ends with its first occurrence of the marker. */
  ghost predicate EndsWithFirst(prefix: string, marker: string) {
    Find(prefix, marker) == Some(|prefix| - |marker|)
  }

  lemma FindAtEnd(prefix: string, marker: string, rest: string)
    requires marker != "" && EndsWithFirst(prefix, marker)
    ensures Find(prefix + rest, marker) == Some(|prefix| - |marker|)
  {
    var s, at := prefix + rest, |prefix| - |marker|;
    assert s[at..at + |marker|] == prefix[at..at + |marker|];
    assert OccursAt(s, marker, at);
    forall j: nat | j < at ensures !OccursAt(s, marker, j) {
      assert s[j..j + |marker|] == prefix[j..j + |marker|];
      assert OccursAt(s, marker, j) <==> OccursAt(prefix, marker, j);
    }
  }

  /** The password is replaced, whatever it contains: the quoted text after the
      first marker becomes `[redacted]` and the rest is redacted on its own. */
  lemma RedactedPassword(prefix: string, marker: string, password: string, suffix: string)
    requires marker != "" && EndsWithFirst(prefix, marker)
    requires !StartsWith(suffix, "\\''")
    ensures Redact(prefix + (Escape(password) + ("'" + suffix)), marker)
         == prefix + (REDACTED + Redact("'" + suffix, marker))
  {
    var tail := Escape(password) + ("'" + suffix);
    FindAtEnd(prefix, marker, tail);
    assert (prefix + tail)[..|prefix|] == prefix && (prefix + tail)[|prefix|..] == tail;
    ClosingQuoteAfter(password, suffix);
    assert tail[|Escape(password)|..] == "'" + suffix;
  }

  /** No two passwords can be told apart in the redacted line. */
  lemma NonInterference(prefix: string, marker: string, suffix: string, a: string, b: string)
    requires marker != "" && EndsWithFirst(prefix, marker)
    requires !StartsWith(suffix, "\\''")
    ensures Redact(prefix + (Escape(a) + ("'" + suffix)), marker) == Redact(prefix + (Escape(b) + ("'" + suffix)), marker)
  {
    RedactedPassword(prefix, marker, a, suffix);
    RedactedPassword(prefix, marker, b, suffix);
  }

  // ---- both markers in turn -----------------------------------------------

  const MARIADB_MARKER := "mariadb-dump -uroot -p'"
  const POSTGRES_MARKER := "PGPASSWORD='"

  /** `redact_legacy`. */
  function RedactLegacy(command: string): string {
    Redact(Redact(command, MARIADB_MARKER), POSTGRES_MARKER)
  }

  ghost predicate Contains(s: string, p: string) {
    exists i: nat :: OccursAt(s, p, i)
  }

  /** A line holding a quoted password: `prefix` ends with the opening quote. */
  function Quoted(prefix: string, password: string, suffix: string): string {
    prefix + (Escape(password) + ("'" + suffix))
  }

  /** A MariaDB password after the marker does not show. */
  lemma MariadbPasswordHidden(prefix: string, suffix: string, a: string, b: string)
    requires EndsWithFirst(prefix, MARIADB_MARKER) && !StartsWith(suffix, "\\''")
    ensures RedactLegacy(Quoted(prefix, a, suffix)) == RedactLegacy(Quoted(prefix, b, suffix))
  {
    NonInterference(prefix, MARIADB_MARKER, suffix, a, b);
  }

  lemma OccursLater(a: string, b: string, p: string, j: nat)
    requires |a| <= j
    ensures OccursAt(a + b, p, j) <==> OccursAt(b, p, j - |a|)
  {
  }

  lemma {:induction false} FindSkips(a: string, b: string, marker: string)
    requires marker != "" && forall j: nat | j < |a| :: !OccursAt(a + b, marker, j)
    ensures Find(b, marker).None? ==> Find(a + b, marker) == None
    ensures Find(b, marker).Some? ==> Find(a + b, marker) == Some(|a| + Find(b, marker).value)
  {
    var s := a + b;
    forall j: nat | |a| <= j ensures OccursAt(s, marker, j) <==> OccursAt(b, marker, j - |a|) {
      OccursLater(a, b, marker, j);
    }
    if Find(b, marker).Some? {
      FindIs(s, marker, |a| + Find(b, marker).value);
    }
  }

  lemma {:induction false} RedactAt(s: string, marker: string, kept: string, tail: string)
    requires marker != "" && s == kept + tail && |marker| <= |kept|
    requires Find(s, marker) == Some(|kept| - |marker|)
    ensures Redact(s, marker) == kept + (REDACTED + Resume(tail, marker))
  {
  }

  lemma {:induction false} RedactSkipsTo(s: string, a: string, b: string, marker: string, p: nat)
    requires marker != "" && s == a + b && Find(b, marker) == Some(p) && Find(s, marker) == Some(|a| + p)
    ensures Redact(s, marker) == a + Redact(b, marker)
  {
    var kept, tail := b[..p + |marker|], b[p + |marker|..];
    var rest := REDACTED + Resume(tail, marker);
    assert Redact(b, marker) == kept + rest by {
      assert b == kept + tail;
      RedactAt(b, marker, kept, tail);
    }
    assert Redact(s, marker) == (a + kept) + rest by {
      assert b == kept + tail;
      Regroup(a, kept, tail);
      RedactAt(s, marker, a + kept, tail);
    }
    Regroup(a, kept, rest);
  }

  /** Text before every occurrence of the marker is kept as it is. */
  lemma {:induction false} RedactSkips(a: string, b: string, marker: string)
    requires marker != "" && forall j: nat | j < |a| :: !OccursAt(a + b, marker, j)
    ensures Redact(a + b, marker) == a + Redact(b, marker)
  {
    FindSkips(a, b, marker);
    if Find(b, marker).Some? {
      RedactSkipsTo(a + b, a, b, marker, Find(b, marker).value);
    }
  }

  /** A text is kept up to and including the first marker. */
  lemma RedactPrefix(s: string, marker: string)
    requires marker != "" && Find(s, marker).Some?
    ensures var p := Find(s, marker).value;
            && s[p] == marker[0] && p + |marker| <= |Redact(s, marker)|
            && forall k | 0 <= k < p + |marker| :: Redact(s, marker)[k] == s[k]
  {
  }

  /** A text keeps its first `n` characters when no marker can begin in them. */
  lemma RedactKeeps(s: string, marker: string, n: nat)
    requires marker != "" && n <= |s| && marker[0] !in s[..n]
    ensures n <= |Redact(s, marker)| && Redact(s, marker)[..n] == s[..n]
  {
  }

  /** A text keeps its first `n` characters when no marker ends before them. */
  lemma RedactKeepsTo(s: string, marker: string, n: nat)
    requires marker != "" && n <= |s| && forall j: nat | OccursAt(s, marker, j) :: n <= j + |marker|
    ensures n <= |Redact(s, marker)| && Redact(s, marker)[..n] == s[..n]
  {
    if Find(s, marker).Some? {
      RedactPrefix(s, marker);
    }
  }

  /** Without the marker before it the first character of a password shows. */
  lemma FirstShows(prefix: string, c: char, rest: string)
    requires !Contains(prefix, MARIADB_MARKER) && !Contains(prefix, POSTGRES_MARKER)
    ensures var out := RedactLegacy(prefix + ([c] + rest)); |prefix| < |out| && out[|prefix|] == c
  {
    var s, n := prefix + ([c] + rest), |prefix| + 1;
    NotBefore(s, prefix, MARIADB_MARKER);
    RedactKeepsTo(s, MARIADB_MARKER, n);
    var t := Redact(s, MARIADB_MARKER);
    assert t[..|prefix|] == t[..n][..|prefix|] == prefix;
    NotBefore(t, prefix, POSTGRES_MARKER);
    RedactKeepsTo(t, POSTGRES_MARKER, n);
    var out := Redact(t, POSTGRES_MARKER);
    assert out[|prefix|] == out[..n][|prefix|] == t[..n][|prefix|] == s[..n][|prefix|] == c;
  }

  lemma NotBefore(s: string, prefix: string, marker: string)
    requires marker != "" && |prefix| <= |s| && s[..|prefix|] == prefix && !Contains(prefix, marker)
    ensures forall j: nat | OccursAt(s, marker, j) :: |prefix| + 1 <= j + |marker|
  {
    forall j: nat | OccursAt(s, marker, j) ensures |prefix| + 1 <= j + |marker| {
      if j + |marker| <= |prefix| {
        assert prefix[j..j + |marker|] == s[j..j + |marker|];
        assert OccursAt(prefix, marker, j);
      }
    }
  }

  /** What is printed of a line is independent of the MariaDB password in it
      exactly when the marker stands before the password in that line. */
  lemma HiddenIffMarked(prefix: string, suffix: string)
    requires Contains(prefix, MARIADB_MARKER) ==> EndsWithFirst(prefix, MARIADB_MARKER)
    requires !Contains(prefix, POSTGRES_MARKER) && !StartsWith(suffix, "\\''")
    ensures (forall a, b :: RedactLegacy(Quoted(prefix, a, suffix)) == RedactLegacy(Quoted(prefix, b, suffix)))
       <==> Contains(prefix, MARIADB_MARKER)
  {
    if Contains(prefix, MARIADB_MARKER) {
      forall a, b ensures RedactLegacy(Quoted(prefix, a, suffix)) == RedactLegacy(Quoted(prefix, b, suffix)) {
        MariadbPasswordHidden(prefix, suffix, a, b);
      }
    } else {
      assert Escape("") + ("'" + suffix) == ['\''] + suffix;
      FirstShows(prefix, '\'', suffix);
      assert Escape("x") == "x" && Escape("x") + ("'" + suffix) == ['x'] + ("'" + suffix);
      FirstShows(prefix, 'x', "'" + suffix);
      assert RedactLegacy(Quoted(prefix, "", suffix)) != RedactLegacy(Quoted(prefix, "x", suffix));
    }
  }

  lemma DiffersAt(s: string, opening: string, k: nat)
    requires k < |s| && k < |opening| && s[k] != opening[k]
    ensures !StartsWith(s, opening)
  {
  }

  /** Redaction does not make a text begin with `opening`. */
  lemma RedactAvoids(s: string, marker: string, opening: string)
    requires marker != "" && marker[0] !in opening && !StartsWith(s, opening)
    ensures !StartsWith(Redact(s, marker), opening)
  {
    if Find(s, marker).Some? {
      RedactPrefix(s, marker);
      var p := Find(s, marker).value;
      if p < |opening| {
        assert opening[p] in opening;
        DiffersAt(Redact(s, marker), opening, p);
      } else {
        var k :| 0 <= k < |opening| && s[k] != opening[k];
        DiffersAt(Redact(s, marker), opening, k);
      }
    }
  }

  // ---- a PostgreSQL password ----------------------------------------------

  /** A marker that ends with its only quote. */
  predicate OpensQuote(marker: string) {
    && |marker| > 1 && marker[|marker| - 1] == '\'' && marker[0] != '\\'
    && forall k | 0 <= k < |marker| - 1 :: marker[k] != '\''
  }

  lemma MarkersOpenQuotes()
    ensures OpensQuote(MARIADB_MARKER) && OpensQuote(POSTGRES_MARKER)
  {
  }

  lemma OccursChars(s: string, p: string, i: nat)
    requires OccursAt(s, p, i)
    ensures forall k | i <= k < i + |p| :: s[k] == p[k - i]
  {
  }

  /** An occurrence of such a marker cannot run over a quote. */
  lemma MarkerEndsAtQuote(s: string, marker: string, j: nat, quote: nat)
    requires OpensQuote(marker) && OccursAt(s, marker, j) && quote < |s| && s[quote] == '\''
    ensures quote < j || j + |marker| <= quote + 1
  {
  }

  /** When neither the prefix nor the quoted password contains the MariaDB
      marker, the first pass leaves both alone. */
  lemma FirstPassSkips(prefix: string, password: string, suffix: string)
    requires !Contains(prefix + Escape(password) + "'", MARIADB_MARKER)
    ensures Redact(Quoted(prefix, password, suffix), MARIADB_MARKER)
         == prefix + (Escape(password) + Redact("'" + suffix, MARIADB_MARKER))
  {
    var a, b := prefix + Escape(password), "'" + suffix;
    var s := a + b;
    Regroup(prefix, Escape(password), b);
    forall j: nat | j < |a| ensures !OccursAt(s, MARIADB_MARKER, j) {
      if OccursAt(s, MARIADB_MARKER, j) {
        assert s[|a|] == '\'';
        MarkersOpenQuotes();
        MarkerEndsAtQuote(s, MARIADB_MARKER, j, |a|);
        assert (a + "'")[j..j + |MARIADB_MARKER|] == s[j..j + |MARIADB_MARKER|];
        assert OccursAt(a + "'", MARIADB_MARKER, j);
      }
    }
    RedactSkips(a, b, MARIADB_MARKER);
    Regroup(prefix, Escape(password), Redact(b, MARIADB_MARKER));
  }

  lemma StartsWithCons(c: char, s: string, p: string)
    ensures StartsWith([c] + s, [c] + p) <==> StartsWith(s, p)
  {
    if |p| <= |s| {
      assert ([c] + s)[..|p| + 1] == [c] + s[..|p|];
      assert ([c] + p)[1..] == p && ([c] + s[..|p|])[1..] == s[..|p|];
    }
  }

  lemma FirstPassSuffix(suffix: string)
    requires !StartsWith(suffix, "\\''")
    ensures var y := Redact("'" + suffix, MARIADB_MARKER);
            y != "" && y == "'" + y[1..] && !StartsWith(y[1..], "\\''")
  {
  }

  /** A PostgreSQL password whose quoted text does not contain the MariaDB
      marker is replaced, whatever else it contains. */
  lemma PostgresPasswordReplaced(prefix: string, password: string, suffix: string)
    requires EndsWithFirst(prefix, POSTGRES_MARKER) && !StartsWith(suffix, "\\''")
    requires !Contains(prefix + Escape(password) + "'", MARIADB_MARKER)
    ensures RedactLegacy(Quoted(prefix, password, suffix))
         == prefix + (REDACTED + Redact(Redact("'" + suffix, MARIADB_MARKER), POSTGRES_MARKER))
  {
    var y := Redact("'" + suffix, MARIADB_MARKER);
    FirstPassSkips(prefix, password, suffix);
    FirstPassSuffix(suffix);
    RedactedPassword(prefix, POSTGRES_MARKER, password, y[1..]);
  }

  /** Cutting an escaped text before an ordinary character cuts no escape. */
  lemma {:induction false} EscapeCut(password: string, i: nat) returns (k: nat)
    requires i < |Escape(password)| && Escape(password)[i] != '\'' && Escape(password)[i] != '\\'
    ensures k <= |password| && Escape(password)[..i] == Escape(password[..k])
    decreases |password|
  {
    if i == 0 {
      k := 0;
    } else {
      var first := if password[0] == '\'' then ESCAPED_QUOTE else [password[0]];
      var rest := Escape(password[1..]);
      assert Escape(password) == first + rest;
      assert |first| <= i;
      var k' := EscapeCut(password[1..], i - |first|);
      k := k' + 1;
      assert password[..k][1..] == password[1..][..k'];
      assert (first + rest)[..i] == first + rest[..i - |first|];
    }
  }

  lemma {:induction false} EscapedThenMarker(password: string, marker: string, rest: string)
    requires OpensQuote(marker) && rest != "" && rest[0] != '\\'
    ensures var s := Escape(password) + (marker + rest);
            ClosingQuote(s, 0) == Some(|Escape(password)| + |marker| - 1)
  {
    var at, s := |Escape(password)|, Escape(password) + (marker + rest);
    assert "" + Escape(password) == Escape(password);
    ClosingQuoteSkips("", password, marker + rest);
    assert forall k | 0 <= k < |marker| :: s[at + k] == marker[k];
    assert forall k | at <= k < at + |marker| - 1 :: s[k] == marker[k - at];
    ClosingQuoteSkipsTo(s, at, at + |marker| - 1);
    assert s[at + |marker|] == rest[0];
  }

  lemma {:induction false} MarkerCloses(marker: string, password: string, i: nat, rest: string)
    requires OpensQuote(marker) && OccursAt(Escape(password) + "'", marker, i)
    requires rest != "" && rest[0] != '\\'
    ensures var n := i + |marker|;
            ClosingQuote((Escape(password) + "'")[..n] + rest, 0) == Some(n - 1)
  {
    var q, n := Escape(password) + "'", i + |marker|;
    OccursChars(q, marker, i);
    var k := EscapeCut(password, i);
    var escaped := Escape(password[..k]);
    assert q[..i] == Escape(password)[..i] == escaped;
    assert q[..n] == q[..i] + q[i..n];
    Regroup(escaped, marker, rest);
    EscapedThenMarker(password[..k], marker, rest);
  }

  lemma OccursInside(a: string, b: string, c: string, p: string, j: nat)
    requires |a| <= j && j + |p| <= |a| + |b|
    ensures OccursAt(a + (b + c), p, j) <==> OccursAt(b, p, j - |a|)
  {
  }

  lemma {:induction false} NoMarkerBefore(s: string, prefix: string, q: string, suffix: string, marker: string, i: nat, j: nat)
    requires s == prefix + (q + suffix)
    requires OpensQuote(marker) && prefix != "" && prefix[|prefix| - 1] == '\''
    requires j < |prefix| + i && i + |marker| <= |q|
    requires OccursAt(s, marker, j)
    ensures if j < |prefix| then OccursAt(prefix, marker, j) else OccursAt(q, marker, j - |prefix|)
  {
    if j >= |prefix| {
      OccursInside(prefix, q, suffix, marker, j);
    } else {
      MarkerEndsAtQuote(s, marker, j, |prefix| - 1);
      assert prefix[j..j + |marker|] == s[j..j + |marker|];
    }
  }

  lemma {:induction false} FirstMarkerInPassword(s: string, prefix: string, q: string, suffix: string, marker: string, i: nat)
    requires s == prefix + (q + suffix)
    requires OpensQuote(marker) && prefix != "" && prefix[|prefix| - 1] == '\'' && !Contains(prefix, marker)
    requires OccursAt(q, marker, i) && forall j: nat | j < i :: !OccursAt(q, marker, j)
    ensures Find(s, marker) == Some(|prefix| + i)
  {
    OccursInside(prefix, q, suffix, marker, |prefix| + i);
    forall j: nat | j < |prefix| + i ensures !OccursAt(s, marker, j) {
      if OccursAt(s, marker, j) {
        NoMarkerBefore(s, prefix, q, suffix, marker, i, j);
      }
    }
    FindIs(s, marker, |prefix| + i);
  }

  lemma {:induction false} RedactFrom(s: string, prefix: string, q: string, suffix: string, marker: string, n: nat)
    returns (after: string)
    requires s == prefix + (q + suffix) && marker != "" && |marker| <= n <= |q|
    requires Find(s, marker) == Some(|prefix| + n - |marker|)
    ensures Redact(s, marker) == prefix + (q[..n] + (REDACTED + after))
  {
    var kept, tail := prefix + q[..n], q[n..] + suffix;
    after := Resume(tail, marker);
    assert s == kept + tail by {
      assert q == q[..n] + q[n..];
      Regroup(q[..n], q[n..], suffix);
      Regroup(prefix, q[..n], tail);
    }
    RedactAt(s, marker, kept, tail);
    Regroup(prefix, q[..n], REDACTED + after);
  }

  /** The first pass stops at the marker inside the password. */
  lemma {:induction false} FirstPassCuts(prefix: string, password: string, suffix: string, marker: string, i: nat)
    returns (after: string)
    requires OpensQuote(marker) && prefix != "" && prefix[|prefix| - 1] == '\'' && !Contains(prefix, marker)
    requires Find(Escape(password) + "'", marker) == Some(i)
    ensures Redact(Quoted(prefix, password, suffix), marker)
         == prefix + ((Escape(password) + "'")[..i + |marker|] + (REDACTED + after))
  {
    var q := Escape(password) + "'";
    var s := Quoted(prefix, password, suffix);
    assert s == prefix + (q + suffix) by { Regroup(Escape(password), "'", suffix); }
    FirstMarkerInPassword(s, prefix, q, suffix, marker, i);
    after := RedactFrom(s, prefix, q, suffix, marker, i + |marker|);
  }

  /** The second pass takes that marker's quote for the end of the password. */
  lemma {:induction false} SecondPassCuts(prefix: string, marker: string, before: string, rest: string)
    requires marker != "" && EndsWithFirst(prefix, marker)
    requires ClosingQuote(before + "'" + rest, 0) == Some(|before|)
    ensures Redact(prefix + (before + "'" + rest), marker) == prefix + (REDACTED + Redact("'" + rest, marker))
  {
    var tail := before + "'" + rest;
    FindAtEnd(prefix, marker, tail);
    assert (prefix + tail)[..|prefix|] == prefix && (prefix + tail)[|prefix|..] == tail;
    assert tail[|before|..] == "'" + rest;
  }

  lemma StartsWithAppend(a: string, b: string, c: string, n: nat)
    requires n <= |c|
    ensures StartsWith(a + (b + c), a + (b + c[..n]))
  {
  }

  lemma {:induction false} SecondPassAtMarker(
      prefix: string, password: string, first: string, second: string, i: nat, after: string)
    requires OpensQuote(first) && second != "" && EndsWithFirst(prefix, second)
    requires OccursAt(Escape(password) + "'", first, i)
    ensures Redact(prefix + ((Escape(password) + "'")[..i + |first|] + (REDACTED + after)), second)
         == prefix + (REDACTED + Redact("'" + (REDACTED + after), second))
  {
    var q, n, rest := Escape(password) + "'", i + |first|, REDACTED + after;
    var before := q[..n - 1];
    assert q[..n] == before + "'" by { OccursChars(q, first, i); }
    MarkerCloses(first, password, i, rest);
    SecondPassCuts(prefix, second, before, rest);
  }

  lemma {:induction false} PasswordCut(prefix: string, password: string, suffix: string, first: string, second: string)
    returns (after: string)
    requires OpensQuote(first) && OpensQuote(second)
    requires EndsWithFirst(prefix, second) && !Contains(prefix, first)
    requires Contains(Escape(password) + "'", first)
    ensures Redact(Redact(Quoted(prefix, password, suffix), first), second)
         == prefix + (REDACTED + Redact("'" + (REDACTED + after), second))
  {
    var i := Find(Escape(password) + "'", first).value;
    assert prefix != "" && prefix[|prefix| - 1] == '\'' by { OccursChars(prefix, second, |prefix| - |second|); }
    after := FirstPassCuts(prefix, password, suffix, first, i);
    SecondPassAtMarker(prefix, password, first, second, i, after);
  }

  /** A PostgreSQL password whose quoted text contains the MariaDB marker is cut
      short at that marker: what follows it in the password stays in the line. */
  lemma PostgresPasswordShown(prefix: string, password: string, suffix: string)
    requires EndsWithFirst(prefix, POSTGRES_MARKER) && !Contains(prefix, MARIADB_MARKER)
    requires Contains(Escape(password) + "'", MARIADB_MARKER)
    ensures StartsWith(RedactLegacy(Quoted(prefix, password, suffix)), prefix + (REDACTED + ("'" + REDACTED)))
  {
    MarkersOpenQuotes();
    var after := PasswordCut(prefix, password, suffix, MARIADB_MARKER, POSTGRES_MARKER);
    var kept := "'" + REDACTED;
    Regroup("'", REDACTED, after);
    assert (kept + after)[..|kept|] == kept;
    RedactKeeps(kept + after, POSTGRES_MARKER, |kept|);
    StartsWithAppend(prefix, REDACTED, Redact(kept + after, POSTGRES_MARKER), |kept|);
  }

  /** A PostgreSQL password in a listed line: it shows nothing exactly when its
      quoted text does not contain the MariaDB marker. */
  lemma PostgresPasswordHidden(prefix: string, password: string, suffix: string)
    requires EndsWithFirst(prefix, POSTGRES_MARKER) && !Contains(prefix, MARIADB_MARKER)
    requires !StartsWith(suffix, "\\''") && !StartsWith(suffix, REDACTED)
    ensures RedactLegacy(Quoted(prefix, password, suffix)) == RedactLegacy(Quoted(prefix, "", suffix))
       <==> !Contains(Escape(password) + "'", MARIADB_MARKER)
  {
    assert !Contains(Escape("") + "'", MARIADB_MARKER);
    PrefixStaysClean(prefix, "");
    PostgresPasswordReplaced(prefix, "", suffix);
    if Contains(Escape(password) + "'", MARIADB_MARKER) {
      PostgresPasswordShown(prefix, password, suffix);
      HiddenOpening(prefix, suffix);
    } else {
      PrefixStaysClean(prefix, password);
      PostgresPasswordReplaced(prefix, password, suffix);
    }
  }

  /** A marker in two texts, the first ending with a quote, is in one of them. */
  lemma OccursInOne(a: string, b: string, marker: string, j: nat)
    requires OpensQuote(marker) && a != "" && a[|a| - 1] == '\'' && OccursAt(a + b, marker, j)
    ensures if j < |a| then OccursAt(a, marker, j) else OccursAt(b, marker, j - |a|)
  {
    if j < |a| {
      MarkerEndsAtQuote(a + b, marker, j, |a| - 1);
      assert a[j..j + |marker|] == (a + b)[j..j + |marker|];
    } else {
      OccursLater(a, b, marker, j);
    }
  }

  lemma PrefixStaysClean(prefix: string, password: string)
    requires EndsWithFirst(prefix, POSTGRES_MARKER) && !Contains(prefix, MARIADB_MARKER)
    requires !Contains(Escape(password) + "'", MARIADB_MARKER)
    ensures !Contains(prefix + Escape(password) + "'", MARIADB_MARKER)
  {
    var q := Escape(password) + "'";
    Regroup(prefix, Escape(password), "'");
    MarkersOpenQuotes();
    assert prefix[|prefix| - 1] == '\'' by { OccursChars(prefix, POSTGRES_MARKER, |prefix| - |POSTGRES_MARKER|); }
    forall i: nat ensures !OccursAt(prefix + q, MARIADB_MARKER, i) {
      if OccursAt(prefix + q, MARIADB_MARKER, i) {
        OccursInOne(prefix, q, MARIADB_MARKER, i);
      }
    }
  }

  /** A line whose password is hidden does not go on with `'[redacted]`. */
  lemma HiddenOpening(prefix: string, suffix: string)
    requires !StartsWith(suffix, REDACTED)
    ensures !StartsWith(prefix + (REDACTED + Redact(Redact("'" + suffix, MARIADB_MARKER), POSTGRES_MARKER)),
                        prefix + (REDACTED + ("'" + REDACTED)))
  {
    var opening := "'" + REDACTED;
    StartsWithCons('\'', suffix, REDACTED);
    RedactAvoids("'" + suffix, MARIADB_MARKER, opening);
    var once := Redact("'" + suffix, MARIADB_MARKER);
    RedactAvoids(once, POSTGRES_MARKER, opening);
    StartsWithBoth(prefix, REDACTED, Redact(once, POSTGRES_MARKER), opening);
  }

  lemma StartsWithBoth(a: string, b: string, c: string, d: string)
    ensures StartsWith(a + (b + c), a + (b + d)) <==> StartsWith(c, d)
  {
    if |d| <= |c| {
      assert (a + (b + c))[..|a| + |b| + |d|] == a + (b + c[..|d|]);
      assert (a + (b + c[..|d|]))[|a| + |b|..] == c[..|d|] && (a + (b + d))[|a| + |b|..] == d;
    }
  }

  lemma {:induction false} EscapePlain(s: string)
    requires '\'' !in s
    ensures Escape(s + "'") == s + ESCAPED_QUOTE
  {
    if s == "" {
      assert s + "'" == "'" && ("'")[1..] == "";
    } else {
      assert (s + "'")[1..] == s[1..] + "'";
      EscapePlain(s[1..]);
    }
  }

  lemma MarkerSurvivesEscape(marker: string)
    requires OpensQuote(marker)
    ensures Contains(Escape(marker) + "'", marker)
  {
    var body := marker[..|marker| - 1];
    assert marker == body + "'";
    EscapePlain(body);
    var q := Escape(marker) + "'";
    assert q[0..|marker|] == body + "'";
    assert OccursAt(q, marker, 0);
  }

  /** The text of the MariaDB marker is itself a PostgreSQL password that shows. */
  lemma MarkerAsPasswordShows(suffix: string)
    requires !StartsWith(suffix, "\\''") && !StartsWith(suffix, REDACTED)
    ensures RedactLegacy(Quoted(POSTGRES_MARKER, MARIADB_MARKER, suffix)) != RedactLegacy(Quoted(POSTGRES_MARKER, "", suffix))
  {
    MarkersOpenQuotes();
    MarkerSurvivesEscape(MARIADB_MARKER);
    FindIs(POSTGRES_MARKER, POSTGRES_MARKER, 0);
    PostgresPasswordHidden(POSTGRES_MARKER, MARIADB_MARKER, suffix);
  }
}
