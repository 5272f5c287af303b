/** The string operations of Rust's standard library that the modelled code is
    written with, and the laws about them that the other modules build on. A
    text is a sequence of Unicode scalar values. */
module Text {

  datatype Option<+T> = None | Some(value: T)

  function Lookup<K, V>(m: map<K, V>, k: K): Option<V> {
    if k in m then Some(m[k]) else None
  }

  /** `char::is_whitespace`: the Unicode White_Space property. */
  predicate IsWhitespace(c: char) {
    || '\U{9}' <= c <= '\U{D}'
    || c == ' ' || c == '\U{85}' || c == '\U{A0}' || c == '\U{1680}'
    || '\U{2000}' <= c <= '\U{200A}'
    || c == '\U{2028}' || c == '\U{2029}' || c == '\U{202F}' || c == '\U{205F}' || c == '\U{3000}'
  }

  predicate IsDigit(c: char) {
    '0' <= c <= '9'
  }

  predicate IsLower(c: char) {
    'a' <= c <= 'z'
  }

  predicate IsAlphanumeric(c: char) {
    IsDigit(c) || IsLower(c) || 'A' <= c <= 'Z'
  }

  /** A nonempty text without whitespace. */
  predicate IsWord(s: string) {
    s != "" && forall c | c in s :: !IsWhitespace(c)
  }

  /** Printable ASCII other than the space. */
  predicate IsGraphic(c: char) {
    '!' <= c <= '~'
  }

  lemma GraphicWord(s: string)
    requires s != "" && forall c | c in s :: IsGraphic(c)
    ensures IsWord(s)
  {
  }

  predicate StartsWith(s: string, p: string) {
    |p| <= |s| && s[..|p|] == p
  }

  predicate OccursAt(s: string, p: string, i: nat) {
    i + |p| <= |s| && s[i..i + |p|] == p
  }

  /** `str::find`: the first occurrence of `p`. */
  function Find(s: string, p: string): (r: Option<nat>)
    ensures r.Some? ==> OccursAt(s, p, r.value) && forall j: nat | j < r.value :: !OccursAt(s, p, j)
    ensures r.None? ==> forall j: nat :: !OccursAt(s, p, j)
  {
    FindFrom(s, p, 0)
  }

  function FindFrom(s: string, p: string, i: nat): (r: Option<nat>)
    requires i <= |s|
    ensures r.Some? ==> i <= r.value && OccursAt(s, p, r.value) && forall j: nat | i <= j < r.value :: !OccursAt(s, p, j)
    ensures r.None? ==> forall j: nat | i <= j :: !OccursAt(s, p, j)
    decreases |s| - i
  {
    if OccursAt(s, p, i) then Some(i)
    else if i == |s| then None
    else FindFrom(s, p, i + 1)
  }

  lemma {:induction false} FindIs(s: string, p: string, i: nat)
    requires OccursAt(s, p, i) && forall j: nat | j < i :: !OccursAt(s, p, j)
    ensures Find(s, p) == Some(i)
  {
  }

  /** `str::rfind`: the last occurrence of `p`. */
  function FindLast(s: string, p: string): (r: Option<nat>)
    ensures r.Some? ==> OccursAt(s, p, r.value) && forall j: nat | r.value < j :: !OccursAt(s, p, j)
    ensures r.None? ==> forall j: nat :: !OccursAt(s, p, j)
  {
    FindLastUpTo(s, p, |s|)
  }

  function FindLastUpTo(s: string, p: string, i: nat): (r: Option<nat>)
    requires i <= |s|
    ensures r.Some? ==> r.value <= i && OccursAt(s, p, r.value) && forall j: nat | r.value < j <= i :: !OccursAt(s, p, j)
    ensures r.None? ==> forall j: nat | j <= i :: !OccursAt(s, p, j)
  {
    if OccursAt(s, p, i) then Some(i)
    else if i == 0 then None
    else FindLastUpTo(s, p, i - 1)
  }

  /** The position of the first `c`, or `|s|`. */
  function IndexOf(s: string, c: char): (i: nat)
    ensures i <= |s|
    ensures c !in s[..i]
    ensures i < |s| ==> s[i] == c
  {
    if s == "" || s[0] == c then 0 else 1 + IndexOf(s[1..], c)
  }

  lemma IndexOfUnique(s: string, c: char, i: nat)
    requires i <= |s| && c !in s[..i]
    requires i == |s| || s[i] == c
    ensures IndexOf(s, c) == i
  {
  }

  /** `str::split_once` on one character. */
  function SplitOnce(s: string, c: char): (r: Option<(string, string)>)
    ensures r.None? <==> c !in s
    ensures r.Some? ==> s == r.value.0 + [c] + r.value.1 && c !in r.value.0
  {
    var i := IndexOf(s, c);
    if i == |s| then
      assert s[..i] == s;
      None
    else
      assert s == s[..i] + [c] + s[i + 1..];
      Some((s[..i], s[i + 1..]))
  }

  lemma SplitOnceAt(a: string, c: char, b: string)
    requires c !in a
    ensures SplitOnce(a + [c] + b, c) == Some((a, b))
  {
    var s := a + [c] + b;
    assert s[..|a|] == a && s[|a| + 1..] == b;
    IndexOfUnique(s, c, |a|);
  }

  /** `str::split` on one character. */
  function Split(s: string, c: char): (parts: seq<string>)
    ensures parts != []
    ensures forall p | p in parts :: c !in p
    decreases |s|
  {
    var i := IndexOf(s, c);
    if i == |s| then
      assert s[..i] == s;
      [s]
    else
      [s[..i]] + Split(s[i + 1..], c)
  }

  lemma SplitCons(a: string, c: char, b: string)
    requires c !in a
    ensures Split(a + [c] + b, c) == [a] + Split(b, c)
  {
    var s := a + [c] + b;
    assert s[..|a|] == a && s[|a| + 1..] == b;
    IndexOfUnique(s, c, |a|);
  }

  lemma SplitOne(a: string, c: char)
    requires c !in a
    ensures Split(a, c) == [a]
  {
  }

  /** `[T]::join` with a one-character separator. */
  function Join(parts: seq<string>, c: char): (s: string) {
    if parts == [] then ""
    else if |parts| == 1 then parts[0]
    else parts[0] + [c] + Join(parts[1..], c)
  }

  /** Splitting a joined list gives the list back. */
  lemma {:induction false} SplitJoin(parts: seq<string>, c: char)
    requires parts != []
    requires forall p | p in parts :: c !in p
    ensures Split(Join(parts, c), c) == parts
  {
    if |parts| == 1 {
      SplitOne(parts[0], c);
    } else {
      SplitJoin(parts[1..], c);
      SplitCons(parts[0], c, Join(parts[1..], c));
    }
  }

  lemma {:induction false} JoinCons(a: string, rest: seq<string>, c: char)
    requires rest != []
    ensures Join([a] + rest, c) == a + [c] + Join(rest, c)
  {
    assert ([a] + rest)[1..] == rest;
  }

  lemma {:induction false} JoinSplit(s: string, c: char)
    ensures Join(Split(s, c), c) == s
    decreases |s|
  {
    var i := IndexOf(s, c);
    if i < |s| {
      var head, tail := s[..i], s[i + 1..];
      JoinSplit(tail, c);
      JoinCons(head, Split(tail, c), c);
      assert s == head + [c] + tail;
    } else {
      SplitOne(s, c);
    }
  }

  lemma {:induction false} JoinAppend(xs: seq<string>, ys: seq<string>, c: char)
    requires xs != [] && ys != []
    ensures Join(xs + ys, c) == Join(xs, c) + [c] + Join(ys, c)
  {
    if |xs| == 1 {
      assert xs + ys == [xs[0]] + ys && (xs + ys)[1..] == ys;
    } else {
      assert (xs + ys)[1..] == xs[1..] + ys;
      JoinAppend(xs[1..], ys, c);
    }
  }

  lemma {:induction false} JoinChars(parts: seq<string>, c: char, d: char)
    requires d in Join(parts, c)
    ensures d == c || exists p | p in parts :: d in p
  {
    if |parts| > 1 && d != c && d !in parts[0] {
      JoinChars(parts[1..], c, d);
    }
  }

  lemma Regroup<T>(a: seq<T>, b: seq<T>, c: seq<T>)
    ensures (a + b) + c == a + (b + c)
  {
  }

  // ---- letters ------------------------------------------------------------

  function LowerChar(c: char): char {
    if 'A' <= c <= 'Z' then c - 'A' + 'a' else c
  }

  /** `str::to_ascii_lowercase`. */
  function AsciiLower(s: string): string {
    seq(|s|, i requires 0 <= i < |s| => LowerChar(s[i]))
  }

  // ---- whitespace ---------------------------------------------------------

  /** `str::trim_start`. */
  function TrimStart(s: string): (t: string)
    ensures |t| <= |s|
    ensures t != "" ==> !IsWhitespace(t[0])
  {
    if s != "" && IsWhitespace(s[0]) then TrimStart(s[1..]) else s
  }

  /** `str::trim_end`. */
  function TrimEnd(s: string): (t: string)
    ensures |t| <= |s| && t == s[..|t|]
    ensures t != "" ==> !IsWhitespace(t[|t| - 1])
  {
    if s != "" && IsWhitespace(s[|s| - 1]) then TrimEnd(s[..|s| - 1]) else s
  }

  /** `str::trim`. */
  function Trim(s: string): string {
    TrimEnd(TrimStart(s))
  }

  /** `str::trim_start_matches('#')`. */
  function TrimHashes(s: string): (t: string)
    ensures |t| <= |s|
    ensures t != "" ==> t[0] != '#'
  {
    if s != "" && s[0] == '#' then TrimHashes(s[1..]) else s
  }

  predicate Tight(s: string) {
    s != "" && !IsWhitespace(s[0]) && !IsWhitespace(s[|s| - 1])
  }

  lemma TrimTight(s: string)
    requires Tight(s)
    ensures Trim(s) == s
  {
  }

  lemma {:induction false} TrimStartAppend(s: string, c: char)
    requires IsWhitespace(c)
    ensures TrimStart(s + [c]) == if TrimStart(s) == "" then "" else TrimStart(s) + [c]
  {
    if s == "" {
      assert s + [c] == [c] && [c][1..] == "";
    } else if IsWhitespace(s[0]) {
      assert (s + [c])[1..] == s[1..] + [c];
      TrimStartAppend(s[1..], c);
    }
  }

  /** Trimming does not see whitespace at the end. */
  lemma TrimAppend(s: string, c: char)
    requires IsWhitespace(c)
    ensures Trim(s + [c]) == Trim(s)
  {
    TrimStartAppend(s, c);
    var t := TrimStart(s);
    assert (t + [c])[..|t|] == t;
  }

  /** How far the first word reaches. */
  function WordLength(s: string): (n: nat)
    ensures n <= |s|
    ensures forall c | c in s[..n] :: !IsWhitespace(c)
    ensures n < |s| ==> IsWhitespace(s[n])
  {
    if s == "" || IsWhitespace(s[0]) then 0 else 1 + WordLength(s[1..])
  }

  lemma WordLengthUnique(s: string, n: nat)
    requires n <= |s|
    requires forall c | c in s[..n] :: !IsWhitespace(c)
    requires n == |s| || IsWhitespace(s[n])
    ensures WordLength(s) == n
  {
  }

  /** `str::split_whitespace`. */
  function SplitWhitespace(s: string): (words: seq<string>)
    ensures forall w | w in words :: IsWord(w)
    decreases |s|
  {
    var t := TrimStart(s);
    if t == "" then [] else
      var n := WordLength(t);
      [t[..n]] + SplitWhitespace(t[n..])
  }

  lemma SplitWhitespaceBlank(c: char, s: string)
    requires IsWhitespace(c)
    ensures SplitWhitespace([c] + s) == SplitWhitespace(s)
  {
  }

  lemma SplitWhitespaceWord(w: string)
    requires IsWord(w)
    ensures SplitWhitespace(w) == [w]
  {
    assert TrimStart(w) == w by { assert w[0] in w; }
    assert w[..|w|] == w;
    WordLengthUnique(w, |w|);
  }

  lemma SplitWhitespaceCons(w: string, rest: string)
    requires IsWord(w)
    ensures SplitWhitespace(w + " " + rest) == [w] + SplitWhitespace(rest)
  {
    var s := w + " " + rest;
    assert s[0] == w[0] && w[0] in w;
    assert s[..|w|] == w && s[|w|..] == [' '] + rest;
    WordLengthUnique(s, |w|);
    SplitWhitespaceBlank(' ', rest);
  }

  /** Splitting joined words gives the words back. */
  lemma SplitFirst(s: string, n: nat)
    requires 0 < n <= |s| && IsWord(s[..n]) && (n == |s| || IsWhitespace(s[n]))
    ensures SplitWhitespace(s) == [s[..n]] + SplitWhitespace(s[n..])
  {
    assert s[0] == s[..n][0];
    WordLengthUnique(s, n);
  }

  /** Words do not reach over a blank. */
  lemma {:induction false} SplitAtBlank(a: string, c: char, b: string)
    requires IsWhitespace(c)
    ensures SplitWhitespace(a + [c] + b) == SplitWhitespace(a) + SplitWhitespace(b)
    decreases |a|
  {
    var s := a + [c] + b;
    if a == "" {
      assert s == [c] + b;
      SplitWhitespaceBlank(c, b);
    } else if IsWhitespace(a[0]) {
      assert a == [a[0]] + a[1..] && s == [a[0]] + (a[1..] + [c] + b);
      SplitWhitespaceBlank(a[0], a[1..]);
      SplitWhitespaceBlank(a[0], a[1..] + [c] + b);
      SplitAtBlank(a[1..], c, b);
    } else {
      var n := WordLength(a);
      assert s[..n] == a[..n] && s[n..] == a[n..] + [c] + b;
      SplitFirst(a, n);
      SplitFirst(s, n);
      SplitAtBlank(a[n..], c, b);
      Regroup([a[..n]], SplitWhitespace(a[n..]), SplitWhitespace(b));
    }
  }

  lemma {:induction false} SplitTrimEnd(s: string)
    ensures SplitWhitespace(TrimEnd(s)) == SplitWhitespace(s)
  {
    if s != "" && IsWhitespace(s[|s| - 1]) {
      var front, last := s[..|s| - 1], s[|s| - 1];
      SplitTrimEnd(front);
      SplitAtBlank(front, last, "");
      assert s == front + [last] + "";
    }
  }

  /** Trimming changes no word. */
  lemma SplitTrim(s: string)
    ensures SplitWhitespace(Trim(s)) == SplitWhitespace(s)
  {
    var t := TrimStart(s);
    SplitTrimEnd(t);
    assert TrimStart(t) == t;
  }

  lemma {:induction false} SplitWhitespaceJoin(ws: seq<string>)
    requires ws != [] && forall w | w in ws :: IsWord(w)
    ensures SplitWhitespace(Join(ws, ' ')) == ws
  {
    assert IsWord(ws[0]);
    if |ws| == 1 {
      SplitWhitespaceWord(ws[0]);
    } else {
      SplitWhitespaceJoin(ws[1..]);
      SplitWhitespaceCons(ws[0], Join(ws[1..], ' '));
    }
  }

  lemma JoinRest(ws: seq<string>, rest: string)
    requires |ws| > 1
    ensures Join(ws, ' ') + " " + rest == ws[0] + " " + (Join(ws[1..], ' ') + " " + rest)
  {
  }

  /** A text that begins with joined words splits into those words first. */
  lemma {:induction false} SplitWhitespaceJoinRest(ws: seq<string>, rest: string)
    requires ws != [] && forall w | w in ws :: IsWord(w)
    ensures SplitWhitespace(Join(ws, ' ') + " " + rest) == ws + SplitWhitespace(rest)
  {
    assert IsWord(ws[0]);
    if |ws| == 1 {
      assert ws == [ws[0]] && Join(ws, ' ') == ws[0];
      SplitWhitespaceCons(ws[0], rest);
    } else {
      var tail := Join(ws[1..], ' ') + " " + rest;
      assert SplitWhitespace(tail) == ws[1..] + SplitWhitespace(rest) by { SplitWhitespaceJoinRest(ws[1..], rest); }
      assert Join(ws, ' ') + " " + rest == ws[0] + " " + tail by { JoinRest(ws, rest); }
      assert SplitWhitespace(ws[0] + " " + tail) == [ws[0]] + SplitWhitespace(tail) by { SplitWhitespaceCons(ws[0], tail); }
      assert [ws[0]] + (ws[1..] + SplitWhitespace(rest)) == ws + SplitWhitespace(rest) by {
        assert ws == [ws[0]] + ws[1..];
        Regroup([ws[0]], ws[1..], SplitWhitespace(rest));
      }
    }
  }

  /** Joined words neither begin nor end with whitespace. */
  lemma {:induction false} JoinWordsTight(ws: seq<string>)
    requires ws != [] && forall w | w in ws :: IsWord(w)
    ensures Tight(Join(ws, ' ')) && Join(ws, ' ')[0] == ws[0][0]
  {
    assert ws[0] in ws && IsWord(ws[0]);
    assert ws[0][0] in ws[0] && ws[0][|ws[0]| - 1] in ws[0];
    if |ws| > 1 {
      JoinWordsTight(ws[1..]);
    }
  }

  // ---- lines --------------------------------------------------------------

  function StripReturn(line: string): string {
    if line != "" && line[|line| - 1] == '\r' then line[..|line| - 1] else line
  }

  /** `str::lines`: lines end at "\n" or "\r\n"; a last line without a newline
      keeps its carriage return. */
  function Lines(text: string): (lines: seq<string>)
    ensures forall l | l in lines :: '\n' !in l
    decreases |text|
  {
    if text == "" then [] else
      var i := IndexOf(text, '\n');
      if i == |text| then
        assert text[..i] == text;
        [text]
      else
        [StripReturn(text[..i])] + Lines(text[i + 1..])
  }

  /** The crontab editors' `render`: every line followed by a newline. */
  function Render(lines: seq<string>): string {
    if lines == [] then "" else Join(lines, '\n') + "\n"
  }

  lemma RenderCons(line: string, rest: seq<string>)
    ensures Render([line] + rest) == line + "\n" + Render(rest)
  {
  }

  lemma LinesCons(line: string, text: string)
    requires '\n' !in line
    ensures Lines(line + "\n" + text) == [StripReturn(line)] + Lines(text)
  {
    var s := line + "\n" + text;
    assert s[..|line|] == line && s[|line| + 1..] == text;
    IndexOfUnique(s, '\n', |line|);
  }

  lemma TrimStripReturn(line: string)
    ensures Trim(StripReturn(line)) == Trim(line)
  {
    if StripReturn(line) != line {
      assert line == StripReturn(line) + ['\r'];
      TrimAppend(StripReturn(line), '\r');
    }
  }

  function StripReturns(lines: seq<string>): (r: seq<string>)
    ensures |r| == |lines|
  {
    if lines == [] then [] else [StripReturn(lines[0])] + StripReturns(lines[1..])
  }

  predicate NoReturns(lines: seq<string>) {
    forall l | l in lines :: StripReturn(l) == l
  }

  /** Reading back rendered lines loses exactly one carriage return per line. */
  lemma {:induction false} LinesRender(lines: seq<string>)
    requires forall l | l in lines :: '\n' !in l
    ensures Lines(Render(lines)) == StripReturns(lines)
  {
    if lines != [] {
      assert lines == [lines[0]] + lines[1..];
      RenderCons(lines[0], lines[1..]);
      LinesCons(lines[0], Render(lines[1..]));
      LinesRender(lines[1..]);
    }
  }

  lemma {:induction false} StripReturnsSame(lines: seq<string>)
    ensures NoReturns(lines) <==> StripReturns(lines) == lines
  {
    if lines != [] {
      StripReturnsSame(lines[1..]);
      assert lines == [lines[0]] + lines[1..];
      assert StripReturns(lines)[1..] == StripReturns(lines[1..]);
      if StripReturns(lines) == lines {
        assert StripReturn(lines[0]) == StripReturns(lines)[0] == lines[0];
        assert StripReturns(lines[1..]) == lines[1..];
      }
    }
  }

  /** Rendering is injective on sequences of lines. */
  lemma {:induction false} RenderInjective(xs: seq<string>, ys: seq<string>)
    requires forall l | l in xs :: '\n' !in l
    requires forall l | l in ys :: '\n' !in l
    requires Render(xs) == Render(ys)
    ensures xs == ys
  {
    if xs != [] {
      assert xs == [xs[0]] + xs[1..];
      RenderCons(xs[0], xs[1..]);
    }
    if ys != [] {
      assert ys == [ys[0]] + ys[1..];
      RenderCons(ys[0], ys[1..]);
    }
    if xs != [] && ys != [] {
      var s := Render(xs);
      assert s[..|xs[0]|] == xs[0] && s[..|ys[0]|] == ys[0];
      IndexOfUnique(s, '\n', |xs[0]|);
      IndexOfUnique(s, '\n', |ys[0]|);
      assert s[|xs[0]| + 1..] == Render(xs[1..]) && s[|ys[0]| + 1..] == Render(ys[1..]);
      RenderInjective(xs[1..], ys[1..]);
    }
  }

  // ---- numbers ------------------------------------------------------------

  const U32_MAX: nat := 0xFFFF_FFFF

  predicate AllDigits(s: string) {
    forall c | c in s :: IsDigit(c)
  }

  predicate IsNumeral(s: string) {
    s != "" && AllDigits(s)
  }

  function DigitsValue(s: string): nat
    requires AllDigits(s)
  {
    if s == "" then 0 else
      assert s[|s| - 1] in s;
      DigitsValue(s[..|s| - 1]) * 10 + (s[|s| - 1] - '0') as nat
  }

  /** `str::parse::<u32>`, which also accepts one leading `+`. */
  function ParseU32(s: string): (r: Option<nat>)
    ensures r.Some? ==> r.value <= U32_MAX
    ensures r.Some? && '+' !in s ==> IsNumeral(s) && r.value == DigitsValue(s)
    ensures IsNumeral(s) && DigitsValue(s) <= U32_MAX ==> r.Some?
  {
    var digits := if s != "" && s[0] == '+' then s[1..] else s;
    assert s != "" ==> s[0] in s;
    if IsNumeral(digits) && DigitsValue(digits) <= U32_MAX then Some(DigitsValue(digits)) else None
  }

  /** `{n}`: decimal, without leading zeros. */
  function Decimal(n: nat): (s: string)
    ensures IsNumeral(s) && DigitsValue(s) == n
  {
    var last := ['0' + (n % 10) as char];
    if n < 10 then
      assert last[..0] == "";
      last
    else
      var s := Decimal(n / 10) + last;
      assert s[..|s| - 1] == Decimal(n / 10);
      s
  }

  /** `{n:02}`. */
  function Padded(n: nat): (s: string)
    ensures IsNumeral(s) && DigitsValue(s) == n
  {
    if n < 10 then
      var d := Decimal(n);
      assert ("0" + d)[..|d|] == "0" + d[..|d| - 1];
      assert |d| == 1;
      assert DigitsValue("0") == 0 by { assert "0"[..0] == ""; }
      assert ("0" + d)[..1] == "0";
      "0" + d
    else Decimal(n)
  }
}
