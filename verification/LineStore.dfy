/** The line editing that the backup and the agent crontab share
    (src/backup_schedule.rs, src/agent_lifecycle.rs): the lines a test hits are
    taken out, at most one line is put at the end, and the rest stays. */
module LineStore {
  import opened Text

  function Kept<T>(hit: T -> bool, lines: seq<T>): seq<T> {
    if lines == [] then []
    else if hit(lines[0]) then Kept(hit, lines[1..])
    else [lines[0]] + Kept(hit, lines[1..])
  }

  lemma {:induction false} KeptMembers<T>(hit: T -> bool, lines: seq<T>)
    ensures forall l :: l in Kept(hit, lines) <==> l in lines && !hit(l)
  {
    if lines != [] {
      KeptMembers(hit, lines[1..]);
      assert lines == [lines[0]] + lines[1..];
    }
  }

  function Put(line: Option<string>): seq<string> {
    match line
    case None => []
    case Some(l) => [l]
  }

  /** The tab after the edit. */
  function Replaced(hit: string -> bool, tab: string, line: Option<string>): string {
    Render(Kept(hit, Lines(tab)) + Put(line))
  }

  lemma {:induction false} KeptAppend<T>(hit: T -> bool, xs: seq<T>, ys: seq<T>)
    ensures Kept(hit, xs + ys) == Kept(hit, xs) + Kept(hit, ys)
  {
    if xs == [] {
      assert xs + ys == ys;
    } else {
      assert (xs + ys)[1..] == xs[1..] + ys;
      KeptAppend(hit, xs[1..], ys);
    }
  }

  lemma KeptSnoc<T>(hit: T -> bool, lines: seq<T>, i: nat)
    requires i < |lines|
    ensures Kept(hit, lines[..i + 1]) == if hit(lines[i]) then Kept(hit, lines[..i]) else Kept(hit, lines[..i]) + [lines[i]]
  {
    assert lines[..i + 1] == lines[..i] + [lines[i]];
    KeptAppend(hit, lines[..i], [lines[i]]);
  }

  /** The filtering closure, with its count of hits. */
  method Filter(hit: string -> bool, lines: seq<string>) returns (kept: seq<string>, hits: nat)
    ensures kept == Kept(hit, lines)
    ensures hits == |lines| - |kept|
  {
    kept, hits := [], 0;
    for i := 0 to |lines|
      invariant kept == Kept(hit, lines[..i])
      invariant hits == i - |kept|
    {
      KeptSnoc(hit, lines, i);
      if hit(lines[i]) {
        hits := hits + 1;
      } else {
        kept := kept + [lines[i]];
      }
    }
    assert lines[..|lines|] == lines;
  }

  /** The test does not look at a carriage return at the end of a line. */
  ghost predicate ReturnBlind(hit: string -> bool) {
    forall l {:trigger StripReturn(l)} :: hit(StripReturn(l)) == hit(l)
  }

  lemma {:induction false} KeptStrip(hit: string -> bool, lines: seq<string>)
    requires ReturnBlind(hit)
    ensures Kept(hit, StripReturns(lines)) == StripReturns(Kept(hit, lines))
  {
    if lines != [] {
      var head, tail := lines[0], lines[1..];
      KeptStrip(hit, tail);
      KeptCons(hit, head, tail);
      KeptCons(hit, StripReturn(head), StripReturns(tail));
      StripReturnsCons(head, Kept(hit, tail));
    }
  }

  lemma KeptCons<T>(hit: T -> bool, head: T, tail: seq<T>)
    ensures Kept(hit, [head] + tail) == if hit(head) then Kept(hit, tail) else [head] + Kept(hit, tail)
  {
  }

  lemma StripReturnsCons(head: string, tail: seq<string>)
    ensures StripReturns([head] + tail) == [StripReturn(head)] + StripReturns(tail)
  {
  }

  lemma {:induction false} KeptAll<T>(hit: T -> bool, lines: seq<T>)
    requires forall l | l in lines :: !hit(l)
    ensures Kept(hit, lines) == lines
  {
    if lines != [] {
      assert lines[0] in lines;
      KeptAll(hit, lines[1..]);
    }
  }

  /** The order of two filters does not matter, and one that takes out less
      changes nothing before one that takes out more. */
  lemma {:induction false} KeptTwice<T>(p: T -> bool, q: T -> bool, lines: seq<T>)
    ensures Kept(p, Kept(q, lines)) == Kept(q, Kept(p, lines))
    ensures (forall l | l in lines :: q(l) ==> p(l)) ==> Kept(p, Kept(q, lines)) == Kept(p, lines)
    ensures (forall l | l in lines :: p(l) || q(l)) ==> Kept(p, Kept(q, lines)) == []
  {
    if lines != [] {
      var head, tail := lines[0], lines[1..];
      KeptTwice(p, q, tail);
      assert lines == [head] + tail;
      KeptCons(p, head, Kept(q, tail));
      KeptCons(q, head, Kept(p, tail));
    }
  }

  lemma {:induction false} StripReturnsAppend(xs: seq<string>, ys: seq<string>)
    ensures StripReturns(xs + ys) == StripReturns(xs) + StripReturns(ys)
  {
    if xs == [] {
      assert xs + ys == ys;
    } else {
      assert (xs + ys)[1..] == xs[1..] + ys;
      StripReturnsAppend(xs[1..], ys);
    }
  }

  predicate OneLine(line: string) {
    '\n' !in line && StripReturn(line) == line
  }

  /** The edited tab holds the kept lines in their order, each without a
      carriage return at its end, and then the new line. */
  lemma ReplacedLines(hit: string -> bool, tab: string, line: Option<string>)
    requires line.Some? ==> OneLine(line.value)
    ensures Lines(Replaced(hit, tab, line)) == StripReturns(Kept(hit, Lines(tab))) + Put(line)
  {
    var kept := Kept(hit, Lines(tab));
    KeptMembers(hit, Lines(tab));
    LinesRender(kept + Put(line));
    StripReturnsAppend(kept, Put(line));
    StripReturnsSame(Put(line));
  }

  lemma KeptAgain(hit: string -> bool, kept: seq<string>, line: string)
    requires ReturnBlind(hit) && hit(line) && forall l | l in kept :: !hit(l)
    ensures Kept(hit, StripReturns(kept) + [line]) == StripReturns(kept)
  {
    KeptAppend(hit, StripReturns(kept), [line]);
    KeptCons(hit, line, []);
    KeptStrip(hit, kept);
    KeptAll(hit, kept);
  }

  /** Taking the line out again gives what taking it out at first would have
      given, exactly when no line that stays ends with a carriage return. */
  lemma ReplaceThenRemove(hit: string -> bool, tab: string, line: string)
    requires ReturnBlind(hit) && hit(line) && OneLine(line)
    ensures Replaced(hit, Replaced(hit, tab, Some(line)), None) == Replaced(hit, tab, None)
       <==> NoReturns(Kept(hit, Lines(tab)))
  {
    var kept := Kept(hit, Lines(tab));
    KeptMembers(hit, Lines(tab));
    ReplacedLines(hit, tab, Some(line));
    KeptAgain(hit, kept, line);
    RenderStripped(kept);
  }

  lemma RenderStripped(lines: seq<string>)
    requires forall l | l in lines :: '\n' !in l
    ensures Render(StripReturns(lines) + []) == Render(lines + []) <==> NoReturns(lines)
  {
    StripReturnsSame(lines);
    assert StripReturns(lines) + [] == StripReturns(lines) && lines + [] == lines;
    if Render(StripReturns(lines)) == Render(lines) {
      StrippedNewlines(lines);
      RenderInjective(StripReturns(lines), lines);
    }
  }

  lemma {:induction false} StrippedNewlines(lines: seq<string>)
    requires forall l | l in lines :: '\n' !in l
    ensures forall l | l in StripReturns(lines) :: '\n' !in l
  {
    if lines != [] {
      assert lines[0] in lines;
      StrippedNewlines(lines[1..]);
    }
  }

  // ---- the lines as they stand in the text --------------------------------

  /** The lines that end with a newline, as they are before it. */
  function Terminated(text: string): (lines: seq<string>)
    ensures forall l | l in lines :: '\n' !in l
    decreases |text|
  {
    var i := IndexOf(text, '\n');
    if i == |text| then [] else [text[..i]] + Terminated(text[i + 1..])
  }

  /** What follows the last newline. */
  function Unterminated(text: string): (rest: string)
    ensures '\n' !in rest
    decreases |text|
  {
    var i := IndexOf(text, '\n');
    if i == |text| then
      assert text[..i] == text;
      text
    else Unterminated(text[i + 1..])
  }

  function Last(rest: string): seq<string> {
    if rest == "" then [] else [rest]
  }

  /** Every line of the text, byte for byte. */
  function RawLines(text: string): seq<string> {
    Terminated(text) + Last(Unterminated(text))
  }

  /** They are the text. */
  lemma {:induction false} RawText(text: string)
    ensures Render(Terminated(text)) + Unterminated(text) == text
    decreases |text|
  {
    var i := IndexOf(text, '\n');
    if i < |text| {
      var line, rest := text[..i], text[i + 1..];
      RawText(rest);
      RenderCons(line, Terminated(rest));
      Glue(text, line, Render(Terminated(rest)), Unterminated(rest), i);
    }
  }

  lemma Glue(text: string, line: string, a: string, b: string, i: nat)
    requires i < |text| && text[i] == '\n' && text[..i] == line && text[i + 1..] == a + b
    ensures line + "\n" + a + b == text
  {
    assert text == text[..i] + [text[i]] + text[i + 1..];
    Regroup(line + "\n", a, b);
  }

  /** `str::lines` takes a carriage return off the lines that end with a newline. */
  lemma {:induction false} LinesOfRaw(text: string)
    ensures Lines(text) == StripReturns(Terminated(text)) + Last(Unterminated(text))
    decreases |text|
  {
    var i := IndexOf(text, '\n');
    if i < |text| {
      LinesOfRaw(text[i + 1..]);
      StripReturnsCons(text[..i], Terminated(text[i + 1..]));
    } else {
      assert text[..i] == text;
    }
  }

  lemma TerminatedCons(line: string, text: string)
    requires '\n' !in line
    ensures Terminated(line + "\n" + text) == [line] + Terminated(text)
    ensures Unterminated(line + "\n" + text) == Unterminated(text)
  {
    var s := line + "\n" + text;
    assert s[..|line|] == line && s[|line| + 1..] == text;
    IndexOfUnique(s, '\n', |line|);
  }

  /** A rendered tab has exactly the rendered lines. */
  lemma {:induction false} RawRender(lines: seq<string>)
    requires forall l | l in lines :: '\n' !in l
    ensures Terminated(Render(lines)) == lines && Unterminated(Render(lines)) == ""
  {
    if lines != [] {
      assert lines == [lines[0]] + lines[1..];
      RenderCons(lines[0], lines[1..]);
      TerminatedCons(lines[0], Render(lines[1..]));
      RawRender(lines[1..]);
    }
  }

  /** The lines of an edited tab, byte for byte. */
  lemma ReplacedRaw(hit: string -> bool, tab: string, line: Option<string>)
    requires ReturnBlind(hit) && (line.Some? ==> '\n' !in line.value)
    ensures var edited := Replaced(hit, tab, line);
            && Unterminated(edited) == ""
            && Terminated(edited) == StripReturns(Kept(hit, Terminated(tab))) + Kept(hit, Last(Unterminated(tab))) + Put(line)
  {
    var terminated, rest := Terminated(tab), Last(Unterminated(tab));
    LinesOfRaw(tab);
    KeptAppend(hit, StripReturns(terminated), rest);
    KeptStrip(hit, terminated);
    KeptMembers(hit, Lines(tab));
    RawRender(Kept(hit, Lines(tab)) + Put(line));
  }

  /** The lines that `own` leaves out are neither hit nor put. */
  lemma ReplacedOthers(own: string -> bool, hit: string -> bool, tab: string, line: Option<string>)
    requires ReturnBlind(hit) && ReturnBlind(own) && forall l :: hit(l) ==> own(l)
    requires line.Some? ==> '\n' !in line.value && own(line.value)
    ensures var edited := Replaced(hit, tab, line);
            && Unterminated(edited) == ""
            && Kept(own, Terminated(edited)) ==
               StripReturns(Kept(own, Terminated(tab))) + Kept(own, Last(Unterminated(tab)))
  {
    var kept, rest := Kept(hit, Terminated(tab)), Kept(hit, Last(Unterminated(tab)));
    ReplacedRaw(hit, tab, line);
    KeptAppend(own, StripReturns(kept) + rest, Put(line));
    KeptAppend(own, StripReturns(kept), rest);
    KeptStrip(own, kept);
    KeptTwice(own, hit, Terminated(tab));
    KeptTwice(own, hit, Last(Unterminated(tab)));
  }

  /** Hence the other lines are preserved byte for byte exactly when none of
      those that end with a newline has a carriage return before it. */
  lemma ReplacedPreserves(hit: string -> bool, tab: string, line: Option<string>)
    requires ReturnBlind(hit) && (line.Some? ==> '\n' !in line.value)
    ensures RawLines(Replaced(hit, tab, line)) == Kept(hit, RawLines(tab)) + Put(line)
       <==> NoReturns(Kept(hit, Terminated(tab)))
  {
    var kept, rest := Kept(hit, Terminated(tab)), Kept(hit, Last(Unterminated(tab)));
    ReplacedRaw(hit, tab, line);
    KeptAppend(hit, Terminated(tab), Last(Unterminated(tab)));
    StripReturnsSame(kept);
    Regroup(StripReturns(kept), rest, Put(line));
    Regroup(kept, rest, Put(line));
    AppendCancels(StripReturns(kept), kept, rest + Put(line));
    var edited := Replaced(hit, tab, line);
    assert RawLines(edited) == Terminated(edited);
  }

  lemma AppendCancels(a: seq<string>, b: seq<string>, c: seq<string>)
    requires |a| == |b|
    ensures a + c == b + c <==> a == b
  {
    assert (a + c)[..|a|] == a && (b + c)[..|b|] == b;
  }

  // ---- the items the lines stand for --------------------------------------

  /** `filter_map`: the items of the lines that have one. */
  function Items<T>(parse: string -> Option<T>, lines: seq<string>): seq<T> {
    if lines == [] then []
    else match parse(lines[0])
         case None => Items(parse, lines[1..])
         case Some(item) => [item] + Items(parse, lines[1..])
  }

  lemma ItemsCons<T>(parse: string -> Option<T>, head: string, tail: seq<string>)
    ensures Items(parse, [head] + tail) ==
            match parse(head) case None => Items(parse, tail) case Some(item) => [item] + Items(parse, tail)
  {
  }

  lemma {:induction false} ItemsAppend<T>(parse: string -> Option<T>, xs: seq<string>, ys: seq<string>)
    ensures Items(parse, xs + ys) == Items(parse, xs) + Items(parse, ys)
  {
    if xs == [] {
      assert xs + ys == ys;
    } else {
      assert (xs + ys)[1..] == xs[1..] + ys;
      ItemsAppend(parse, xs[1..], ys);
    }
  }

  /** The test on lines is a test on the items they stand for. */
  ghost predicate Reflects<T>(parse: string -> Option<T>, hit: string -> bool, drop: T -> bool) {
    forall l :: hit(l) <==> parse(l).Some? && drop(parse(l).value)
  }

  /** Filtering the lines filters their items. */
  lemma {:induction false} ItemsKept<T>(parse: string -> Option<T>, hit: string -> bool, drop: T -> bool, lines: seq<string>)
    requires Reflects(parse, hit, drop)
    ensures Items(parse, Kept(hit, lines)) == Kept(drop, Items(parse, lines))
  {
    if lines != [] {
      var head, tail := lines[0], lines[1..];
      ItemsKept(parse, hit, drop, tail);
      assert lines == [head] + tail;
      KeptCons(hit, head, tail);
      ItemsCons(parse, head, tail);
      ItemsCons(parse, head, Kept(hit, tail));
      if parse(head).Some? {
        KeptCons(drop, parse(head).value, Items(parse, tail));
      }
    }
  }

  ghost predicate ParseReturnBlind<T>(parse: string -> Option<T>) {
    forall l {:trigger StripReturn(l)} :: parse(StripReturn(l)) == parse(l)
  }

  lemma {:induction false} ItemsStrip<T>(parse: string -> Option<T>, lines: seq<string>)
    requires ParseReturnBlind(parse)
    ensures Items(parse, StripReturns(lines)) == Items(parse, lines)
  {
    if lines != [] {
      var head, tail := lines[0], lines[1..];
      ItemsStrip(parse, tail);
      assert lines == [head] + tail;
      ItemsCons(parse, head, tail);
      ItemsCons(parse, StripReturn(head), StripReturns(tail));
    }
  }

  /** Replacing the hit lines by a line replaces their items by its item. */
  lemma ReplacedByItem<T>(parse: string -> Option<T>, hit: string -> bool, drop: T -> bool, tab: string, line: string, item: T)
    requires Reflects(parse, hit, drop) && ParseReturnBlind(parse)
    requires OneLine(line) && parse(line) == Some(item)
    ensures Items(parse, Lines(Replaced(hit, tab, Some(line)))) == Kept(drop, Items(parse, Lines(tab))) + [item]
  {
    ReplacedItems(parse, hit, drop, tab, Some(line));
    ItemsCons(parse, line, []);
  }

  /** An edit of the tab is an edit of the list of items it stands for. */
  lemma ReplacedItems<T>(parse: string -> Option<T>, hit: string -> bool, drop: T -> bool, tab: string, line: Option<string>)
    requires Reflects(parse, hit, drop) && ParseReturnBlind(parse)
    requires line.Some? ==> OneLine(line.value)
    ensures Items(parse, Lines(Replaced(hit, tab, line))) == Kept(drop, Items(parse, Lines(tab))) + Items(parse, Put(line))
  {
    var kept := Kept(hit, Lines(tab));
    ReplacedLines(hit, tab, line);
    ItemsAppend(parse, StripReturns(kept), Put(line));
    ItemsStrip(parse, kept);
    ItemsKept(parse, hit, drop, Lines(tab));
  }
}
