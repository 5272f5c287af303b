/** The size-bounded log of a host agent (src/agent_helper.rs): every append
    trims the file to its last lines. */
module AgentLog {
  import opened Octets

  const NEWLINE: byte := 10

  function Newlines(s: Bytes): nat {
    if s == [] then 0
    else Newlines(s[..|s| - 1]) + if s[|s| - 1] == NEWLINE then 1 else 0
  }

  lemma {:induction false} NewlinesAppend(a: Bytes, b: Bytes)
    ensures Newlines(a + b) == Newlines(a) + Newlines(b)
  {
    if b == [] {
      assert a + b == a;
    } else {
      var front := b[..|b| - 1];
      NewlinesAppend(a, front);
      assert (a + b)[..|a + b| - 1] == a + front;
    }
  }

  function Min(a: nat, b: nat): nat {
    if a < b then a else b
  }

  /** Where the content may be cut. */
  predicate EndsLine(dropped: Bytes) {
    dropped == [] || dropped[|dropped| - 1] == NEWLINE
  }

  predicate Cut(content: Bytes, dropped: Bytes, r: Bytes, max: nat) {
    && content == dropped + r
    && EndsLine(dropped)
    && Newlines(r) == Min(Newlines(dropped) + Newlines(r), max)
  }

  /** `r` is the end of `content` from the start of a line on that holds the
      last `max` lines, or all of them. */
  ghost predicate IsTail(content: Bytes, r: Bytes, max: nat) {
    exists dropped :: Cut(content, dropped, r, max)
  }

  /** Cutting later leaves fewer lines. */
  lemma LaterCut(content: Bytes, a: Bytes, r: Bytes, b: Bytes, t: Bytes)
    requires content == a + r == b + t && |a| < |b| && EndsLine(b)
    ensures Newlines(t) < Newlines(r)
  {
    var between := b[|a|..];
    assert r == between + t by {
      assert r == content[|a|..];
    }
    NewlinesAppend(between, t);
    assert between[|between| - 1] == NEWLINE;
  }

  /** There is only one such end. */
  lemma TailUnique(content: Bytes, r: Bytes, t: Bytes, max: nat)
    requires IsTail(content, r, max) && IsTail(content, t, max)
    ensures r == t
  {
    var a :| Cut(content, a, r, max);
    var b :| Cut(content, b, t, max);
    NewlinesAppend(a, r);
    NewlinesAppend(b, t);
    if |a| < |b| {
      LaterCut(content, a, r, b, t);
    } else if |b| < |a| {
      LaterCut(content, b, t, a, r);
    } else {
      assert r == content[|a|..] && t == content[|b|..];
    }
  }

  lemma CutsAppend(a: Bytes, b: Bytes)
    requires EndsLine(a) && EndsLine(b)
    ensures EndsLine(a + b) && Newlines(a + b) == Newlines(a) + Newlines(b)
  {
    NewlinesAppend(a, b);
    if b == [] {
      assert a + b == a;
    }
  }

  /** Trimming after every append is trimming once at the end. */
  lemma TailAppend(content: Bytes, r: Bytes, line: Bytes, t: Bytes, max: nat)
    requires IsTail(content, r, max) && IsTail(r + line, t, max)
    ensures IsTail(content + line, t, max)
  {
    var a :| Cut(content, a, r, max);
    var b :| Cut(r + line, b, t, max);
    CutsAppend(a, b);
    assert Newlines(b) + Newlines(t) == Newlines(r) + Newlines(line) by {
      NewlinesAppend(b, t);
      NewlinesAppend(r, line);
    }
    assert content + line == a + b + t by {
      Rejoin(a, r, line, b, t);
    }
    assert Cut(content + line, a + b, t, max);
  }

  lemma Rejoin(a: Bytes, r: Bytes, line: Bytes, b: Bytes, t: Bytes)
    requires r + line == b + t
    ensures a + r + line == a + b + t
  {
    assert a + r + line == a + (r + line);
    assert a + b + t == a + (b + t);
  }

  lemma NewlinesNext(s: Bytes, i: nat)
    requires i < |s|
    ensures Newlines(s[..i + 1]) == Newlines(s[..i]) + if s[i] == NEWLINE then 1 else 0
  {
    assert s[..i + 1][..i] == s[..i];
  }

  method CountNewlines(content: Bytes) returns (newlines: nat)
    ensures newlines == Newlines(content)
  {
    newlines := 0;
    for i := 0 to |content|
      invariant newlines == Newlines(content[..i])
    {
      NewlinesNext(content, i);
      if content[i] == NEWLINE {
        newlines := newlines + 1;
      }
    }
    assert content[..|content|] == content;
  }

  /** The position after the newline with the given number, if there is one. */
  method AfterNewline(content: Bytes, count: nat) returns (start: nat)
    requires 0 < count
    ensures start <= |content| && EndsLine(content[..start])
    ensures Newlines(content[..start]) == if count <= Newlines(content) then count else 0
  {
    var skip := count;
    for i := 0 to |content|
      invariant 0 < skip <= count && skip + Newlines(content[..i]) == count
    {
      NewlinesNext(content, i);
      if content[i] == NEWLINE {
        skip := skip - 1;
        if skip == 0 {
          assert content == content[..i + 1] + content[i + 1..];
          NewlinesAppend(content[..i + 1], content[i + 1..]);
          return i + 1;
        }
      }
    }
    assert content[..|content|] == content;
    return 0;
  }

  lemma CutAt(content: Bytes, start: nat, max: nat)
    requires start <= |content| && EndsLine(content[..start])
    requires Newlines(content) > max && Newlines(content[..start]) == Newlines(content) - max
    ensures IsTail(content, content[start..], max)
  {
    assert content == content[..start] + content[start..];
    NewlinesAppend(content[..start], content[start..]);
    assert Cut(content, content[..start], content[start..], max);
  }

  class LogFile {
    var content: Bytes
    ghost var written: Bytes
    const maxLines: nat

    /** The file is the tail of everything that was ever appended to it. */
    ghost predicate Valid()
      reads this
    {
      IsTail(written, content, maxLines)
    }

    constructor (maxLines: nat)
      ensures Valid() && written == [] && content == [] && this.maxLines == maxLines
    {
      content := [];
      written := [];
      this.maxLines := maxLines;
      new;
      assert Cut(written, [], content, maxLines);
    }

    /** `append_log`, under the file's lock. */
    method Append(line: Bytes)
      requires Valid()
      modifies this
      ensures Valid() && written == old(written) + line
    {
      ghost var before := content;
      content := content + line;
      Trim();
      TailAppend(written, before, line, content, maxLines);
      written := written + line;
    }

    /** `trim`. */
    method Trim()
      modifies this`content
      ensures IsTail(old(content), content, maxLines)
    {
      var newlines := CountNewlines(content);
      if newlines <= maxLines {
        assert Cut(content, [], content, maxLines);
        return;
      }
      var start := AfterNewline(content, newlines - maxLines);
      CutAt(content, start, maxLines);
      content := content[start..];
    }
  }

  // ---- appending lines ----------------------------------------------------

  function Flat(lines: seq<Bytes>): Bytes {
    if lines == [] then [] else Flat(lines[..|lines| - 1]) + lines[|lines| - 1]
  }

  /** What the log command appends: one newline, at the end. */
  predicate IsLine(line: Bytes) {
    && line != []
    && line[|line| - 1] == NEWLINE
    && NEWLINE !in line[..|line| - 1]
  }

  lemma {:induction false} NoNewlines(s: Bytes)
    requires NEWLINE !in s
    ensures Newlines(s) == 0
  {
    if s != [] {
      NoNewlines(s[..|s| - 1]);
    }
  }

  lemma {:induction false} FlatSplit(lines: seq<Bytes>, i: nat)
    requires i <= |lines|
    ensures Flat(lines) == Flat(lines[..i]) + Flat(lines[i..])
  {
    if i == |lines| {
      assert lines[..i] == lines;
    } else {
      var front := lines[..|lines| - 1];
      FlatSplit(front, i);
      assert front[..i] == lines[..i];
      assert lines[i..][..|lines[i..]| - 1] == front[i..];
    }
  }

  lemma {:induction false} FlatNewlines(lines: seq<Bytes>)
    requires forall l | l in lines :: IsLine(l)
    ensures Newlines(Flat(lines)) == |lines|
    ensures lines != [] ==> Flat(lines) != [] && Flat(lines)[|Flat(lines)| - 1] == NEWLINE
  {
    if lines != [] {
      var front, last := lines[..|lines| - 1], lines[|lines| - 1];
      assert last in lines;
      FlatNewlines(front);
      NewlinesAppend(Flat(front), last);
      NoNewlines(last[..|last| - 1]);
    }
  }

  lemma {:induction false} LinesTail(lines: seq<Bytes>, from: nat, max: nat)
    requires from <= |lines| && |lines| - from == Min(|lines|, max)
    requires forall l | l in lines :: IsLine(l)
    ensures IsTail(Flat(lines), Flat(lines[from..]), max)
  {
    var head, rest := lines[..from], lines[from..];
    assert (forall l | l in head :: l in lines) && (forall l | l in rest :: l in lines);
    FlatSplit(lines, from);
    FlatNewlines(head);
    FlatNewlines(rest);
    assert Cut(Flat(lines), Flat(head), Flat(rest), max);
  }

  /** A file to which whole lines were appended holds exactly the last ones. */
  lemma {:induction false} TailOfLines(lines: seq<Bytes>, r: Bytes, max: nat)
    requires forall l | l in lines :: IsLine(l)
    requires IsTail(Flat(lines), r, max)
    ensures r == Flat(lines[|lines| - Min(|lines|, max)..])
  {
    var from := |lines| - Min(|lines|, max);
    LinesTail(lines, from, max);
    TailUnique(Flat(lines), r, Flat(lines[from..]), max);
  }

  /** Any number of appends to a new file. */
  method AppendAll(lines: seq<Bytes>, maxLines: nat) returns (content: Bytes)
    requires forall l | l in lines :: IsLine(l)
    ensures content == Flat(lines[|lines| - Min(|lines|, maxLines)..])
  {
    var file := new LogFile(maxLines);
    for i := 0 to |lines|
      invariant fresh(file) && file.Valid() && file.maxLines == maxLines
      invariant file.written == Flat(lines[..i])
    {
      file.Append(lines[i]);
      assert lines[..i + 1][..i] == lines[..i];
    }
    assert lines[..|lines|] == lines;
    TailOfLines(lines, file.content, maxLines);
    content := file.content;
  }
}
