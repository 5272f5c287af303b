/** Unit files of systemd: how the engine writes them, and how systemd reads
    them. Lines do not end with a backslash, so none continues the one before. */
module UnitFiles {
  import opened Text

  datatype Section = Section(name: string, settings: seq<(string, string)>)

  /** One setting, as it is read. */
  datatype Entry = Entry(section: string, key: string, value: string)

  // ---- reading ------------------------------------------------------------

  /** Comments and empty lines are skipped, a header opens a section, and every
      other line is a key, `=` and a value. */
  function ReadLines(lines: seq<string>, section: string): seq<Entry> {
    if lines == [] then [] else
      var line, rest := Trim(lines[0]), lines[1..];
      if line == "" || line[0] == '#' || line[0] == ';' then ReadLines(rest, section)
      else if line[0] == '[' && line[|line| - 1] == ']' then ReadLines(rest, line[1..|line| - 1])
      else match SplitOnce(line, '=')
           case None => ReadLines(rest, section)
           case Some((key, value)) => [Entry(section, Trim(key), Trim(value))] + ReadLines(rest, section)
  }

  function ReadUnit(text: string): seq<Entry> {
    ReadLines(Lines(text), "")
  }

  // ---- writing ------------------------------------------------------------

  function SettingLines(settings: seq<(string, string)>): seq<string> {
    if settings == [] then [] else [settings[0].0 + "=" + settings[0].1] + SettingLines(settings[1..])
  }

  function SectionLines(section: Section): seq<string> {
    ["[" + section.name + "]"] + SettingLines(section.settings)
  }

  /** The sections with an empty line between them. */
  function UnitLines(sections: seq<Section>): seq<string> {
    if sections == [] then []
    else if |sections| == 1 then SectionLines(sections[0])
    else SectionLines(sections[0]) + [""] + UnitLines(sections[1..])
  }

  function UnitText(comments: seq<string>, sections: seq<Section>): string {
    Render(comments + UnitLines(sections))
  }

  function SectionEntries(section: string, settings: seq<(string, string)>): seq<Entry> {
    if settings == [] then []
    else [Entry(section, settings[0].0, settings[0].1)] + SectionEntries(section, settings[1..])
  }

  function Entries(sections: seq<Section>): seq<Entry> {
    if sections == [] then []
    else SectionEntries(sections[0].name, sections[0].settings) + Entries(sections[1..])
  }

  // ---- what is written is read back ---------------------------------------

  predicate IsKey(key: string) {
    key != "" && forall c | c in key :: IsAlphanumeric(c)
  }

  predicate IsValue(value: string) {
    Tight(value) && '\n' !in value
  }

  predicate IsSection(section: Section) {
    IsKey(section.name) && forall s | s in section.settings :: IsKey(s.0) && IsValue(s.1)
  }

  predicate IsCommentLine(line: string) {
    IsValue(line) && line[0] == '#'
  }

  /** A line that is read back from a file as it is. */
  predicate IsLine(line: string) {
    '\n' !in line && StripReturn(line) == line
  }

  lemma ValueIsLine(line: string)
    requires IsValue(line)
    ensures IsLine(line) && Trim(line) == line
  {
    TrimTight(line);
  }

  lemma KeyText(key: string)
    requires IsKey(key)
    ensures Tight(key) && Trim(key) == key && '=' !in key && '\n' !in key
    ensures key[0] != '#' && key[0] != ';' && key[0] != '['
  {
    assert key[0] in key && key[|key| - 1] in key;
    TrimTight(key);
  }

  lemma SettingRead(key: string, value: string, rest: seq<string>, section: string)
    requires IsKey(key) && IsValue(value)
    ensures IsLine(key + "=" + value)
    ensures ReadLines([key + "=" + value] + rest, section) == [Entry(section, key, value)] + ReadLines(rest, section)
  {
    var line := key + "=" + value;
    KeyText(key);
    assert line[0] == key[0] && line[|line| - 1] == value[|value| - 1];
    ValueIsLine(line);
    TrimTight(value);
    SplitOnceAt(key, '=', value);
    assert ([line] + rest)[0] == line && ([line] + rest)[1..] == rest;
  }

  lemma HeaderRead(name: string, rest: seq<string>, section: string)
    requires IsKey(name)
    ensures IsLine("[" + name + "]")
    ensures ReadLines(["[" + name + "]"] + rest, section) == ReadLines(rest, name)
  {
    var line := "[" + name + "]";
    KeyText(name);
    ValueIsLine(line);
    assert line[1..|line| - 1] == name;
    assert ([line] + rest)[0] == line && ([line] + rest)[1..] == rest;
  }

  lemma BlankRead(rest: seq<string>, section: string)
    ensures ReadLines([""] + rest, section) == ReadLines(rest, section)
  {
    assert ([""] + rest)[0] == "" && ([""] + rest)[1..] == rest;
  }

  lemma {:induction false} SettingsRead(settings: seq<(string, string)>, rest: seq<string>, section: string)
    requires forall s | s in settings :: IsKey(s.0) && IsValue(s.1)
    ensures forall l | l in SettingLines(settings) :: IsLine(l)
    ensures ReadLines(SettingLines(settings) + rest, section) == SectionEntries(section, settings) + ReadLines(rest, section)
  {
    if settings == [] {
      assert SettingLines(settings) + rest == rest;
    } else {
      assert settings[0] in settings;
      var tail := SettingLines(settings[1..]);
      SettingsRead(settings[1..], rest, section);
      SettingRead(settings[0].0, settings[0].1, tail + rest, section);
      Regroup([settings[0].0 + "=" + settings[0].1], tail, rest);
      Regroup([Entry(section, settings[0].0, settings[0].1)], SectionEntries(section, settings[1..]), ReadLines(rest, section));
    }
  }

  lemma SectionRead(s: Section, rest: seq<string>, section: string)
    requires IsSection(s)
    ensures forall l | l in SectionLines(s) :: IsLine(l)
    ensures ReadLines(SectionLines(s) + rest, section) == SectionEntries(s.name, s.settings) + ReadLines(rest, s.name)
  {
    SettingsRead(s.settings, rest, s.name);
    HeaderRead(s.name, SettingLines(s.settings) + rest, section);
    Regroup(["[" + s.name + "]"], SettingLines(s.settings), rest);
  }

  lemma {:induction false} UnitRead(sections: seq<Section>, section: string)
    requires forall s | s in sections :: IsSection(s)
    ensures forall l | l in UnitLines(sections) :: IsLine(l)
    ensures ReadLines(UnitLines(sections), section) == Entries(sections)
  {
    if sections != [] {
      assert sections[0] in sections;
      var first, more := SectionLines(sections[0]), sections[1..];
      if |sections| == 1 {
        SectionRead(sections[0], [], section);
        assert first + [] == first && more == [];
      } else {
        var rest := [""] + UnitLines(more);
        UnitRead(more, sections[0].name);
        SectionRead(sections[0], rest, section);
        BlankRead(UnitLines(more), sections[0].name);
        Regroup(first, [""], UnitLines(more));
      }
    }
  }

  lemma {:induction false} CommentsRead(comments: seq<string>, rest: seq<string>, section: string)
    requires forall l | l in comments :: IsCommentLine(l)
    ensures forall l | l in comments :: IsLine(l)
    ensures ReadLines(comments + rest, section) == ReadLines(rest, section)
  {
    if comments == [] {
      assert comments + rest == rest;
    } else {
      assert comments[0] in comments;
      ValueIsLine(comments[0]);
      assert (comments + rest)[0] == comments[0] && (comments + rest)[1..] == comments[1..] + rest;
      CommentsRead(comments[1..], rest, section);
    }
  }

  /** The lines of a written unit, as they are read from the file. */
  lemma WrittenLines(comments: seq<string>, sections: seq<Section>)
    requires (forall l | l in comments :: IsCommentLine(l)) && forall s | s in sections :: IsSection(s)
    ensures Lines(UnitText(comments, sections)) == comments + UnitLines(sections)
  {
    var lines := comments + UnitLines(sections);
    CommentsRead(comments, [], "");
    UnitRead(sections, "");
    assert forall l | l in lines :: IsLine(l);
    LinesRender(lines);
    StripReturnsSame(lines);
  }

  /** Every written unit is read back as its sections. */
  lemma UnitReads(comments: seq<string>, sections: seq<Section>)
    requires (forall l | l in comments :: IsCommentLine(l)) && forall s | s in sections :: IsSection(s)
    ensures ReadUnit(UnitText(comments, sections)) == Entries(sections)
  {
    WrittenLines(comments, sections);
    UnitRead(sections, "");
    CommentsRead(comments, UnitLines(sections), "");
  }
}
