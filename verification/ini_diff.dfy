/**
 The multi-source INI comparison: N parsed documents of the same file, taken
 from N output directories, laid out as one table with a column per source.
 A section row shows where the section is present (`+`) or absent (`-`); an
 option row shows each source's value (`-` where it is missing). Rows on which
 all sources agree are dropped.
 */
module IniDiff {
  import opened TextTable
  import opened Iteration

  /** A parsed INI document: section name to the options of that section and their values. */
  type Config = map<string, map<string, string>>

  /** The path separator (POSIX). */
  const Sep: char := '/'

  // ---------------------------------------------------------------------------
  // Source labels

  /** Longest common prefix of two strings, character by character. */
  function CommonPrefix2(a: string, b: string): (p: string)
    ensures p <= a && p <= b
    ensures |p| == |a| || |p| == |b| || a[|p|] != b[|p|]
  {
    if a == [] || b == [] || a[0] != b[0] then "" else [a[0]] + CommonPrefix2(a[1..], b[1..])
  }

  /** Longest common character prefix of all paths; empty for no paths. */
  function CommonPrefix(paths: seq<string>): (p: string)
    ensures forall i :: 0 <= i < |paths| ==> p <= paths[i]
  {
    if |paths| == 0 then ""
    else if |paths| == 1 then paths[0]
    else CommonPrefix2(CommonPrefix(paths[..|paths| - 1]), paths[|paths| - 1])
  }

  lemma {:induction false} CommonPrefix2IsLongest(a: string, b: string, q: string)
    requires q <= a && q <= b
    ensures q <= CommonPrefix2(a, b)
  {
    if q != [] {
      CommonPrefix2IsLongest(a[1..], b[1..], q[1..]);
    }
  }

  /** Every string that prefixes all the paths prefixes their common prefix. */
  lemma {:induction false} CommonPrefixIsLongest(paths: seq<string>, q: string)
    requires paths != []
    requires forall i :: 0 <= i < |paths| ==> q <= paths[i]
    ensures q <= CommonPrefix(paths)
  {
    if |paths| > 1 {
      CommonPrefixIsLongest(paths[..|paths| - 1], q);
      CommonPrefix2IsLongest(CommonPrefix(paths[..|paths| - 1]), paths[|paths| - 1], q);
    }
  }

  /** The part of `s` before its first separator (all of `s` when it has none). */
  function FirstSegment(s: string): (r: string)
    ensures r <= s && Sep !in r
    ensures |r| == |s| || s[|r|] == Sep
  {
    if s == [] || s[0] == Sep then "" else [s[0]] + FirstSegment(s[1..])
  }

  /**
   The label of each source: the first path segment after the common prefix of
   all the paths (cut at character level, so it may be the tail of a folder name).
   */
  function Labels(paths: seq<string>): (labels: seq<string>)
    ensures |labels| == |paths|
    ensures forall i :: 0 <= i < |paths| ==>
      && CommonPrefix(paths) + labels[i] <= paths[i]
      && Sep !in labels[i]
      && var end := |CommonPrefix(paths)| + |labels[i]|; end == |paths[i]| || paths[i][end] == Sep
  {
    var k := |CommonPrefix(paths)|;
    seq(|paths|, i requires 0 <= i < |paths| => FirstSegment(paths[i][k..]))
  }

  /** Two paths that part inside a folder name are labelled with the ends of those names. */
  lemma LabelsCutInsideFolderNames()
    ensures Labels(["r/py/a.ini", "r/pz/a.ini"]) == ["y", "z"]
  {
    var a, b := "r/py/a.ini", "r/pz/a.ini";
    ExamplePrefix();
    assert [a, b][..1] == [a];
    assert a[3..] == "y/a.ini" && b[3..] == "z/a.ini";
    ExampleSegment('y');
    ExampleSegment('z');
  }

  lemma ExamplePrefix()
    ensures CommonPrefix2("r/py/a.ini", "r/pz/a.ini") == "r/p"
  {
    var a, b := "r/py/a.ini", "r/pz/a.ini";
    assert a[3..] == "y/a.ini" && b[3..] == "z/a.ini";
    assert CommonPrefix2(a[3..], b[3..]) == "";
    assert a[1..][1..][1..] == a[3..] && b[1..][1..][1..] == b[3..];
  }

  lemma ExampleSegment(c: char)
    requires c != Sep
    ensures FirstSegment([c] + "/a.ini") == [c]
  {
    assert ([c] + "/a.ini")[1..] == "/a.ini";
  }

  /** The parsed document of each path, in path order. */
  function Configs(paths: seq<string>, read: string -> Config): seq<Config>
  {
    seq(|paths|, i requires 0 <= i < |paths| => read(paths[i]))
  }

  /** Labels every source and parses it, in path order. */
  method ReadSources(paths: seq<string>, read: string -> Config) returns (labels: seq<string>, configs: seq<Config>)
    ensures labels == Labels(paths) && configs == Configs(paths, read)
  {
    var prefixLen := |CommonPrefix(paths)|;
    labels, configs := [], [];
    for i := 0 to |paths|
      invariant labels == Labels(paths)[..i] && configs == Configs(paths, read)[..i]
    {
      var folderName := FirstSegment(paths[i][prefixLen..]);
      labels := labels + [folderName];
      configs := configs + [read(paths[i])];
    }
  }

  // ---------------------------------------------------------------------------
  // The united structure of sections and options

  /** Every section of every source. */
  function AllSections(configs: seq<Config>): set<string>
  {
    if configs == [] then {} else AllSections(configs[..|configs| - 1]) + configs[|configs| - 1].Keys
  }

  /** Every option of section `s` in the sources that have `s`. */
  function AllOptions(configs: seq<Config>, s: string): set<string>
  {
    if configs == [] then {}
    else
      var last := configs[|configs| - 1];
      AllOptions(configs[..|configs| - 1], s) + (if s in last then last[s].Keys else {})
  }

  lemma {:induction false} AllSectionsMembers(configs: seq<Config>, s: string)
    ensures s in AllSections(configs) <==> exists i :: 0 <= i < |configs| && s in configs[i]
  {
    if configs != [] {
      var init := configs[..|configs| - 1];
      AllSectionsMembers(init, s);
      assert forall i :: 0 <= i < |init| ==> init[i] == configs[i];
    }
  }

  lemma {:induction false} AllOptionsMembers(configs: seq<Config>, s: string, o: string)
    ensures o in AllOptions(configs, s) <==> exists i :: 0 <= i < |configs| && s in configs[i] && o in configs[i][s]
  {
    if configs != [] {
      var init := configs[..|configs| - 1];
      AllOptionsMembers(init, s, o);
      assert forall i :: 0 <= i < |init| ==> init[i] == configs[i];
    }
  }

  /** Each section of any source, mapped to the union of its options over the sources that have it. */
  function Structure(configs: seq<Config>): map<string, set<string>>
  {
    map s | s in AllSections(configs) :: AllOptions(configs, s)
  }

  /**
   `structure` with the sections of `conf` named in `done` merged in: a section
   new to it is added, a known one has its option set united with the source's.
   */
  function MergedWith(structure: map<string, set<string>>, conf: Config, done: set<string>): map<string, set<string>>
    requires done <= conf.Keys
  {
    map s | s in structure.Keys + done :: (if s in structure then structure[s] else {}) + (if s in done then conf[s].Keys else {})
  }

  lemma MergeOne(structure: map<string, set<string>>, conf: Config, done: set<string>, x: string)
    requires done <= conf.Keys && x in conf && x !in done
    ensures var m := MergedWith(structure, conf, done);
      MergedWith(structure, conf, done + {x}) == m[x := (if x in m then m[x] else {}) + conf[x].Keys]
  {
    var m := MergedWith(structure, conf, done);
    var lhs := MergedWith(structure, conf, done + {x});
    var rhs := m[x := (if x in m then m[x] else {}) + conf[x].Keys];
    assert lhs.Keys == rhs.Keys;
    forall s | s in lhs
      ensures lhs[s] == rhs[s]
    {
    }
  }

  lemma MergeNone(structure: map<string, set<string>>, conf: Config)
    ensures MergedWith(structure, conf, conf.Keys - conf.Keys) == structure
  {
    assert conf.Keys - conf.Keys == {};
    var m := MergedWith(structure, conf, {});
    assert m.Keys == structure.Keys;
    forall s | s in m
      ensures m[s] == structure[s]
    {
    }
  }

  /** Adds the sections of one source to the structure, uniting the option sets of a section already there. */
  method MergeSections(structure: map<string, set<string>>, conf: Config) returns (merged: map<string, set<string>>)
    ensures merged == MergedWith(structure, conf, conf.Keys)
  {
    merged := structure;
    var rest := conf.Keys;
    MergeNone(structure, conf);
    while rest != {}
      invariant rest <= conf.Keys
      invariant merged == MergedWith(structure, conf, conf.Keys - rest)
      decreases rest
    {
      var section :| section in rest;
      ghost var done := conf.Keys - rest;
      MergeOne(structure, conf, done, section);
      var options := if section in merged then merged[section] else {};
      merged := merged[section := options + conf[section].Keys];
      rest := rest - {section};
      assert conf.Keys - rest == done + {section};
    }
    assert conf.Keys - rest == conf.Keys;
  }

  /** Merging the next source into the structure of the sources before it gives the structure of all of them. */
  lemma StructureStep(configs: seq<Config>, merged: map<string, set<string>>)
    requires configs != []
    requires merged == MergedWith(Structure(configs[..|configs| - 1]), configs[|configs| - 1], configs[|configs| - 1].Keys)
    ensures merged == Structure(configs)
  {
    var init := configs[..|configs| - 1];
    var last := configs[|configs| - 1];
    var before := Structure(init);
    assert merged.Keys == Structure(configs).Keys by {
      assert AllSections(configs) == AllSections(init) + last.Keys;
    }
    forall s | s in merged
      ensures merged[s] == Structure(configs)[s]
    {
      var added := if s in last then last[s].Keys else {};
      var known := if s in before then before[s] else {};
      assert merged[s] == known + added;
      assert known == AllOptions(init, s) by {
        if s !in before {
          AllOptionsOutside(init, s);
        }
      }
      assert Structure(configs)[s] == AllOptions(init, s) + added;
    }
  }

  /** A section no source has has no options. */
  lemma {:induction false} AllOptionsOutside(configs: seq<Config>, s: string)
    requires s !in AllSections(configs)
    ensures AllOptions(configs, s) == {}
  {
    if configs != [] {
      AllOptionsOutside(configs[..|configs| - 1], s);
    }
  }

  /** Builds the header row (an empty corner cell, then the labels) and the united structure. */
  method MergeSources(labels: seq<string>, configs: seq<Config>) returns (header: seq<string>, structure: map<string, set<string>>)
    requires |labels| == |configs|
    ensures header == [""] + labels
    ensures structure == Structure(configs)
  {
    header := [""];
    structure := map[];
    for i := 0 to |configs|
      invariant header == [""] + labels[..i]
      invariant structure == Structure(configs[..i])
    {
      header := header + [labels[i]];
      var merged := MergeSections(structure, configs[i]);
      ghost var upTo := configs[..i + 1];
      assert upTo[..i] == configs[..i] && upTo[i] == configs[i];
      StructureStep(upTo, merged);
      structure := merged;
    }
    assert configs[..|configs|] == configs;
  }

  // ---------------------------------------------------------------------------
  // Rows

  /** `+` when the source has section `s`, `-` when it does not. */
  function Presence(conf: Config, s: string): string
  {
    if s in conf then "+" else "-"
  }

  /** The section name, then its presence in each source. */
  function SectionRow(configs: seq<Config>, s: string): (row: seq<string>)
    ensures |row| == 1 + |configs| && row[0] == s
  {
    [s] + seq(|configs|, i requires 0 <= i < |configs| => Presence(configs[i], s))
  }

  /** The value of option `o` of section `s` in one source, `-` when the section or the option is missing. */
  function OptionValue(conf: Config, s: string, o: string): string
  {
    if s in conf && o in conf[s] then conf[s][o] else "-"
  }

  /** The label of an option row: the option name indented by two blanks. */
  function OptionLabel(o: string): string
  {
    "  " + o
  }

  /** The indented option name, then its value in each source. */
  function OptionRow(configs: seq<Config>, s: string, o: string): (row: seq<string>)
    ensures |row| == 1 + |configs| && row[0] == OptionLabel(o)
  {
    [OptionLabel(o)] + seq(|configs|, i requires 0 <= i < |configs| => OptionValue(configs[i], s, o))
  }

  /** A row is shown when it holds more than two distinct cells, its own label included. */
  predicate Kept(row: seq<string>)
  {
    |Elements(row)| > 2
  }

  lemma {:induction false} SubsetCard(a: set<string>, b: set<string>)
    requires a <= b
    ensures |a| <= |b|
    decreases |a|
  {
    if a != {} {
      var x :| x in a;
      SubsetCard(a - {x}, b - {x});
    }
  }

  /**
   A row whose label is none of its other cells is kept exactly when two of
   those other cells differ.
   */
  lemma KeptIffCellsDiffer(name: string, cells: seq<string>)
    requires name !in cells
    ensures Kept([name] + cells) <==> exists i, j :: 0 <= i < |cells| && 0 <= j < |cells| && cells[i] != cells[j]
  {
    var row := [name] + cells;
    if i, j :| 0 <= i < |cells| && 0 <= j < |cells| && cells[i] != cells[j] {
      assert row[1 + i] == cells[i] && row[1 + j] == cells[j];
      SubsetCard({name, cells[i], cells[j]}, Elements(row));
    } else if cells == [] {
      SubsetCard(Elements(row), {name});
    } else {
      assert forall c :: c in row ==> c == name || c == cells[0];
      SubsetCard(Elements(row), {name, cells[0]});
    }
  }

  /** A row with at most one source is never kept: its cells are the label and one value. */
  lemma ShortRowNotKept(row: seq<string>)
    requires |row| <= 2
    ensures !Kept(row)
  {
    if |row| == 2 {
      SubsetCard(Elements(row), {row[0], row[1]});
    } else if |row| == 1 {
      SubsetCard(Elements(row), {row[0]});
    } else {
      assert Elements(row) == {};
    }
  }

  /**
   For a section not itself named `+` or `-`, its row is kept exactly when some
   source has the section and some other source lacks it.
   */
  lemma SectionRowKeptIff(configs: seq<Config>, s: string)
    requires s != "+" && s != "-"
    ensures Kept(SectionRow(configs, s)) <==>
      (exists i :: 0 <= i < |configs| && s in configs[i]) && (exists j :: 0 <= j < |configs| && s !in configs[j])
  {
    var cells := seq(|configs|, i requires 0 <= i < |configs| => Presence(configs[i], s));
    assert SectionRow(configs, s) == [s] + cells;
    assert s !in cells by {
      forall c | c in cells
        ensures c == "+" || c == "-"
      {
      }
    }
    KeptIffCellsDiffer(s, cells);
    PresenceDiffers(configs, s, cells);
  }

  /** Two presence markers differ exactly when one source has the section and another lacks it. */
  lemma PresenceDiffers(configs: seq<Config>, s: string, cells: seq<string>)
    requires cells == seq(|configs|, i requires 0 <= i < |configs| => Presence(configs[i], s))
    ensures (exists i, j :: 0 <= i < |cells| && 0 <= j < |cells| && cells[i] != cells[j]) <==>
      (exists i :: 0 <= i < |configs| && s in configs[i]) && (exists j :: 0 <= j < |configs| && s !in configs[j])
  {
    if exists i, j :: 0 <= i < |cells| && 0 <= j < |cells| && cells[i] != cells[j] {
      var i, j :| 0 <= i < |cells| && 0 <= j < |cells| && cells[i] != cells[j];
      if s in configs[i] {
        assert s !in configs[j];
      } else {
        assert s in configs[j];
      }
    }
    if (exists i :: 0 <= i < |configs| && s in configs[i]) && (exists j :: 0 <= j < |configs| && s !in configs[j]) {
      var i :| 0 <= i < |configs| && s in configs[i];
      var j :| 0 <= j < |configs| && s !in configs[j];
      assert cells[i] == "+" && cells[j] == "-";
    }
  }

  /** A section literally named `+` is never shown for its presence alone: its row has only `+` and `-` cells. */
  lemma SectionNamedPlusHidden()
    ensures var configs: seq<Config> := [map["+" := map[]], map[]];
      !Kept(SectionRow(configs, "+"))
  {
    var configs: seq<Config> := [map["+" := map[]], map[]];
    assert SectionRow(configs, "+") == ["+", "+", "-"];
    SubsetCard(Elements(["+", "+", "-"]), {"+", "-"});
  }

  /**
   For an option whose indented name is none of its values, its row is kept
   exactly when two sources disagree on it (a missing value reads as `-`).
   */
  lemma OptionRowKeptIff(configs: seq<Config>, s: string, o: string)
    requires forall i :: 0 <= i < |configs| ==> OptionValue(configs[i], s, o) != OptionLabel(o)
    ensures Kept(OptionRow(configs, s, o)) <==>
      exists i, j :: 0 <= i < |configs| && 0 <= j < |configs| && OptionValue(configs[i], s, o) != OptionValue(configs[j], s, o)
  {
    var cells := OptionRow(configs, s, o)[1..];
    assert OptionRow(configs, s, o) == [OptionLabel(o)] + cells;
    assert forall i :: 0 <= i < |configs| ==> cells[i] == OptionValue(configs[i], s, o);
    KeptIffCellsDiffer(OptionLabel(o), cells);
  }

  // ---------------------------------------------------------------------------
  // The table body

  /** The kept rows among the option rows of section `s`, in the order of `options`. */
  function KeptOptionRows(configs: seq<Config>, s: string, options: seq<string>): seq<seq<string>>
  {
    if options == [] then []
    else
      var row := OptionRow(configs, s, options[|options| - 1]);
      KeptOptionRows(configs, s, options[..|options| - 1]) + (if Kept(row) then [row] else [])
  }

  lemma {:induction false} KeptOptionRowsMembers(configs: seq<Config>, s: string, options: seq<string>)
    ensures forall r :: r in KeptOptionRows(configs, s, options) <==>
      exists o :: o in options && r == OptionRow(configs, s, o) && Kept(r)
  {
    if options != [] {
      KeptOptionRowsMembers(configs, s, options[..|options| - 1]);
      assert forall o :: o in options <==> o in options[..|options| - 1] || o == options[|options| - 1];
    }
  }

  /**
   The rows of one section: its section row followed by its kept option rows,
   or nothing when neither its presence row nor any option row is kept.
   */
  function SectionBlock(configs: seq<Config>, s: string, options: seq<string>): seq<seq<string>>
  {
    var kept := KeptOptionRows(configs, s, options);
    if Kept(SectionRow(configs, s)) || kept != [] then [SectionRow(configs, s)] + kept else []
  }

  /** The table rows below the header: one block per section, in the order of `sections`. */
  function DiffBody(configs: seq<Config>, sections: seq<string>, options: seq<seq<string>>): seq<seq<string>>
    requires |options| == |sections|
  {
    if sections == [] then []
    else
      var k := |sections| - 1;
      DiffBody(configs, sections[..k], options[..k]) + SectionBlock(configs, sections[k], options[k])
  }

  /** The sections of all sources are visited once each, and the options of each section once each. */
  ghost predicate Orders(configs: seq<Config>, sections: seq<string>, options: seq<seq<string>>)
  {
    && IsEnumeration(sections, AllSections(configs))
    && |options| == |sections|
    && forall k :: 0 <= k < |sections| ==> IsEnumeration(options[k], AllOptions(configs, sections[k]))
  }

  /** Every row of the body has a cell for the label and one per source. */
  lemma {:induction false} DiffBodyWidth(configs: seq<Config>, sections: seq<string>, options: seq<seq<string>>)
    requires |options| == |sections|
    ensures forall r :: r in DiffBody(configs, sections, options) ==> |r| == 1 + |configs|
  {
    if sections != [] {
      var k := |sections| - 1;
      DiffBodyWidth(configs, sections[..k], options[..k]);
      KeptOptionRowsMembers(configs, sections[k], options[k]);
    }
  }

  /** Rows exactly as the table stores them: the header, then the body, all LEFT-aligned. */
  function DiffRows(paths: seq<string>, configs: seq<Config>, sections: seq<string>, options: seq<seq<string>>): (rows: seq<Row>)
    requires |paths| == |configs| && |options| == |sections|
    ensures |rows| > 0 && UniformRows(rows) && |rows[0].cells| == 1 + |configs|
  {
    var body := DiffBody(configs, sections, options);
    DiffBodyWidth(configs, sections, options);
    [Row([""] + Labels(paths), Left)] + LeftRows(body)
  }

  /** What the comparison prints: the header between two `=` separators, then the body. */
  function DiffLines(paths: seq<string>, configs: seq<Config>, sections: seq<string>, options: seq<seq<string>>): seq<string>
    requires |paths| == |configs| && |options| == |sections|
  {
    TableLines(DiffRows(paths, configs, sections, options), [Separator(0, "="), Separator(1, "=")])
  }

  /** `lines` is what comparing `paths` prints for some order of visiting sections and options. */
  ghost predicate DiffOf(lines: seq<string>, paths: seq<string>, configs: seq<Config>)
  {
    && |paths| == |configs|
    && exists sections: seq<string>, options: seq<seq<string>> ::
         Orders(configs, sections, options) && lines == DiffLines(paths, configs, sections, options)
  }

  // ---------------------------------------------------------------------------
  // What the comparison shows

  /**
   The printed table is empty exactly when no row is kept; otherwise it has the
   body rows plus the header and two separator lines.
   */
  lemma DiffLinesLayout(paths: seq<string>, configs: seq<Config>, sections: seq<string>, options: seq<seq<string>>)
    requires |paths| == |configs| && |options| == |sections|
    ensures var body := DiffBody(configs, sections, options);
      var lines := DiffLines(paths, configs, sections, options);
      |lines| == if body == [] then 0 else |body| + 3
  {
    var rows := DiffRows(paths, configs, sections, options);
    UniformRowsAreFull(rows, 1 + |configs|);
    HeaderTableLines(rows);
  }

  /** With a single source no option row is kept. */
  lemma {:induction false} OneSourceKeepsNoOption(configs: seq<Config>, s: string, options: seq<string>)
    requires |configs| == 1
    ensures KeptOptionRows(configs, s, options) == []
  {
    if options != [] {
      OneSourceKeepsNoOption(configs, s, options[..|options| - 1]);
      ShortRowNotKept(OptionRow(configs, s, options[|options| - 1]));
    }
  }

  /** With a single source the body is empty. */
  lemma {:induction false} OneSourceBodyEmpty(configs: seq<Config>, sections: seq<string>, options: seq<seq<string>>)
    requires |configs| == 1 && |options| == |sections|
    ensures DiffBody(configs, sections, options) == []
  {
    if sections != [] {
      var k := |sections| - 1;
      OneSourceBodyEmpty(configs, sections[..k], options[..k]);
      OneSourceKeepsNoOption(configs, sections[k], options[k]);
      ShortRowNotKept(SectionRow(configs, sections[k]));
    }
  }

  /** Comparing a single file prints nothing at all, not even the header. */
  lemma SingleSourcePrintsNothing(lines: seq<string>, paths: seq<string>, configs: seq<Config>)
    requires |configs| == 1 && DiffOf(lines, paths, configs)
    ensures lines == []
  {
    var sections, options :| Orders(configs, sections, options) && lines == DiffLines(paths, configs, sections, options);
    OneSourceBodyEmpty(configs, sections, options);
    DiffLinesLayout(paths, configs, sections, options);
  }

  /** A section shows a block exactly when its presence row or one of its option rows is kept. */
  lemma SectionBlockShown(configs: seq<Config>, s: string, options: seq<string>)
    ensures SectionBlock(configs, s, options) != [] <==>
      Kept(SectionRow(configs, s)) || exists o :: o in options && Kept(OptionRow(configs, s, o))
    ensures SectionBlock(configs, s, options) != [] ==> SectionBlock(configs, s, options)[0] == SectionRow(configs, s)
  {
    var kept := KeptOptionRows(configs, s, options);
    KeptOptionRowsMembers(configs, s, options);
    if kept != [] {
      assert kept[0] in kept;
    }
    if o :| o in options && Kept(OptionRow(configs, s, o)) {
      assert OptionRow(configs, s, o) in kept;
    }
  }

  /** The blocks of all sections joined in order. */
  function Flatten<T>(blocks: seq<seq<T>>): seq<T>
  {
    if blocks == [] then [] else Flatten(blocks[..|blocks| - 1]) + blocks[|blocks| - 1]
  }

  lemma {:induction false} FlattenMembers<T>(blocks: seq<seq<T>>, x: T)
    ensures x in Flatten(blocks) <==> exists k :: 0 <= k < |blocks| && x in blocks[k]
  {
    if blocks != [] {
      var init := blocks[..|blocks| - 1];
      FlattenMembers(init, x);
      assert forall k :: 0 <= k < |init| ==> init[k] == blocks[k];
    }
  }

  /** The block of each section, in the order of `sections`. */
  function Blocks(configs: seq<Config>, sections: seq<string>, options: seq<seq<string>>): (blocks: seq<seq<seq<string>>>)
    requires |options| == |sections|
    ensures |blocks| == |sections|
  {
    seq(|sections|, k requires 0 <= k < |sections| => SectionBlock(configs, sections[k], options[k]))
  }

  lemma {:induction false} DiffBodyIsFlatten(configs: seq<Config>, sections: seq<string>, options: seq<seq<string>>)
    requires |options| == |sections|
    ensures DiffBody(configs, sections, options) == Flatten(Blocks(configs, sections, options))
  {
    if sections != [] {
      var n := |sections| - 1;
      DiffBodyIsFlatten(configs, sections[..n], options[..n]);
      var blocks := Blocks(configs, sections, options);
      assert blocks[..n] == Blocks(configs, sections[..n], options[..n]);
    }
  }

  /** The body holds exactly the rows of the blocks of its sections. */
  lemma DiffBodyRows(configs: seq<Config>, sections: seq<string>, options: seq<seq<string>>, r: seq<string>)
    requires |options| == |sections|
    ensures r in DiffBody(configs, sections, options) <==>
      exists k :: 0 <= k < |sections| && r in SectionBlock(configs, sections[k], options[k])
  {
    var blocks := Blocks(configs, sections, options);
    DiffBodyIsFlatten(configs, sections, options);
    FlattenMembers(blocks, r);
    if r in DiffBody(configs, sections, options) {
      var k :| 0 <= k < |blocks| && r in blocks[k];
      assert blocks[k] == SectionBlock(configs, sections[k], options[k]);
    }
    if exists k :: 0 <= k < |sections| && r in SectionBlock(configs, sections[k], options[k]) {
      var k :| 0 <= k < |sections| && r in SectionBlock(configs, sections[k], options[k]);
      assert r in blocks[k];
    }
  }

  /**
   Every option on which two sources disagree (a missing value reading as `-`) is
   shown, and so is the row of its section, provided its indented name is none of
   its values.
   */
  lemma DisagreementShown(configs: seq<Config>, sections: seq<string>, options: seq<seq<string>>, s: string, o: string)
    requires Orders(configs, sections, options)
    requires o in AllOptions(configs, s)
    requires forall i :: 0 <= i < |configs| ==> OptionValue(configs[i], s, o) != OptionLabel(o)
    requires exists i, j :: 0 <= i < |configs| && 0 <= j < |configs| && OptionValue(configs[i], s, o) != OptionValue(configs[j], s, o)
    ensures OptionRow(configs, s, o) in DiffBody(configs, sections, options)
    ensures SectionRow(configs, s) in DiffBody(configs, sections, options)
  {
    OptionRowKeptIff(configs, s, o);
    AllOptionsMembers(configs, s, o);
    var i :| 0 <= i < |configs| && s in configs[i] && o in configs[i][s];
    AllSectionsMembers(configs, s);
    EnumerationMembers(sections, AllSections(configs));
    var k :| 0 <= k < |sections| && sections[k] == s;
    EnumerationMembers(options[k], AllOptions(configs, s));
    SectionBlockShown(configs, s, options[k]);
    KeptOptionRowsMembers(configs, s, options[k]);
    assert OptionRow(configs, s, o) in KeptOptionRows(configs, s, options[k]);
    var block := SectionBlock(configs, s, options[k]);
    assert OptionRow(configs, s, o) in block && block[0] in block;
    DiffBodyRows(configs, sections, options, OptionRow(configs, s, o));
    DiffBodyRows(configs, sections, options, SectionRow(configs, s));
  }

  /** Every section that some sources have and others lack is shown, unless it is named `+` or `-`. */
  lemma PresenceDifferenceShown(configs: seq<Config>, sections: seq<string>, options: seq<seq<string>>, s: string)
    requires Orders(configs, sections, options)
    requires s != "+" && s != "-"
    requires exists i :: 0 <= i < |configs| && s in configs[i]
    requires exists j :: 0 <= j < |configs| && s !in configs[j]
    ensures SectionRow(configs, s) in DiffBody(configs, sections, options)
  {
    SectionRowKeptIff(configs, s);
    AllSectionsMembers(configs, s);
    EnumerationMembers(sections, AllSections(configs));
    var k :| 0 <= k < |sections| && sections[k] == s;
    SectionBlockShown(configs, s, options[k]);
    var block := SectionBlock(configs, s, options[k]);
    assert block[0] in block;
    DiffBodyRows(configs, sections, options, SectionRow(configs, s));
  }

  /**
   Conversely, the body holds only the rows of sections some source has, each shown
   because its presence row or one of its option rows is kept, and kept rows of
   options some source has in that section.
   */
  lemma BodyRowsJustified(configs: seq<Config>, sections: seq<string>, options: seq<seq<string>>, r: seq<string>)
    requires Orders(configs, sections, options)
    requires r in DiffBody(configs, sections, options)
    ensures || (exists s :: s in AllSections(configs) && r == SectionRow(configs, s)
                 && (Kept(r) || exists o :: o in AllOptions(configs, s) && Kept(OptionRow(configs, s, o))))
            || (exists s, o :: s in AllSections(configs) && o in AllOptions(configs, s)
                 && r == OptionRow(configs, s, o) && Kept(r))
  {
    DiffBodyRows(configs, sections, options, r);
    var k :| 0 <= k < |sections| && r in SectionBlock(configs, sections[k], options[k]);
    var s := sections[k];
    EnumerationMembers(sections, AllSections(configs));
    EnumerationMembers(options[k], AllOptions(configs, s));
    SectionBlockShown(configs, s, options[k]);
    KeptOptionRowsMembers(configs, s, options[k]);
    if r == SectionRow(configs, s) {
      if !Kept(r) {
        var o :| o in options[k] && Kept(OptionRow(configs, s, o));
        assert o in AllOptions(configs, s);
      }
    } else {
      var o :| o in options[k] && r == OptionRow(configs, s, o) && Kept(r);
      assert o in AllOptions(configs, s);
    }
  }

  // ---------------------------------------------------------------------------
  // The comparison

  /** The section row: its name and a presence marker per source. */
  method SectionValues(configs: seq<Config>, section: string) returns (values: seq<string>)
    ensures values == SectionRow(configs, section)
  {
    values := [section];
    for i := 0 to |configs|
      invariant values == SectionRow(configs[..i], section)
    {
      var mark := if section in configs[i] then "+" else "-";
      values := values + [mark];
    }
    assert configs[..|configs|] == configs;
  }

  /** The option row of `option`: its indented name and its value, or `-`, per source. */
  method OptionValues(configs: seq<Config>, section: string, option: string) returns (values: seq<string>)
    ensures values == OptionRow(configs, section, option)
  {
    values := ["  " + option];
    for i := 0 to |configs|
      invariant values == OptionRow(configs[..i], section, option)
    {
      var conf := configs[i];
      if section in conf {
        if option in conf[section] {
          values := values + [conf[section][option]];
        } else {
          values := values + ["-"];
        }
      } else {
        values := values + ["-"];
      }
    }
    assert configs[..|configs|] == configs;
  }

  /** The kept option rows of `section`, visiting its options in the order given. */
  method KeptOptionValues(configs: seq<Config>, section: string, options: seq<string>) returns (kept: seq<seq<string>>)
    ensures kept == KeptOptionRows(configs, section, options)
  {
    kept := [];
    for k := 0 to |options|
      invariant kept == KeptOptionRows(configs, section, options[..k])
    {
      var values := OptionValues(configs, section, options[k]);
      if |Elements(values)| > 2 {
        kept := kept + [values];
      }
      assert options[..k + 1][..k] == options[..k];
    }
    assert options[..|options|] == options;
  }

  lemma OrdersStep(configs: seq<Config>, sections: seq<string>, options: seq<seq<string>>, next: seq<string>, k: nat)
    requires k < |sections| && |options| == k
    requires forall m :: 0 <= m < k ==> IsEnumeration(options[m], AllOptions(configs, sections[m]))
    requires IsEnumeration(next, AllOptions(configs, sections[k]))
    ensures forall m :: 0 <= m < k + 1 ==> IsEnumeration((options + [next])[m], AllOptions(configs, sections[m]))
  {
    forall m | 0 <= m < k + 1
      ensures IsEnumeration((options + [next])[m], AllOptions(configs, sections[m]))
    {
      if m < k {
        assert (options + [next])[m] == options[m];
      }
    }
  }

  lemma DiffBodyStep(configs: seq<Config>, sections: seq<string>, options: seq<seq<string>>, next: seq<string>, k: nat)
    requires k < |sections| && |options| == k
    ensures DiffBody(configs, sections[..k + 1], options + [next])
         == DiffBody(configs, sections[..k], options) + SectionBlock(configs, sections[k], next)
  {
    assert sections[..k + 1][..k] == sections[..k] && (options + [next])[..k] == options;
  }

  lemma LeftRowsConcat(a: seq<seq<string>>, b: seq<seq<string>>)
    ensures LeftRows(a + b) == LeftRows(a) + LeftRows(b)
  {
  }

  /** Adds one section to the table: its section row and kept option rows, or nothing when none is kept. */
  method AddSection(table: Table, configs: seq<Config>, section: string, options: seq<string>)
    requires table.Valid()
    modifies table`rows, table`columnCnt, table`columnWidth
    ensures table.Valid()
    ensures table.rows == old(table.rows) + LeftRows(SectionBlock(configs, section, options))
  {
    var sectionValues := SectionValues(configs, section);
    var optionValues := KeptOptionValues(configs, section, options);
    if |Elements(sectionValues)| > 2 || |optionValues| > 0 {
      table.AddRow(sectionValues);
      if |optionValues| > 0 {
        table.Extend(optionValues);
      }
      LeftRowsCons(sectionValues, optionValues);
      SeqAssoc(old(table.rows), [Row(sectionValues, Left)], LeftRows(optionValues));
    }
  }

  /**
   Adds the block of every section to the table, visiting the sections in the
   order given and the options of each in an order of its own, returned in `options`.
   */
  method AddSections(table: Table, configs: seq<Config>, structure: map<string, set<string>>, sections: seq<string>)
      returns (ghost options: seq<seq<string>>)
    requires table.Valid()
    requires structure == Structure(configs) && IsEnumeration(sections, structure.Keys)
    modifies table`rows, table`columnCnt, table`columnWidth
    ensures table.Valid()
    ensures |options| == |sections|
    ensures forall m :: 0 <= m < |sections| ==> IsEnumeration(options[m], AllOptions(configs, sections[m]))
    ensures table.rows == old(table.rows) + LeftRows(DiffBody(configs, sections, options))
  {
    EnumerationMembers(sections, structure.Keys);
    options := [];
    for k := 0 to |sections|
      invariant table.Valid()
      invariant |options| == k
      invariant forall m :: 0 <= m < k ==> IsEnumeration(options[m], AllOptions(configs, sections[m]))
      invariant table.rows == old(table.rows) + LeftRows(DiffBody(configs, sections[..k], options))
    {
      var section := sections[k];
      assert structure[section] == AllOptions(configs, section);
      var sectionOptions := Enumerate(structure[section]);
      ghost var body := DiffBody(configs, sections[..k], options);
      ghost var block := SectionBlock(configs, section, sectionOptions);
      ghost var rowsBefore := table.rows;
      AddSection(table, configs, section, sectionOptions);
      ghost var next := options + [sectionOptions];
      OrdersStep(configs, sections, options, sectionOptions, k);
      DiffBodyStep(configs, sections, options, sectionOptions, k);
      LeftRowsConcat(body, block);
      SeqAssoc(old(table.rows), LeftRows(body), LeftRows(block));
      options := next;
    }
    assert sections[..|sections|] == sections;
  }

  /** Compares the documents read from `paths` and returns the printed table. */
  method CompareIni(paths: seq<string>, read: string -> Config) returns (lines: seq<string>)
    ensures DiffOf(lines, paths, Configs(paths, read))
  {
    var labels, configs := ReadSources(paths, read);
    var header, structure := MergeSources(labels, configs);
    var table := new Table();
    table.AddHeader(header);
    var sections := Enumerate(structure.Keys);
    ghost var options := AddSections(table, configs, structure, sections);
    assert Orders(configs, sections, options);
    var rows := DiffRows(paths, configs, sections, options);
    assert table.rows == rows;
    UniformRowsAreFull(rows, 1 + |configs|);
    ghost var seps := table.separators;
    assert seps == [Separator(0, "="), Separator(1, "=")];
    lines := table.Output();
    assert lines == Rendered(rows, seps, ColumnWidths(rows), 1).0;
    assert lines == DiffLines(paths, configs, sections, options);
  }
}
