/**
 The `check` driver: the port folders that every compiled output directory
 holds, the `.ini` files that every such port folder holds, and one comparison
 per common file across all output directories.
 */
module PortCheck {
  import opened Iteration
  import opened IniDiff

  // ---------------------------------------------------------------------------
  // The file system as `check` sees it

  /** What listing one directory shows: its sub-directories, and all its entries. */
  datatype Dir = Dir(subdirs: set<string>, names: set<string>)

  /**
   The directories that can be listed, and the parsed contents of the files
   that can be read.
   */
  datatype FileSystem = FileSystem(dirs: map<string, Dir>, files: map<string, Config>)

  /** The two listings `check` uses: `os.walk`'s sub-directories and `os.listdir`'s entries. */
  datatype Listing = SubDirs | Entries

  function Listed(d: Dir, listing: Listing): set<string>
  {
    match listing
    case SubDirs => d.subdirs
    case Entries => d.names
  }

  /** Reading a file that cannot be opened leaves the parser without sections. */
  function Read(fs: FileSystem, path: string): Config
  {
    if path in fs.files then fs.files[path] else map[]
  }

  /** Reading from `fs`, as the parser is handed it. */
  function ReadIn(fs: FileSystem): string -> Config
  {
    path => Read(fs, path)
  }

  /** The parsed document of each path, in path order. */
  function ReadAll(fs: FileSystem, paths: seq<string>): seq<Config>
  {
    Configs(paths, ReadIn(fs))
  }

  /**
   POSIX path joining: an absolute second part replaces the first; otherwise the
   parts are glued with one `/` unless the first is empty or already ends in one.
   */
  function Join(a: string, b: string): string
  {
    if b != [] && b[0] == Sep then b
    else if a == [] || a[|a| - 1] == Sep then a + b
    else a + [Sep] + b
  }

  /** Every directory of `dirs` can be listed. */
  predicate AllListed(fs: FileSystem, dirs: seq<string>)
  {
    forall i :: 0 <= i < |dirs| ==> dirs[i] in fs.dirs
  }

  /** A well-formed tree: every listed sub-directory can itself be listed. */
  ghost predicate Consistent(fs: FileSystem)
  {
    forall d, s :: d in fs.dirs && s in fs.dirs[d].subdirs ==> Join(d, s) in fs.dirs
  }

  // ---------------------------------------------------------------------------
  // Folding name sets

  /** The names among `names` that the pattern matches. */
  function Matching(names: set<string>, matches: string -> bool): set<string>
  {
    set n | n in names && matches(n)
  }

  /** One step of the fold: an empty running set is replaced, a non-empty one intersected. */
  function FoldStep(acc: set<string>, next: set<string>): set<string>
  {
    if |acc| == 0 then next else acc * next
  }

  /** The running set after folding all of `sets`, from the first to the last. */
  function FoldCommon(sets: seq<set<string>>): set<string>
  {
    if sets == [] then {} else FoldStep(FoldCommon(sets[..|sets| - 1]), sets[|sets| - 1])
  }

  /** The names that are in every one of `sets`. */
  function Common(sets: seq<set<string>>): set<string>
    requires sets != []
  {
    if |sets| == 1 then sets[0] else Common(sets[..|sets| - 1]) * sets[|sets| - 1]
  }

  lemma {:induction false} CommonMembers(sets: seq<set<string>>, x: string)
    requires sets != []
    ensures x in Common(sets) <==> forall i :: 0 <= i < |sets| ==> x in sets[i]
  {
    if |sets| > 1 {
      var init := sets[..|sets| - 1];
      CommonMembers(init, x);
      assert forall i :: 0 <= i < |init| ==> init[i] == sets[i];
    }
  }

  /** The fold never loses a name that every set has. */
  lemma {:induction false} FoldKeepsCommon(sets: seq<set<string>>)
    requires sets != []
    ensures Common(sets) <= FoldCommon(sets)
  {
    if |sets| > 1 {
      FoldKeepsCommon(sets[..|sets| - 1]);
    }
  }

  /** When some name is in every set, the fold is exactly the intersection of all of them. */
  lemma {:induction false} FoldIsCommon(sets: seq<set<string>>)
    requires sets != [] && Common(sets) != {}
    ensures FoldCommon(sets) == Common(sets)
  {
    if |sets| > 1 {
      var init := sets[..|sets| - 1];
      assert Common(sets) <= Common(init);
      FoldIsCommon(init);
    } else {
      assert sets[..0] == [];
    }
  }

  /** The fold is always the intersection of the sets from some point on: the last restart. */
  lemma {:induction false} FoldIsCommonSuffix(sets: seq<set<string>>)
    requires sets != []
    ensures exists j :: 0 <= j < |sets| && FoldCommon(sets) == Common(sets[j..])
  {
    var n := |sets| - 1;
    var last := sets[n];
    var init := sets[..n];
    assert FoldCommon(sets) == FoldStep(FoldCommon(init), last);
    if n == 0 || |FoldCommon(init)| == 0 {
      assert sets[n..] == [last];
      assert FoldCommon(sets) == Common(sets[n..]);
    } else {
      FoldIsCommonSuffix(init);
      var j :| 0 <= j < n && FoldCommon(init) == Common(init[j..]);
      CommonSnoc(sets, j);
      assert FoldCommon(sets) == Common(sets[j..]);
    }
  }

  lemma CommonSnoc(sets: seq<set<string>>, j: nat)
    requires j < |sets| - 1
    ensures Common(sets[j..]) == Common(sets[..|sets| - 1][j..]) * sets[|sets| - 1]
  {
    assert sets[j..][..|sets[j..]| - 1] == sets[..|sets| - 1][j..];
  }

  /** For two folders whose first set is not empty, the fold is their intersection. */
  lemma FoldOfTwo(a: set<string>, b: set<string>)
    requires a != {}
    ensures FoldCommon([a, b]) == a * b
  {
    assert [a, b][..1] == [a] && [a][..0] == [];
    assert FoldCommon([a]) == a;
    var x :| x in a;
    assert |a| != 0;
  }

  /**
   A running set emptied by an intersection is replaced by the next set, so the
   fold can name what only the later folders share.
   */
  lemma FoldRestarts()
    ensures var sets := [{"p1"}, {"p2"}, {"p2"}];
      FoldCommon(sets) == {"p2"} && Common(sets) == {}
  {
    var sets := [{"p1"}, {"p2"}, {"p2"}];
    assert sets[..2] == [{"p1"}, {"p2"}];
    assert sets[..2][..1] == [{"p1"}] && sets[..2][..1][..0] == [];
    assert {"p1"} * {"p2"} == {};
  }

  /** The matching names of each directory's listing, in directory order. */
  function NameSets(fs: FileSystem, dirs: seq<string>, listing: Listing, matches: string -> bool): (sets: seq<set<string>>)
    requires AllListed(fs, dirs)
    ensures |sets| == |dirs|
  {
    seq(|dirs|, i requires 0 <= i < |dirs| => Matching(Listed(fs.dirs[dirs[i]], listing), matches))
  }

  /** A fold's outcome: the common names, or the first directory that cannot be listed. */
  datatype Names = Found(names: set<string>) | Unlisted(dir: string)

  /** The listed names the pattern matches. */
  method Filter(names: set<string>, matches: string -> bool) returns (kept: set<string>)
    ensures kept == Matching(names, matches)
  {
    kept := {};
    var rest := names;
    while rest != {}
      invariant rest <= names
      invariant kept == Matching(names - rest, matches)
      decreases rest
    {
      var n :| n in rest;
      if matches(n) {
        kept := kept + {n};
      }
      rest := rest - {n};
    }
  }

  /**
   Folds the matching names of every directory's listing; stops at the first
   directory that cannot be listed.
   */
  method CommonNames(fs: FileSystem, dirs: seq<string>, listing: Listing, matches: string -> bool) returns (r: Names)
    ensures r.Found? <==> AllListed(fs, dirs)
    ensures r.Found? ==> r.names == FoldCommon(NameSets(fs, dirs, listing, matches))
    ensures r.Unlisted? ==> r.dir !in fs.dirs && exists i :: 0 <= i < |dirs| && r.dir == dirs[i] && AllListed(fs, dirs[..i])
  {
    var common: set<string> := {};
    for i := 0 to |dirs|
      invariant AllListed(fs, dirs[..i])
      invariant common == FoldCommon(NameSets(fs, dirs[..i], listing, matches))
    {
      if dirs[i] !in fs.dirs {
        return Unlisted(dirs[i]);
      }
      var names := Filter(Listed(fs.dirs[dirs[i]], listing), matches);
      assert dirs[..i + 1][..i] == dirs[..i];
      assert NameSets(fs, dirs[..i + 1], listing, matches)[..i] == NameSets(fs, dirs[..i], listing, matches);
      if |common| == 0 {
        common := names;
      } else {
        common := common * names;
      }
    }
    assert dirs[..|dirs|] == dirs;
    return Found(common);
  }

  // ---------------------------------------------------------------------------
  // Comparing every common file of every common port

  /** One compared file: its name, the paths compared (in visiting order) and the printed table. */
  datatype Comparison = Comparison(ini: string, paths: seq<string>, lines: seq<string>)

  /** One common port: the common file names of its folders and one comparison per name. */
  datatype PortReport = PortReport(port: string, commonInis: set<string>, comparisons: seq<Comparison>)

  /**
   What `check` produces: a report per common port, or the reports printed before
   it stopped at a directory it could not list.
   */
  datatype Outcome =
    | Finished(commonPorts: set<string>, reports: seq<PortReport>)
    | Stopped(dir: string, reports: seq<PortReport>)

  /** The port folder under every output directory. */
  function PortDirs(objDirs: seq<string>, port: string): (dirs: seq<string>)
    ensures |dirs| == |objDirs|
  {
    seq(|objDirs|, i requires 0 <= i < |objDirs| => Join(objDirs[i], port))
  }

  /** The path of file `ini` in the port folder under output directory `dir`. */
  function IniPathIn(port: string, ini: string): string -> string
  {
    dir => Join(Join(dir, port), ini)
  }

  /** The paths `f` gives the directories of `dirs`. */
  function Image(dirs: seq<string>, f: string -> string): set<string>
  {
    if dirs == [] then {} else Image(dirs[..|dirs| - 1], f) + {f(dirs[|dirs| - 1])}
  }

  lemma {:induction false} ImageMembers(dirs: seq<string>, f: string -> string, p: string)
    ensures p in Image(dirs, f) <==> exists i :: 0 <= i < |dirs| && p == f(dirs[i])
  {
    if dirs != [] {
      var init := dirs[..|dirs| - 1];
      ImageMembers(init, f, p);
      assert forall i :: 0 <= i < |init| ==> init[i] == dirs[i];
    }
  }

  lemma ImageSnoc(dirs: seq<string>, f: string -> string, i: nat)
    requires i < |dirs|
    ensures Image(dirs[..i + 1], f) == Image(dirs[..i], f) + {f(dirs[i])}
  {
    assert dirs[..i + 1][..i] == dirs[..i];
  }

  /** The paths of file `ini` in the port folder under every output directory. */
  function IniPaths(objDirs: seq<string>, port: string, ini: string): set<string>
  {
    Image(objDirs, IniPathIn(port, ini))
  }

  lemma IniPathsMembers(objDirs: seq<string>, port: string, ini: string, p: string)
    ensures p in IniPaths(objDirs, port, ini) <==> exists i :: 0 <= i < |objDirs| && p == Join(Join(objDirs[i], port), ini)
  {
    ImageMembers(objDirs, IniPathIn(port, ini), p);
  }

  function Inis(comparisons: seq<Comparison>): seq<string>
  {
    seq(|comparisons|, i requires 0 <= i < |comparisons| => comparisons[i].ini)
  }

  lemma SliceSnoc<T>(s: seq<T>, j: nat)
    requires j < |s|
    ensures s[..j + 1] == s[..j] + [s[j]]
  {
  }

  lemma InisSnoc(cs: seq<Comparison>, c: Comparison)
    ensures Inis(cs + [c]) == Inis(cs) + [c.ini]
  {
  }

  function Ports(reports: seq<PortReport>): seq<string>
  {
    seq(|reports|, i requires 0 <= i < |reports| => reports[i].port)
  }

  lemma PortsSnoc(rs: seq<PortReport>, r: PortReport)
    ensures Ports(rs + [r]) == Ports(rs) + [r.port]
  {
  }

  /** `c` compares every copy of its file, read from `fs`, in some order. */
  ghost predicate ComparisonOf(c: Comparison, fs: FileSystem, objDirs: seq<string>, port: string)
  {
    && IsEnumeration(c.paths, IniPaths(objDirs, port, c.ini))
    && DiffOf(c.lines, c.paths, ReadAll(fs, c.paths))
  }

  /** `r` folds the `.ini` names of the port's folders and compares each common one once. */
  ghost predicate ReportOf(r: PortReport, fs: FileSystem, objDirs: seq<string>, isIni: string -> bool)
  {
    && AllListed(fs, PortDirs(objDirs, r.port))
    && r.commonInis == FoldCommon(NameSets(fs, PortDirs(objDirs, r.port), Entries, isIni))
    && IsEnumeration(Inis(r.comparisons), r.commonInis)
    && ComparisonsOf(r.comparisons, fs, objDirs, r.port)
  }

  /** Every comparison of `cs` compares every copy of its file. */
  ghost predicate ComparisonsOf(cs: seq<Comparison>, fs: FileSystem, objDirs: seq<string>, port: string)
  {
    cs == [] || (ComparisonsOf(cs[..|cs| - 1], fs, objDirs, port) && ComparisonOf(cs[|cs| - 1], fs, objDirs, port))
  }

  /** Every report of `rs` folds and compares the files of its port. */
  ghost predicate ReportsOf(rs: seq<PortReport>, fs: FileSystem, objDirs: seq<string>, isIni: string -> bool)
  {
    rs == [] || (ReportsOf(rs[..|rs| - 1], fs, objDirs, isIni) && ReportOf(rs[|rs| - 1], fs, objDirs, isIni))
  }

  lemma {:induction false} ReportsOfEach(rs: seq<PortReport>, fs: FileSystem, objDirs: seq<string>, isIni: string -> bool)
    ensures ReportsOf(rs, fs, objDirs, isIni) <==> forall k :: 0 <= k < |rs| ==> ReportOf(rs[k], fs, objDirs, isIni)
  {
    if rs != [] {
      var init := rs[..|rs| - 1];
      ReportsOfEach(init, fs, objDirs, isIni);
      assert forall k :: 0 <= k < |init| ==> init[k] == rs[k];
    }
  }

  /** The common port names of the output directories, which must all be listable. */
  ghost function CommonPorts(fs: FileSystem, objDirs: seq<string>, isPort: string -> bool): set<string>
    requires AllListed(fs, objDirs)
  {
    FoldCommon(NameSets(fs, objDirs, SubDirs, isPort))
  }

  /**
   What running `check` on `objDirs` may produce: either a report for every common
   port, each once; or a stop at an output directory that cannot be listed, before
   any report; or a stop at the folder of a common port not yet reported, under
   the first output directory that lacks it, after reports for other common ports.
   */
  ghost predicate CheckOutcome(outcome: Outcome, fs: FileSystem, objDirs: seq<string>, isPort: string -> bool, isIni: string -> bool)
  {
    && ReportsOf(outcome.reports, fs, objDirs, isIni)
    && match outcome
       case Finished(ports, reports) =>
         && AllListed(fs, objDirs)
         && ports == CommonPorts(fs, objDirs, isPort)
         && IsEnumeration(Ports(reports), ports)
       case Stopped(dir, reports) =>
         && dir !in fs.dirs
         && (|| (reports == [] && exists i :: 0 <= i < |objDirs| && dir == objDirs[i] && AllListed(fs, objDirs[..i]))
             || (&& AllListed(fs, objDirs)
                 && exists port :: port in CommonPorts(fs, objDirs, isPort)
                      && NoRepeats(Ports(reports) + [port])
                      && Elements(Ports(reports) + [port]) <= CommonPorts(fs, objDirs, isPort)
                      && FirstUnlistedPortDir(fs, objDirs, port, dir)))
  }

  /**
   `dir` is the port folder under some output directory, and the port folders
   under every earlier output directory can be listed.
   */
  predicate FirstUnlistedPortDir(fs: FileSystem, objDirs: seq<string>, port: string, dir: string)
  {
    exists i :: 0 <= i < |objDirs| && dir == Join(objDirs[i], port) && AllListed(fs, PortDirs(objDirs, port)[..i])
  }

  /** Compares file `ini` across the port folders of all output directories. */
  method CompareFile(fs: FileSystem, objDirs: seq<string>, port: string, ini: string) returns (c: Comparison)
    ensures c.ini == ini && ComparisonOf(c, fs, objDirs, port)
  {
    var pathSet: set<string> := {};
    for i := 0 to |objDirs|
      invariant pathSet == IniPaths(objDirs[..i], port, ini)
    {
      ImageSnoc(objDirs, IniPathIn(port, ini), i);
      pathSet := pathSet + {Join(Join(objDirs[i], port), ini)};
    }
    assert objDirs[..|objDirs|] == objDirs;
    var paths := Enumerate(pathSet);
    var lines := CompareIni(paths, ReadIn(fs));
    c := Comparison(ini, paths, lines);
  }

  /**
   Folds the `.ini` names of the port's folders and, when some are common,
   compares each of them; `inis` names the folder that cannot be listed, if any.
   */
  method ComparePort(fs: FileSystem, objDirs: seq<string>, port: string, isIni: string -> bool)
    returns (inis: Names, comparisons: seq<Comparison>)
    ensures inis.Found? <==> AllListed(fs, PortDirs(objDirs, port))
    ensures inis.Found? ==> ReportOf(PortReport(port, inis.names, comparisons), fs, objDirs, isIni)
    ensures inis.Unlisted? ==> inis.dir !in fs.dirs && FirstUnlistedPortDir(fs, objDirs, port, inis.dir)
  {
    inis := CommonNames(fs, PortDirs(objDirs, port), Entries, isIni);
    comparisons := [];
    if inis.Unlisted? {
      return;
    }
    if |inis.names| == 0 {
      assert Inis(comparisons) == [];
    } else {
      comparisons := CompareFiles(fs, objDirs, port, inis.names);
    }
  }

  /** Compares each of the files named in `inis`, once each, in some order. */
  method CompareFiles(fs: FileSystem, objDirs: seq<string>, port: string, inis: set<string>) returns (comparisons: seq<Comparison>)
    ensures IsEnumeration(Inis(comparisons), inis)
    ensures ComparisonsOf(comparisons, fs, objDirs, port)
  {
    var order := Enumerate(inis);
    comparisons := [];
    for j := 0 to |order|
      invariant |comparisons| == j && Inis(comparisons) == order[..j]
      invariant ComparisonsOf(comparisons, fs, objDirs, port)
    {
      var c := CompareFile(fs, objDirs, port, order[j]);
      InisSnoc(comparisons, c);
      SliceSnoc(order, j);
      ComparisonsSnoc(comparisons, c, fs, objDirs, port);
      comparisons := comparisons + [c];
    }
    assert order[..|order|] == order;
  }

  lemma ComparisonsSnoc(cs: seq<Comparison>, c: Comparison, fs: FileSystem, objDirs: seq<string>, port: string)
    requires ComparisonsOf(cs, fs, objDirs, port) && ComparisonOf(c, fs, objDirs, port)
    ensures ComparisonsOf(cs + [c], fs, objDirs, port)
  {
    assert (cs + [c])[..|cs|] == cs;
  }

  /** Compares every common `.ini` file of every common port folder of `objDirs`. */
  method Check(fs: FileSystem, objDirs: seq<string>, isPort: string -> bool, isIni: string -> bool) returns (outcome: Outcome)
    ensures CheckOutcome(outcome, fs, objDirs, isPort, isIni)
  {
    var ports := CommonNames(fs, objDirs, SubDirs, isPort);
    if ports.Unlisted? {
      return Stopped(ports.dir, []);
    }
    var order := Enumerate(ports.names);
    EnumerationMembers(order, ports.names);
    var reports: seq<PortReport> := [];
    for k := 0 to |order|
      invariant |reports| == k && Ports(reports) == order[..k]
      invariant ReportsOf(reports, fs, objDirs, isIni)
    {
      var port := order[k];
      var inis, comparisons := ComparePort(fs, objDirs, port, isIni);
      SliceSnoc(order, k);
      if inis.Unlisted? {
        StoppedPortFresh(order, k, ports.names);
        assert Ports(reports) + [port] == order[..k + 1];
        StoppedAtPort(fs, objDirs, isPort, isIni, reports, port, inis.dir);
        return Stopped(inis.dir, reports);
      }
      var report := PortReport(port, inis.names, comparisons);
      PortsSnoc(reports, report);
      ReportsSnoc(reports, report, fs, objDirs, isIni);
      reports := reports + [report];
    }
    assert order[..|order|] == order;
    outcome := Finished(ports.names, reports);
    assert CheckOutcome(outcome, fs, objDirs, isPort, isIni);
  }

  lemma ReportsSnoc(rs: seq<PortReport>, r: PortReport, fs: FileSystem, objDirs: seq<string>, isIni: string -> bool)
    requires ReportsOf(rs, fs, objDirs, isIni) && ReportOf(r, fs, objDirs, isIni)
    ensures ReportsOf(rs + [r], fs, objDirs, isIni)
  {
    assert (rs + [r])[..|rs|] == rs;
  }

  lemma StoppedAtPort(fs: FileSystem, objDirs: seq<string>, isPort: string -> bool, isIni: string -> bool,
                      reports: seq<PortReport>, port: string, dir: string)
    requires AllListed(fs, objDirs) && ReportsOf(reports, fs, objDirs, isIni)
    requires dir !in fs.dirs && FirstUnlistedPortDir(fs, objDirs, port, dir)
    requires port in CommonPorts(fs, objDirs, isPort)
    requires NoRepeats(Ports(reports) + [port]) && Elements(Ports(reports) + [port]) <= CommonPorts(fs, objDirs, isPort)
    ensures CheckOutcome(Stopped(dir, reports), fs, objDirs, isPort, isIni)
  {
  }

  /** The ports already reported and the one being compared are distinct common ports. */
  lemma StoppedPortFresh(order: seq<string>, k: nat, ports: set<string>)
    requires IsEnumeration(order, ports) && k < |order|
    ensures NoRepeats(order[..k + 1]) && Elements(order[..k + 1]) <= ports
  {
    NoRepeatsPrefix(order, k + 1);
    forall x | x in Elements(order[..k + 1])
      ensures x in ports
    {
      ElementsMember(order[..k + 1], x);
      ElementsMember(order, x);
    }
  }

  lemma {:induction false} NoRepeatsPrefix<T>(order: seq<T>, n: nat)
    requires NoRepeats(order) && n <= |order|
    ensures NoRepeats(order[..n])
  {
    if n < |order| {
      var init := order[..|order| - 1];
      assert init[..n] == order[..n];
      NoRepeatsPrefix(init, n);
    } else {
      assert order[..n] == order;
    }
  }

  // ---------------------------------------------------------------------------
  // When `check` stops

  /**
   On a well-formed tree whose output directories can all be listed and share
   some port folder, `check` reports on every common port without stopping.
   */
  lemma ConsistentTreeFinishes(outcome: Outcome, fs: FileSystem, objDirs: seq<string>, isPort: string -> bool, isIni: string -> bool)
    requires Consistent(fs) && AllListed(fs, objDirs) && objDirs != []
    requires Common(NameSets(fs, objDirs, SubDirs, isPort)) != {}
    requires CheckOutcome(outcome, fs, objDirs, isPort, isIni)
    ensures outcome.Finished?
  {
    CommonPortFoldersListed(fs, objDirs, isPort);
  }

  /** On a well-formed tree, when the fold is the intersection, every common port has its folder everywhere. */
  lemma CommonPortFoldersListed(fs: FileSystem, objDirs: seq<string>, isPort: string -> bool)
    requires Consistent(fs) && AllListed(fs, objDirs) && objDirs != []
    requires Common(NameSets(fs, objDirs, SubDirs, isPort)) != {}
    ensures forall port, i :: port in CommonPorts(fs, objDirs, isPort) && 0 <= i < |objDirs| ==> Join(objDirs[i], port) in fs.dirs
  {
    var sets := NameSets(fs, objDirs, SubDirs, isPort);
    FoldIsCommon(sets);
    forall port, i | port in CommonPorts(fs, objDirs, isPort) && 0 <= i < |objDirs|
      ensures Join(objDirs[i], port) in fs.dirs
    {
      CommonMembers(sets, port);
      assert port in sets[i];
      assert sets[i] == Matching(fs.dirs[objDirs[i]].subdirs, isPort);
    }
  }

  /** Output directories `a`, `b`, `c` where only `b` and `c` share a port folder. */
  function RestartTree(): FileSystem
  {
    FileSystem(
      map["a" := Dir({"p1"}, {"p1"}),
          "b" := Dir({"p2"}, {"p2"}),
          "c" := Dir({"p2"}, {"p2"}),
          "a/p1" := Dir({}, {}),
          "b/p2" := Dir({}, {}),
          "c/p2" := Dir({}, {})],
      map[])
  }

  /** An enumeration contains every element of its set. */
  lemma EnumerationHas<T>(order: seq<T>, s: set<T>, x: T)
    ensures IsEnumeration(order, s) && x in s ==> x in order
  {
    ElementsMember(order, x);
  }

  /** A sequence without repeats inside a one-element set has at most one element. */
  lemma AtMostOne(order: seq<string>, x: string)
    ensures NoRepeats(order) && Elements(order) <= {x} ==> |order| <= 1
  {
    if NoRepeats(order) && Elements(order) <= {x} {
      ElementsCount(order);
      SubsetCard(Elements(order), {x});
    }
  }

  lemma RestartTreeSets(isPort: string -> bool)
    requires forall n :: isPort(n)
    ensures NameSets(RestartTree(), ["a", "b", "c"], SubDirs, isPort) == [{"p1"}, {"p2"}, {"p2"}]
  {
    assert Matching({"p1"}, isPort) == {"p1"};
    assert Matching({"p2"}, isPort) == {"p2"};
  }

  /** In the example tree the fold names port 2, whose folder is missing under `a` only. */
  lemma RestartTreeFolders(isPort: string -> bool)
    requires forall n :: isPort(n)
    ensures CommonPorts(RestartTree(), ["a", "b", "c"], isPort) == {"p2"}
    ensures !AllListed(RestartTree(), PortDirs(["a", "b", "c"], "p2"))
    ensures forall i :: 0 <= i < 3 ==> (Join(["a", "b", "c"][i], "p2") in RestartTree().dirs <==> i != 0)
    ensures Join("a", "p2") == "a/p2"
  {
    RestartTreeSets(isPort);
    FoldRestarts();
    RestartTreeJoins();
    assert PortDirs(["a", "b", "c"], "p2")[0] == Join("a", "p2");
  }

  lemma RestartTreeJoins()
    ensures Join("a", "p2") == "a/p2" && "a/p2" !in RestartTree().dirs
    ensures Join("b", "p2") == "b/p2" && "b/p2" in RestartTree().dirs
    ensures Join("c", "p2") == "c/p2" && "c/p2" in RestartTree().dirs
  {
  }

  /** No report is printed for the example tree, since its only common port has a missing folder. */
  lemma RestartTreeNoReports(outcome: Outcome, isPort: string -> bool, isIni: string -> bool)
    requires forall n :: isPort(n)
    requires CheckOutcome(outcome, RestartTree(), ["a", "b", "c"], isPort, isIni)
    ensures outcome.Stopped? && outcome.reports == []
  {
    var fs := RestartTree();
    var objDirs := ["a", "b", "c"];
    var port := "p2";
    var common := CommonPorts(fs, objDirs, isPort);
    var ports := Ports(outcome.reports);
    RestartTreeFolders(isPort);
    assert port !in ports by {
      ReportsOfEach(outcome.reports, fs, objDirs, isIni);
      forall k | 0 <= k < |outcome.reports|
        ensures outcome.reports[k].port != port
      {
        assert ReportOf(outcome.reports[k], fs, objDirs, isIni);
      }
    }
    assert outcome.Stopped? by {
      EnumerationHas(ports, {port}, port);
    }
    if outcome.reports != [] {
      var q :| q in common && NoRepeats(ports + [q]) && Elements(ports + [q]) <= common;
      AtMostOne(ports + [q], port);
    }
  }

  /**
   A port shared only by the later output directories is compared after the fold
   restarts, and `check` stops at the first output directory that lacks its
   folder, before printing any report.
   */
  lemma RestartedFoldStops(outcome: Outcome, isPort: string -> bool, isIni: string -> bool)
    requires forall n :: isPort(n)
    requires CheckOutcome(outcome, RestartTree(), ["a", "b", "c"], isPort, isIni)
    ensures outcome == Stopped("a/p2", [])
  {
    RestartTreeNoReports(outcome, isPort, isIni);
    RestartTreeFolders(isPort);
    var objDirs := ["a", "b", "c"];
    var i :| 0 <= i < 3 && outcome.dir == Join(objDirs[i], "p2") && AllListed(RestartTree(), PortDirs(objDirs, "p2")[..i]);
    assert i == 0 ==> outcome.dir == "a/p2";
  }

  /** Output directories `a`, `b`, `c` that all list port `p`, whose folder exists under `b` only. */
  function GapTree(): FileSystem
  {
    FileSystem(
      map["a" := Dir({"p"}, {"p"}),
          "b" := Dir({"p"}, {"p"}),
          "c" := Dir({"p"}, {"p"}),
          "b/p" := Dir({}, {})],
      map[])
  }

  lemma GapTreeSets(isPort: string -> bool)
    requires forall n :: isPort(n)
    ensures NameSets(GapTree(), ["a", "b", "c"], SubDirs, isPort) == [{"p"}, {"p"}, {"p"}]
  {
    assert Matching({"p"}, isPort) == {"p"};
  }

  lemma GapTreeFolders(isPort: string -> bool)
    requires forall n :: isPort(n)
    ensures CommonPorts(GapTree(), ["a", "b", "c"], isPort) == {"p"}
    ensures PortDirs(["a", "b", "c"], "p") == ["a/p", "b/p", "c/p"]
    ensures "a/p" !in GapTree().dirs && "c/p" !in GapTree().dirs
  {
    var sets := [{"p"}, {"p"}, {"p"}];
    GapTreeSets(isPort);
    assert sets[..2] == [{"p"}, {"p"}];
    assert sets[..2][..1] == [{"p"}] && sets[..2][..1][..0] == [];
    assert Join("a", "p") == "a/p" && Join("b", "p") == "b/p" && Join("c", "p") == "c/p";
  }

  /** No report is printed for the gap tree, since its only common port has a missing folder. */
  lemma GapTreeNoReports(outcome: Outcome, isPort: string -> bool, isIni: string -> bool)
    requires forall n :: isPort(n)
    requires CheckOutcome(outcome, GapTree(), ["a", "b", "c"], isPort, isIni)
    ensures outcome.Stopped? && outcome.reports == []
  {
    var fs := GapTree();
    var objDirs := ["a", "b", "c"];
    var port := "p";
    var common := CommonPorts(fs, objDirs, isPort);
    var ports := Ports(outcome.reports);
    GapTreeFolders(isPort);
    assert port !in ports by {
      assert PortDirs(objDirs, port)[0] !in fs.dirs;
      ReportsOfEach(outcome.reports, fs, objDirs, isIni);
      forall k | 0 <= k < |outcome.reports|
        ensures outcome.reports[k].port != port
      {
        assert ReportOf(outcome.reports[k], fs, objDirs, isIni);
      }
    }
    assert outcome.Stopped? by {
      EnumerationHas(ports, {port}, port);
    }
    if outcome.reports != [] {
      var q :| q in common && NoRepeats(ports + [q]) && Elements(ports + [q]) <= common;
      AtMostOne(ports + [q], port);
    }
  }

  /** The first port folder of the gap tree that cannot be listed is the one under `a`. */
  lemma GapTreeFirstMissing(isPort: string -> bool, dir: string)
    requires forall n :: isPort(n)
    requires FirstUnlistedPortDir(GapTree(), ["a", "b", "c"], "p", dir) && dir !in GapTree().dirs
    ensures dir == "a/p"
  {
    GapTreeFolders(isPort);
    var dirs := PortDirs(["a", "b", "c"], "p");
    assert forall j :: 0 < j <= 3 ==> dirs[..j][0] == "a/p";
    var i :| 0 <= i < 3 && dir == dirs[i] && AllListed(GapTree(), dirs[..i]);
    assert i == 0 ==> dir == "a/p";
  }

  /**
   When the folder of the common port is missing under two output directories,
   `check` stops at the first of them, before printing any report.
   */
  lemma GapStopsAtFirstMissing(outcome: Outcome, isPort: string -> bool, isIni: string -> bool)
    requires forall n :: isPort(n)
    requires CheckOutcome(outcome, GapTree(), ["a", "b", "c"], isPort, isIni)
    ensures outcome == Stopped("a/p", [])
  {
    GapTreeNoReports(outcome, isPort, isIni);
    GapTreeFirstMissing(isPort, outcome.dir);
  }
}
