/** The projects panel's folder tree: every node sums up the projects beneath its path. */
module ProjectTree {

  datatype Option<+T> = None | Some(value: T)

  /** A project as the server lists it; `newest` is in milliseconds since the epoch. */
  datatype Folder = Folder(name: string, path: string, newest: int, sessions: Option<int>, clis: seq<string>)

  datatype Stats = Stats(projects: nat, sessions: Option<int>, newest: int, clis: seq<string>)

  datatype Node = Node(
    key: string,
    title: string,
    depth: nat,
    children: seq<Node>,
    project: Option<Folder>,
    stats: Stats)

  const NOTHING := Stats(0, None, 0, [])

  function Last<T>(s: seq<T>): T
    requires s != []
  {
    s[|s| - 1]
  }

  function ButLast<T>(s: seq<T>): seq<T>
    requires s != []
  {
    s[..|s| - 1]
  }

  // ---- the segments of a path ----

  function LeadingLetters(path: string): (n: nat)
    ensures n <= |path|
  {
    if path == "" || !('a' <= path[0] <= 'z') then 0 else 1 + LeadingLetters(path[1..])
  }

  /** Two or more lower-case letters and a colon: a gateway's path, not a file system's. */
  predicate IsSynthetic(path: string) {
    var n := LeadingLetters(path);
    2 <= n < |path| && path[n] == ':'
  }

  function Split(path: string): (segments: seq<string>)
    ensures segments != []
  {
    if path == "" then [""]
    else
      var rest := Split(path[1..]);
      if path[0] == ':' then [""] + rest else [[path[0]] + rest[0]] + rest[1..]
  }

  function Segments(path: string): seq<string> {
    if IsSynthetic(path) then Split(path) else []
  }

  function Join(segments: seq<string>): string
    requires segments != []
  {
    if |segments| == 1 then segments[0] else segments[0] + ":" + Join(segments[1..])
  }

  /** The segments are the parts between the colons: joined again they are the path, and none holds a colon. */
  lemma {:induction false} SplitsAtEveryColon(path: string)
    ensures Join(Split(path)) == path && forall segment <- Split(path) :: ':' !in segment
    decreases |path|
  {
    if path != "" {
      SplitsAtEveryColon(path[1..]);
      var rest := Split(path[1..]);
      assert path == [path[0]] + path[1..];
      if path[0] == ':' {
        assert Split(path)[1..] == rest;
      } else {
        assert Split(path)[1..] == rest[1..];
        if |rest| > 1 {
          assert Join(Split(path)) == [path[0]] + (rest[0] + ":" + Join(rest[1..]));
        }
      }
    }
  }

  // ---- folding a project into a node's figures ----

  function Max(a: int, b: int): int {
    if a >= b then a else b
  }

  function Included(clis: seq<string>, more: seq<string>): seq<string>
    decreases |more|
  {
    if more == [] then clis
    else
      var before := Included(clis, ButLast(more));
      if Last(more) in before then before else before + [Last(more)]
  }

  function Absorb(s: Stats, f: Folder): Stats {
    Stats(s.projects + 1,
          if f.sessions.Some? then Some((if s.sessions.Some? then s.sessions.value else 0) + f.sessions.value)
          else s.sessions,
          Max(s.newest, f.newest),
          Included(s.clis, f.clis))
  }

  function Roll(folders: seq<Folder>): Stats
    decreases |folders|
  {
    if folders == [] then NOTHING else Absorb(Roll(ButLast(folders)), Last(folders))
  }

  function SumSessions(folders: seq<Folder>): int
    decreases |folders|
  {
    if folders == [] then 0
    else SumSessions(ButLast(folders)) + (if Last(folders).sessions.Some? then Last(folders).sessions.value else 0)
  }

  function AllClis(folders: seq<Folder>): seq<string>
    decreases |folders|
  {
    if folders == [] then [] else AllClis(ButLast(folders)) + Last(folders).clis
  }

  /** The first occurrence of each name, in order. */
  function FirstSeen(names: seq<string>): seq<string>
    decreases |names|
  {
    if names == [] then []
    else FirstSeen(ButLast(names)) + (if Last(names) in ButLast(names) then [] else [Last(names)])
  }

  lemma {:induction false} SeenMeansPresent(names: seq<string>, name: string)
    ensures name in FirstSeen(names) <==> name in names
    decreases |names|
  {
    if names != [] {
      SeenMeansPresent(ButLast(names), name);
      assert names == ButLast(names) + [Last(names)];
    }
  }

  lemma {:induction false} IncludedIsFirstSeen(names: seq<string>, more: seq<string>)
    ensures Included(FirstSeen(names), more) == FirstSeen(names + more)
    decreases |more|
  {
    if more == [] {
      assert names + more == names;
    } else {
      var before := names + ButLast(more);
      IncludedIsFirstSeen(names, ButLast(more));
      assert ButLast(names + more) == before && Last(names + more) == Last(more);
      SeenMeansPresent(before, Last(more));
    }
  }

  predicate AnyReported(folders: seq<Folder>) {
    exists f <- folders :: f.sessions.Some?
  }

  /**
   * What the figures of a node mean: how many projects, the sum of the session counts that were
   * reported and none when none was, the latest date but not before the epoch, each CLI once.
   */
  lemma {:induction false} FiguresAreTotals(folders: seq<Folder>)
    ensures var s := Roll(folders);
      && s.projects == |folders|
      && s.sessions == (if AnyReported(folders) then Some(SumSessions(folders)) else None)
      && s.newest >= 0 && (forall f <- folders :: f.newest <= s.newest)
      && (s.newest == 0 || exists f <- folders :: f.newest == s.newest)
      && s.clis == FirstSeen(AllClis(folders))
    decreases |folders|
  {
    if folders != [] {
      var before := ButLast(folders);
      FiguresAreTotals(before);
      IncludedIsFirstSeen(AllClis(before), Last(folders).clis);
      assert folders == before + [Last(folders)];
      if !AnyReported(before) {
        NothingReported(before);
      }
    }
  }

  lemma {:induction false} NothingReported(folders: seq<Folder>)
    requires !AnyReported(folders)
    ensures SumSessions(folders) == 0
    decreases |folders|
  {
    if folders != [] {
      NothingReported(ButLast(folders));
    }
  }

  // ---- inserting a project ----

  function IndexOf(level: seq<Node>, key: string): (i: nat)
    ensures i <= |level| && (i < |level| ==> level[i].key == key)
    ensures forall j :: 0 <= j < i ==> level[j].key != key
  {
    if level == [] || level[0].key == key then 0 else 1 + IndexOf(level[1..], key)
  }

  function KeyUnder(parent: string, depth: nat, segment: string): string {
    if depth == 0 then segment else parent + ":" + segment
  }

  function Place(level: seq<Node>, node: Node): seq<Node> {
    var i := IndexOf(level, node.key);
    if i < |level| then level[i := node] else level + [node]
  }

  function NodeAt(level: seq<Node>, key: string, title: string, depth: nat): (node: Node)
    ensures node.key == key
  {
    var i := IndexOf(level, key);
    if i < |level| then level[i] else Node(key, title, depth, [], None, NOTHING)
  }

  function Insert(level: seq<Node>, parent: string, depth: nat, segments: seq<string>, f: Folder): seq<Node>
    requires segments != []
    decreases |segments|
  {
    var key := KeyUnder(parent, depth, segments[0]);
    var node := NodeAt(level, key, segments[0], depth);
    Place(level, node.(
      stats := Absorb(node.stats, f),
      children := if |segments| == 1 then node.children
                  else Insert(node.children, key, depth + 1, segments[1..], f),
      project := if |segments| == 1 && node.project == None then Some(f) else node.project))
  }

  function RootOf(f: Folder): Node {
    Node("project:" + f.name, f.name, 0, [], Some(f), Absorb(NOTHING, f))
  }

  function AddFolder(roots: seq<Node>, f: Folder): seq<Node> {
    var segments := Segments(f.path);
    if segments == [] then Place(roots, RootOf(f)) else Insert(roots, "", 0, segments, f)
  }

  function Build(folders: seq<Folder>): seq<Node>
    decreases |folders|
  {
    if folders == [] then [] else AddFolder(Build(ButLast(folders)), Last(folders))
  }

  /** The node that the segments of `path` lead to. */
  function Lookup(level: seq<Node>, parent: string, depth: nat, path: seq<string>): Option<Node>
    requires path != []
    decreases |path|
  {
    var key := KeyUnder(parent, depth, path[0]);
    var i := IndexOf(level, key);
    if i == |level| then None
    else if |path| == 1 then Some(level[i])
    else Lookup(level[i].children, key, depth + 1, path[1..])
  }

  // ---- what each node covers ----

  /** The figures and own project of the node at a path, empty where there is none. */
  function Entry(level: seq<Node>, parent: string, depth: nat, path: seq<string>): (Stats, Option<Folder>)
    requires path != []
  {
    match Lookup(level, parent, depth, path)
    case None => (NOTHING, None)
    case Some(node) => (node.stats, node.project)
  }

  lemma KeysTellSegmentsApart(parent: string, depth: nat, a: string, b: string)
    requires KeyUnder(parent, depth, a) == KeyUnder(parent, depth, b)
    ensures a == b
  {
    if depth > 0 {
      assert (parent + ":" + a)[|parent| + 1..] == a;
      assert (parent + ":" + b)[|parent| + 1..] == b;
    }
  }

  predicate Has(level: seq<Node>, key: string) {
    IndexOf(level, key) < |level|
  }

  lemma PlacedAt(level: seq<Node>, node: Node, key: string, title: string, depth: nat)
    ensures Has(Place(level, node), key) <==> key == node.key || Has(level, key)
    ensures NodeAt(Place(level, node), key, title, depth)
         == if key == node.key then node else NodeAt(level, key, title, depth)
  {
    var placed := Place(level, node);
    var i, n := IndexOf(level, key), IndexOf(level, node.key);
    if key == node.key {
      assert placed[n].key == key;
    } else if i < |level| {
      assert placed[i] == level[i];
    }
  }

  lemma LookupByNode(level: seq<Node>, parent: string, depth: nat, path: seq<string>)
    requires path != []
    ensures var key := KeyUnder(parent, depth, path[0]);
      var node := NodeAt(level, key, path[0], depth);
      if |path| == 1 then
        (Lookup(level, parent, depth, path).Some? <==> Has(level, key))
        && Entry(level, parent, depth, path) == (node.stats, node.project)
      else
        Lookup(level, parent, depth, path) == Lookup(node.children, key, depth + 1, path[1..])
  {
  }

  /** Inserting a project counts it at every prefix of its path, and touches no other node's figures. */
  lemma {:induction false} InsertCounts(level: seq<Node>, parent: string, depth: nat, segments: seq<string>, f: Folder,
                                        path: seq<string>)
    requires segments != [] && path != []
    ensures var level' := Insert(level, parent, depth, segments, f);
      var entry := Entry(level, parent, depth, path);
      if path <= segments then
        && Lookup(level', parent, depth, path).Some?
        && Entry(level', parent, depth, path)
           == (Absorb(entry.0, f), if path == segments && entry.1 == None then Some(f) else entry.1)
      else
        && (Lookup(level', parent, depth, path).Some? <==> Lookup(level, parent, depth, path).Some?)
        && Entry(level', parent, depth, path) == entry
    decreases |segments|
  {
    hide Absorb(), IndexOf(), KeyUnder(), Place(), NodeAt(), Lookup(), Has();
    var key := KeyUnder(parent, depth, segments[0]);
    var key' := KeyUnder(parent, depth, path[0]);
    var node := NodeAt(level, key, segments[0], depth);
    var level' := Insert(level, parent, depth, segments, f);
    var node' := node.(stats := Absorb(node.stats, f),
                       children := if |segments| == 1 then node.children
                                   else Insert(node.children, key, depth + 1, segments[1..], f),
                       project := if |segments| == 1 && node.project == None then Some(f) else node.project);
    PlacedAt(level, node', key', path[0], depth);
    LookupByNode(level, parent, depth, path);
    LookupByNode(level', parent, depth, path);
    if path[0] != segments[0] {
      if key == key' {
        KeysTellSegmentsApart(parent, depth, segments[0], path[0]);
      }
    } else if |path| > 1 && |segments| > 1 {
      InsertCounts(node.children, key, depth + 1, segments[1..], f, path[1..]);
      PrefixSteps(path, segments);
    }
  }

  lemma PrefixSteps(path: seq<string>, segments: seq<string>)
    requires path != [] && segments != [] && path[0] == segments[0]
    ensures path <= segments <==> path[1..] <= segments[1..]
    ensures path == segments <==> path[1..] == segments[1..]
  {
    assert path == [path[0]] + path[1..] && segments == [segments[0]] + segments[1..];
  }

  /** The projects whose path starts with the given segments. */
  function Under(folders: seq<Folder>, path: seq<string>): seq<Folder>
    decreases |folders|
  {
    if folders == [] then []
    else Under(ButLast(folders), path) + (if path <= Segments(Last(folders).path) then [Last(folders)] else [])
  }

  /** The first project at exactly that path. */
  function FirstAt(folders: seq<Folder>, path: seq<string>): Option<Folder>
    decreases |folders|
  {
    if folders == [] then None
    else
      var earlier := FirstAt(ButLast(folders), path);
      if earlier == None && path == Segments(Last(folders).path) then Some(Last(folders)) else earlier
  }

  lemma ColonInRootKey(f: Folder)
    ensures ':' in RootOf(f).key
  {
    assert RootOf(f).key[7] == ':';
  }

  lemma RootLookup(roots: seq<Node>, f: Folder, path: seq<string>)
    requires path != [] && ':' !in path[0]
    ensures Lookup(Place(roots, RootOf(f)), "", 0, path) == Lookup(roots, "", 0, path)
  {
    hide Place(), NodeAt(), Lookup(), Has(), IndexOf();
    ColonInRootKey(f);
    PlacedAt(roots, RootOf(f), path[0], path[0], 0);
    SameNodeSameLookup(roots, Place(roots, RootOf(f)), path);
  }

  lemma SameNodeSameLookup(a: seq<Node>, b: seq<Node>, path: seq<string>)
    requires path != [] && (Has(a, path[0]) <==> Has(b, path[0]))
    requires NodeAt(a, path[0], path[0], 0) == NodeAt(b, path[0], path[0], 0)
    ensures Lookup(a, "", 0, path) == Lookup(b, "", 0, path)
  {
  }

  /**
   * A node exists exactly for the prefixes of the projects' paths; its figures are those of all the
   * projects beneath it, and its own project is the first at its path.
   */
  lemma {:induction false} NodesSumTheirProjects(folders: seq<Folder>, path: seq<string>)
    requires path != [] && ':' !in path[0]
    ensures Lookup(Build(folders), "", 0, path).Some? <==> Under(folders, path) != []
    ensures Entry(Build(folders), "", 0, path) == (Roll(Under(folders, path)), FirstAt(folders, path))
    decreases |folders|
  {
    hide Lookup(), Segments(), AddFolder(), Roll();
    if folders == [] {
      EmptyLookup(path);
    } else {
      var f := Last(folders);
      NodesSumTheirProjects(ButLast(folders), path);
      OneFolderMore(Build(ButLast(folders)), f, path);
      RollOneMore(Under(ButLast(folders), path), f);
      assert Under(ButLast(folders), path) + [] == Under(ButLast(folders), path);
    }
  }

  /** A project counts at every prefix of its path, and at no other path of segments. */
  lemma OneFolderMore(before: seq<Node>, f: Folder, path: seq<string>)
    requires path != [] && ':' !in path[0]
    ensures Lookup(AddFolder(before, f), "", 0, path).Some? <==> Lookup(before, "", 0, path).Some? || path <= Segments(f.path)
    ensures var (stats, project) := Entry(before, "", 0, path);
      Entry(AddFolder(before, f), "", 0, path) ==
        (if path <= Segments(f.path) then Absorb(stats, f) else stats,
         if project == None && path == Segments(f.path) then Some(f) else project)
  {
    hide Lookup(), Segments(), Absorb(), Insert(), Place(), RootOf();
    if Segments(f.path) == [] {
      RootLookup(before, f, path);
    } else {
      InsertCounts(before, "", 0, Segments(f.path), f, path);
    }
  }

  lemma EmptyLookup(path: seq<string>)
    requires path != []
    ensures Lookup([], "", 0, path) == None && Roll([]) == NOTHING
  {
  }

  lemma RollOneMore(folders: seq<Folder>, f: Folder)
    ensures Roll(folders + [f]) == Absorb(Roll(folders), f)
  {
    assert ButLast(folders + [f]) == folders;
  }

  // ---- the counts of the top-level rows ----

  function SumProjects(level: seq<Node>): nat {
    if level == [] then 0 else level[0].stats.projects + SumProjects(level[1..])
  }

  lemma {:induction false} SumAfterReplace(level: seq<Node>, i: nat, node: Node)
    requires i < |level|
    ensures SumProjects(level[i := node]) == SumProjects(level) - level[i].stats.projects + node.stats.projects
    decreases |level|
  {
    if i == 0 {
      assert level[0 := node][1..] == level[1..];
    } else {
      assert level[i := node][1..] == level[1..][i - 1 := node];
      SumAfterReplace(level[1..], i - 1, node);
    }
  }

  lemma {:induction false} SumAfterAppend(level: seq<Node>, node: Node)
    ensures SumProjects(level + [node]) == SumProjects(level) + node.stats.projects
    decreases |level|
  {
    if level != [] {
      assert (level + [node])[1..] == level[1..] + [node];
      SumAfterAppend(level[1..], node);
    }
  }

  lemma SumAfterPlace(level: seq<Node>, node: Node, title: string, depth: nat)
    ensures SumProjects(Place(level, node))
         == SumProjects(level) - NodeAt(level, node.key, title, depth).stats.projects + node.stats.projects
  {
    var i := IndexOf(level, node.key);
    if i < |level| {
      SumAfterReplace(level, i, node);
    } else {
      SumAfterAppend(level, node);
    }
  }

  predicate IsReal(f: Folder) {
    Segments(f.path) == []
  }

  predicate SeenReal(folders: seq<Folder>, name: string) {
    exists f <- folders :: IsReal(f) && f.name == name
  }

  /** How many file-system projects come after another of the same name. */
  function Repeats(folders: seq<Folder>): nat
    decreases |folders|
  {
    if folders == [] then 0
    else
      Repeats(ButLast(folders))
      + (if IsReal(Last(folders)) && SeenReal(ButLast(folders), Last(folders).name) then 1 else 0)
  }

  lemma RootKeysDiffer(a: string, b: string)
    ensures "project:" + a == "project:" + b <==> a == b
  {
    assert ("project:" + a)[8..] == a && ("project:" + b)[8..] == b;
  }

  lemma SegmentIsNoRootKey(f: Folder, name: string)
    requires !IsReal(f)
    ensures Segments(f.path)[0] != "project:" + name
  {
    SplitsAtEveryColon(f.path);
    assert ("project:" + name)[7] == ':';
    assert ':' !in Segments(f.path)[0];
  }

  /** A file-system project is one root counting one project. */
  lemma {:induction false} RealRoots(folders: seq<Folder>, name: string)
    ensures NodeAt(Build(folders), "project:" + name, name, 0).stats.projects
         == if SeenReal(folders, name) then 1 else 0
    decreases |folders|
  {
    hide Place(), NodeAt(), Segments(), Absorb(), Has(), IndexOf();
    var key := "project:" + name;
    if folders == [] {
      NothingAt(key, name);
    } else {
      var f := Last(folders);
      var before := Build(ButLast(folders));
      RealRoots(ButLast(folders), name);
      assert folders == ButLast(folders) + [f];
      if IsReal(f) {
        PlacedAt(before, RootOf(f), key, name, 0);
        RootKeysDiffer(f.name, name);
        OneProject(f);
      } else {
        SegmentIsNoRootKey(f, name);
        InsertedRoot(before, Segments(f.path), f, key, name);
      }
    }
  }

  /** The project is the last of the file-system projects with its name. */
  ghost predicate LastOfItsName(folders: seq<Folder>, i: nat) {
    && i < |folders| && IsReal(folders[i])
    && forall j :: i < j < |folders| && IsReal(folders[j]) ==> folders[j].name != folders[i].name
  }

  /** Of the file-system projects of one name the last is the root, with its own figures and nothing beneath it. */
  lemma {:induction false} LastRealIsRoot(folders: seq<Folder>, i: nat)
    requires LastOfItsName(folders, i)
    ensures var root := RootOf(folders[i]);
      Has(Build(folders), root.key) && NodeAt(Build(folders), root.key, root.title, 0) == root
    decreases |folders|
  {
    hide Place(), NodeAt(), Segments(), Absorb(), Has(), IndexOf(), Insert();
    var f, before := Last(folders), Build(ButLast(folders));
    var root := RootOf(folders[i]);
    if i < |folders| - 1 {
      assert LastOfItsName(ButLast(folders), i);
      LastRealIsRoot(ButLast(folders), i);
    }
    if IsReal(f) {
      PlacedAt(before, RootOf(f), root.key, root.title, 0);
      RootKeysDiffer(f.name, folders[i].name);
    } else {
      SegmentIsNoRootKey(f, folders[i].name);
      InsertedRoot(before, Segments(f.path), f, root.key, root.title);
      InsertedHas(before, Segments(f.path), f, root.key);
    }
  }

  lemma InsertedHas(level: seq<Node>, segments: seq<string>, f: Folder, key: string)
    requires segments != []
    ensures Has(Insert(level, "", 0, segments, f), key) <==> Has(level, key) || key == segments[0]
  {
    hide Place(), NodeAt(), Absorb(), Has(), IndexOf();
    var node := NodeAt(level, segments[0], segments[0], 0);
    PlacedAt(level, node.(stats := Absorb(node.stats, f),
                          children := if |segments| == 1 then node.children
                                      else Insert(node.children, segments[0], 1, segments[1..], f),
                          project := if |segments| == 1 && node.project == None then Some(f) else node.project),
             key, "", 0);
  }

  /** The top-level key a project is counted under. */
  function RootKey(f: Folder): string {
    if IsReal(f) then "project:" + f.name else Segments(f.path)[0]
  }

  /** There are no other roots than those of the projects. */
  lemma {:induction false} RootsAreTheProjects(folders: seq<Folder>, key: string)
    ensures Has(Build(folders), key) <==> exists f <- folders :: RootKey(f) == key
    decreases |folders|
  {
    hide Place(), NodeAt(), Segments(), Absorb(), Has(), IndexOf(), Insert();
    if folders == [] {
      assert !exists f <- folders :: RootKey(f) == key;
      NoRoots(key);
    } else {
      var f, before := Last(folders), Build(ButLast(folders));
      OneMoreKey(folders, key);
      RootsAreTheProjects(ButLast(folders), key);
      if IsReal(f) {
        PlacedAt(before, RootOf(f), key, "", 0);
      } else {
        InsertedHas(before, Segments(f.path), f, key);
      }
    }
  }

  lemma OneMoreKey(folders: seq<Folder>, key: string)
    requires folders != []
    ensures (exists f <- folders :: RootKey(f) == key)
      <==> (exists f <- ButLast(folders) :: RootKey(f) == key) || RootKey(Last(folders)) == key
  {
    hide RootKey();
    assert folders == ButLast(folders) + [Last(folders)];
    assert Last(folders) in folders;
  }

  lemma NoRoots(key: string)
    ensures !Has([], key)
  {
  }

  lemma NothingAt(key: string, title: string)
    ensures NodeAt([], key, title, 0).stats.projects == 0
  {
  }

  lemma OneProject(f: Folder)
    ensures RootOf(f).stats.projects == 1
  {
  }

  lemma InsertedRoot(level: seq<Node>, segments: seq<string>, f: Folder, key: string, title: string)
    requires segments != [] && key != segments[0]
    ensures NodeAt(Insert(level, "", 0, segments, f), key, title, 0) == NodeAt(level, key, title, 0)
  {
    hide Place(), NodeAt(), Absorb(), Has(), IndexOf();
    var node := NodeAt(level, segments[0], segments[0], 0);
    PlacedAt(level, node.(stats := Absorb(node.stats, f),
                          children := if |segments| == 1 then node.children
                                      else Insert(node.children, segments[0], 1, segments[1..], f),
                          project := if |segments| == 1 && node.project == None then Some(f) else node.project),
             key, title, 0);
  }

  lemma InsertAddsOne(level: seq<Node>, segments: seq<string>, f: Folder)
    requires segments != []
    ensures SumProjects(Insert(level, "", 0, segments, f)) == SumProjects(level) + 1
  {
    hide Place(), NodeAt(), IndexOf(), SumProjects();
    var node := NodeAt(level, segments[0], segments[0], 0);
    SumAfterPlace(level, node.(stats := Absorb(node.stats, f),
                               children := if |segments| == 1 then node.children
                                           else Insert(node.children, segments[0], 1, segments[1..], f),
                               project := if |segments| == 1 && node.project == None then Some(f) else node.project),
                  segments[0], 0);
  }

  /** The counts of the top-level rows add up to the projects listed, less those that share a name. */
  lemma {:induction false} RootCounts(folders: seq<Folder>)
    ensures SumProjects(Build(folders)) == |folders| - Repeats(folders)
    decreases |folders|
  {
    hide Place(), NodeAt(), Segments(), Absorb(), Insert(), SeenReal();
    if folders != [] {
      var f := Last(folders);
      RootCounts(ButLast(folders));
      if IsReal(f) {
        RealRoots(ButLast(folders), f.name);
        SumAfterPlace(Build(ButLast(folders)), RootOf(f), f.name, 0);
        OneProject(f);
      } else {
        InsertAddsOne(Build(ButLast(folders)), Segments(f.path), f);
      }
    }
  }

  ghost predicate NamesDistinct(folders: seq<Folder>) {
    forall i, j :: 0 <= i < j < |folders| && IsReal(folders[i]) && IsReal(folders[j]) ==> folders[i].name != folders[j].name
  }

  lemma {:induction false} RepeatsMeaning(folders: seq<Folder>)
    ensures Repeats(folders) == 0 <==> NamesDistinct(folders)
    decreases |folders|
  {
    hide IsReal();
    if folders != [] {
      RepeatsMeaning(ButLast(folders));
      NamesSplit(folders);
    }
  }

  lemma NamesSplit(folders: seq<Folder>)
    requires folders != []
    ensures NamesDistinct(folders) <==>
      NamesDistinct(ButLast(folders)) && !(IsReal(Last(folders)) && SeenReal(ButLast(folders), Last(folders).name))
  {
    hide IsReal();
    var before := ButLast(folders);
    if NamesDistinct(before) && !(IsReal(Last(folders)) && SeenReal(before, Last(folders).name)) {
      forall i, j | 0 <= i < j < |folders| && IsReal(folders[i]) && IsReal(folders[j])
        ensures folders[i].name != folders[j].name
      {
        assert folders[i] == before[i];
        if j < |before| {
          assert folders[j] == before[j];
        }
      }
    }
    if NamesDistinct(folders) {
      forall i, j | 0 <= i < j < |before| && IsReal(before[i]) && IsReal(before[j])
        ensures before[i].name != before[j].name
      {
        assert before[i] == folders[i] && before[j] == folders[j];
      }
    }
  }

  /** Every project is counted in one top-level row exactly when no two file-system projects share a name. */
  lemma RootsCountEveryProject(folders: seq<Folder>)
    ensures SumProjects(Build(folders)) == |folders| <==> NamesDistinct(folders)
  {
    hide Build(), SumProjects(), NamesDistinct();
    RootCounts(folders);
    RepeatsMeaning(folders);
  }
}
