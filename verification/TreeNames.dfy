/** Which projects have a path of segments, and how every node of the tree is named. */
module TreeNames {
  import opened ProjectTree
  import opened TreeRows

  // ---- which paths are split ----

  /** At least two lower-case letters, and a colon after them. */
  predicate StartsAsGateway(path: string, n: nat) {
    2 <= n < |path| && path[n] == ':' && forall i :: 0 <= i < n ==> 'a' <= path[i] <= 'z'
  }

  lemma {:induction false} LettersCounted(path: string)
    ensures forall i :: 0 <= i < LeadingLetters(path) ==> 'a' <= path[i] <= 'z'
    ensures LeadingLetters(path) < |path| ==> !('a' <= path[LeadingLetters(path)] <= 'z')
    decreases |path|
  {
    if path != "" && 'a' <= path[0] <= 'z' {
      LettersCounted(path[1..]);
      forall i | 0 <= i < LeadingLetters(path)
        ensures 'a' <= path[i] <= 'z'
      {
        assert i > 0 ==> path[i] == path[1..][i - 1];
      }
    }
  }

  /** A path has segments exactly when it starts as a gateway's, and then they are all its parts. */
  lemma SegmentsExactly(path: string)
    ensures Segments(path) != [] <==> exists n: nat :: StartsAsGateway(path, n)
    ensures Segments(path) != [] ==> Join(Segments(path)) == path && forall segment <- Segments(path) :: ':' !in segment
  {
    LettersCounted(path);
    SplitsAtEveryColon(path);
    if IsSynthetic(path) {
      assert StartsAsGateway(path, LeadingLetters(path));
    }
    forall n: nat | StartsAsGateway(path, n)
      ensures IsSynthetic(path)
    {
      assert LeadingLetters(path) == n;
    }
  }

  // ---- the names of the nodes ----

  /** A node is keyed by its parent's key, a colon and its title; a file-system root, by its name. */
  predicate NamedNode(node: Node, parent: string, depth: nat) {
    && node.depth == depth
    && (|| node.key == (if depth == 0 then node.title else parent + ":" + node.title)
        || (depth == 0 && node.key == "project:" + node.title && node.children == []))
  }

  ghost predicate Named(level: seq<Node>, parent: string, depth: nat)
    decreases level
  {
    forall i :: 0 <= i < |level| ==> NamedNode(level[i], parent, depth) && Named(level[i].children, level[i].key, depth + 1)
  }

  lemma PlaceKeepsNamed(level: seq<Node>, node: Node, parent: string, depth: nat)
    requires Named(level, parent, depth) && NamedNode(node, parent, depth) && Named(node.children, node.key, depth + 1)
    ensures Named(Place(level, node), parent, depth)
  {
    var placed := Place(level, node);
    forall i | 0 <= i < |placed|
      ensures NamedNode(placed[i], parent, depth) && Named(placed[i].children, placed[i].key, depth + 1)
    {
      if placed[i] != node {
        assert placed[i] == level[i];
      }
    }
  }

  lemma {:induction false} InsertKeepsNamed(level: seq<Node>, parent: string, depth: nat, segments: seq<string>, f: Folder)
    requires Named(level, parent, depth) && segments != [] && (depth == 0 ==> ':' !in segments[0])
    ensures Named(Insert(level, parent, depth, segments, f), parent, depth)
    decreases |segments|
  {
    hide Place(), Absorb(), NodeAt(), IndexOf(), KeyUnder(), Named();
    var key := KeyUnder(parent, depth, segments[0]);
    var node := NodeAt(level, key, segments[0], depth);
    NodeAtIsNamed(level, parent, depth, segments[0]);
    KeyIsName(parent, depth, segments[0]);
    var children := if |segments| == 1 then node.children else Insert(node.children, key, depth + 1, segments[1..], f);
    if |segments| > 1 {
      InsertKeepsNamed(node.children, key, depth + 1, segments[1..], f);
    }
    PlaceKeepsNamed(level, node.(
      stats := Absorb(node.stats, f),
      children := children,
      project := if |segments| == 1 && node.project == None then Some(f) else node.project), parent, depth);
  }

  lemma NodeAtIsNamed(level: seq<Node>, parent: string, depth: nat, segment: string)
    requires Named(level, parent, depth) && (depth == 0 ==> ':' !in segment)
    ensures var key := KeyUnder(parent, depth, segment); var node := NodeAt(level, key, segment, depth);
      && node.key == key && node.title == segment && node.depth == depth && Named(node.children, key, depth + 1)
  {
    var key := KeyUnder(parent, depth, segment);
    var i := IndexOf(level, key);
    if i < |level| {
      assert NamedNode(level[i], parent, depth);
      if depth == 0 {
        NoColonNoRoot(segment, level[i].title);
      } else {
        KeysTellSegmentsApart(parent, depth, segment, level[i].title);
      }
    }
  }

  lemma KeyIsName(parent: string, depth: nat, segment: string)
    ensures KeyUnder(parent, depth, segment) == if depth == 0 then segment else parent + ":" + segment
  {
  }

  lemma NoColonNoRoot(segment: string, name: string)
    requires ':' !in segment
    ensures segment != "project:" + name
  {
    assert ("project:" + name)[7] == ':';
  }

  lemma {:induction false} BuildIsNamed(folders: seq<Folder>)
    ensures Named(Build(folders), "", 0)
    decreases |folders|
  {
    hide Place(), Insert(), Absorb(), Segments();
    if folders != [] {
      BuildIsNamed(ButLast(folders));
      var f := Last(folders);
      if Segments(f.path) == [] {
        PlaceKeepsNamed(Build(ButLast(folders)), RootOf(f), "", 0);
      } else {
        SegmentsExactly(f.path);
        assert Segments(f.path)[0] in Segments(f.path);
        InsertKeepsNamed(Build(ButLast(folders)), "", 0, Segments(f.path), f);
      }
    }
  }

  lemma {:induction false} FinalizeKeepsNamed(level: seq<Node>, parent: string, depth: nat)
    requires Named(level, parent, depth)
    ensures Named(Finalize(level), parent, depth)
    decreases level
  {
    hide SortByDate(), NamedNode();
    var each, sorted := FinalizeEach(level), Finalize(level);
    EachFinalized(level);
    SortIsAPermutation(each);
    forall i | 0 <= i < |sorted|
      ensures NamedNode(sorted[i], parent, depth) && Named(sorted[i].children, sorted[i].key, depth + 1)
    {
      assert sorted[i] in multiset(each);
      var j :| 0 <= j < |each| && each[j] == sorted[i];
      assert NamedNode(level[j], parent, depth) && Named(level[j].children, level[j].key, depth + 1);
      FinalizeKeepsNamed(level[j].children, level[j].key, depth + 1);
      FinishedNodeIsNamed(level[j], parent, depth);
    }
  }

  lemma FinishedNodeIsNamed(node: Node, parent: string, depth: nat)
    requires NamedNode(node, parent, depth)
    ensures NamedNode(node.(children := Finalize(node.children)), parent, depth)
  {
    hide Finalize();
    NothingToFinalize();
  }

  lemma {:induction false} LookupIsNamed(level: seq<Node>, parent: string, depth: nat, path: seq<string>)
    requires Named(level, parent, depth) && path != [] && (depth == 0 ==> ':' !in path[0])
    requires Lookup(level, parent, depth, path).Some?
    ensures var node := Lookup(level, parent, depth, path).value;
      && node.key == (if depth == 0 then Join(path) else parent + ":" + Join(path))
      && node.title == path[|path| - 1] && node.depth == depth + |path| - 1
      && Named(node.children, node.key, depth + |path|)
    decreases |path|
  {
    hide Named(), Lookup(), NodeAt(), KeyUnder(), IndexOf();
    var key := KeyUnder(parent, depth, path[0]);
    var at := NodeAt(level, key, path[0], depth);
    NodeAtIsNamed(level, parent, depth, path[0]);
    KeyOfPath(parent, depth, path);
    if |path| == 1 {
      LookupOne(level, parent, depth, path);
    } else {
      LookupByNode(level, parent, depth, path);
      LookupIsNamed(at.children, key, depth + 1, path[1..]);
    }
  }

  lemma LookupOne(level: seq<Node>, parent: string, depth: nat, path: seq<string>)
    requires |path| == 1 && Lookup(level, parent, depth, path).Some?
    ensures Lookup(level, parent, depth, path).value == NodeAt(level, KeyUnder(parent, depth, path[0]), path[0], depth)
  {
  }

  lemma KeyOfPath(parent: string, depth: nat, path: seq<string>)
    requires path != []
    ensures var key := KeyUnder(parent, depth, path[0]);
      (if depth == 0 then Join(path) else parent + ":" + Join(path)) == if |path| == 1 then key else key + ":" + Join(path[1..])
  {
    if |path| > 1 {
      var rest := Join(path[1..]);
      assert Join(path) == path[0] + ":" + rest;
      hide Join();
      Regroup(parent, path[0], rest);
    }
  }

  lemma Regroup(parent: string, segment: string, rest: string)
    ensures parent + ":" + (segment + ":" + rest) == (parent + ":" + segment) + ":" + rest
  {
    var head := parent + ":";
    assert head + ((segment + ":") + rest) == (head + (segment + ":")) + rest;
    assert head + (segment + ":") == (head + segment) + ":";
  }

  /**
   * In the finished tree the node at a path is keyed by the whole path, titled by its last segment, as
   * deep as the path is long; and what it shows under it are only nodes one segment further on, each
   * found at its own path.
   */
  lemma NodesAreNamedByTheirPath(folders: seq<Folder>, path: seq<string>)
    requires path != [] && ':' !in path[0] && Lookup(ProjectTreeOf(folders), "", 0, path).Some?
    ensures var node := Lookup(ProjectTreeOf(folders), "", 0, path).value;
      && node.key == Join(path) && node.title == path[|path| - 1] && node.depth == |path| - 1
      && forall i :: 0 <= i < |node.children| ==>
           Lookup(ProjectTreeOf(folders), "", 0, path + [node.children[i].title]) == Some(node.children[i])
  {
    hide Build(), Finalize(), Lookup();
    var tree := ProjectTreeOf(folders);
    BuildIsNamed(folders);
    FinalizeKeepsNamed(Build(folders), "", 0);
    LookupIsNamed(tree, "", 0, path);
    BuildIsTidy(folders);
    FinalizeKeepsTidy(Build(folders));
    var node := Lookup(tree, "", 0, path).value;
    forall i | 0 <= i < |node.children|
      ensures Lookup(tree, "", 0, path + [node.children[i].title]) == Some(node.children[i])
    {
      ChildIsFound(tree, "", 0, path, i);
    }
  }

  lemma {:induction false} FinalizeKeepsTidy(level: seq<Node>)
    requires Tidy(level)
    ensures Tidy(Finalize(level))
    decreases level
  {
    hide SortByDate();
    var each, sorted := FinalizeEach(level), Finalize(level);
    EachFinalized(level);
    SortIsAPermutation(each);
    FinalizedKeysDiffer(level);
    forall i | 0 <= i < |sorted|
      ensures Tidy(sorted[i].children)
    {
      assert sorted[i] in multiset(each);
      var j :| 0 <= j < |each| && each[j] == sorted[i];
      FinalizeKeepsTidy(level[j].children);
    }
  }

  lemma {:induction false} ChildIsFound(level: seq<Node>, parent: string, depth: nat, path: seq<string>, i: nat)
    requires Tidy(level) && Named(level, parent, depth) && path != [] && (depth == 0 ==> ':' !in path[0])
    requires Lookup(level, parent, depth, path).Some? && i < |Lookup(level, parent, depth, path).value.children|
    ensures var child := Lookup(level, parent, depth, path).value.children[i];
      Lookup(level, parent, depth, path + [child.title]) == Some(child)
    decreases |path|
  {
    hide Named(), Lookup(), NodeAt(), KeyUnder(), IndexOf(), Tidy();
    var key := KeyUnder(parent, depth, path[0]);
    var at := NodeAt(level, key, path[0], depth);
    var child := Lookup(level, parent, depth, path).value.children[i];
    var longer := path + [child.title];
    NodeAtIsNamed(level, parent, depth, path[0]);
    NodeAtIsTidy(level, key, path[0], depth);
    LookupByNode(level, parent, depth, longer);
    assert longer[1..] == path[1..] + [child.title];
    if |path| == 1 {
      LookupOne(level, parent, depth, path);
      assert longer[1..] == [child.title];
      ChildLookedUp(at.children, key, depth + 1, i);
    } else {
      LookupByNode(level, parent, depth, path);
      ChildIsFound(at.children, key, depth + 1, path[1..], i);
    }
  }

  lemma NodeAtIsTidy(level: seq<Node>, key: string, title: string, depth: nat)
    requires Tidy(level)
    ensures Tidy(NodeAt(level, key, title, depth).children)
  {
  }

  lemma ChildLookedUp(level: seq<Node>, parent: string, depth: nat, i: nat)
    requires Tidy(level) && Named(level, parent, depth) && i < |level| && depth > 0
    ensures Lookup(level, parent, depth, [level[i].title]) == Some(level[i])
  {
    hide Named(), IndexOf();
    ChildKey(level, parent, depth, i);
    FoundByItsKey(level, i);
  }

  lemma ChildKey(level: seq<Node>, parent: string, depth: nat, i: nat)
    requires Named(level, parent, depth) && i < |level| && depth > 0
    ensures level[i].key == KeyUnder(parent, depth, level[i].title)
  {
    assert NamedNode(level[i], parent, depth);
  }

  lemma FoundByItsKey(level: seq<Node>, i: nat)
    requires Tidy(level) && i < |level|
    ensures IndexOf(level, level[i].key) == i
  {
  }

  // ---- the order nodes are added in ----

  function Keys(level: seq<Node>): (keys: seq<string>)
    ensures |keys| == |level| && forall i :: 0 <= i < |keys| ==> keys[i] == level[i].key
  {
    seq(|level|, i requires 0 <= i < |level| => level[i].key)
  }

  function WithNew(keys: seq<string>, key: string): seq<string> {
    if key in keys then keys else keys + [key]
  }

  /** A new node goes last, one already there keeps its place. */
  lemma PlacedLast(level: seq<Node>, node: Node)
    ensures Keys(Place(level, node)) == WithNew(Keys(level), node.key)
  {
    var i := IndexOf(level, node.key);
    if i < |level| {
      assert Keys(level)[i] == node.key;
    } else {
      assert Keys(level + [node]) == Keys(level) + [node.key];
      assert forall k <- Keys(level) :: k != node.key;
    }
  }

  function RootKeys(folders: seq<Folder>): (keys: seq<string>)
    ensures |keys| == |folders| && forall i :: 0 <= i < |keys| ==> keys[i] == RootKey(folders[i])
  {
    seq(|folders|, i requires 0 <= i < |folders| => RootKey(folders[i]))
  }

  lemma FirstSeenMore(names: seq<string>, name: string)
    ensures FirstSeen(names + [name]) == WithNew(FirstSeen(names), name)
  {
    SeenMeansPresent(names, name);
    assert ButLast(names + [name]) == names;
    assert FirstSeen(names) + [] == FirstSeen(names);
  }

  /** Before they are sorted, the roots stand in the order their first projects are listed in. */
  lemma {:induction false} RootsInFirstSeenOrder(folders: seq<Folder>)
    ensures Keys(Build(folders)) == FirstSeen(RootKeys(folders))
    decreases |folders|
  {
    hide Place(), Insert(), Absorb(), FirstSeen(), RootKey();
    if folders == [] {
      NothingSeen();
      assert RootKeys(folders) == [];
    } else {
      var f := Last(folders);
      RootsInFirstSeenOrder(ButLast(folders));
      assert RootKeys(folders) == RootKeys(ButLast(folders)) + [RootKey(f)];
      FirstSeenMore(RootKeys(ButLast(folders)), RootKey(f));
      AddedLast(Build(ButLast(folders)), f);
    }
  }

  lemma NothingSeen()
    ensures FirstSeen([]) == []
  {
  }

  lemma AddedLast(roots: seq<Node>, f: Folder)
    ensures Keys(AddFolder(roots, f)) == WithNew(Keys(roots), RootKey(f))
  {
    hide Place(), Absorb(), NodeAt();
    if Segments(f.path) == [] {
      PlacedLast(roots, RootOf(f));
    } else {
      InsertedLast(roots, "", 0, Segments(f.path), f);
    }
  }

  lemma InsertedLast(level: seq<Node>, parent: string, depth: nat, segments: seq<string>, f: Folder)
    requires segments != []
    ensures Keys(Insert(level, parent, depth, segments, f)) == WithNew(Keys(level), KeyUnder(parent, depth, segments[0]))
  {
    hide Place(), Absorb(), NodeAt(), KeyUnder();
    var key := KeyUnder(parent, depth, segments[0]);
    var node := NodeAt(level, key, segments[0], depth);
    PlacedLast(level, node.(
      stats := Absorb(node.stats, f),
      children := if |segments| == 1 then node.children else Insert(node.children, key, depth + 1, segments[1..], f),
      project := if |segments| == 1 && node.project == None then Some(f) else node.project));
  }

  /** What stands under a path, none if nothing does. */
  function ChildrenAt(level: seq<Node>, parent: string, depth: nat, path: seq<string>): seq<Node>
    requires path != []
  {
    match Lookup(level, parent, depth, path)
    case None => []
    case Some(node) => node.children
  }

  /** Inserting adds at most one node under a path: the next segment's, last unless it is there. */
  lemma {:induction false} InsertedUnder(level: seq<Node>, parent: string, depth: nat, segments: seq<string>, f: Folder, path: seq<string>)
    requires segments != [] && path != []
    ensures var level' := Insert(level, parent, depth, segments, f);
      Keys(ChildrenAt(level', parent, depth, path)) ==
        if path < segments then
          WithNew(Keys(ChildrenAt(level, parent, depth, path)), KeyUnder(KeyOf(parent, depth, path), depth + |path|, segments[|path|]))
        else Keys(ChildrenAt(level, parent, depth, path))
    decreases |segments|
  {
    hide Absorb(), IndexOf(), KeyUnder(), Place(), NodeAt(), Lookup(), Has(), Keys(), KeyOf();
    var key := KeyUnder(parent, depth, segments[0]);
    var key' := KeyUnder(parent, depth, path[0]);
    var node := NodeAt(level, key, segments[0], depth);
    var level' := Insert(level, parent, depth, segments, f);
    var node' := node.(stats := Absorb(node.stats, f),
                       children := if |segments| == 1 then node.children
                                   else Insert(node.children, key, depth + 1, segments[1..], f),
                       project := if |segments| == 1 && node.project == None then Some(f) else node.project);
    PlacedAt(level, node', key', path[0], depth);
    ChildrenByNode(level, parent, depth, path);
    ChildrenByNode(level', parent, depth, path);
    if path[0] != segments[0] {
      if key == key' {
        KeysTellSegmentsApart(parent, depth, segments[0], path[0]);
      }
      assert !(path < segments);
    } else if |segments| > 1 {
      ProperPrefixSteps(path, segments);
      KeyOfSteps(parent, depth, path);
      if |path| == 1 {
        InsertedLast(node.children, key, depth + 1, segments[1..], f);
      } else {
        InsertedUnder(node.children, key, depth + 1, segments[1..], f, path[1..]);
      }
    }
  }

  /** The key of the node at a path. */
  function KeyOf(parent: string, depth: nat, path: seq<string>): string
    requires path != []
    decreases |path|
  {
    var key := KeyUnder(parent, depth, path[0]);
    if |path| == 1 then key else KeyOf(key, depth + 1, path[1..])
  }

  lemma KeyOfSteps(parent: string, depth: nat, path: seq<string>)
    requires path != []
    ensures |path| == 1 ==> KeyOf(parent, depth, path) == KeyUnder(parent, depth, path[0])
    ensures |path| > 1 ==> KeyOf(parent, depth, path) == KeyOf(KeyUnder(parent, depth, path[0]), depth + 1, path[1..])
  {
  }

  lemma ProperPrefixSteps(path: seq<string>, segments: seq<string>)
    requires path != [] && segments != [] && path[0] == segments[0]
    ensures |path| == 1 ==> (path < segments <==> |segments| > 1)
    ensures |path| > 1 ==> (path < segments <==> path[1..] < segments[1..])
    ensures path < segments && |path| > 1 ==> segments[1..][|path| - 1] == segments[|path|]
  {
    assert path == [path[0]] + path[1..] && segments == [segments[0]] + segments[1..];
  }

  lemma ChildrenByNode(level: seq<Node>, parent: string, depth: nat, path: seq<string>)
    requires path != []
    ensures var key := KeyUnder(parent, depth, path[0]);
      var node := NodeAt(level, key, path[0], depth);
      ChildrenAt(level, parent, depth, path)
      == if |path| == 1 then node.children else ChildrenAt(node.children, key, depth + 1, path[1..])
  {
  }

  /** The segments that follow a path in the projects beneath it, as they are listed. */
  function NextSegments(folders: seq<Folder>, path: seq<string>): seq<string>
    decreases |folders|
  {
    if folders == [] then []
    else
      var segments := Segments(Last(folders).path);
      NextSegments(ButLast(folders), path) + (if path < segments then [segments[|path|]] else [])
  }

  function KeysBeneath(key: string, segments: seq<string>): (keys: seq<string>)
    ensures |keys| == |segments| && forall i :: 0 <= i < |keys| ==> keys[i] == key + ":" + segments[i]
  {
    seq(|segments|, i requires 0 <= i < |segments| => key + ":" + segments[i])
  }

  /** And so do the nodes under every path. */
  lemma {:induction false} ChildrenInFirstSeenOrder(folders: seq<Folder>, path: seq<string>)
    requires path != [] && ':' !in path[0]
    ensures Keys(ChildrenAt(Build(folders), "", 0, path)) == FirstSeen(KeysBeneath(KeyOf("", 0, path), NextSegments(folders, path)))
    decreases |folders|
  {
    hide Place(), Insert(), Absorb(), FirstSeen(), Lookup(), KeyOf(), Segments(), Keys();
    var key := KeyOf("", 0, path);
    if folders == [] {
      EmptyLookup(path);
      NothingSeen();
      NoKeys();
      assert KeysBeneath(key, []) == [];
    } else {
      var f := Last(folders);
      var before := Build(ButLast(folders));
      ChildrenInFirstSeenOrder(ButLast(folders), path);
      var segments := Segments(f.path);
      if segments == [] {
        RootLookup(before, f, path);
      } else {
        InsertedUnder(before, "", 0, segments, f, path);
      }
      var earlier := NextSegments(ButLast(folders), path);
      if path < segments {
        assert KeysBeneath(key, earlier + [segments[|path|]]) == KeysBeneath(key, earlier) + [key + ":" + segments[|path|]];
        FirstSeenMore(KeysBeneath(key, earlier), key + ":" + segments[|path|]);
      } else {
        assert earlier + [] == earlier;
      }
    }
  }

  lemma NoKeys()
    ensures Keys([]) == []
  {
  }

  // ---- nodes of one date ----

  function OfDate(level: seq<Node>, newest: int): seq<Node>
    decreases |level|
  {
    if level == [] then []
    else OfDate(ButLast(level), newest) + (if Last(level).stats.newest == newest then [Last(level)] else [])
  }

  lemma OfDateOneMore(level: seq<Node>, node: Node, newest: int)
    ensures OfDate(level + [node], newest) == OfDate(level, newest) + (if node.stats.newest == newest then [node] else [])
  {
    assert ButLast(level + [node]) == level;
  }

  lemma {:induction false} InsertGoesBehindItsDate(sorted: seq<Node>, node: Node, newest: int)
    requires NewestFirst(sorted)
    ensures OfDate(InsertByDate(sorted, node), newest) == OfDate(sorted + [node], newest)
    decreases |sorted|
  {
    hide OfDate;
    if sorted != [] && Last(sorted).stats.newest < node.stats.newest {
      var rest, last := ButLast(sorted), Last(sorted);
      assert sorted == rest + [last];
      InsertGoesBehindItsDate(rest, node, newest);
      OfDateOneMore(InsertByDate(rest, node), last, newest);
      OfDateOneMore(rest, node, newest);
      OfDateOneMore(rest, last, newest);
      OfDateOneMore(sorted, node, newest);
    }
  }

  /** Sorting keeps nodes of one date in the order they were in. */
  lemma {:induction false} SortKeepsTies(level: seq<Node>, newest: int)
    ensures OfDate(SortByDate(level), newest) == OfDate(level, newest)
    decreases |level|
  {
    hide OfDate, NewestFirst;
    if level != [] {
      var rest, last := ButLast(level), Last(level);
      SortKeepsTies(rest, newest);
      SortSorts(rest);
      InsertGoesBehindItsDate(SortByDate(rest), last, newest);
      OfDateOneMore(SortByDate(rest), last, newest);
      OfDateOneMore(rest, last, newest);
      assert level == rest + [last];
    }
  }
}
