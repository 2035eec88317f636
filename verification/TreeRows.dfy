/** The finished folder tree, newest first, and the rows it is drawn as. */
module TreeRows {
  import opened ProjectTree

  // ---- sorting each level ----

  function InsertByDate(sorted: seq<Node>, node: Node): seq<Node>
    decreases |sorted|
  {
    if sorted == [] || Last(sorted).stats.newest >= node.stats.newest then sorted + [node]
    else InsertByDate(ButLast(sorted), node) + [Last(sorted)]
  }

  /** Newest first; rows of one date stay in the order they were added. */
  function SortByDate(level: seq<Node>): seq<Node>
    decreases |level|
  {
    if level == [] then [] else InsertByDate(SortByDate(ButLast(level)), Last(level))
  }

  function FinalizeEach(level: seq<Node>): seq<Node>
    decreases level, 0
  {
    if level == [] then []
    else [level[0].(children := Finalize(level[0].children))] + FinalizeEach(level[1..])
  }

  function Finalize(level: seq<Node>): seq<Node>
    decreases level, 1
  {
    SortByDate(FinalizeEach(level))
  }

  ghost predicate NewestFirst(level: seq<Node>) {
    forall i, j :: 0 <= i < j < |level| ==> level[i].stats.newest >= level[j].stats.newest
  }

  lemma {:induction false} InsertIsAPermutation(sorted: seq<Node>, node: Node)
    ensures multiset(InsertByDate(sorted, node)) == multiset(sorted) + multiset{node}
    decreases |sorted|
  {
    if sorted != [] && Last(sorted).stats.newest < node.stats.newest {
      InsertIsAPermutation(ButLast(sorted), node);
      assert sorted == ButLast(sorted) + [Last(sorted)];
    }
  }

  lemma {:induction false} SortIsAPermutation(level: seq<Node>)
    ensures multiset(SortByDate(level)) == multiset(level)
    decreases |level|
  {
    if level != [] {
      SortIsAPermutation(ButLast(level));
      InsertIsAPermutation(SortByDate(ButLast(level)), Last(level));
      assert level == ButLast(level) + [Last(level)];
    }
  }

  lemma AppendKeepsOrder(level: seq<Node>, node: Node)
    requires NewestFirst(level) && forall n <- level :: n.stats.newest >= node.stats.newest
    ensures NewestFirst(level + [node])
  {
  }

  lemma LastIsOldest(level: seq<Node>)
    requires NewestFirst(level) && level != []
    ensures forall n <- level :: n.stats.newest >= Last(level).stats.newest
  {
  }

  lemma {:induction false} InsertKeepsOrder(sorted: seq<Node>, node: Node)
    requires NewestFirst(sorted)
    ensures NewestFirst(InsertByDate(sorted, node))
    decreases |sorted|
  {
    if sorted == [] || Last(sorted).stats.newest >= node.stats.newest {
      if sorted != [] {
        LastIsOldest(sorted);
      }
      AppendKeepsOrder(sorted, node);
    } else {
      var rest := ButLast(sorted);
      InsertKeepsOrder(rest, node);
      InsertIsAPermutation(rest, node);
      LastIsOldest(sorted);
      forall n | n in InsertByDate(rest, node)
        ensures n.stats.newest >= Last(sorted).stats.newest
      {
        assert n in multiset(InsertByDate(rest, node));
        if n != node {
          assert n in rest;
          assert n in sorted;
        }
      }
      AppendKeepsOrder(InsertByDate(rest, node), Last(sorted));
    }
  }

  lemma {:induction false} SortSorts(level: seq<Node>)
    ensures NewestFirst(SortByDate(level))
    decreases |level|
  {
    if level != [] {
      SortSorts(ButLast(level));
      InsertKeepsOrder(SortByDate(ButLast(level)), Last(level));
    }
  }

  // ---- finishing changes no figure ----

  /** The keys of a level are distinct, and so are those of every level beneath it. */
  ghost predicate Tidy(level: seq<Node>)
    decreases level
  {
    && (forall i, j :: 0 <= i < j < |level| ==> level[i].key != level[j].key)
    && forall i :: 0 <= i < |level| ==> Tidy(level[i].children)
  }

  lemma PlaceKeepsTidy(level: seq<Node>, node: Node)
    requires Tidy(level) && Tidy(node.children)
    ensures Tidy(Place(level, node))
  {
  }

  lemma {:induction false} InsertKeepsTidy(level: seq<Node>, parent: string, depth: nat, segments: seq<string>, f: Folder)
    requires Tidy(level) && segments != []
    ensures Tidy(Insert(level, parent, depth, segments, f))
    decreases |segments|
  {
    hide Place(), Absorb(), KeyUnder();
    var key := KeyUnder(parent, depth, segments[0]);
    var node := NodeAt(level, key, segments[0], depth);
    assert Tidy(node.children);
    var children := if |segments| == 1 then node.children else Insert(node.children, key, depth + 1, segments[1..], f);
    if |segments| > 1 {
      InsertKeepsTidy(node.children, key, depth + 1, segments[1..], f);
    }
    PlaceKeepsTidy(level, node.(
      stats := Absorb(node.stats, f),
      children := children,
      project := if |segments| == 1 && node.project == None then Some(f) else node.project));
  }

  lemma {:induction false} BuildIsTidy(folders: seq<Folder>)
    ensures Tidy(Build(folders))
    decreases |folders|
  {
    hide Place(), Insert(), Segments();
    if folders != [] {
      BuildIsTidy(ButLast(folders));
      var f := Last(folders);
      if Segments(f.path) == [] {
        PlaceKeepsTidy(Build(ButLast(folders)), RootOf(f));
      } else {
        InsertKeepsTidy(Build(ButLast(folders)), "", 0, Segments(f.path), f);
      }
    }
  }

  lemma {:induction false} EachFinalized(level: seq<Node>)
    ensures |FinalizeEach(level)| == |level|
    ensures forall i :: 0 <= i < |level| ==> FinalizeEach(level)[i] == level[i].(children := Finalize(level[i].children))
    decreases |level|
  {
    if level != [] {
      EachFinalized(level[1..]);
    }
  }

  /** With distinct keys, reordering a level leaves the node under each key. */
  lemma ReorderingKeepsNodes(a: seq<Node>, b: seq<Node>, key: string)
    requires multiset(a) == multiset(b)
    requires forall i, j :: 0 <= i < j < |a| ==> a[i].key != a[j].key
    ensures Has(a, key) <==> Has(b, key)
    ensures Has(a, key) ==> a[IndexOf(a, key)] == b[IndexOf(b, key)]
  {
    if Has(a, key) {
      assert a[IndexOf(a, key)] in multiset(b);
    }
    if Has(b, key) {
      assert b[IndexOf(b, key)] in multiset(a);
    }
  }

  lemma FinalizedUnder(level: seq<Node>, key: string)
    requires Tidy(level)
    ensures Has(Finalize(level), key) <==> Has(level, key)
    ensures Has(level, key) ==>
      Finalize(level)[IndexOf(Finalize(level), key)]
      == level[IndexOf(level, key)].(children := Finalize(level[IndexOf(level, key)].children))
  {
    hide SortByDate(), IndexOf();
    var each := FinalizeEach(level);
    EachFinalized(level);
    SortIsAPermutation(each);
    ReorderingKeepsNodes(each, Finalize(level), key);
    if Has(level, key) {
      assert each[IndexOf(level, key)].key == key;
    }
    if Has(each, key) {
      assert level[IndexOf(each, key)].key == key;
    }
  }

  lemma {:induction false} FinalizeKeepsEntries(level: seq<Node>, parent: string, depth: nat, path: seq<string>)
    requires Tidy(level) && path != []
    ensures Lookup(Finalize(level), parent, depth, path).Some? <==> Lookup(level, parent, depth, path).Some?
    ensures Entry(Finalize(level), parent, depth, path) == Entry(level, parent, depth, path)
    decreases |path|
  {
    hide Finalize(), IndexOf(), KeyUnder();
    var key := KeyUnder(parent, depth, path[0]);
    FinalizedUnder(level, key);
    if Has(level, key) && |path| > 1 {
      FinalizeKeepsEntries(level[IndexOf(level, key)].children, key, depth + 1, path[1..]);
    }
  }

  function ProjectTreeOf(folders: seq<Folder>): seq<Node> {
    Finalize(Build(folders))
  }

  /** The finished tree has a node for every prefix of a project's path, with the totals beneath it, newest first. */
  lemma TreeSumsTheProjects(folders: seq<Folder>, path: seq<string>)
    requires path != [] && ':' !in path[0]
    ensures var tree := ProjectTreeOf(folders);
      && NewestFirst(tree)
      && (Lookup(tree, "", 0, path).Some? <==> Under(folders, path) != [])
      && Entry(tree, "", 0, path) == (Roll(Under(folders, path)), FirstAt(folders, path))
      && (Lookup(tree, "", 0, path).Some? ==> NewestFirst(Lookup(tree, "", 0, path).value.children))
  {
    hide Build(), Lookup(), Roll(), Under(), FirstAt(), NewestFirst();
    NodesSumTheirProjects(folders, path);
    BuildIsTidy(folders);
    FinalizeKeepsEntries(Build(folders), "", 0, path);
    SortSorts(FinalizeEach(Build(folders)));
    if Lookup(ProjectTreeOf(folders), "", 0, path).Some? {
      ChildrenAreSorted(Build(folders), "", 0, path);
    }
  }

  lemma {:induction false} ChildrenAreSorted(level: seq<Node>, parent: string, depth: nat, path: seq<string>)
    requires Tidy(level) && path != [] && Lookup(Finalize(level), parent, depth, path).Some?
    ensures NewestFirst(Lookup(Finalize(level), parent, depth, path).value.children)
    decreases |path|
  {
    hide Finalize(), IndexOf(), KeyUnder(), NewestFirst();
    var key := KeyUnder(parent, depth, path[0]);
    FinalizedUnder(level, key);
    assert Has(level, key);
    var children := level[IndexOf(level, key)].children;
    if |path| > 1 {
      ChildrenAreSorted(children, key, depth + 1, path[1..]);
    } else {
      FinalizedIsSorted(children);
    }
  }

  lemma FinalizedIsSorted(level: seq<Node>)
    ensures NewestFirst(Finalize(level))
  {
    SortSorts(FinalizeEach(level));
  }

  /**
   * The roots of the finished tree: one for each first segment and each file-system name, and no
   * others. A file-system name has the last project of that name, with its own figures and no children.
   */
  lemma RootsOfTheTree(folders: seq<Folder>)
    ensures var tree := ProjectTreeOf(folders);
      && (forall i, j :: 0 <= i < j < |tree| ==> tree[i].key != tree[j].key)
      && (forall key :: Has(tree, key) <==> exists f <- folders :: RootKey(f) == key)
      && (forall i: nat :: i < |folders| && LastOfItsName(folders, i) ==>
            Has(tree, RootKey(folders[i])) && tree[IndexOf(tree, RootKey(folders[i]))] == RootOf(folders[i]))
  {
    hide Build(), Finalize(), IndexOf(), RootKey(), RootOf(), LastOfItsName(), Tidy();
    var tree, built := ProjectTreeOf(folders), Build(folders);
    BuildIsTidy(folders);
    FinalizedKeysDiffer(built);
    forall key
      ensures Has(tree, key) <==> exists f <- folders :: RootKey(f) == key
    {
      FinalizedUnder(built, key);
      RootsAreTheProjects(folders, key);
    }
    forall i: nat | i < |folders| && LastOfItsName(folders, i)
      ensures Has(tree, RootKey(folders[i])) && tree[IndexOf(tree, RootKey(folders[i]))] == RootOf(folders[i])
    {
      LastRealStays(folders, i);
    }
  }

  lemma LastRealStays(folders: seq<Folder>, i: nat)
    requires LastOfItsName(folders, i)
    ensures var tree := ProjectTreeOf(folders);
      Has(tree, RootKey(folders[i])) && tree[IndexOf(tree, RootKey(folders[i]))] == RootOf(folders[i])
  {
    hide Build(), Finalize(), IndexOf(), Tidy(), Absorb(), Segments();
    BuildIsTidy(folders);
    LastRealIsRoot(folders, i);
    FinalizedUnder(Build(folders), RootKey(folders[i]));
    assert Finalize([]) == [] by { NothingToFinalize(); }
  }

  lemma NothingToFinalize()
    ensures Finalize([]) == []
  {
  }

  lemma FinalizedKeysDiffer(level: seq<Node>)
    requires Tidy(level)
    ensures forall i, j :: 0 <= i < j < |Finalize(level)| ==> Finalize(level)[i].key != Finalize(level)[j].key
  {
    hide SortByDate();
    EachFinalized(level);
    SortIsAPermutation(FinalizeEach(level));
    ReorderedKeysDiffer(FinalizeEach(level), Finalize(level));
  }

  lemma ReorderedKeysDiffer(a: seq<Node>, b: seq<Node>)
    requires multiset(a) == multiset(b)
    requires forall i, j :: 0 <= i < j < |a| ==> a[i].key != a[j].key
    ensures forall i, j :: 0 <= i < j < |b| ==> b[i].key != b[j].key
  {
    forall i, j | 0 <= i < j < |b|
      ensures b[i].key != b[j].key
    {
      if b[i].key == b[j].key {
        assert b[i] in multiset(a) && b[j] in multiset(a);
        TwiceIn(b, i, j);
        OnceIn(a, b[i]);
      }
    }
  }

  lemma TwiceIn(b: seq<Node>, i: nat, j: nat)
    requires i < j < |b| && b[i] == b[j]
    ensures multiset(b)[b[i]] >= 2
  {
    assert b == b[..j] + [b[j]] + b[j + 1..];
    assert b[i] in b[..j];
  }

  lemma OnceIn(a: seq<Node>, node: Node)
    requires node in a && forall i, j :: 0 <= i < j < |a| ==> a[i].key != a[j].key
    ensures multiset(a)[node] == 1
  {
    var i :| 0 <= i < |a| && a[i] == node;
    assert a == a[..i] + [a[i]] + a[i + 1..];
    assert node !in a[..i] && node !in a[i + 1..];
  }

  /** The loop over the projects. */
  method BuildProjectTree(folders: seq<Folder>) returns (tree: seq<Node>)
    ensures tree == ProjectTreeOf(folders)
  {
    hide AddFolder(), Finalize();
    var roots: seq<Node> := [];
    var i := 0;
    assert folders[..0] == [];
    while i < |folders|
      invariant 0 <= i <= |folders|
      invariant roots == Build(folders[..i])
    {
      assert ButLast(folders[..i + 1]) == folders[..i];
      roots := AddFolder(roots, folders[i]);
      i := i + 1;
    }
    assert folders[..i] == folders;
    return Finalize(roots);
  }

  // ---- the rows ----

  function VisibleRows(nodes: seq<Node>, collapsed: string -> bool): seq<Node>
    decreases nodes
  {
    if nodes == [] then []
    else
      [nodes[0]]
      + ((if collapsed(nodes[0].key) then [] else VisibleRows(nodes[0].children, collapsed))
         + VisibleRows(nodes[1..], collapsed))
  }

  /** Pushes the rows one by one, walking into every folder that is not collapsed. */
  class RowList {
    var out: seq<Node>

    constructor ()
      ensures out == []
    {
      out := [];
    }

    method Walk(list: seq<Node>, collapsed: string -> bool)
      modifies this
      ensures out == old(out) + VisibleRows(list, collapsed)
      decreases list
    {
      hide VisibleRows();
      var i := 0;
      assert list[0..] == list;
      while i < |list|
        invariant 0 <= i <= |list|
        invariant out + VisibleRows(list[i..], collapsed) == old(out) + VisibleRows(list, collapsed)
      {
        ghost var before, shown := out, [list[i]] + ShownUnder(list[i], collapsed);
        ghost var rest := VisibleRows(list[i + 1..], collapsed);
        RowsStep(list[i..], collapsed);
        assert list[i..][1..] == list[i + 1..];
        assert before + VisibleRows(list[i..], collapsed) == (before + shown) + rest;
        out := out + [list[i]];
        if list[i].children != [] && !collapsed(list[i].key) {
          Walk(list[i].children, collapsed);
        }
        NoRows(collapsed);
        assert out == before + shown;
        i := i + 1;
      }
      NoRows(collapsed);
      assert list[i..] == [];
      assert out + [] == out;
    }
  }

  function ShownUnder(node: Node, collapsed: string -> bool): seq<Node> {
    if collapsed(node.key) then [] else VisibleRows(node.children, collapsed)
  }

  lemma RowsStep(nodes: seq<Node>, collapsed: string -> bool)
    requires nodes != []
    ensures VisibleRows(nodes, collapsed)
         == [nodes[0]] + ShownUnder(nodes[0], collapsed) + VisibleRows(nodes[1..], collapsed)
  {
  }

  lemma NoRows(collapsed: string -> bool)
    ensures VisibleRows([], collapsed) == []
  {
  }

  // ---- every visible node once, parents first ----

  /** A place in the tree: the row to take at each level. */
  type Position = seq<nat>

  /** `position` leads to `node`, through folders that are not collapsed; rows are numbered from `first`. */
  ghost predicate LeadsTo(nodes: seq<Node>, first: nat, position: Position, node: Node, collapsed: string -> bool)
    decreases position
  {
    && position != [] && first <= position[0] < first + |nodes|
    && var at := nodes[position[0] - first];
       if |position| == 1 then at == node
       else !collapsed(at.key) && LeadsTo(at.children, 0, position[1..], node, collapsed)
  }

  /** The order in which rows are drawn: a folder, then what is in it, then the next. */
  predicate Precedes(p: Position, q: Position)
    decreases p
  {
    if p == [] then q != []
    else q != [] && (p[0] < q[0] || (p[0] == q[0] && Precedes(p[1..], q[1..])))
  }

  function Beneath(i: nat, positions: seq<Position>): (r: seq<Position>)
    ensures |r| == |positions| && forall k :: 0 <= k < |r| ==> r[k] == [i] + positions[k]
  {
    seq(|positions|, k requires 0 <= k < |positions| => [i] + positions[k])
  }

  /** Where each visible row comes from. */
  function Positions(nodes: seq<Node>, first: nat, collapsed: string -> bool): (r: seq<Position>)
    ensures |r| == |VisibleRows(nodes, collapsed)|
    decreases nodes
  {
    if nodes == [] then []
    else
      [[first]]
      + (Beneath(first, if collapsed(nodes[0].key) then [] else Positions(nodes[0].children, 0, collapsed))
         + Positions(nodes[1..], first + 1, collapsed))
  }

  ghost predicate Ascending(positions: seq<Position>) {
    forall i, j :: 0 <= i < j < |positions| ==> Precedes(positions[i], positions[j])
  }

  lemma LeadsToHead(nodes: seq<Node>, first: nat, collapsed: string -> bool)
    requires nodes != []
    ensures LeadsTo(nodes, first, [first], nodes[0], collapsed)
  {
  }

  lemma LeadsInside(nodes: seq<Node>, first: nat, position: Position, node: Node, collapsed: string -> bool)
    requires nodes != [] && !collapsed(nodes[0].key) && LeadsTo(nodes[0].children, 0, position, node, collapsed)
    ensures LeadsTo(nodes, first, [first] + position, node, collapsed)
  {
    assert ([first] + position)[1..] == position;
  }

  lemma LeadsLater(nodes: seq<Node>, first: nat, position: Position, node: Node, collapsed: string -> bool)
    requires nodes != [] && LeadsTo(nodes[1..], first + 1, position, node, collapsed)
    ensures LeadsTo(nodes, first, position, node, collapsed)
  {
  }

  function PositionsUnder(node: Node, collapsed: string -> bool): (r: seq<Position>)
    ensures |r| == |ShownUnder(node, collapsed)|
  {
    if collapsed(node.key) then [] else Positions(node.children, 0, collapsed)
  }

  lemma PositionsStep(nodes: seq<Node>, first: nat, collapsed: string -> bool)
    requires nodes != []
    ensures Positions(nodes, first, collapsed)
         == [[first]] + Beneath(first, PositionsUnder(nodes[0], collapsed))
            + Positions(nodes[1..], first + 1, collapsed)
  {
  }

  lemma {:induction false} RowsAreWhereTheySay(nodes: seq<Node>, first: nat, collapsed: string -> bool, k: nat)
    requires k < |VisibleRows(nodes, collapsed)|
    ensures LeadsTo(nodes, first, Positions(nodes, first, collapsed)[k], VisibleRows(nodes, collapsed)[k], collapsed)
    decreases nodes
  {
    hide LeadsTo(), VisibleRows(), Positions();
    if nodes == [] {
      NoRows(collapsed);
    } else {
      var inner := ShownUnder(nodes[0], collapsed);
      RowsStep(nodes, collapsed);
      PositionsStep(nodes, first, collapsed);
      if k == 0 {
        LeadsToHead(nodes, first, collapsed);
      } else if k < 1 + |inner| {
        RowsAreWhereTheySay(nodes[0].children, 0, collapsed, k - 1);
        var position := Positions(nodes[0].children, 0, collapsed)[k - 1];
        LeadsInside(nodes, first, position, inner[k - 1], collapsed);
      } else {
        var later := k - 1 - |inner|;
        RowsAreWhereTheySay(nodes[1..], first + 1, collapsed, later);
        LeadsLater(nodes, first, Positions(nodes[1..], first + 1, collapsed)[later],
                   VisibleRows(nodes[1..], collapsed)[later], collapsed);
      }
    }
  }

  lemma LeadsOneWay(nodes: seq<Node>, first: nat, position: Position, node: Node, collapsed: string -> bool)
    requires LeadsTo(nodes, first, position, node, collapsed)
    ensures nodes != [] && position != [] && position[0] >= first
    ensures position[0] > first ==> LeadsTo(nodes[1..], first + 1, position, node, collapsed)
    ensures position[0] == first && |position| > 1 ==>
      !collapsed(nodes[0].key) && LeadsTo(nodes[0].children, 0, position[1..], node, collapsed)
  {
  }

  lemma BeneathHolds(i: nat, positions: seq<Position>, position: Position)
    requires position in positions
    ensures [i] + position in Beneath(i, positions)
  {
    var k :| 0 <= k < |positions| && positions[k] == position;
    assert Beneath(i, positions)[k] == [i] + position;
  }

  lemma {:induction false} EveryPositionIsARow(nodes: seq<Node>, first: nat, position: Position, node: Node,
                                               collapsed: string -> bool)
    requires LeadsTo(nodes, first, position, node, collapsed)
    ensures position in Positions(nodes, first, collapsed)
    decreases nodes
  {
    hide LeadsTo(), Positions();
    LeadsOneWay(nodes, first, position, node, collapsed);
    PositionsStep(nodes, first, collapsed);
    if position[0] > first {
      EveryPositionIsARow(nodes[1..], first + 1, position, node, collapsed);
    } else if |position| > 1 {
      EveryPositionIsARow(nodes[0].children, 0, position[1..], node, collapsed);
      BeneathHolds(first, PositionsUnder(nodes[0], collapsed), position[1..]);
      assert position == [first] + position[1..];
    } else {
      assert position == [first];
    }
  }

  lemma {:induction false} PositionsAscend(nodes: seq<Node>, first: nat, collapsed: string -> bool)
    ensures Ascending(Positions(nodes, first, collapsed))
    ensures forall p <- Positions(nodes, first, collapsed) :: p != [] && p[0] >= first
    decreases nodes
  {
    if nodes != [] {
      var inner := if collapsed(nodes[0].key) then [] else Positions(nodes[0].children, 0, collapsed);
      PositionsAscend(nodes[0].children, 0, collapsed);
      PositionsAscend(nodes[1..], first + 1, collapsed);
      BeneathAscends(first, inner);
      JoinAscends(first, Beneath(first, inner), Positions(nodes[1..], first + 1, collapsed));
    }
  }

  lemma BeneathAscends(i: nat, positions: seq<Position>)
    requires Ascending(positions) && forall p <- positions :: p != []
    ensures Ascending(Beneath(i, positions))
    ensures forall p <- Beneath(i, positions) :: |p| > 1 && p[0] == i
  {
    forall j, k | 0 <= j < k < |positions|
      ensures Precedes(Beneath(i, positions)[j], Beneath(i, positions)[k])
    {
      assert ([i] + positions[j])[1..] == positions[j] && ([i] + positions[k])[1..] == positions[k];
    }
    forall k | 0 <= k < |positions|
      ensures |Beneath(i, positions)[k]| > 1
    {
      assert positions[k] in positions;
    }
  }

  lemma JoinAscends(first: nat, inner: seq<Position>, after: seq<Position>)
    requires Ascending(inner) && Ascending(after)
    requires forall p <- inner :: |p| > 1 && p[0] == first
    requires forall p <- after :: p != [] && p[0] > first
    ensures Ascending([[first]] + (inner + after))
  {
    var all := [[first]] + (inner + after);
    forall i, j | 0 <= i < j < |all|
      ensures Precedes(all[i], all[j])
    {
      assert [first][1..] == [];
      if i > |inner| {
        assert all[i] == after[i - 1 - |inner|] && all[j] == after[j - 1 - |inner|];
      } else if j > |inner| {
        assert all[j] in after;
        assert i > 0 ==> all[i] in inner;
      } else {
        assert all[j] == inner[j - 1] && all[j] in inner;
        assert i > 0 ==> all[i] == inner[i - 1];
      }
    }
  }

  lemma {:induction false} PrecedesIsStrict(p: Position, q: Position)
    ensures !Precedes(p, p)
    ensures p < q ==> Precedes(p, q)
    decreases p
  {
    if p != [] {
      PrecedesIsStrict(p[1..], if q == [] then [] else q[1..]);
      assert p < q ==> p[1..] < q[1..] && p[0] == q[0];
    }
  }

  /**
   * The rows are the nodes not hidden in a collapsed folder, each once, every folder before what is
   * in it.
   */
  lemma RowsShowEachNodeOnce(nodes: seq<Node>, collapsed: string -> bool)
    ensures var rows, positions := VisibleRows(nodes, collapsed), Positions(nodes, 0, collapsed);
      && |positions| == |rows|
      && (forall k :: 0 <= k < |rows| ==> LeadsTo(nodes, 0, positions[k], rows[k], collapsed))
      && (forall p, node :: LeadsTo(nodes, 0, p, node, collapsed) ==> p in positions)
      && (forall i, j :: 0 <= i < |rows| && 0 <= j < |rows| && i != j ==> positions[i] != positions[j])
      && (forall i, j :: 0 <= i < |rows| && 0 <= j < |rows| && positions[i] < positions[j] ==> i < j)
  {
    hide VisibleRows(), Positions(), LeadsTo();
    var rows, positions := VisibleRows(nodes, collapsed), Positions(nodes, 0, collapsed);
    forall k: nat | k < |rows|
      ensures LeadsTo(nodes, 0, positions[k], rows[k], collapsed)
    {
      RowsAreWhereTheySay(nodes, 0, collapsed, k);
    }
    forall p, node | LeadsTo(nodes, 0, p, node, collapsed)
      ensures p in positions
    {
      EveryPositionIsARow(nodes, 0, p, node, collapsed);
    }
    PositionsAscend(nodes, 0, collapsed);
    AscendingIsStrict(positions);
  }

  lemma {:induction false} PrecedesOneWay(p: Position, q: Position)
    ensures !(Precedes(p, q) && Precedes(q, p))
    decreases p
  {
    if p != [] && q != [] {
      PrecedesOneWay(p[1..], q[1..]);
    }
  }

  lemma AscendingIsStrict(positions: seq<Position>)
    requires Ascending(positions)
    ensures forall i, j :: 0 <= i < |positions| && 0 <= j < |positions| && i != j ==> positions[i] != positions[j]
    ensures forall i, j :: 0 <= i < |positions| && 0 <= j < |positions| && positions[i] < positions[j] ==> i < j
  {
    forall i, j | 0 <= i < j < |positions|
      ensures positions[i] != positions[j] && !(positions[j] < positions[i])
    {
      PrecedesIsStrict(positions[i], positions[j]);
      PrecedesIsStrict(positions[j], positions[i]);
      PrecedesOneWay(positions[i], positions[j]);
    }
  }
}
