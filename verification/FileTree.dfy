/** The path tree behind the tree listing: a trie of nodes updated in place. */
module FileTree {
  import opened Basics
  import opened Octets
  import opened Words

  /** A `DataKind` code. */
  type DataKind = Byte

  const DIRECTORY: DataKind := 1

  type Path = seq<string>

  function NonEmptyPieces(pieces: seq<string>): Path {
    if pieces == [] then []
    else (if pieces[0] == "" then [] else [pieces[0]]) + NonEmptyPieces(pieces[1..])
  }

  /** The components of a slash-separated name; empty ones are dropped. */
  function Components(name: string): Path {
    NonEmptyPieces(Split(name, '/'))
  }

  lemma {:induction false} NonEmptyAppend(a: seq<string>, b: seq<string>)
    ensures NonEmptyPieces(a + b) == NonEmptyPieces(a) + NonEmptyPieces(b)
  {
    if a == [] {
      assert a + b == b;
    } else {
      assert (a + b)[1..] == a[1..] + b;
      NonEmptyAppend(a[1..], b);
    }
  }

  /** A slash puts one name's components after another's. */
  lemma ComponentsJoin(a: string, b: string)
    ensures Components(a + "/" + b) == Components(a) + Components(b)
  {
    hide Split;
    SplitBoth(a, '/', b);
    NonEmptyAppend(Split(a, '/'), Split(b, '/'));
  }

  /** A name without a slash is one component, unless it is empty. */
  lemma OneComponent(name: string)
    requires '/' !in name
    ensures Components(name) == if name == "" then [] else [name]
  {
    hide Split;
    SplitFree(name, '/');
    assert NonEmptyPieces([name][1..]) == [];
  }

  // ---------------------------------------------------------------- the flat view

  /** Every node's path, the root's included, with the kind the node has, if any. */
  type Kinds = map<Path, Option<DataKind>>

  const ONLY_ROOT: Kinds := map[[] := None]

  ghost predicate IsPrefix(p: Path, q: Path) {
    p <= q
  }

  function Prefixes(p: Path): set<Path> {
    set k | 0 <= k <= |p| :: p[..k]
  }

  /** One insertion: the missing prefixes appear without a kind, and the path takes its own. */
  function Inserted(kinds: Kinds, path: Path, kind: DataKind): Kinds {
    if path == [] then kinds
    else
      map p | p in kinds.Keys + Prefixes(path) ::
        if p == path then Some(kind) else if p in kinds then kinds[p] else None
  }

  /** The listed entries, in order. */
  datatype Entry = Entry(name: string, kind: DataKind)

  function InsertedAll(entries: seq<Entry>): Kinds {
    if entries == [] then ONLY_ROOT
    else
      var last := entries[|entries| - 1];
      Inserted(InsertedAll(entries[..|entries| - 1]), Components(last.name), last.kind)
  }

  /** The kind of the last entry with these components, if there is one. */
  function LastKind(entries: seq<Entry>, path: Path): Option<DataKind> {
    if entries == [] then None
    else
      var last := entries[|entries| - 1];
      if Components(last.name) == path then Some(last.kind)
      else LastKind(entries[..|entries| - 1], path)
  }

  /** Some listed entry lies at this path or below it. */
  ghost predicate IsOnSomePath(entries: seq<Entry>, path: Path) {
    exists e <- entries :: IsPrefix(path, Components(e.name))
  }

  lemma PrefixesMeans(path: Path, p: Path)
    ensures p in Prefixes(path) <==> IsPrefix(p, path)
  {
    if IsPrefix(p, path) {
      assert path[..|p|] == p;
    }
  }

  /**
   * After any insertions a node stands at exactly the root and the prefixes of what was
   * inserted, and it has the last kind that was inserted for its path.
   */
  lemma {:induction false} TreeIsFlatMap(entries: seq<Entry>, path: Path)
    requires path != []
    ensures path in InsertedAll(entries) <==> IsOnSomePath(entries, path)
    ensures path in InsertedAll(entries) ==> InsertedAll(entries)[path] == LastKind(entries, path)
    ensures path !in InsertedAll(entries) ==> LastKind(entries, path) == None
  {
    hide Components;
    if entries != [] {
      var before, last := entries[..|entries| - 1], entries[|entries| - 1];
      TreeIsFlatMap(before, path);
      PrefixesMeans(Components(last.name), path);
      assert entries == before + [last];
    }
  }

  // ---------------------------------------------------------------- the tree in place

  class Node {
    var kind: Option<DataKind>
    var children: map<string, Node>

    constructor ()
      ensures kind == None && children == map[]
    {
      kind, children := None, map[];
    }
  }

  /** Where each node is, and the children that each node has. */
  type Places = map<Path, Node>
  type Shape = map<Path, map<string, Node>>

  /** Each node has one place, and its children are exactly the nodes one component further. */
  ghost predicate IsTrie(at: Places, shape: Shape) {
    shape.Keys == at.Keys && [] in at &&
    (forall p <- at, q <- at :: at[p] == at[q] ==> p == q) &&
    (forall p <- at :: p != [] ==> p[..|p| - 1] in at) &&
    (forall p <- at, n: string :: n in shape[p] <==> p + [n] in at) &&
    (forall p <- at, n: string :: n in shape[p] ==> shape[p][n] == at[p + [n]])
  }

  ghost predicate TrieFactsAt(at: Places, shape: Shape, p: Path, n: string)
    requires shape.Keys == at.Keys && p in at
  {
    (n in shape[p] <==> p + [n] in at) &&
    (n in shape[p] ==> shape[p][n] == at[p + [n]]) &&
    (forall q <- at :: at[q] == at[p] ==> q == p)
  }

  lemma TrieFacts(at: Places, shape: Shape, p: Path, n: string)
    requires IsTrie(at, shape)
    ensures [] in at && shape.Keys == at.Keys
    ensures p in at ==> TrieFactsAt(at, shape, p, n)
  {
  }

  lemma TrieGrows(at: Places, shape: Shape, p: Path, n: string, child: Node)
    requires IsTrie(at, shape) && p in at && p + [n] !in at
    requires forall q <- at :: at[q] != child
    ensures IsTrie(at[p + [n] := child], shape[p := shape[p][n := child]][p + [n] := map[]])
  {
    var at1, shape1 := at[p + [n] := child], shape[p := shape[p][n := child]][p + [n] := map[]];
    assert (p + [n])[..|p + [n]| - 1] == p;
    forall q <- at1, m: string
      ensures m in shape1[q] <==> q + [m] in at1
      ensures m in shape1[q] ==> shape1[q][m] == at1[q + [m]]
    {
      NewPath(p, n, q, m);
      assert (q + [m])[..|q + [m]| - 1] == q;
      if q in at {
        TrieFacts(at, shape, q, m);
      }
    }
  }

  class Tree {
    var root: Node
    ghost var at: Places
    ghost var nodes: set<Node>

    ghost predicate Owned()
      reads this
    {
      forall p <- at :: at[p] in nodes
    }

    ghost function ShapeOf(): Shape
      requires Owned()
      reads this, nodes
    {
      map p | p in at :: at[p].children
    }

    ghost predicate Valid()
      reads this, nodes
    {
      Owned() && IsTrie(at, ShapeOf()) && at[[]] == root
    }

    ghost function View(): Kinds
      requires Owned()
      reads this, nodes
    {
      map p | p in at :: at[p].kind
    }

    constructor ()
      ensures Valid() && fresh(nodes) && View() == ONLY_ROOT
    {
      root := new Node();
      new;
      at, nodes := map[[] := root], {root};
    }

    /** `children.entry(n).or_default()` on the node at `p`. */
    method ChildAt(ghost p: Path, node: Node, n: string) returns (child: Node)
      requires Valid() && p in at && at[p] == node
      modifies this`at, this`nodes, node`children
      ensures Valid() && fresh(nodes - old(nodes)) && old(nodes) <= nodes
      ensures p + [n] in at && child == at[p + [n]]
      ensures View() == if p + [n] in old(View()) then old(View()) else old(View())[p + [n] := None]
    {
      hide IsTrie;
      TrieFacts(at, ShapeOf(), p, n);
      if n !in node.children {
        child := AddChild(p, node, n);
      } else {
        child := node.children[n];
      }
    }

    method AddChild(ghost p: Path, node: Node, n: string) returns (child: Node)
      requires Valid() && p in at && at[p] == node && p + [n] !in at
      modifies this`at, this`nodes, node`children
      ensures Valid() && fresh(child) && nodes == old(nodes) + {child} && at == old(at)[p + [n] := child]
      ensures View() == old(View())[p + [n] := None]
    {
      hide IsTrie;
      ghost var places, shape, view := at, ShapeOf(), View();
      child := new Node();
      TrieFacts(places, shape, p, n);
      TrieGrows(places, shape, p, n, child);
      node.children := node.children[n := child];
      at, nodes := at[p + [n] := child], nodes + {child};
      assert Owned();
      assert forall q <- places :: places[q] != child;
      assert forall q <- places :: places[q].kind == view[q];
      assert forall q <- places | q != p :: places[q] != node;
      assert forall q <- places | q != p :: places[q].children == shape[q];
      SeenGrown(places, shape, view, p, n, child);
    }

    lemma SeenAs(shape: Shape, view: Kinds)
      requires Owned() && at.Keys == shape.Keys && at.Keys == view.Keys
      requires forall q <- at :: at[q].children == shape[q] && at[q].kind == view[q]
      ensures ShapeOf() == shape && View() == view
    {
    }

    /** What the maps become when `child` has been linked at `n` below `p`. */
    lemma SeenGrown(places: Places, shape: Shape, view: Kinds, p: Path, n: string, child: Node)
      requires Owned() && shape.Keys == places.Keys && view.Keys == places.Keys
      requires p in places && p + [n] !in places && at == places[p + [n] := child]
      requires forall q <- places :: places[q].kind == view[q]
      requires forall q <- places | q != p :: places[q].children == shape[q]
      requires places[p].children == shape[p][n := child] && child.children == map[] && child.kind == None
      ensures ShapeOf() == shape[p := shape[p][n := child]][p + [n] := map[]]
      ensures View() == view[p + [n] := None]
    {
      SeenAs(shape[p := shape[p][n := child]][p + [n] := map[]], view[p + [n] := None]);
    }

    /** `FileTree::insert`: walk down, making the nodes that are missing, and set the kind. */
    method Insert(name: string, kind: DataKind)
      requires Valid()
      modifies this`at, this`nodes, nodes
      ensures Valid() && fresh(nodes - old(nodes))
      ensures View() == Inserted(old(View()), Components(name), kind)
    {
      hide Components, IsTrie, Reached;
      var parts := Components(name);
      if parts == [] {
        return;
      }
      var node := root;
      assert [] in at by { TrieFacts(at, ShapeOf(), [], ""); }
      NothingReached(View());
      for i := 0 to |parts|
        invariant Valid() && fresh(nodes - old(nodes)) && old(nodes) <= nodes
        invariant parts[..i] in at && node == at[parts[..i]]
        invariant View() == Reached(old(View()), parts[..i])
      {
        assert parts[..i + 1] == parts[..i] + [parts[i]];
        ReachedNext(old(View()), parts[..i], parts[i]);
        node := ChildAt(parts[..i], node, parts[i]);
      }
      assert parts[..|parts|] == parts;
      SetKind(parts, node, kind);
      ReachedThenSet(old(View()), parts, kind);
    }

    method SetKind(ghost p: Path, node: Node, kind: DataKind)
      requires Valid() && p in at && at[p] == node
      modifies node`kind
      ensures Valid() && View() == old(View())[p := Some(kind)]
    {
      hide IsTrie;
      ghost var shape, view := ShapeOf(), View();
      TrieFacts(at, shape, p, "");
      node.kind := Some(kind);
      SeenAs(shape, view[p := Some(kind)]);
    }
  }

  lemma NewPath(p: Path, n: string, q: Path, m: string)
    ensures p + [n] == q + [m] <==> p == q && n == m
  {
    if p + [n] == q + [m] {
      assert (p + [n])[..|p|] == p && (q + [m])[..|q|] == q;
      assert (p + [n])[|p|] == n && (q + [m])[|q|] == m;
    }
  }

  /** The missing prefixes appear without a kind. */
  function Reached(kinds: Kinds, path: Path): Kinds {
    map p | p in kinds.Keys + Prefixes(path) :: if p in kinds then kinds[p] else None
  }

  lemma NothingReached(kinds: Kinds)
    requires [] in kinds
    ensures Reached(kinds, []) == kinds
  {
    assert forall p :: p in Prefixes([]) ==> p == [];
  }

  lemma ReachedNext(kinds: Kinds, p: Path, n: string)
    ensures Reached(kinds, p + [n]) ==
      if p + [n] in Reached(kinds, p) then Reached(kinds, p) else Reached(kinds, p)[p + [n] := None]
  {
    forall q ensures q in Prefixes(p + [n]) <==> q in Prefixes(p) || q == p + [n] {
      PrefixesMeans(p, q);
      PrefixesMeans(p + [n], q);
      if |q| <= |p| {
        assert (p + [n])[..|q|] == p[..|q|];
      }
    }
  }

  lemma ReachedThenSet(kinds: Kinds, path: Path, kind: DataKind)
    requires path != []
    ensures Reached(kinds, path)[path := Some(kind)] == Inserted(kinds, path, kind)
  {
    PrefixesMeans(path, path);
  }
}
