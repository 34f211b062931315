/** Rendering the path tree: every node once, in sorted order. */
module TreeListing {
  import opened Basics
  import opened FileTree

  // ---------------------------------------------------------------- orders

  /** The order of `str`: lexicographic by code point. */
  predicate Before(a: string, b: string) {
    b != "" && (a == "" || a[0] < b[0] || (a[0] == b[0] && Before(a[1..], b[1..])))
  }

  /** The order of paths, component by component; a path stands before what lies below it. */
  predicate PathBefore(p: Path, q: Path) {
    q != [] && (p == [] || Before(p[0], q[0]) || (p[0] == q[0] && PathBefore(p[1..], q[1..])))
  }

  lemma {:induction false} BeforeIsTotal(a: string, b: string)
    ensures a == b || Before(a, b) || Before(b, a)
    ensures !(Before(a, b) && Before(b, a)) && !Before(a, a)
  {
    if a != "" {
      BeforeIsTotal(a[1..], a[1..]);
      if b != "" {
        BeforeIsTotal(a[1..], b[1..]);
        assert a == [a[0]] + a[1..] && b == [b[0]] + b[1..];
      }
    }
  }

  /** Two texts first differ at `i`, and `a` has the lower character there. */
  ghost predicate IsLowerAt(a: string, b: string, i: nat) {
    i < |a| && i < |b| && a[..i] == b[..i] && a[i] < b[i]
  }

  lemma LowerInTail(a: string, b: string, i: nat)
    requires a != "" && b != ""
    ensures IsLowerAt(a, b, 0) <==> a[0] < b[0]
    ensures IsLowerAt(a, b, i + 1) <==> a[0] == b[0] && IsLowerAt(a[1..], b[1..], i)
  {
    var x, y := a[1..], b[1..];
    if i <= |x| && i <= |y| {
      assert a[..i + 1] == [a[0]] + x[..i] && b[..i + 1] == [b[0]] + y[..i];
      assert a[..i + 1][1..] == x[..i] && b[..i + 1][1..] == y[..i];
    }
  }

  /** A proper prefix stands first; otherwise the first difference decides. */
  lemma {:induction false} BeforeIff(a: string, b: string)
    ensures Before(a, b) <==> a < b || exists i: nat :: IsLowerAt(a, b, i)
  {
    if a != "" && b != "" {
      hide IsLowerAt;
      var x, y := a[1..], b[1..];
      BeforeIff(x, y);
      assert a == [a[0]] + x && b == [b[0]] + y;
      assert a < b <==> a[0] == b[0] && x < y;
      LowerInTail(a, b, 0);
      if i: nat :| IsLowerAt(x, y, i) {
        LowerInTail(a, b, i);
      }
      if i: nat :| IsLowerAt(a, b, i) && i > 0 {
        LowerInTail(a, b, i - 1);
      }
    }
  }

  /** Two paths first differ at `i`, and `p` has the earlier name there. */
  ghost predicate IsEarlierAt(p: Path, q: Path, i: nat) {
    i < |p| && i < |q| && p[..i] == q[..i] && Before(p[i], q[i])
  }

  lemma EarlierInTail(p: Path, q: Path, i: nat)
    requires p != [] && q != []
    ensures IsEarlierAt(p, q, 0) <==> Before(p[0], q[0])
    ensures IsEarlierAt(p, q, i + 1) <==> p[0] == q[0] && IsEarlierAt(p[1..], q[1..], i)
  {
    hide Before;
    var x, y := p[1..], q[1..];
    if i <= |x| && i <= |y| {
      assert p[..i + 1] == [p[0]] + x[..i] && q[..i + 1] == [q[0]] + y[..i];
      assert p[..i + 1][1..] == x[..i] && q[..i + 1][1..] == y[..i];
    }
  }

  /** A path stands before what lies below it; otherwise the first names that differ decide. */
  lemma {:induction false} PathBeforeIff(p: Path, q: Path)
    ensures PathBefore(p, q) <==> p < q || exists i: nat :: IsEarlierAt(p, q, i)
  {
    hide Before;
    if p != [] && q != [] {
      hide IsEarlierAt;
      var x, y := p[1..], q[1..];
      PathBeforeIff(x, y);
      assert p == [p[0]] + x && q == [q[0]] + y;
      assert p < q <==> p[0] == q[0] && x < y;
      EarlierInTail(p, q, 0);
      if i: nat :| IsEarlierAt(x, y, i) {
        EarlierInTail(p, q, i);
      }
      if i: nat :| IsEarlierAt(p, q, i) && i > 0 {
        EarlierInTail(p, q, i - 1);
      }
    }
  }

  lemma {:induction false} BeforeIsTransitive(a: string, b: string, c: string)
    requires Before(a, b) && Before(b, c)
    ensures Before(a, c)
  {
    if a != "" && a[0] == b[0] && b[0] == c[0] {
      BeforeIsTransitive(a[1..], b[1..], c[1..]);
    }
  }

  lemma {:induction false} PathBeforeIsStrict(p: Path, q: Path)
    ensures !(PathBefore(p, q) && PathBefore(q, p)) && !PathBefore(p, p)
  {
    if p != [] {
      BeforeIsTotal(p[0], p[0]);
      PathBeforeIsStrict(p[1..], p[1..]);
      if q != [] {
        BeforeIsTotal(p[0], q[0]);
        PathBeforeIsStrict(p[1..], q[1..]);
      }
    }
  }

  lemma {:induction false} BelowIsAfter(p: Path, q: Path)
    requires p < q
    ensures PathBefore(p, q)
  {
    if p != [] {
      assert p[0] == q[0] && p[1..] < q[1..];
      BelowIsAfter(p[1..], q[1..]);
    }
  }

  lemma {:induction false} SiblingsInOrder(p: Path, m: string, n: string, q: Path, r: Path)
    requires Before(m, n) && p + [m] <= q && p + [n] <= r
    ensures PathBefore(q, r)
  {
    if p == [] {
      assert q[0] == m && r[0] == n;
    } else {
      assert (p + [m])[0] == p[0] == q[0] && (p + [n])[0] == r[0];
      assert (p + [m])[1..] == p[1..] + [m] && (p + [n])[1..] == p[1..] + [n];
      SiblingsInOrder(p[1..], m, n, q[1..], r[1..]);
    }
  }

  lemma {:induction false} LeastExists(keys: set<string>)
    requires keys != {}
    ensures exists k <- keys :: IsLeast(k, keys)
  {
    var some :| some in keys;
    var rest := keys - {some};
    if rest == {} {
      assert forall j <- keys :: j in rest || j == some;
      assert IsLeast(some, keys);
    } else {
      LeastExists(rest);
      var k :| k in rest && IsLeast(k, rest);
      BeforeIsTotal(some, k);
      if Before(some, k) {
        forall j <- keys | j != some ensures Before(some, j) {
          if j != k {
            BeforeIsTransitive(some, k, j);
          }
        }
        assert IsLeast(some, keys);
      } else {
        assert IsLeast(k, keys);
      }
    }
  }

  predicate IsLeast(k: string, keys: set<string>) {
    forall j <- keys :: j != k ==> Before(k, j)
  }

  predicate InOrder(names: seq<string>) {
    forall i, j :: 0 <= i < j < |names| ==> Before(names[i], names[j])
  }

  /** The keys of a `BTreeMap` as its iterator meets them. */
  method SortedKeys(m: map<string, Node>) returns (names: seq<string>)
    ensures InOrder(names) && forall n :: n in names <==> n in m
  {
    var rest := m.Keys;
    names := [];
    while rest != {}
      invariant InOrder(names) && rest <= m.Keys
      invariant forall n :: n in m <==> n in names || n in rest
      invariant forall n <- names, k <- rest :: Before(n, k)
      decreases rest
    {
      LeastExists(rest);
      var k :| k in rest && IsLeast(k, rest);
      names, rest := names + [k], rest - {k};
    }
  }

  // ---------------------------------------------------------------- rendered trees

  /** A node of the rendered tree: its label and the subtrees pushed below it. */
  datatype Rendered = Rendered(name: string, kind: DataKind, leaves: seq<Rendered>)

  /** A line of the output: where the node is, and the kind it is shown with. */
  datatype Row = Row(path: Path, kind: DataKind)

  /** The lines below the node at `p`, from the top down. */
  function Rows(p: Path, leaves: seq<Rendered>): seq<Row>
    decreases leaves
  {
    if leaves == [] then [] else RowsOf(p, leaves[0]) + Rows(p, leaves[1..])
  }

  function RowsOf(p: Path, r: Rendered): seq<Row>
    decreases r
  {
    [Row(p + [r.name], r.kind)] + Rows(p + [r.name], r.leaves)
  }

  predicate Sorted(rows: seq<Row>) {
    forall i, j :: 0 <= i < j < |rows| ==> PathBefore(rows[i].path, rows[j].path)
  }

  function Shown(kinds: Kinds, p: Path): DataKind
    requires p in kinds
  {
    if kinds[p].Some? then kinds[p].value else DIRECTORY
  }

  /** The rows show every node of a set, each once, in order, and a kind-less one as a directory. */
  ghost predicate Lists(rows: seq<Row>, kinds: Kinds, paths: iset<Path>) {
    Sorted(rows) &&
    (forall r <- rows :: r.path in kinds && r.path in paths && r.kind == Shown(kinds, r.path)) &&
    (forall p <- kinds :: p in paths ==> Row(p, Shown(kinds, p)) in rows)
  }

  predicate IsUnder(p: Path, q: Path) {
    p < q
  }

  ghost function Below(p: Path): iset<Path> {
    iset q: Path | IsUnder(p, q)
  }

  /** What lies below `p` through one of these children. */
  ghost function Through(p: Path, names: seq<string>): iset<Path> {
    iset q: Path | IsUnder(p, q) && q[|p|] in names
  }

  lemma {:induction false} RowsAppend(p: Path, a: seq<Rendered>, b: seq<Rendered>)
    ensures Rows(p, a + b) == Rows(p, a) + Rows(p, b)
  {
    if a == [] {
      assert a + b == b;
    } else {
      assert (a + b)[1..] == a[1..] + b;
      RowsAppend(p, a[1..], b);
      Assoc(RowsOf(p, a[0]), Rows(p, a[1..]), Rows(p, b));
    }
  }

  /** The rows of one more child, put after those of the children before it. */
  lemma ListsNext(rows: seq<Row>, more: seq<Row>, kinds: Kinds, p: Path, names: seq<string>, n: string)
    requires Lists(rows, kinds, Through(p, names)) && Lists(more, kinds, Below(p + [n]))
    requires p + [n] in kinds && forall m <- names :: Before(m, n)
    ensures Lists(rows + ([Row(p + [n], Shown(kinds, p + [n]))] + more), kinds, Through(p, names + [n]))
  {
    var here := Row(p + [n], Shown(kinds, p + [n]));
    var below := [here] + more;
    assert (p + [n])[|p|] == n;
    SortedNext(rows, more, here, p, names, n);
    forall q <- kinds | q in Through(p, names + [n]) ensures Row(q, Shown(kinds, q)) in rows + below {
      if q[|p|] == n {
        ThroughChild(p, n, q);
      }
    }
    forall r <- rows + below
      ensures r.path in kinds && r.path in Through(p, names + [n]) && r.kind == Shown(kinds, r.path)
    {
      if r in more {
        assert r.path[|p|] == (p + [n])[|p|];
      }
    }
  }

  lemma SortedNext(rows: seq<Row>, more: seq<Row>, here: Row, p: Path, names: seq<string>, n: string)
    requires Sorted(rows) && Sorted(more) && here.path == p + [n] && forall m <- names :: Before(m, n)
    requires forall r <- rows :: r.path in Through(p, names)
    requires forall r <- more :: r.path in Below(p + [n])
    ensures Sorted(rows + ([here] + more))
  {
    hide Before, PathBefore;
    var below := [here] + more;
    forall i | 0 <= i < |more| ensures PathBefore(here.path, more[i].path) {
      assert more[i] in more;
      BelowIsAfter(here.path, more[i].path);
    }
    forall i, j | 0 <= i < |rows| && 0 <= j < |below| ensures PathBefore(rows[i].path, below[j].path) {
      var q, r := rows[i].path, below[j].path;
      assert rows[i] in rows && (j > 0 ==> below[j] == more[j - 1] && more[j - 1] in more);
      ThroughChild(p, q[|p|], q);
      SiblingsInOrder(p, q[|p|], n, q, r);
    }
  }

  lemma ThroughChild(p: Path, n: string, q: Path)
    requires p < q && q[|p|] == n
    ensures p + [n] <= q && (q == p + [n] || p + [n] < q)
  {
  }

  // ---------------------------------------------------------------- rendering, step by step

  ghost function PathsUnder(paths: set<Path>, p: Path): set<Path> {
    set q <- paths | IsUnder(p, q)
  }

  /** Every path of a trie brings its prefixes along. */
  lemma {:induction false} PrefixIsThere(t: Tree, q: Path, k: nat)
    requires t.Valid() && q in t.at && k <= |q|
    ensures q[..k] in t.at
    decreases |q| - k
  {
    if k == |q| {
      assert q[..k] == q;
    } else {
      PrefixIsThere(t, q, k + 1);
      assert q[..k + 1][..k] == q[..k];
    }
  }

  lemma FewerUnderChild(paths: set<Path>, p: Path, n: string)
    requires p + [n] in paths
    ensures PathsUnder(paths, p + [n]) < PathsUnder(paths, p)
  {
    assert IsUnder(p, p + [n]) && p + [n] in PathsUnder(paths, p);
    assert forall q :: IsUnder(p + [n], q) ==> IsUnder(p, q);
  }

  /** `append_tree_children`: what is pushed below the rendered node of the node at `p`. */
  method AppendTreeChildren(t: Tree, ghost p: Path, node: Node) returns (leaves: seq<Rendered>)
    requires t.Valid() && p in t.at && t.at[p] == node
    ensures Lists(Rows(p, leaves), t.View(), Below(p))
    decreases PathsUnder(t.at.Keys, p)
  {
    hide Lists, Rows, IsTrie, Through, Below, PathsUnder, RowsOf;
    assert forall n :: (n in node.children <==> p + [n] in t.at) by {
      forall n { ChildFacts(t, p, n); }
    }
    var names := SortedKeys(node.children);
    leaves := [];
    ListsNothing(t.View(), p);
    for i := 0 to |names|
      invariant Lists(Rows(p, leaves), t.View(), Through(p, names[..i]))
    {
      var n := names[i];
      ChildFacts(t, p, n);
      var child := node.children[n];
      FewerUnderChild(t.at.Keys, p, n);
      var below := AppendTreeChildren(t, p + [n], child);
      var kind := if child.kind.Some? then child.kind.value else DIRECTORY;
      ListsNext(Rows(p, leaves), Rows(p + [n], below), t.View(), p, names[..i], n);
      assert names[..i + 1] == names[..i] + [n];
      RowsPush(p, leaves, Rendered(n, kind, below));
      OneRow(p, Rendered(n, kind, below));
      leaves := leaves + [Rendered(n, kind, below)];
    }
    ListsAll(t, Rows(p, leaves), p, names);
  }

  lemma ChildFacts(t: Tree, p: Path, n: string)
    requires t.Valid() && p in t.at
    ensures n in t.at[p].children <==> p + [n] in t.at
    ensures n in t.at[p].children ==> t.at[p].children[n] == t.at[p + [n]]
  {
    hide IsTrie;
    TrieFacts(t.at, t.ShapeOf(), p, n);
  }

  lemma OneRow(p: Path, r: Rendered)
    ensures RowsOf(p, r) == [Row(p + [r.name], r.kind)] + Rows(p + [r.name], r.leaves)
  {
    hide Rows;
  }

  lemma ListsNothing(kinds: Kinds, p: Path)
    ensures Lists(Rows(p, []), kinds, Through(p, []))
  {
  }

  lemma RowsPush(p: Path, leaves: seq<Rendered>, r: Rendered)
    ensures Rows(p, leaves + [r]) == Rows(p, leaves) + RowsOf(p, r)
  {
    RowsAppend(p, leaves, [r]);
    assert [r][1..] == [];
    assert RowsOf(p, r) + [] == RowsOf(p, r);
  }

  lemma ListsAll(t: Tree, rows: seq<Row>, p: Path, names: seq<string>)
    requires t.Valid() && p in t.at && forall n :: n in names <==> n in t.at[p].children
    requires Lists(rows, t.View(), Through(p, names[..|names|]))
    ensures Lists(rows, t.View(), Below(p))
  {
    assert names[..|names|] == names;
    forall q <- t.at | q in Below(p) ensures q in Through(p, names) {
      PrefixIsThere(t, q, |p| + 1);
      assert q[..|p| + 1] == p + [q[|p|]];
    }
  }

  lemma RootIsThere(t: Tree)
    requires t.Valid()
    ensures [] in t.at && t.at[[]] == t.root
  {
    hide IsTrie;
    TrieFacts(t.at, t.ShapeOf(), [], "");
  }

  /** `tree_entries_to`, up to the drawing of the lines. */
  method TreeEntries(entries: seq<Entry>) returns (leaves: seq<Rendered>)
    ensures Lists(Rows([], leaves), InsertedAll(entries), Below([]))
  {
    hide Components, IsTrie, Lists, Rows, Inserted;
    var files := new Tree();
    for i := 0 to |entries|
      invariant files.Valid() && fresh(files) && fresh(files.nodes)
      invariant files.View() == InsertedAll(entries[..i])
    {
      assert entries[..i + 1][..i] == entries[..i];
      files.Insert(entries[i].name, entries[i].kind);
    }
    assert entries[..|entries|] == entries;
    RootIsThere(files);
    leaves := AppendTreeChildren(files, [], files.root);
  }

  // ---------------------------------------------------------------- what the listing shows

  /**
   * A row stands at a path exactly when some entry lies there or below, ignoring empty
   * components; it shows the kind of the last entry at that path, or a directory.
   */
  lemma ListingMeans(entries: seq<Entry>, rows: seq<Row>, path: Path)
    requires Lists(rows, InsertedAll(entries), Below([])) && path != []
    ensures (exists r <- rows :: r.path == path) <==> IsOnSomePath(entries, path)
    ensures forall r <- rows :: r.path == path ==>
      r.kind == (if LastKind(entries, path).Some? then LastKind(entries, path).value else DIRECTORY)
    ensures forall i, j :: 0 <= i < j < |rows| ==>
      PathBefore(rows[i].path, rows[j].path) && rows[i].path != rows[j].path
  {
    TreeIsFlatMap(entries, path);
    assert IsUnder([], path);
    if path in InsertedAll(entries) {
      assert Row(path, Shown(InsertedAll(entries), path)) in rows;
    }
    forall i, j | 0 <= i < j < |rows| ensures rows[i].path != rows[j].path {
      PathBeforeIsStrict(rows[i].path, rows[j].path);
    }
  }

  lemma TailMembers(rows: seq<Row>)
    requires Sorted(rows) && rows != []
    ensures forall r :: r in rows[1..] <==> r in rows && r != rows[0]
  {
    PathBeforeIsStrict(rows[0].path, rows[0].path);
    assert rows == [rows[0]] + rows[1..];
    assert forall i :: 0 <= i < |rows[1..]| ==>
      rows[1..][i] == rows[i + 1] && PathBefore(rows[0].path, rows[i + 1].path);
  }

  /** Nothing else is left to choose: two listings of the same nodes are the same. */
  lemma {:induction false} ListingIsUnique(a: seq<Row>, b: seq<Row>)
    requires Sorted(a) && Sorted(b) && forall r :: r in a <==> r in b
    ensures a == b
  {
    if a != [] || b != [] {
      var some := if a != [] then a[0] else b[0];
      assert some in a && some in b;
      var x, y := a[0], b[0];
      assert x in b && y in a;
      if x != y {
        var i :| 0 <= i < |b| && b[i] == x;
        var j :| 0 <= j < |a| && a[j] == y;
        PathBeforeIsStrict(x.path, y.path);
        assert false;
      }
      TailMembers(a);
      TailMembers(b);
      ListingIsUnique(a[1..], b[1..]);
    }
  }
}
