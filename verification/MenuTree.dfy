/** Building the menu forest out of a flat list, as admin/pkg/tree.go does it: by
    searching the whole list for the children of each node in turn. */
module MenuTree {

  /** A row of the menu table; loading it leaves `children` empty. */
  class Menu {
    const id: string
    const parentID: string
    const sort: int
    var children: seq<Menu>

    constructor (id: string, parentID: string, sort: int)
      ensures this.id == id && this.parentID == parentID && this.sort == sort && children == []
    {
      this.id, this.parentID, this.sort, this.children := id, parentID, sort, [];
    }
  }

  // ----- parent chains

  /** n's parent chain meets `pid` after exactly k further nodes of the list. */
  ghost predicate At(list: seq<Menu>, pid: string, n: Menu, k: nat) {
    n in list
    && if k == 0 then n.parentID == pid
       else exists m: Menu :: m in list && n.parentID == m.id && At(list, pid, m, k - 1)
  }

  /** n's parent chain reaches `pid`. */
  ghost predicate Below(list: seq<Menu>, pid: string, n: Menu) {
    exists k: nat :: At(list, pid, n, k)
  }

  /** Distinct ids, none of them the root's. */
  ghost predicate WellKeyed(list: seq<Menu>, root: string) {
    (forall i, j :: 0 <= i < j < |list| ==> list[i].id != list[j].id)
    && forall i :: 0 <= i < |list| ==> list[i].id != root
  }

  lemma IdsIdentify(list: seq<Menu>, root: string, m: Menu, n: Menu)
    requires WellKeyed(list, root) && m in list && n in list && m.id == n.id
    ensures m == n
  {
    var i :| 0 <= i < |list| && list[i] == m;
    var j :| 0 <= j < |list| && list[j] == n;
  }

  /** A node has one depth under the root. */
  lemma {:induction false} DepthUnique(list: seq<Menu>, root: string, n: Menu, j: nat, k: nat)
    requires WellKeyed(list, root) && At(list, root, n, j) && At(list, root, n, k)
    ensures j == k
  {
    if j == 0 || k == 0 {
      assert forall m: Menu :: m in list ==> m.id != root;
    } else {
      var a: Menu :| a in list && n.parentID == a.id && At(list, root, a, j - 1);
      var b: Menu :| b in list && n.parentID == b.id && At(list, root, b, k - 1);
      IdsIdentify(list, root, a, b);
      DepthUnique(list, root, a, j - 1, k - 1);
    }
  }

  /** Chains compose: below a node at depth d lies depth d + k + 1. */
  lemma {:induction false} Compose(list: seq<Menu>, root: string, c: Menu, d: nat, n: Menu, k: nat)
    requires At(list, root, c, d) && At(list, c.id, n, k)
    ensures At(list, root, n, d + k + 1)
  {
    if k > 0 {
      var m: Menu :| m in list && n.parentID == m.id && At(list, c.id, m, k - 1);
      Compose(list, root, c, d, m, k - 1);
    }
  }

  /** The ancestor at a given distance is unique. */
  lemma {:induction false} AncestorUnique(list: seq<Menu>, root: string, a: Menu, b: Menu, n: Menu, k: nat)
    requires WellKeyed(list, root) && a in list && b in list && At(list, a.id, n, k) && At(list, b.id, n, k)
    ensures a == b
  {
    if k == 0 {
      IdsIdentify(list, root, a, b);
    } else {
      var x: Menu :| x in list && n.parentID == x.id && At(list, a.id, x, k - 1);
      var y: Menu :| y in list && n.parentID == y.id && At(list, b.id, y, k - 1);
      IdsIdentify(list, root, x, y);
      AncestorUnique(list, root, a, b, x, k - 1);
    }
  }

  /** The nodes of a chain are distinct, so a depth is smaller than the list. */
  lemma DepthBound(list: seq<Menu>, root: string, n: Menu, k: nat)
    requires WellKeyed(list, root) && At(list, root, n, k)
    ensures k < |list|
  {
    var chain := Chain(list, root, n, k);
    SetSmaller(list);
    assert forall m :: m in chain ==> NoDeeper(list, root, m, k);
    SubsetSize(chain, Nodes(list));
  }

  /** n lies at depth k at most. */
  ghost predicate NoDeeper(list: seq<Menu>, root: string, n: Menu, k: nat) {
    n in list && exists j: nat :: j <= k && At(list, root, n, j)
  }

  lemma {:induction false} Chain(list: seq<Menu>, root: string, n: Menu, k: nat) returns (chain: set<Menu>)
    requires WellKeyed(list, root) && At(list, root, n, k)
    ensures |chain| == k + 1
    ensures forall m :: m in chain ==> NoDeeper(list, root, m, k)
  {
    chain := {n};
    assert NoDeeper(list, root, n, k);
    if k > 0 {
      var m: Menu :| m in list && n.parentID == m.id && At(list, root, m, k - 1);
      var up := Chain(list, root, m, k - 1);
      if n in up {
        var j: nat :| j <= k - 1 && At(list, root, n, j);
        DepthUnique(list, root, n, j, k);
      }
      forall u | u in up ensures NoDeeper(list, root, u, k) {
        assert NoDeeper(list, root, u, k - 1);
      }
      chain := up + {n};
    }
  }

  ghost function Nodes(list: seq<Menu>): set<Menu> {
    set m | m in list
  }

  lemma {:induction false} SetSmaller(list: seq<Menu>)
    ensures |Nodes(list)| <= |list|
  {
    if list != [] {
      SetSmaller(list[1..]);
      assert Nodes(list) == {list[0]} + Nodes(list[1..]);
    }
  }

  lemma SubsetSize(a: set<Menu>, b: set<Menu>)
    requires a <= b
    ensures |a| <= |b|
  {
    assert b == a + (b - a);
  }

  /** `pid` is where depth d hangs: the root, or a node one level up. */
  ghost predicate Level(list: seq<Menu>, root: string, pid: string, d: nat) {
    if d == 0 then pid == root else exists p: Menu :: p in list && p.id == pid && At(list, root, p, d - 1)
  }

  lemma LevelDepth(list: seq<Menu>, root: string, pid: string, d: nat, n: Menu, k: nat)
    requires Level(list, root, pid, d) && At(list, pid, n, k)
    ensures At(list, root, n, d + k)
  {
    if d > 0 {
      var p: Menu :| p in list && p.id == pid && At(list, root, p, d - 1);
      Compose(list, root, p, d - 1, n, k);
    }
  }

  /** n is c or lies below it. */
  ghost predicate Within(list: seq<Menu>, c: Menu, n: Menu) {
    n == c || Below(list, c.id, n)
  }

  /** Different nodes of one depth have disjoint subtrees. */
  lemma SubtreesDisjoint(list: seq<Menu>, root: string, a: Menu, b: Menu, d: nat, n: Menu)
    requires WellKeyed(list, root) && At(list, root, a, d) && At(list, root, b, d)
    requires Within(list, a, n) && Within(list, b, n)
    ensures a == b
  {
    if n == a && n != b {
      var k: nat :| At(list, b.id, n, k);
      Compose(list, root, b, d, n, k);
      DepthUnique(list, root, n, d, d + k + 1);
    } else if n == b && n != a {
      var k: nat :| At(list, a.id, n, k);
      Compose(list, root, a, d, n, k);
      DepthUnique(list, root, n, d, d + k + 1);
    } else if n != a {
      var j: nat :| At(list, a.id, n, j);
      var k: nat :| At(list, b.id, n, k);
      Compose(list, root, a, d, n, j);
      Compose(list, root, b, d, n, k);
      DepthUnique(list, root, n, d + j + 1, d + k + 1);
      AncestorUnique(list, root, a, b, n, j);
    }
  }

  lemma NotBelowItself(list: seq<Menu>, root: string, c: Menu, d: nat)
    requires WellKeyed(list, root) && At(list, root, c, d)
    ensures !Below(list, c.id, c)
  {
    if Below(list, c.id, c) {
      var k: nat :| At(list, c.id, c, k);
      Compose(list, root, c, d, c, k);
      DepthUnique(list, root, c, d, d + k + 1);
    }
  }

  /** What lies below `pid` lies within one of its children, and conversely. */
  lemma {:induction false} BelowSplits(list: seq<Menu>, pid: string, n: Menu, k: nat)
    requires At(list, pid, n, k)
    ensures exists c: Menu :: c in list && c.parentID == pid && Within(list, c, n)
  {
    if k == 0 {
      assert Within(list, n, n);
    } else {
      var m: Menu :| m in list && n.parentID == m.id && At(list, pid, m, k - 1);
      BelowSplits(list, pid, m, k - 1);
      var c: Menu :| c in list && c.parentID == pid && Within(list, c, m);
      BelowMore(list, c, m, n);
    }
  }

  lemma BelowMore(list: seq<Menu>, c: Menu, m: Menu, n: Menu)
    requires m in list && n in list && n.parentID == m.id && Within(list, c, m)
    ensures Below(list, c.id, n)
  {
    if m == c {
      assert At(list, c.id, n, 0);
    } else {
      var k: nat :| At(list, c.id, m, k);
      assert At(list, c.id, n, k + 1);
    }
  }

  lemma {:induction false} ChildBelow(list: seq<Menu>, pid: string, c: Menu, n: Menu)
    requires c in list && c.parentID == pid && Within(list, c, n)
    ensures Below(list, pid, n)
  {
    assert At(list, pid, c, 0);
    if n != c {
      var k: nat :| At(list, c.id, n, k);
      Compose(list, pid, c, 0, n, k);
    }
  }

  // ----- the forest

  /** The nodes whose parent is `pid`, in list order. */
  ghost function ChildrenOf(list: seq<Menu>, pid: string): (kids: seq<Menu>)
    ensures forall n :: n in kids ==> n in list && n.parentID == pid
    ensures forall n :: n in list && n.parentID == pid ==> n in kids
  {
    if list == [] then []
    else
      var before := ChildrenOf(list[..|list| - 1], pid);
      var last := list[|list| - 1];
      if last.parentID == pid then before + [last] else before
  }

  ghost predicate Descending(menus: seq<Menu>) {
    forall i, j :: 0 <= i < j < |menus| ==> menus[i].sort >= menus[j].sort
  }

  /** The node holds exactly its own children, once each. */
  ghost predicate Collected(list: seq<Menu>, n: Menu)
    reads n
  {
    multiset(n.children) == multiset(ChildrenOf(list, n.id))
  }

  ghost predicate Arranged(list: seq<Menu>, n: Menu)
    reads n
  {
    Collected(list, n) && Descending(n.children)
  }

  lemma Spliced(menus: seq<Menu>, menu: Menu, at: nat)
    requires Descending(menus) && at <= |menus|
    requires forall j :: 0 <= j < at ==> menus[j].sort >= menu.sort
    requires at < |menus| ==> menus[at].sort < menu.sort
    ensures Descending(menus[..at] + [menu] + menus[at..])
  {
    var r := menus[..at] + [menu] + menus[at..];
    forall i, j | 0 <= i < j < |r| ensures r[i].sort >= r[j].sort {
      var before := if i < at then menus[i] else if i == at then menu else menus[i - 1];
      var after := if j < at then menus[j] else if j == at then menu else menus[j - 1];
      assert r[i] == before && r[j] == after;
    }
  }

  lemma SpliceKeeps(menus: seq<Menu>, menu: Menu, at: nat)
    requires at <= |menus|
    ensures multiset(menus[..at] + [menu] + menus[at..]) == multiset(menus) + multiset{menu}
  {
    assert menus == menus[..at] + menus[at..];
  }

  method InsertMenu(menus: seq<Menu>, menu: Menu) returns (r: seq<Menu>)
    requires Descending(menus)
    ensures multiset(r) == multiset(menus) + multiset{menu} && Descending(r)
  {
    var at := 0;
    while at < |menus| && menus[at].sort >= menu.sort
      invariant at <= |menus|
      invariant forall j :: 0 <= j < at ==> menus[j].sort >= menu.sort
    {
      at := at + 1;
    }
    Spliced(menus, menu, at);
    SpliceKeeps(menus, menu, at);
    r := menus[..at] + [menu] + menus[at..];
  }

  /** `sort.Sort(MenuList(...))`: some order by descending `Sort`; ties may move. */
  method SortMenus(menus: seq<Menu>) returns (r: seq<Menu>)
    ensures multiset(r) == multiset(menus) && Descending(r)
  {
    r := [];
    for i := 0 to |menus|
      invariant multiset(r) == multiset(menus[..i]) && Descending(r)
    {
      r := InsertMenu(r, menus[i]);
      assert menus[..i + 1] == menus[..i] + [menus[i]];
    }
    assert menus[..|menus|] == menus;
  }

  /** `Menu.AddChildren`. */
  method AddChildren(e: Menu, children: seq<Menu>)
    modifies e
    ensures e.children == old(e.children) + children
  {
    for i := 0 to |children|
      invariant e.children == old(e.children) + children[..i]
    {
      assert children[..i + 1] == children[..i] + [children[i]];
      e.children := e.children + [children[i]];
    }
    assert children[..|children|] == children;
  }

  /** n lies in the subtree of one of the first i kids. */
  ghost predicate Under(list: seq<Menu>, kids: seq<Menu>, i: nat, n: Menu)
    requires i <= |kids|
  {
    exists j :: 0 <= j < i && Within(list, kids[j], n)
  }

  /** A collected child list: its nodes sit one level down and cover what lies below. */
  lemma Kids(list: seq<Menu>, root: string, e: Menu, d: nat, kids: seq<Menu>)
    requires WellKeyed(list, root) && At(list, root, e, d) && multiset(kids) == multiset(ChildrenOf(list, e.id))
    ensures forall c :: c in kids ==> At(list, root, c, d + 1)
    ensures forall c, n :: c in kids && Within(list, c, n) ==> Below(list, e.id, n) && n != e
    ensures forall n :: Below(list, e.id, n) <==> Under(list, kids, |kids|, n)
    ensures d < |list|
  {
    DepthBound(list, root, e, d);
    NotBelowItself(list, root, e, d);
    forall c | c in kids ensures At(list, root, c, d + 1) {
      assert c in multiset(kids);
    }
    forall c, n | c in kids && Within(list, c, n) ensures Below(list, e.id, n) {
      assert c in multiset(kids);
      ChildBelow(list, e.id, c, n);
    }
    forall n | Below(list, e.id, n) ensures Under(list, kids, |kids|, n) {
      var k: nat :| At(list, e.id, n, k);
      BelowSplits(list, e.id, n, k);
      var c: Menu :| c in list && c.parentID == e.id && Within(list, c, n);
      assert c in multiset(ChildrenOf(list, e.id));
      var j :| 0 <= j < |kids| && kids[j] == c;
    }
  }

  lemma UnderStep(list: seq<Menu>, kids: seq<Menu>, i: nat)
    requires i < |kids|
    ensures forall n :: Under(list, kids, i + 1, n) <==> Under(list, kids, i, n) || Within(list, kids[i], n)
  {
  }

  /** `Menu.SortChildren`, on a subtree whose child lists are complete. */
  method SortChildren(e: Menu, ghost list: seq<Menu>, ghost root: string, ghost d: nat)
    requires WellKeyed(list, root) && At(list, root, e, d)
    requires forall n :: n in list && Within(list, e, n) ==> Collected(list, n)
    modifies set n | n in list
    ensures forall n :: n in list && Within(list, e, n) ==> Arranged(list, n)
    ensures forall n :: n in list && !Within(list, e, n) ==> n.children == old(n.children)
    decreases |list| - d
  {
    Kids(list, root, e, d, e.children);
    hide Below, Level;
    if |e.children| == 0 {
      return;
    }
    e.children := SortMenus(e.children);
    ghost var kids := e.children;
    Kids(list, root, e, d, kids);
    for i := 0 to |e.children|
      invariant e.children == kids
      invariant forall n :: n in list && Within(list, e, n) ==> Collected(list, n)
      invariant forall n :: n in list && Under(list, kids, i, n) ==> Arranged(list, n)
      invariant forall n :: n in list && !Within(list, e, n) ==> n.children == old(n.children)
    {
      UnderStep(list, kids, i);
      assert e.children[i] in kids;
      SortChildren(e.children[i], list, root, d + 1);
    }
  }

  /** One of the first i nodes is a child of `pid` with n in its subtree. */
  ghost predicate Placed(list: seq<Menu>, pid: string, i: nat, n: Menu)
    requires i <= |list|
  {
    exists j :: 0 <= j < i && list[j].parentID == pid && Within(list, list[j], n)
  }

  lemma PlacedStep(list: seq<Menu>, pid: string, i: nat)
    requires i < |list|
    ensures forall n :: Placed(list, pid, i + 1, n)
                   <==> Placed(list, pid, i, n) || (list[i].parentID == pid && Within(list, list[i], n))
    ensures ChildrenOf(list[..i + 1], pid)
         == if list[i].parentID == pid then ChildrenOf(list[..i], pid) + [list[i]] else ChildrenOf(list[..i], pid)
  {
    assert list[..i + 1][..i] == list[..i];
  }

  /** `BuildTree`: terminates although the recursion searches the same list again,
      because every call goes one level down the parent chains. */
  method BuildTree(list: seq<Menu>, pid: string, ghost root: string, ghost d: nat) returns (tree: seq<Menu>)
    requires WellKeyed(list, root) && Level(list, root, pid, d) && d <= |list|
    requires forall n :: n in list && Below(list, pid, n) ==> n.children == []
    modifies set n | n in list
    ensures tree == ChildrenOf(list, pid)
    ensures forall n :: n in list && Below(list, pid, n) ==> Arranged(list, n)
    ensures forall n :: n in list && !Below(list, pid, n) ==> n.children == old(n.children)
    decreases |list| - d, 1
  {
    hide At, Below, Level, ChildrenOf;
    PlacedAll(list, pid);
    if |list| == 0 {
      NoNodes(pid);
      return [];
    }
    tree := [];
    NoNodes(pid);
    for i := 0 to |list|
      invariant tree == ChildrenOf(list[..i], pid)
      invariant forall n :: n in list && Placed(list, pid, i, n) ==> Arranged(list, n)
      invariant forall n :: n in list && !Placed(list, pid, i, n) ==> n.children == old(n.children)
    {
      PlacedStep(list, pid, i);
      if list[i].parentID == pid {
        Descend(list, pid, root, d, i);
        FillChildren(list, list[i], root, d);
        tree := tree + [list[i]];
      }
    }
    assert list[..|list|] == list;
  }

  /** One round of the loop of BuildTree: the node's children, added and sorted. */
  method FillChildren(list: seq<Menu>, e: Menu, ghost root: string, ghost d: nat)
    requires WellKeyed(list, root) && At(list, root, e, d) && Level(list, root, e.id, d + 1) && d < |list|
    requires e in list && !Below(list, e.id, e)
    requires forall n :: n in list && Within(list, e, n) ==> n.children == []
    modifies set n | n in list
    ensures forall n :: n in list && Within(list, e, n) ==> Arranged(list, n)
    ensures forall n :: n in list && !Within(list, e, n) ==> n.children == old(n.children)
    decreases |list| - d, 0
  {
    hide At, Below, Level, ChildrenOf;
    var children := BuildTree(list, e.id, root, d + 1);
    AddChildren(e, children);
    SortChildren(e, list, root, d);
  }

  lemma NoNodes(pid: string)
    ensures ChildrenOf([], pid) == []
  {
  }

  lemma PlacedAll(list: seq<Menu>, pid: string)
    ensures forall n :: n in list ==> (Placed(list, pid, |list|, n) <==> Below(list, pid, n))
  {
    forall n | n in list ensures Placed(list, pid, |list|, n) <==> Below(list, pid, n) {
      if Placed(list, pid, |list|, n) {
        var j :| 0 <= j < |list| && list[j].parentID == pid && Within(list, list[j], n);
        ChildBelow(list, pid, list[j], n);
      }
      if Below(list, pid, n) {
        var k: nat :| At(list, pid, n, k);
        BelowSplits(list, pid, n, k);
        var c: Menu :| c in list && c.parentID == pid && Within(list, c, n);
        var j :| 0 <= j < |list| && list[j] == c;
      }
    }
  }

  /** The recursive call of round i: its level, its depth, and why its nodes are untouched. */
  lemma Descend(list: seq<Menu>, pid: string, root: string, d: nat, i: nat)
    requires WellKeyed(list, root) && Level(list, root, pid, d) && i < |list| && list[i].parentID == pid
    ensures At(list, root, list[i], d) && Level(list, root, list[i].id, d + 1) && d < |list|
    ensures !Below(list, list[i].id, list[i])
    ensures forall n :: Within(list, list[i], n) ==> !Placed(list, pid, i, n) && Below(list, pid, n)
  {
    var c := list[i];
    assert At(list, pid, c, 0);
    LevelDepth(list, root, pid, d, c, 0);
    DepthBound(list, root, c, d);
    NotBelowItself(list, root, c, d);
    forall n | Within(list, c, n) ensures !Placed(list, pid, i, n) && Below(list, pid, n) {
      ChildBelow(list, pid, c, n);
      if Placed(list, pid, i, n) {
        var j :| 0 <= j < i && list[j].parentID == pid && Within(list, list[j], n);
        assert At(list, pid, list[j], 0);
        LevelDepth(list, root, pid, d, list[j], 0);
        SubtreesDisjoint(list, root, c, list[j], d, n);
      }
    }
  }

  // ----- each reachable node exactly once

  /** Child lists stay within the list. */
  ghost predicate Closed(list: seq<Menu>)
    reads Nodes(list)
  {
    forall n, c :: n in list && c in n.children ==> c in list
  }

  /** The nodes of the trees in `roots`, in preorder, down to `fuel` levels. */
  ghost function Flatten(list: seq<Menu>, roots: seq<Menu>, fuel: nat): seq<Menu>
    requires Closed(list) && forall c :: c in roots ==> c in list
    reads Nodes(list)
    decreases fuel, |roots|
  {
    if roots == [] || fuel == 0 then []
    else [roots[0]] + Flatten(list, roots[0].children, fuel - 1) + Flatten(list, roots[1..], fuel)
  }

  ghost predicate NoRepeats(menus: seq<Menu>) {
    forall n :: n in menus ==> multiset(menus)[n] == 1
  }

  lemma NoRepeatsTail(menus: seq<Menu>)
    requires menus != [] && NoRepeats(menus)
    ensures menus[0] !in menus[1..] && NoRepeats(menus[1..])
  {
    var first, rest := menus[0], menus[1..];
    assert menus == [first] + rest;
    assert multiset(menus) == multiset{first} + multiset(rest);
    assert first in menus;
    assert multiset(menus)[first] == 1 + multiset(rest)[first];
    forall n | n in rest ensures multiset(rest)[n] == 1 {
      assert n in menus;
    }
  }

  lemma NoRepeatsShuffled(a: seq<Menu>, b: seq<Menu>)
    requires multiset(a) == multiset(b) && NoRepeats(b)
    ensures NoRepeats(a)
  {
    forall n | n in a ensures multiset(a)[n] == 1 {
      assert n in multiset(b);
    }
  }

  lemma {:induction false} ChildrenDistinct(list: seq<Menu>, pid: string)
    requires forall i, j :: 0 <= i < j < |list| ==> list[i].id != list[j].id
    ensures NoRepeats(ChildrenOf(list, pid))
  {
    if list != [] {
      var before := list[..|list| - 1];
      ChildrenDistinct(before, pid);
      assert forall n :: n in before ==> n.id != list[|list| - 1].id;
      assert ChildrenOf(before, pid) + [] == ChildrenOf(before, pid);
    }
  }

  /** Once every reachable node is arranged, the trees under nodes of one depth hold
      each node of their subtrees once and no other node. */
  lemma {:induction false} FlattenCounts(list: seq<Menu>, root: string, roots: seq<Menu>, d: nat, fuel: nat)
    requires WellKeyed(list, root) && Closed(list)
    requires forall n :: n in list && Below(list, root, n) ==> Collected(list, n)
    requires NoRepeats(roots) && (forall c :: c in roots ==> c in list && At(list, root, c, d)) && d + fuel >= |list|
    ensures forall n :: multiset(Flatten(list, roots, fuel))[n] == if Under(list, roots, |roots|, n) then 1 else 0
    decreases fuel, |roots|
  {
    if roots != [] {
      hide At, Within, Level, Flatten, ChildrenOf, Under;
      var c := roots[0];
      assert c in roots;
      assert Below(list, root, c);
      DepthBound(list, root, c, d);
      Kids(list, root, c, d, c.children);
      ChildrenDistinct(list, c.id);
      NoRepeatsShuffled(c.children, ChildrenOf(list, c.id));
      NoRepeatsTail(roots);
      FlattenCounts(list, root, c.children, d + 1, fuel - 1);
      FlattenCounts(list, root, roots[1..], d, fuel);
      CountSplits(list, root, roots, d, fuel);
    }
  }

  lemma CountSplits(list: seq<Menu>, root: string, roots: seq<Menu>, d: nat, fuel: nat)
    requires WellKeyed(list, root) && Closed(list) && fuel > 0
    requires roots != [] && NoRepeats(roots) && forall c :: c in roots ==> c in list && At(list, root, c, d)
    requires forall n :: multiset(Flatten(list, roots[0].children, fuel - 1))[n]
                      == if Below(list, roots[0].id, n) then 1 else 0
    requires forall n :: multiset(Flatten(list, roots[1..], fuel))[n] == if Under(list, roots[1..], |roots[1..]|, n) then 1 else 0
    ensures forall n :: multiset(Flatten(list, roots, fuel))[n] == if Under(list, roots, |roots|, n) then 1 else 0
  {
    var c := roots[0];
    var inner, outer := Flatten(list, c.children, fuel - 1), Flatten(list, roots[1..], fuel);
    assert multiset(Flatten(list, roots, fuel)) == multiset{c} + multiset(inner) + multiset(outer);
    forall n ensures multiset(Flatten(list, roots, fuel))[n] == if Under(list, roots, |roots|, n) then 1 else 0 {
      SplitRoots(list, root, roots, d, n);
    }
  }

  /** n is the first root, or below it, or under the other roots, and only one of these. */
  lemma SplitRoots(list: seq<Menu>, root: string, roots: seq<Menu>, d: nat, n: Menu)
    requires WellKeyed(list, root) && roots != [] && NoRepeats(roots) && forall c :: c in roots ==> At(list, root, c, d)
    ensures var c, rest := roots[0], roots[1..];
            && (Under(list, roots, |roots|, n) <==> n == c || Below(list, c.id, n) || Under(list, rest, |rest|, n))
            && !(n == c && Below(list, c.id, n))
            && !((n == c || Below(list, c.id, n)) && Under(list, rest, |rest|, n))
  {
    var c, rest := roots[0], roots[1..];
    assert At(list, root, c, d);
    NotBelowItself(list, root, c, d);
    NoRepeatsTail(roots);
    if Under(list, rest, |rest|, n) {
      var j :| 0 <= j < |rest| && Within(list, rest[j], n);
      assert roots[j + 1] == rest[j] && rest[j] in roots;
      if Within(list, c, n) {
        SubtreesDisjoint(list, root, c, rest[j], d, n);
      }
    }
    if Under(list, roots, |roots|, n) {
      var j :| 0 <= j < |roots| && Within(list, roots[j], n);
      if j > 0 { assert roots[j] == rest[j - 1]; }
    }
  }

  /** The menu forest of freshly loaded rows, whatever cycles their parent ids form. */
  method BuildForest(list: seq<Menu>, root: string) returns (tree: seq<Menu>)
    requires WellKeyed(list, root)
    requires forall n :: n in list ==> n.children == []
    modifies set n | n in list
    ensures tree == ChildrenOf(list, root) && Closed(list)
    ensures forall n :: n in list && Below(list, root, n) ==> Arranged(list, n)
    ensures forall n :: n in list && !Below(list, root, n) ==> n.children == []
    ensures forall n :: n in list ==>
      multiset(Flatten(list, tree, |list|))[n] == if Below(list, root, n) then 1 else 0
  {
    tree := BuildTree(list, root, root, 0);
    forall n, c | n in list && c in n.children ensures c in list {
      if Below(list, root, n) {
        assert c in multiset(n.children);
        assert c in multiset(ChildrenOf(list, n.id));
      }
    }
    ChildrenDistinct(list, root);
    forall c | c in tree ensures At(list, root, c, 0) {
    }
    FlattenCounts(list, root, tree, 0, |list|);
    forall n | n in list ensures Under(list, tree, |tree|, n) <==> Below(list, root, n) {
      PlacedAll(list, root);
      if Placed(list, root, |list|, n) {
        var j :| 0 <= j < |list| && list[j].parentID == root && Within(list, list[j], n);
        assert list[j] in tree;
        var i :| 0 <= i < |tree| && tree[i] == list[j];
      }
      if Under(list, tree, |tree|, n) {
        var j :| 0 <= j < |tree| && Within(list, tree[j], n);
        assert tree[j] in tree;
        ChildBelow(list, root, tree[j], n);
      }
    }
  }

  // ----- when the recursion ends, on any list

  /** The recursion of BuildTree below `pid` ends within n levels: it calls itself for the id
      of every node whose parent is `pid`. */
  ghost predicate Ends(list: seq<Menu>, pid: string, n: nat)
    decreases n
  {
    n > 0 && forall c: Menu :: c in list && c.parentID == pid ==> Ends(list, c.id, n - 1)
  }

  ghost predicate Calls(list: seq<Menu>, a: string, b: string) {
    exists c: Menu :: c in list && c.parentID == a && c.id == b
  }

  /** The ids of calls nested in one another, from `pid` on. */
  ghost predicate IsNest(list: seq<Menu>, pid: string, ids: seq<string>) {
    ids != [] && ids[0] == pid && forall i :: 0 < i < |ids| ==> Calls(list, ids[i - 1], ids[i])
  }

  ghost predicate NoRepeat(ids: seq<string>) {
    forall i, j :: 0 <= i < j < |ids| ==> ids[i] != ids[j]
  }

  ghost predicate Terminates(list: seq<Menu>, pid: string) {
    exists n: nat :: Ends(list, pid, n)
  }

  ghost predicate NoNestRepeats(list: seq<Menu>, pid: string) {
    forall ids :: IsNest(list, pid, ids) ==> NoRepeat(ids)
  }

  lemma {:induction false} LongNest(list: seq<Menu>, pid: string, n: nat) returns (ids: seq<string>)
    requires !Ends(list, pid, n)
    ensures IsNest(list, pid, ids) && |ids| == n + 1
    decreases n
  {
    ids := [pid];
    if n > 0 {
      var c: Menu :| c in list && c.parentID == pid && !Ends(list, c.id, n - 1);
      var inner := LongNest(list, c.id, n - 1);
      ids := [pid] + inner;
      assert Calls(list, pid, c.id);
    }
  }

  lemma {:induction false} EndsInside(list: seq<Menu>, pid: string, ids: seq<string>, n: nat)
    requires IsNest(list, pid, ids) && Ends(list, pid, n)
    ensures |ids| <= n && Ends(list, ids[|ids| - 1], n + 1 - |ids|)
    decreases n
  {
    if |ids| > 1 {
      assert Calls(list, ids[0], ids[1]);
      EndsInside(list, ids[1], ids[1..], n - 1);
    }
  }

  /** A call nested in a call with the same id never ends. */
  lemma {:induction false} CycleNeverEnds(list: seq<Menu>, pid: string, ids: seq<string>, n: nat)
    requires IsNest(list, pid, ids) && |ids| > 1 && ids[|ids| - 1] == pid
    ensures !Ends(list, pid, n)
    decreases n
  {
    if Ends(list, pid, n) {
      EndsInside(list, pid, ids, n);
      CycleNeverEnds(list, pid, ids, n + 1 - |ids|);
    }
  }

  lemma {:induction false} NoRepeatSize(ids: seq<string>, names: set<string>)
    requires NoRepeat(ids) && forall i :: 0 <= i < |ids| ==> ids[i] in names
    ensures |ids| <= |names|
    decreases |ids|
  {
    if ids != [] {
      NoRepeatSize(ids[1..], names - {ids[0]});
    }
  }

  lemma EndedNests(list: seq<Menu>, pid: string, n: nat, ids: seq<string>)
    requires Ends(list, pid, n) && IsNest(list, pid, ids)
    ensures NoRepeat(ids)
  {
    forall i, j | 0 <= i < j < |ids| ensures ids[i] != ids[j] {
      if ids[i] == ids[j] {
        EndsInside(list, pid, ids[..i + 1], n);
        CycleNeverEnds(list, ids[i], ids[i..j + 1], n - i);
      }
    }
  }

  lemma FewNests(list: seq<Menu>, pid: string)
    requires NoNestRepeats(list, pid)
    ensures Terminates(list, pid)
  {
    var names := (set c | c in list :: c.id) + {pid};
    if !Ends(list, pid, |names|) {
      var ids := LongNest(list, pid, |names|);
      forall i | 0 <= i < |ids| ensures ids[i] in names {
        if i > 0 { assert Calls(list, ids[i - 1], ids[i]); }
      }
      NoRepeatSize(ids, names);
    }
  }

  /** The recursion ends if and only if no call is nested in a call with the same id. */
  lemma EndsExactly(list: seq<Menu>, pid: string)
    ensures Terminates(list, pid) <==> NoNestRepeats(list, pid)
  {
    hide IsNest, NoRepeat, Ends;
    if Terminates(list, pid) {
      var n: nat :| Ends(list, pid, n);
      forall ids | IsNest(list, pid, ids) ensures NoRepeat(ids) {
        EndedNests(list, pid, n, ids);
      }
    }
    if NoNestRepeats(list, pid) {
      FewNests(list, pid);
    }
  }

  /** It does on the lists BuildTree is given, and does not on a row that is its own parent. */
  lemma WellKeyedEnds(list: seq<Menu>, root: string)
    requires WellKeyed(list, root)
    ensures Terminates(list, root)
  {
    forall ids | IsNest(list, root, ids) ensures NoRepeat(ids) {
      forall i, j | 0 <= i < j < |ids| ensures ids[i] != ids[j] {
        var b := NestedNode(list, root, ids, j);
        if i > 0 && ids[i] == ids[j] {
          var a := NestedNode(list, root, ids, i);
          IdsIdentify(list, root, a, b);
          DepthUnique(list, root, a, i - 1, j - 1);
        } else if i == 0 {
          var k :| 0 <= k < |list| && list[k] == b;
        }
      }
    }
    EndsExactly(list, root);
  }

  lemma {:induction false} NestedNode(list: seq<Menu>, root: string, ids: seq<string>, j: nat) returns (b: Menu)
    requires IsNest(list, root, ids) && 0 < j < |ids|
    ensures b in list && b.id == ids[j] && At(list, root, b, j - 1)
    decreases j
  {
    assert Calls(list, ids[j - 1], ids[j]);
    b :| b in list && b.parentID == ids[j - 1] && b.id == ids[j];
    if j > 1 {
      var a := NestedNode(list, root, ids, j - 1);
    }
  }

  lemma SelfParentNeverEnds(list: seq<Menu>, m: Menu)
    requires m in list && m.parentID == m.id
    ensures !Terminates(list, m.id)
  {
    assert Calls(list, m.id, m.id);
    forall n: nat ensures !Ends(list, m.id, n) {
      CycleNeverEnds(list, m.id, [m.id, m.id], n);
    }
  }
}
