/** The tree of CPU sets of kern_cpuset.c. A set is named by a number (its
    address); sets are made later than their parents, so a child's number is
    the greater. */
module Cpuset {
  import opened Common

  type Cpus = set<nat>

  datatype Parent = NoParent | Of(p: nat)

  /** The fields of a set that do not change, and its list of children. `anon`
      is cs_id == CPUSET_INVALID. */
  datatype Node = Node(parent: Parent, children: seq<nat>, anon: bool, rdonly: bool, root: bool)

  type Nodes = map<nat, Node>
  type Masks = map<nat, Cpus>

  /** Parents and lists of children agree, except that a set waiting for its
      deferred release has left its parent's list. */
  ghost predicate Shape(tree: Nodes, deferred: set<nat>) {
    deferred <= tree.Keys && forall s {:trigger ShapeAt(tree, deferred, s)} :: s in tree ==> ShapeAt(tree, deferred, s)
  }

  ghost predicate ShapeAt(tree: Nodes, deferred: set<nat>, s: nat)
    requires s in tree
  {
    var n := tree[s];
    && NoDup(n.children) && (n.anon ==> n.parent.Of?)
    && (n.parent.Of? ==>
      && n.parent.p in tree && n.parent.p < s && !tree[n.parent.p].anon
      && (s in tree[n.parent.p].children <==> s !in deferred))
    && (forall c :: c in n.children ==> c in tree && tree[c].parent == Of(s))
    && (s in deferred ==> n.parent.Of? && n.children == [])
  }

  /** `d` is `s` or a descendant of `s`. */
  predicate IsBelow(tree: Nodes, d: nat, s: nat)
    decreases d
  {
    d == s || (d in tree && tree[d].parent.Of? && tree[d].parent.p < d && IsBelow(tree, tree[d].parent.p, s))
  }

  /** Taking sets away makes none the ancestor of another. */
  lemma {:induction false} BelowKept(tree: Nodes, less: Nodes, x: nat, d: nat)
    requires IsBelow(less, x, d) && forall y :: y in less ==> y in tree && tree[y].parent == less[y].parent
    ensures IsBelow(tree, x, d)
    decreases x
  {
    if x != d {
      BelowKept(tree, less, less[x].parent.p, d);
    }
  }

  lemma {:induction false} BelowIsLater(tree: Nodes, d: nat, s: nat)
    requires IsBelow(tree, d, s)
    ensures s <= d
    decreases d
  {
    if d != s {
      BelowIsLater(tree, tree[d].parent.p, s);
    }
  }

  /** Ancestors form a chain. */
  lemma {:induction false} BelowBoth(tree: Nodes, d: nat, a: nat, b: nat)
    requires IsBelow(tree, d, a) && IsBelow(tree, d, b) && a <= b
    ensures IsBelow(tree, b, a)
    decreases d
  {
    if d == a {
      BelowIsLater(tree, d, b);
    } else if d != b {
      BelowBoth(tree, tree[d].parent.p, a, b);
    }
  }

  lemma {:induction false} BelowTrans(tree: Nodes, d: nat, c: nat, s: nat)
    requires IsBelow(tree, d, c) && IsBelow(tree, c, s)
    ensures IsBelow(tree, d, s)
    decreases d
  {
    if d != c {
      BelowTrans(tree, tree[d].parent.p, c, s);
    }
  }

  /** Brothers have no descendant in common, and neither has the parent below it. */
  lemma BrothersApart(tree: Nodes, d: nat, a: nat, b: nat)
    requires a in tree && b in tree && tree[a].parent == tree[b].parent && tree[a].parent.Of?
    requires tree[a].parent.p < a && tree[a].parent.p < b
    requires IsBelow(tree, d, a) && IsBelow(tree, d, b)
    ensures a == b
  {
    if a < b {
      BelowBoth(tree, d, a, b);
      BelowIsLater(tree, tree[b].parent.p, a);
    } else if b < a {
      BelowBoth(tree, d, b, a);
      BelowIsLater(tree, tree[a].parent.p, b);
    }
  }

  /** A proper descendant is below exactly one child. */
  lemma {:induction false} BelowChild(tree: Nodes, d: nat, s: nat) returns (c: nat)
    requires IsBelow(tree, d, s) && d != s
    ensures c in tree && tree[c].parent == Of(s) && s < c && IsBelow(tree, d, c)
    decreases d
  {
    if tree[d].parent.p == s {
      c := d;
    } else {
      c := BelowChild(tree, tree[d].parent.p, s);
    }
  }

  // ---------------------------------------------------------------- masks

  /** Below `s` (its own children aside) every mask lies inside the parent's. */
  ghost predicate NestedUnder(tree: Nodes, masks: Masks, s: nat)
    requires tree.Keys <= masks.Keys && Shape(tree, {})
  {
    forall d :: d in tree && tree[d].parent.Of? && tree[d].parent.p != s && IsBelow(tree, tree[d].parent.p, s)
      ==> masks[d] <= masks[tree[d].parent.p]
  }

  lemma {:induction false} NestedChain(tree: Nodes, masks: Masks, s: nat, c: nat, d: nat)
    requires tree.Keys <= masks.Keys && Shape(tree, {}) && NestedUnder(tree, masks, s)
    requires c in tree && d in tree && c != s && IsBelow(tree, c, s) && s < c && IsBelow(tree, d, c)
    ensures masks[d] <= masks[c]
    decreases d
  {
    if d != c {
      var p := tree[d].parent.p;
      BelowTrans(tree, p, c, s);
      BelowIsLater(tree, p, c);
      NestedChain(tree, masks, s, c, p);
    }
  }

  lemma NestedUnderChild(tree: Nodes, masks: Masks, s: nat, c: nat)
    requires tree.Keys <= masks.Keys && Shape(tree, {}) && NestedUnder(tree, masks, s)
    requires c in tree && tree[c].parent == Of(s)
    ensures NestedUnder(tree, masks, c)
  {
    forall d | d in tree && tree[d].parent.Of? && tree[d].parent.p != c && IsBelow(tree, tree[d].parent.p, c)
      ensures masks[d] <= masks[tree[d].parent.p]
    {
      assert ShapeAt(tree, {}, c);
      assert IsBelow(tree, c, s);
      BelowTrans(tree, tree[d].parent.p, c, s);
      BelowIsLater(tree, tree[d].parent.p, c);
    }
  }

  /** What cpuset_update does to the masks: `m` restricts all of the subtree. */
  ghost function Restricted(tree: Nodes, masks: Masks, s: nat, m: Cpus): Masks {
    map d | d in masks :: if IsBelow(tree, d, s) then masks[d] * m else masks[d]
  }

  /** The same with `s` and its first `n` subtrees done. */
  ghost function Partly(tree: Nodes, masks: Masks, s: nat, n: nat, m: Cpus): Masks
    requires s in tree && n <= |tree[s].children|
  {
    map d | d in masks :: if d == s || BelowSome(tree, d, tree[s].children[..n]) then masks[d] * m else masks[d]
  }

  ghost predicate BelowSome(tree: Nodes, d: nat, cs: seq<nat>) {
    exists i :: 0 <= i < |cs| && IsBelow(tree, d, cs[i])
  }

  lemma ChildFacts(tree: Nodes, s: nat, i: nat)
    requires Shape(tree, {}) && s in tree && i < |tree[s].children|
    ensures var c := tree[s].children[i]; c in tree && tree[c].parent == Of(s) && s < c && IsBelow(tree, c, s)
  {
    assert ShapeAt(tree, {}, s);
    assert tree[s].children[i] in tree[s].children;
    assert ShapeAt(tree, {}, tree[s].children[i]);
  }

  lemma ChildNotBefore(tree: Nodes, s: nat, n: nat, d: nat)
    requires Shape(tree, {}) && s in tree && n < |tree[s].children| && IsBelow(tree, d, tree[s].children[n])
    ensures d != s && !BelowSome(tree, d, tree[s].children[..n])
  {
    assert ShapeAt(tree, {}, s);
    var c := tree[s].children[n];
    ChildFacts(tree, s, n);
    BelowIsLater(tree, d, c);
    if BelowSome(tree, d, tree[s].children[..n]) {
      var i :| 0 <= i < n && IsBelow(tree, d, tree[s].children[..n][i]);
      ChildFacts(tree, s, i);
      BrothersApart(tree, d, tree[s].children[i], c);
    }
  }

  lemma BelowSomeMore(tree: Nodes, d: nat, cs: seq<nat>, n: nat)
    requires n < |cs|
    ensures BelowSome(tree, d, cs[..n + 1]) <==> BelowSome(tree, d, cs[..n]) || IsBelow(tree, d, cs[n])
  {
    if BelowSome(tree, d, cs[..n]) {
      var i :| 0 <= i < n && IsBelow(tree, d, cs[..n][i]);
      assert cs[..n + 1][i] == cs[i];
    }
    if IsBelow(tree, d, cs[n]) {
      assert cs[..n + 1][n] == cs[n];
    }
    if BelowSome(tree, d, cs[..n + 1]) && !IsBelow(tree, d, cs[n]) {
      var i :| 0 <= i < n + 1 && IsBelow(tree, d, cs[..n + 1][i]);
      assert cs[..n][i] == cs[i];
    }
  }

  /** The subtree that comes next is still as it was. */
  lemma PartlyNext(tree: Nodes, masks: Masks, s: nat, n: nat, m: Cpus)
    requires tree.Keys <= masks.Keys && Shape(tree, {}) && NestedUnder(tree, masks, s)
    requires s in tree && n < |tree[s].children|
    ensures var c, now := tree[s].children[n], Partly(tree, masks, s, n, m);
            c in now && NestedUnder(tree, now, c) && forall d :: d in tree && IsBelow(tree, d, c) ==> now[d] == masks[d]
  {
    hide IsBelow, BelowSome, Shape;
    var c, now := tree[s].children[n], Partly(tree, masks, s, n, m);
    ChildFacts(tree, s, n);
    NestedUnderChild(tree, masks, s, c);
    forall d | d in tree && IsBelow(tree, d, c)
      ensures now[d] == masks[d]
    {
      ChildNotBefore(tree, s, n, d);
    }
    NestedUnderSame(tree, masks, now, c);
  }

  lemma NestedUnderSame(tree: Nodes, masks: Masks, now: Masks, c: nat)
    requires tree.Keys <= masks.Keys && tree.Keys <= now.Keys && Shape(tree, {}) && NestedUnder(tree, masks, c)
    requires forall d :: d in tree && IsBelow(tree, d, c) ==> now[d] == masks[d]
    ensures NestedUnder(tree, now, c)
  {
    forall d | d in tree && tree[d].parent.Of? && tree[d].parent.p != c && IsBelow(tree, tree[d].parent.p, c)
      ensures now[d] <= now[tree[d].parent.p]
    {
      assert ShapeAt(tree, {}, d);
      assert IsBelow(tree, d, c);
    }
  }

  /** One more subtree done by the recursive call. */
  lemma PartlyMore(tree: Nodes, masks: Masks, s: nat, n: nat, m: Cpus)
    requires tree.Keys <= masks.Keys && Shape(tree, {}) && NestedUnder(tree, masks, s)
    requires s in tree && n < |tree[s].children|
    ensures var c, now := tree[s].children[n], Partly(tree, masks, s, n, m);
            c in now && NestedUnder(tree, now, c)
            && Restricted(tree, now, c, now[c] * m) == Partly(tree, masks, s, n + 1, m)
  {
    var c, now, later := tree[s].children[n], Partly(tree, masks, s, n, m), Partly(tree, masks, s, n + 1, m);
    PartlyNext(tree, masks, s, n, m);
    ChildFacts(tree, s, n);
    forall d | d in masks
      ensures later[d] == if IsBelow(tree, d, c) then now[d] * (now[c] * m) else now[d]
    {
      if d in tree {
        PartlyOne(tree, masks, s, n, m, d);
      } else {
        NotBelowSome(tree, s, n + 1, d);
        NotBelowSome(tree, s, n, d);
      }
    }
  }

  /** Only sets of the tree are below one. */
  lemma NotBelowSome(tree: Nodes, s: nat, n: nat, d: nat)
    requires Shape(tree, {}) && s in tree && n <= |tree[s].children| && d !in tree
    ensures !BelowSome(tree, d, tree[s].children[..n]) && forall i :: 0 <= i < |tree[s].children| ==> !IsBelow(tree, d, tree[s].children[i])
  {
    forall i | 0 <= i < |tree[s].children|
      ensures !IsBelow(tree, d, tree[s].children[i])
    {
      ChildFacts(tree, s, i);
    }
  }

  lemma PartlyOne(tree: Nodes, masks: Masks, s: nat, n: nat, m: Cpus, d: nat)
    requires tree.Keys <= masks.Keys && Shape(tree, {}) && NestedUnder(tree, masks, s)
    requires s in tree && n < |tree[s].children| && d in tree
    requires var c := tree[s].children[n]; c in tree && tree[c].parent == Of(s) && s < c && IsBelow(tree, c, s)
    ensures var c, now, later := tree[s].children[n], Partly(tree, masks, s, n, m), Partly(tree, masks, s, n + 1, m);
            later[d] == if IsBelow(tree, d, c) then now[d] * (masks[c] * m) else now[d]
  {
    hide Shape, NestedUnder, IsBelow, BelowSome;
    var c := tree[s].children[n];
    BelowSomeMore(tree, d, tree[s].children, n);
    if IsBelow(tree, d, c) {
      NestedChain(tree, masks, s, c, d);
      ChildNotBefore(tree, s, n, d);
    }
  }

  lemma PartlyAll(tree: Nodes, masks: Masks, s: nat, m: Cpus)
    requires tree.Keys <= masks.Keys && Shape(tree, {}) && s in tree
    ensures Partly(tree, masks, s, |tree[s].children|, m) == Restricted(tree, masks, s, m)
  {
    var cs := tree[s].children;
    assert cs[..|cs|] == cs;
    forall d | d in masks
      ensures IsBelow(tree, d, s) <==> d == s || BelowSome(tree, d, cs)
    {
      BelowList(tree, s, d);
    }
  }

  // ---------------------------------------------------------------- references

  /** The sets whose parent is `s`; a set waiting for its deferred release is
      still one of them. */
  ghost function Kids(tree: Nodes, s: nat): set<nat> {
    set d | d in tree && tree[d].parent == Of(s)
  }

  /** The references a set should have: children, threads, handles, and one
      taken at boot for a set without a parent. */
  ghost function Holders(tree: Nodes, threads: seq<nat>, handles: multiset<nat>, s: nat): nat {
    |Kids(tree, s)| + multiset(threads)[s] + handles[s] + if s in tree && tree[s].parent == NoParent then 1 else 0
  }

  ghost predicate Counted(tree: Nodes, refs: map<nat, nat>, threads: seq<nat>, handles: multiset<nat>, deferred: set<nat>) {
    && refs.Keys == tree.Keys
    && (forall s {:trigger CountedAt(tree, refs[s], threads, handles, deferred, s)} :: s in tree ==> CountedAt(tree, refs[s], threads, handles, deferred, s))
    && (forall t :: t in threads ==> t in tree)
    && (forall h :: h in handles ==> h in tree)
  }

  ghost predicate CountedAt(tree: Nodes, ref: nat, threads: seq<nat>, handles: multiset<nat>, deferred: set<nat>, s: nat) {
    ref == Holders(tree, threads, handles, s) && (ref == 0 <==> s in deferred)
  }

  /** No set in use is empty, and every one lies inside its parent. */
  ghost predicate Healthy(tree: Nodes, masks: Masks, deferred: set<nat>) {
    masks.Keys == tree.Keys
    && forall s {:trigger HealthyAt(tree, masks, s)} :: s in tree && s !in deferred ==> HealthyAt(tree, masks, s)
  }

  ghost predicate HealthyAt(tree: Nodes, masks: Masks, s: nat)
    requires masks.Keys == tree.Keys && s in tree
  {
    masks[s] != {} && (tree[s].parent.Of? && tree[s].parent.p in tree ==> masks[s] <= masks[tree[s].parent.p])
  }

  /** LIST_REMOVE. */
  function Without(cs: seq<nat>, x: nat): seq<nat> {
    if cs == [] then [] else if cs[0] == x then cs[1..] else [cs[0]] + Without(cs[1..], x)
  }

  lemma {:induction false} WithoutFacts(cs: seq<nat>, x: nat)
    requires NoDup(cs)
    ensures NoDup(Without(cs, x)) && forall y :: y in Without(cs, x) <==> y in cs && y != x
  {
    if cs != [] {
      assert cs[0] !in cs[1..];
      assert forall y :: y in cs <==> y == cs[0] || y in cs[1..];
      if cs[0] != x {
        WithoutFacts(cs[1..], x);
      }
    }
  }

  datatype Error = OK | EPERM | EINVAL | EDEADLK

  /** What testing a set for an update by `m` leaves to its children. */
  function NewMask(masks: Masks, s: nat, m: Cpus, check: bool): Cpus
    requires s in masks
  {
    if check then masks[s] * m else m
  }

  /** The update would be allowed at `d` and leave it a CPU. */
  predicate Fits(tree: Nodes, masks: Masks, d: nat, m: Cpus)
    requires d in tree && d in masks
  {
    !tree[d].rdonly && masks[d] * m != {}
  }

  /** No set of the subtree is read-only, and the update leaves none empty;
      whether `s` itself would be is asked only with `check`. */
  predicate AllFit(tree: Nodes, masks: Masks, s: nat, m: Cpus, check: bool)
    requires tree.Keys <= masks.Keys && s in tree
  {
    && !tree[s].rdonly && (check ==> masks[s] * m != {})
    && forall d :: d in tree && d != s && IsBelow(tree, d, s) ==> Fits(tree, masks, d, NewMask(masks, s, m, check))
  }

  ghost predicate FirstFit(tree: Nodes, masks: Masks, s: nat, n: nat, m: Cpus)
    requires tree.Keys <= masks.Keys && s in tree && n <= |tree[s].children|
  {
    forall d :: d in tree && BelowSome(tree, d, tree[s].children[..n]) ==> Fits(tree, masks, d, m)
  }

  /** One more child tested. */
  lemma FirstFitMore(tree: Nodes, masks: Masks, s: nat, n: nat, m: Cpus)
    requires tree.Keys <= masks.Keys && Shape(tree, {}) && NestedUnder(tree, masks, s)
    requires s in tree && n < |tree[s].children|
    ensures tree[s].children[n] in tree
    ensures FirstFit(tree, masks, s, n + 1, m) <==>
              FirstFit(tree, masks, s, n, m) && AllFit(tree, masks, tree[s].children[n], m, true)
  {
    var c := tree[s].children[n];
    ChildFacts(tree, s, n);
    forall d | d in tree && IsBelow(tree, d, c)
      ensures masks[d] * (masks[c] * m) == masks[d] * m
    {
      NestedChain(tree, masks, s, c, d);
    }
    hide Shape, NestedUnder, BelowSome;
    forall d | d in tree
      ensures BelowSome(tree, d, tree[s].children[..n + 1]) <==> BelowSome(tree, d, tree[s].children[..n]) || IsBelow(tree, d, c)
    {
      BelowSomeMore(tree, d, tree[s].children, n);
    }
    if FirstFit(tree, masks, s, n + 1, m) {
      assert Fits(tree, masks, c, m);
    }
  }

  lemma FirstFitAll(tree: Nodes, masks: Masks, s: nat, m: Cpus)
    requires tree.Keys <= masks.Keys && Shape(tree, {}) && s in tree
    ensures FirstFit(tree, masks, s, |tree[s].children|, m) <==>
              forall d :: d in tree && d != s && IsBelow(tree, d, s) ==> Fits(tree, masks, d, m)
  {
    var cs := tree[s].children;
    assert cs[..|cs|] == cs;
    forall d | d in tree
      ensures d != s && IsBelow(tree, d, s) <==> BelowSome(tree, d, cs)
    {
      BelowList(tree, s, d);
    }
  }

  /** The proper descendants of a set are those below its children. */
  lemma BelowList(tree: Nodes, s: nat, d: nat)
    requires Shape(tree, {}) && s in tree
    ensures d != s && IsBelow(tree, d, s) <==> BelowSome(tree, d, tree[s].children)
  {
    var cs := tree[s].children;
    if IsBelow(tree, d, s) && d != s {
      var c := BelowChild(tree, d, s);
      assert ShapeAt(tree, {}, c);
      assert c in cs;
      var i :| 0 <= i < |cs| && cs[i] == c;
    }
    if BelowSome(tree, d, cs) {
      var i :| 0 <= i < |cs| && IsBelow(tree, d, cs[i]);
      ChildFacts(tree, s, i);
      BelowTrans(tree, d, cs[i], s);
      BelowIsLater(tree, d, cs[i]);
    }
  }

  // What the primitive changes of the tree do to its shape and its counts.

  function Added(tree: Nodes, p: nat, id: nat, anon: bool): Nodes
    requires p in tree
  {
    tree[p := tree[p].(children := [id] + tree[p].children)][id := Node(Of(p), [], anon, false, false)]
  }

  lemma AddedShape(tree: Nodes, deferred: set<nat>, p: nat, id: nat, anon: bool)
    requires Shape(tree, deferred) && p in tree && !tree[p].anon && p !in deferred && id !in tree && p < id
    ensures Shape(Added(tree, p, id, anon), deferred)
  {
    var t := Added(tree, p, id, anon);
    assert ShapeAt(tree, deferred, p);
    forall s | s in t
      ensures ShapeAt(t, deferred, s)
    {
      if s in tree {
        assert ShapeAt(tree, deferred, s);
      }
    }
  }

  lemma AddedKids(tree: Nodes, p: nat, id: nat, anon: bool, s: nat)
    requires p in tree && id !in tree && p != id
    ensures |Kids(Added(tree, p, id, anon), s)| == |Kids(tree, s)| + if s == p then 1 else 0
  {
    if s == p {
      assert Kids(Added(tree, p, id, anon), s) == Kids(tree, s) + {id};
    } else {
      assert Kids(Added(tree, p, id, anon), s) == Kids(tree, s);
    }
  }

  function Detached(tree: Nodes, d: nat): Nodes
    requires d in tree
  {
    if tree[d].parent.Of? && tree[d].parent.p in tree then
      var p := tree[d].parent.p;
      tree[p := tree[p].(children := Without(tree[p].children, d))]
    else
      tree
  }

  lemma DetachedShape(tree: Nodes, deferred: set<nat>, d: nat)
    requires Shape(tree, deferred) && d in tree && tree[d].parent.Of? && tree[d].parent.p in tree
    requires tree[d].children == [] && d !in deferred
    ensures Shape(Detached(tree, d), deferred + {d})
  {
    hide Without;
    var t, p := Detached(tree, d), tree[d].parent.p;
    assert ShapeAt(tree, deferred, p) && ShapeAt(tree, deferred, d);
    WithoutFacts(tree[p].children, d);
    forall s | s in t
      ensures ShapeAt(t, deferred + {d}, s)
    {
      assert ShapeAt(tree, deferred, s);
    }
  }

  lemma DetachedKids(tree: Nodes, d: nat, s: nat)
    requires d in tree && tree[d].parent.Of? && tree[d].parent.p in tree
    ensures Kids(Detached(tree, d), s) == Kids(tree, s)
  {
  }

  lemma FreedShape(tree: Nodes, deferred: set<nat>, d: nat)
    requires Shape(tree, deferred) && d in deferred && Kids(tree, d) == {}
    ensures Shape(tree - {d}, deferred - {d})
  {
    var t := tree - {d};
    assert ShapeAt(tree, deferred, d);
    forall s | s in t
      ensures ShapeAt(t, deferred - {d}, s)
    {
      assert ShapeAt(tree, deferred, s);
      assert s !in Kids(tree, d);
    }
  }

  lemma FreedKids(tree: Nodes, d: nat, s: nat)
    requires d in tree
    ensures |Kids(tree - {d}, s)| == |Kids(tree, s)| - if tree[d].parent == Of(s) then 1 else 0
  {
    if tree[d].parent == Of(s) {
      assert Kids(tree - {d}, s) == Kids(tree, s) - {d};
    } else {
      assert Kids(tree - {d}, s) == Kids(tree, s);
    }
  }

  // ... and to the counts.

  lemma CountedAdded(tree: Nodes, refs: map<nat, nat>, threads: seq<nat>, handles: multiset<nat>, deferred: set<nat>, p: nat, id: nat, anon: bool)
    requires Counted(tree, refs, threads, handles, deferred) && Shape(tree, deferred)
    requires p in tree && p !in deferred && id !in tree && p != id
    ensures Counted(Added(tree, p, id, anon), refs[p := refs[p] + 1][id := 1], threads, handles + multiset{id}, deferred)
  {
    var t, h, r := Added(tree, p, id, anon), handles + multiset{id}, refs[p := refs[p] + 1][id := 1];
    NoKids(tree, deferred, id);
    assert id !in deferred && id !in handles && id !in threads;
    hide Shape, Kids, Holders;
    forall s | s in t
      ensures CountedAt(t, r[s], threads, h, deferred, s)
    {
      HoldersAdded(tree, threads, handles, p, id, anon, s);
      if s != id {
        assert CountedAt(tree, refs[s], threads, handles, deferred, s);
      }
    }
    hide CountedAt;
  }

  lemma HoldersAdded(tree: Nodes, threads: seq<nat>, handles: multiset<nat>, p: nat, id: nat, anon: bool, s: nat)
    requires p in tree && id !in tree && p != id && s in Added(tree, p, id, anon)
    requires Kids(tree, id) == {} && id !in handles && id !in multiset(threads)
    ensures Holders(Added(tree, p, id, anon), threads, handles + multiset{id}, s)
              == if s == id then 1 else Holders(tree, threads, handles, s) + if s == p then 1 else 0
  {
    hide Kids;
    AddedKids(tree, p, id, anon, s);
  }

  lemma NoKids(tree: Nodes, deferred: set<nat>, s: nat)
    requires Shape(tree, deferred) && s !in tree
    ensures Kids(tree, s) == {}
  {
    forall d | d in tree
      ensures d !in Kids(tree, s)
    {
      assert ShapeAt(tree, deferred, d);
    }
  }

  lemma CountedRef(tree: Nodes, refs: map<nat, nat>, threads: seq<nat>, handles: multiset<nat>, deferred: set<nat>, s: nat)
    requires Counted(tree, refs, threads, handles, deferred) && s in tree && s !in deferred
    ensures Counted(tree, refs[s := refs[s] + 1], threads, handles + multiset{s}, deferred)
    ensures Counted(tree, refs[s := refs[s] + 1], threads + [s], handles, deferred)
  {
    forall x | x in tree
      ensures CountedAt(tree, refs[s := refs[s] + 1][x], threads, handles + multiset{s}, deferred, x)
      ensures CountedAt(tree, refs[s := refs[s] + 1][x], threads + [s], handles, deferred, x)
    {
      assert CountedAt(tree, refs[x], threads, handles, deferred, x);
    }
  }

  lemma CountedRel(tree: Nodes, refs: map<nat, nat>, threads: seq<nat>, handles: multiset<nat>, deferred: set<nat>, s: nat)
    requires Counted(tree, refs, threads, handles, deferred) && s in handles
    ensures s in tree && refs[s] > 0 && s !in deferred
    ensures Counted(tree, refs[s := refs[s] - 1], threads, handles - multiset{s}, if refs[s] == 1 then deferred + {s} else deferred)
  {
    assert CountedAt(tree, refs[s], threads, handles, deferred, s);
    var d := if refs[s] == 1 then deferred + {s} else deferred;
    forall x | x in tree
      ensures CountedAt(tree, refs[s := refs[s] - 1][x], threads, handles - multiset{s}, d, x)
    {
      assert CountedAt(tree, refs[x], threads, handles, deferred, x);
    }
  }

  lemma CountedDetached(tree: Nodes, refs: map<nat, nat>, threads: seq<nat>, handles: multiset<nat>, deferred: set<nat>, d: nat)
    requires Counted(tree, refs, threads, handles, deferred)
    requires d in tree && tree[d].parent.Of? && tree[d].parent.p in tree
    ensures Counted(Detached(tree, d), refs, threads, handles, deferred)
  {
    var t := Detached(tree, d);
    forall s | s in t
      ensures CountedAt(t, refs[s], threads, handles, deferred, s)
    {
      DetachedKids(tree, d, s);
      assert CountedAt(tree, refs[s], threads, handles, deferred, s);
    }
  }

  /** A freed set's reference on its parent passes to whoever freed it. */
  lemma CountedFreed(tree: Nodes, refs: map<nat, nat>, threads: seq<nat>, handles: multiset<nat>, deferred: set<nat>, d: nat)
    requires Counted(tree, refs, threads, handles, deferred) && d in deferred
    requires d in tree && tree[d].parent.Of? && tree[d].parent.p in tree && tree[d].parent.p != d
    ensures Counted(tree - {d}, refs - {d}, threads, handles + multiset{tree[d].parent.p}, deferred - {d})
    ensures Kids(tree, d) == {} && tree[d].parent.p !in deferred
  {
    var t, h := tree - {d}, handles + multiset{tree[d].parent.p};
    assert CountedAt(tree, refs[d], threads, handles, deferred, d);
    assert CountedAt(tree, refs[tree[d].parent.p], threads, handles, deferred, tree[d].parent.p);
    assert d in Kids(tree, tree[d].parent.p);
    assert d !in handles && d !in multiset(threads);
    forall s | s in t
      ensures CountedAt(t, (refs - {d})[s], threads, h, deferred - {d}, s)
    {
      FreedKids(tree, d, s);
      assert CountedAt(tree, refs[s], threads, handles, deferred, s);
    }
    forall x | x in threads
      ensures x in t
    {
      assert x in multiset(threads);
    }
  }

  lemma CountedSwap(tree: Nodes, refs: map<nat, nat>, threads: seq<nat>, handles: multiset<nat>, deferred: set<nat>, i: nat, n: nat)
    requires Counted(tree, refs, threads, handles, deferred) && i < |threads| && n in handles
    ensures Counted(tree, refs, threads[i := n], handles - multiset{n} + multiset{threads[i]}, deferred)
  {
    var o := threads[i];
    assert o in threads;
    forall s
      ensures multiset(threads[i := n])[s] + (handles - multiset{n} + multiset{o})[s] == multiset(threads)[s] + handles[s]
    {
    }
    forall s | s in tree
      ensures CountedAt(tree, refs[s], threads[i := n], handles - multiset{n} + multiset{o}, deferred, s)
    {
      assert CountedAt(tree, refs[s], threads, handles, deferred, s);
    }
    forall t | t in threads[i := n]
      ensures t in tree
    {
    }
  }

  // ... and to the masks.

  lemma AddedHealthy(tree: Nodes, masks: Masks, deferred: set<nat>, p: nat, id: nat, anon: bool, m: Cpus)
    requires Healthy(tree, masks, deferred) && Shape(tree, deferred) && p in tree && id !in tree && p != id
    requires m <= masks[p]
    ensures Healthy(Added(tree, p, id, anon), masks[id := m], deferred) <==> m != {}
  {
    var t, n := Added(tree, p, id, anon), masks[id := m];
    forall s | s in t && s !in deferred
      ensures HealthyAt(t, n, s) <==> s != id || m != {}
    {
      if s != id {
        assert HealthyAt(tree, masks, s) && ShapeAt(tree, deferred, s);
      }
    }
    assert id !in deferred;
  }

  lemma DetachedHealthy(tree: Nodes, masks: Masks, deferred: set<nat>, d: nat)
    requires Healthy(tree, masks, deferred) && d in tree && tree[d].parent.Of? && tree[d].parent.p in tree
    ensures Healthy(Detached(tree, d), masks, deferred + {d})
  {
    forall s | s in tree && s !in deferred
      ensures HealthyAt(Detached(tree, d), masks, s)
    {
      assert HealthyAt(tree, masks, s);
    }
  }

  lemma FreedHealthy(tree: Nodes, masks: Masks, deferred: set<nat>, d: nat)
    requires Healthy(tree, masks, deferred)
    ensures Healthy(tree - {d}, masks - {d}, deferred - {d})
  {
    forall s | s in tree - {d} && s !in deferred
      ensures HealthyAt(tree - {d}, masks - {d}, s)
    {
      assert HealthyAt(tree, masks, s);
    }
  }

  /** The sets in use are a tree of their own: a set waiting for its release
      has no children. */
  lemma LiveShape(tree: Nodes, refs: map<nat, nat>, threads: seq<nat>, handles: multiset<nat>, deferred: set<nat>)
    requires Shape(tree, deferred) && Counted(tree, refs, threads, handles, deferred)
    ensures Shape(tree - deferred, {})
  {
    var t := tree - deferred;
    forall s | s in t
      ensures ShapeAt(t, {}, s)
    {
      assert ShapeAt(tree, deferred, s);
      if tree[s].parent.Of? {
        var p := tree[s].parent.p;
        assert s in Kids(tree, p) && CountedAt(tree, refs[p], threads, handles, deferred, p);
        assert ShapeAt(tree, deferred, p);
      }
      forall c | c in t[s].children
        ensures c in t
      {
        assert ShapeAt(tree, deferred, c);
      }
    }
  }

  lemma HealthyNested(tree: Nodes, masks: Masks, deferred: set<nat>, s: nat, m: Cpus)
    requires Healthy(tree, masks, deferred) && Shape(tree - deferred, {}) && s in tree - deferred
    ensures NestedUnder(tree - deferred, masks[s := m], s)
  {
    var t := tree - deferred;
    forall d | d in t && t[d].parent.Of? && t[d].parent.p != s && IsBelow(t, t[d].parent.p, s)
      ensures masks[s := m][d] <= masks[s := m][t[d].parent.p]
    {
      assert HealthyAt(tree, masks, d) && ShapeAt(t, {}, d);
      BelowIsLater(t, t[d].parent.p, s);
    }
  }

  /** The mask a set is given lies inside that of its parent. */
  predicate InsideParent(tree: Nodes, masks: Masks, s: nat, m: Cpus)
    requires s in tree
  {
    tree[s].parent.Of? && tree[s].parent.p in tree && tree[s].parent.p in masks ==> m <= masks[tree[s].parent.p]
  }

  /** An update that was tested keeps the tree healthy exactly when the mask is
      not empty and lies inside that of the parent. */
  lemma UpdatedHealthy(tree: Nodes, masks: Masks, deferred: set<nat>, s: nat, m: Cpus)
    requires Healthy(tree, masks, deferred) && Shape(tree - deferred, {}) && s in tree - deferred
    requires AllFit(tree - deferred, masks, s, m, false)
    ensures var now := Restricted(tree - deferred, masks[s := m], s, m);
            s in now && now[s] == m && (Healthy(tree, now, deferred) <==> m != {} && InsideParent(tree, masks, s, m))
  {
    var t := tree - deferred;
    var now := Restricted(t, masks[s := m], s, m);
    assert ShapeAt(t, {}, s);
    if t[s].parent.Of? && IsBelow(t, t[s].parent.p, s) {
      BelowIsLater(t, t[s].parent.p, s);
    }
    assert HealthyAt(tree, now, s) <==> m != {} && InsideParent(tree, masks, s, m);
    forall d | d in t && d != s && m != {}
      ensures HealthyAt(tree, now, d)
    {
      assert HealthyAt(tree, masks, d) && ShapeAt(t, {}, d);
      if IsBelow(t, d, s) {
        assert Fits(t, masks, d, m);
      }
    }
  }

  /** All there is at one moment. */
  datatype State = State(tree: Nodes, masks: Masks, refs: map<nat, nat>, threads: seq<nat>, handles: multiset<nat>,
                         droplist: seq<nat>, next: nat)
  {
    function Live(): Nodes { tree - set d | d in droplist }
  }

  predicate Possible(a: Action, s: State) {
    match a
    case Update(x, _) => x in s.handles
    case Link(p, _, _) => p in s.Live() && !s.tree[p].anon
    case Take(x) => x in s.Live()
    case Give(x) => x in s.handles
    case GiveLater(x) => x in s.handles
    case Finish(i) => i < |s.droplist|
    case Spawn(t) => t < |s.threads|
    case Exchange(t, n) => t < |s.threads| && n in s.handles
  }

  /** What an action makes of the sets. */
  ghost predicate Did(a: Action, s: State, s': State) {
    && Possible(a, s)
    && match a
       case Update(x, mask) =>
         && x in s.Live() && s.Live().Keys <= s.masks.Keys
         && s' == if AllFit(s.Live(), s.masks, x, mask, false) then s.(masks := Restricted(s.Live(), s.masks[x := mask], x, mask)) else s
       case Link(p, mask, anon) =>
         && p in s.masks && p in s.refs
         && s' == s.(tree := Added(s.tree, p, s.next, anon), masks := s.masks[s.next := mask * s.masks[p]],
                     refs := s.refs[p := s.refs[p] + 1][s.next := 1], handles := s.handles + multiset{s.next}, next := s.next + 1)
       case Take(x) => x in s.refs && s' == s.(refs := s.refs[x := s.refs[x] + 1], handles := s.handles + multiset{x})
       case Give(x) =>
         && x in s.refs && s' == s.(tree := s'.tree, masks := s'.masks, refs := s'.refs, handles := s.handles - multiset{x})
         && Kept(s.tree, s.masks, s'.tree, s'.masks) && (x in s'.tree <==> s.refs[x] > 1)
         && if s.refs[x] > 1 then s'.tree == s.tree && s'.masks == s.masks && s'.refs == s.refs[x := s.refs[x] - 1]
            else forall d :: d in s.tree && d !in s'.tree ==> IsBelow(s.tree, x, d)
       case GiveLater(x) =>
         && x in s.refs && s.refs[x] > 0 && x in s.tree
         && s' == s.(tree := if s.refs[x] == 1 then Detached(s.tree, x) else s.tree, refs := s.refs[x := s.refs[x] - 1],
                     handles := s.handles - multiset{x}, droplist := if s.refs[x] == 1 then [x] + s.droplist else s.droplist)
       case Finish(i) =>
         var d := s.droplist[i];
         && d in s.tree && s.tree[d].parent.Of?
         && s' == s.(tree := s.tree - {d}, masks := s.masks - {d}, refs := s.refs - {d},
                     handles := s.handles + multiset{s.tree[d].parent.p}, droplist := s.droplist[..i] + s.droplist[i + 1..])
       case Spawn(t) =>
         var x := s.threads[t];
         x in s.refs && s' == s.(refs := s.refs[x := s.refs[x] + 1], threads := s.threads + [x])
       case Exchange(t, n) =>
         s' == s.(threads := s.threads[t := n], handles := s.handles - multiset{n} + multiset{s.threads[t]})
  }

  /** Every action that could happen at its turn has, and nothing else. */
  ghost predicate Traced(actions: seq<Action>, trace: seq<State>) {
    && |trace| == |actions| + 1
    && forall i :: 0 <= i < |actions| ==> Followed(actions[i], trace[i], trace[i + 1])
  }

  ghost predicate Followed(a: Action, s: State, s': State) {
    if Possible(a, s) then Did(a, s, s') else s' == s
  }

  lemma TracedMore(actions: seq<Action>, i: nat, trace: seq<State>, s: State)
    requires i < |actions| && Traced(actions[..i], trace) && Followed(actions[i], trace[i], s)
    ensures Traced(actions[..i + 1], trace + [s])
  {
    hide Followed;
    forall j | 0 <= j < i + 1
      ensures Followed(actions[..i + 1][j], (trace + [s])[j], (trace + [s])[j + 1])
    {
      if j < i {
        assert Followed(actions[..i][j], trace[j], trace[j + 1]);
      }
    }
  }

  class Cpusets {
    var tree: Nodes
    var masks: Masks
    var refs: map<nat, nat>
    /** td_cpuset of every thread. */
    var threads: seq<nat>
    /** References held by other code. */
    var handles: multiset<nat>
    /** Sets without references whose release has been put off. */
    var droplist: seq<nat>
    var next: nat

    function Now(): State
      reads this
    {
      State(tree, masks, refs, threads, handles, droplist, next)
    }

    function Deferred(): set<nat>
      reads this
    {
      set d | d in droplist
    }

    /** The sets in use. */
    function Live(): Nodes
      reads this
    {
      tree - Deferred()
    }

    lemma LiveTree()
      requires Sound()
      ensures masks.Keys == tree.Keys && Shape(Live(), {}) && (droplist == [] ==> Live() == tree)
    {
      LiveShape(tree, refs, threads, handles, Deferred());
    }

    ghost predicate Planted()
      reads this
    {
      masks.Keys == tree.Keys && Shape(Live(), {}) && forall s :: s in tree ==> s < next
    }

    ghost predicate Sound()
      reads this
    {
      && Shape(tree, Deferred()) && (forall s :: s in tree ==> s < next) && NoDup(droplist)
      && Healthy(tree, masks, Deferred()) && Counted(tree, refs, threads, handles, Deferred())
    }

    ghost predicate Valid()
      reads this
    {
      Sound() && droplist == []
    }

    /** cpuset_zero and the thread that boots. */
    constructor (all: Cpus)
      requires all != {}
      ensures Valid() && tree == map[0 := Node(NoParent, [], false, false, true)] && masks == map[0 := all]
      ensures refs == map[0 := 2] && threads == [0] && handles == multiset{} && next == 1
    {
      tree := map[0 := Node(NoParent, [], false, false, true)];
      masks := map[0 := all];
      refs := map[0 := 2];
      threads, handles, droplist, next := [0], multiset{}, [], 1;
      new;
      assert Deferred() == {};
      assert ShapeAt(tree, Deferred(), 0) && HealthyAt(tree, masks, 0);
      assert Kids(tree, 0) == {};
      assert CountedAt(tree, refs[0], threads, handles, Deferred(), 0);
    }

    /** cpuset_testupdate: succeeds exactly when the update may be made. */
    method TestUpdate(s: nat, mask: Cpus, checkMask: bool) returns (error: Error)
      requires Planted() && s in Live() && NestedUnder(Live(), masks, s)
      ensures error == OK <==> AllFit(Live(), masks, s, mask, checkMask)
      ensures error == EPERM ==> exists d :: d in Live() && IsBelow(Live(), d, s) && Live()[d].rdonly
      ensures error == OK || error == EPERM || error == EDEADLK
      decreases next - s
    {
      hide Shape, NestedUnder, BelowSome, FirstFit, Fits;
      ghost var t := Live();
      if tree[s].rdonly {
        assert IsBelow(t, s, s);
        return EPERM;
      }
      if checkMask && masks[s] * mask == {} {
        return EDEADLK;
      }
      var newmask := if checkMask then masks[s] * mask else mask;
      error := OK;
      var i: nat := 0;
      NoneFirst(t, masks, s, newmask);
      while i < |tree[s].children|
        invariant i <= |tree[s].children| && error == OK && FirstFit(t, masks, s, i, newmask)
      {
        ChildFacts(t, s, i);
        NestedUnderChild(t, masks, s, tree[s].children[i]);
        FirstFitMore(t, masks, s, i, newmask);
        error := TestUpdate(tree[s].children[i], newmask, true);
        if error != OK {
          FirstFitPart(t, masks, s, i + 1, newmask);
          FirstFitAll(t, masks, s, newmask);
          ReadOnlyBelow(t, tree[s].children[i], s);
          return;
        }
        i := i + 1;
      }
      FirstFitAll(t, masks, s, newmask);
    }

    /** cpuset_update: intersects the whole subtree. */
    method UpdateMasks(s: nat, mask: Cpus)
      requires Planted() && s in Live() && NestedUnder(Live(), masks, s)
      modifies `masks
      ensures masks == Restricted(Live(), old(masks), s, old(masks)[s] * mask)
      decreases next - s
    {
      hide Shape, NestedUnder, BelowSome, Restricted, Partly;
      ghost var t, was, m := Live(), masks, masks[s] * mask;
      masks := masks[s := masks[s] * mask];
      PartlyNone(t, was, s, m);
      var i: nat := 0;
      while i < |tree[s].children|
        invariant i <= |tree[s].children| && masks.Keys == was.Keys && masks[s] == m
        invariant masks == Partly(t, was, s, i, m)
      {
        ChildFacts(t, s, i);
        PartlyMore(t, was, s, i, m);
        PartlySelf(t, was, s, i + 1, m);
        UpdateMasks(tree[s].children[i], masks[s]);
        i := i + 1;
      }
      PartlyAll(t, was, s, m);
    }

    /** Lines 361-379: the checks cpuset_modify makes before it takes
        cpuset_lock. */
    method MayModify(s: nat, mask: Cpus, privileged: bool, jailed: bool) returns (error: Error)
      requires Sound() && s in Live()
      ensures error == OK <==> privileged && !(jailed && tree[s].root) && InsideParent(tree, masks, s, mask)
      ensures error == OK || error == EPERM || error == EINVAL
    {
      hide Shape, Counted, Healthy;
      HealthyKeys(tree, masks, Deferred());
      if !privileged || (jailed && tree[s].root) {
        return EPERM;
      }
      ParentThere(tree, Deferred(), s);
      if tree[s].parent.Of? && !(mask <= masks[tree[s].parent.p]) {
        return EINVAL;
      }
      error := OK;
    }

    /** Lines 380-387: what cpuset_modify does under cpuset_lock. The mask
        replaces that of the set and restricts the subtree. Neither the set's own
        emptiness nor its place inside its parent is tested here: the tree stays
        in order if and only if the mask is not empty and lies inside the mask
        the parent has by now. */
    method Modify(s: nat, mask: Cpus) returns (error: Error)
      requires Sound() && s in Live()
      modifies `masks
      ensures error == OK <==> AllFit(Live(), old(masks), s, mask, false)
      ensures masks == if error == OK then Restricted(Live(), old(masks)[s := mask], s, mask) else old(masks)
      ensures Sound() <==> error != OK || (mask != {} && InsideParent(tree, old(masks), s, mask))
      ensures error == OK || error == EPERM || error == EDEADLK
    {
      hide Shape, NestedUnder, Restricted, Counted, AllFit, Healthy, InsideParent;
      HealthyKeys(tree, masks, Deferred());
      LiveShape(tree, refs, threads, handles, Deferred());
      HealthyNested(tree, masks, Deferred(), s, masks[s]);
      assert masks[s := masks[s]] == masks;
      error := TestUpdate(s, mask, false);
      if error == OK {
        UpdatedHealthy(tree, masks, Deferred(), s, mask);
        HealthyNested(tree, masks, Deferred(), s, mask);
        masks := masks[s := mask];
        assert mask * mask == mask;
        UpdateMasks(s, mask);
      }
    }

    /** cpuset_modify when nothing comes in between. It succeeds exactly when the
        caller may, the mask lies inside the parent's, no set of the subtree is
        read-only and no descendant would be left without a CPU. The set's own
        emptiness is not checked. */
    method ModifyAlone(s: nat, mask: Cpus, privileged: bool, jailed: bool) returns (error: Error)
      requires Sound() && s in Live()
      modifies `masks
      ensures error == OK <==>
                && privileged && !(jailed && tree[s].root)
                && InsideParent(tree, old(masks), s, mask) && AllFit(Live(), old(masks), s, mask, false)
      ensures masks == if error == OK then Restricted(Live(), old(masks)[s := mask], s, mask) else old(masks)
      ensures Sound() <==> error != OK || mask != {}
    {
      hide Shape, Restricted, Counted, AllFit, Healthy, InsideParent;
      error := MayModify(s, mask, privileged, jailed);
      if error == OK {
        error := Modify(s, mask);
      } else {
        HealthyKeys(tree, masks, Deferred());
      }
    }

    /** Lines 268-275: what _cpuset_create does under cpuset_lock. The mask is
        cut to what the parent has by now: the tree stays in order if and only if
        they still have a CPU in common. */
    method Insert(p: nat, mask: Cpus, anon: bool) returns (id: nat)
      requires Sound() && p in Live() && !tree[p].anon
      modifies `tree, `masks, `refs, `handles, `next
      ensures p in old(masks) && (Sound() <==> old(masks)[p] * mask != {})
      ensures p in old(refs) && id == old(next) && id !in old(tree)
      ensures tree == Added(old(tree), p, id, anon) && masks == old(masks)[id := mask * old(masks)[p]]
      ensures refs == old(refs)[p := old(refs)[p] + 1][id := 1]
      ensures handles == old(handles) + multiset{id} && next == old(next) + 1
    {
      hide Shape, Counted, Healthy;
      HealthyKeys(tree, masks, Deferred());
      id := next;
      AddedShape(tree, Deferred(), p, id, anon);
      CountedAdded(tree, refs, threads, handles, Deferred(), p, id, anon);
      AddedHealthy(tree, masks, Deferred(), p, id, anon, mask * masks[p]);
      CountedKeys(tree, refs, threads, handles, Deferred());
      tree := Added(tree, p, id, anon);
      masks := masks[id := mask * masks[p]];
      refs := refs[p := refs[p] + 1][id := 1];
      handles := handles + multiset{id};
      next := next + 1;
    }

    /** _cpuset_create when nothing comes in between: a new set inside its
        parent, with one reference. */
    method Create(p: nat, mask: Cpus, anon: bool) returns (error: Error, id: nat)
      requires Sound() && p in Live() && !tree[p].anon
      modifies `tree, `masks, `refs, `handles, `next
      ensures Sound() && (error == OK || error == EDEADLK)
      ensures p in old(masks) && p in old(refs) && (error == OK <==> old(masks)[p] * mask != {})
      ensures error != OK ==> tree == old(tree) && masks == old(masks) && refs == old(refs) && handles == old(handles) && next == old(next)
      ensures error == OK ==>
                && id == old(next) && id !in old(tree)
                && tree == Added(old(tree), p, id, anon) && masks == old(masks)[id := mask * old(masks)[p]]
                && refs == old(refs)[p := old(refs)[p] + 1][id := 1]
                && handles == old(handles) + multiset{id} && next == old(next) + 1
    {
      hide Shape, Counted, Healthy;
      HealthyKeys(tree, masks, Deferred());
      CountedKeys(tree, refs, threads, handles, Deferred());
      if masks[p] * mask == {} {
        return EDEADLK, 0;
      }
      id := Insert(p, mask, anon);
      error := OK;
    }

    /** cpuset_ref, also of cpuset_lookup. */
    method Ref(s: nat)
      requires Sound() && s in tree && s !in Deferred()
      modifies `refs, `handles
      ensures Sound() && handles == old(handles) + multiset{s}
      ensures s in old(refs) && refs == old(refs)[s := old(refs)[s] + 1]
    {
      hide Shape, Counted, Healthy;
      CountedKeys(tree, refs, threads, handles, Deferred());
      CountedRef(tree, refs, threads, handles, Deferred(), s);
      refs := refs[s := refs[s] + 1];
      handles := handles + multiset{s};
    }

    /** A new thread shares its creator's set. */
    method Fork(t: nat)
      requires Sound() && t < |threads|
      modifies `refs, `threads
      ensures Sound() && threads == old(threads) + [old(threads)[t]]
      ensures old(threads)[t] in old(refs) && refs == old(refs)[old(threads)[t] := old(refs)[old(threads)[t]] + 1]
    {
      hide Shape, Healthy;
      var s := threads[t];
      assert s in threads;
      ThreadLives(tree, refs, threads, handles, Deferred(), t);
      hide Counted;
      CountedKeys(tree, refs, threads, handles, Deferred());
      CountedRef(tree, refs, threads, handles, Deferred(), s);
      refs := refs[s := refs[s] + 1];
      threads := threads + [s];
    }

    /** cpuset_rel_defer: gives a reference back; with the last one the set
        leaves its parent's list and waits on the drop list. */
    method RelDefer(s: nat)
      requires Sound() && s in handles
      modifies `tree, `refs, `handles, `droplist
      ensures Sound() && handles == old(handles) - multiset{s}
      ensures s in old(refs) && old(refs)[s] > 0 && refs == old(refs)[s := old(refs)[s] - 1]
      ensures droplist == if old(refs)[s] == 1 then [s] + old(droplist) else old(droplist)
      ensures s in old(tree) && tree == if old(refs)[s] == 1 then Detached(old(tree), s) else old(tree)
    {
      hide Shape, Counted, Healthy, Detached;
      CountedKeys(tree, refs, threads, handles, Deferred());
      CountedRel(tree, refs, threads, handles, Deferred(), s);
      BootReference(tree, refs, threads, handles, Deferred(), s);
      refs := refs[s := refs[s] - 1];
      handles := handles - multiset{s};
      if refs[s] == 0 {
        Unlist(s);
      }
    }

    /** Lines 198-201: off the list of children, onto the drop list. */
    method Unlist(s: nat)
      requires Shape(tree, Deferred()) && (forall s :: s in tree ==> s < next) && NoDup(droplist)
      requires Healthy(tree, masks, Deferred()) && Counted(tree, refs, threads, handles, Deferred() + {s})
      requires s in tree && s !in Deferred() && tree[s].parent.Of? && refs.Keys == tree.Keys && refs[s] == 0
      modifies `tree, `droplist
      ensures Sound() && droplist == [s] + old(droplist) && tree == Detached(old(tree), s)
    {
      hide Shape, Counted, Healthy, Detached;
      ParentThere(tree, Deferred(), s);
      Childless(tree, refs, threads, handles, Deferred() + {s}, Deferred(), s);
      DetachedShape(tree, Deferred(), s);
      DetachedHealthy(tree, masks, Deferred(), s);
      CountedDetached(tree, refs, threads, handles, Deferred() + {s}, s);
      DetachedKeys(tree, s);
      ghost var was := Deferred();
      tree := Detached(tree, s);
      droplist := [s] + droplist;
      assert Deferred() == was + {s};
    }

    /** A set of a drop list is freed, and with it its reference on its parent,
        which passes to the caller. */
    method Free(i: nat) returns (p: nat)
      requires Sound() && i < |droplist|
      modifies `tree, `masks, `refs, `handles, `droplist
      ensures Sound() && droplist == old(droplist)[..i] + old(droplist)[i + 1..] && p in handles
      ensures old(droplist)[i] in old(tree) && old(tree)[old(droplist)[i]].parent == Of(p) && p < old(droplist)[i]
      ensures Kept(old(tree), old(masks), tree, masks) && handles == old(handles) + multiset{p}
      ensures var s := old(droplist)[i]; tree == old(tree) - {s} && masks == old(masks) - {s} && refs == old(refs) - {s}
    {
      hide Shape, Counted, Healthy, Detached;
      var s := droplist[i];
      ghost var was := Deferred();
      assert s in was;
      DeferredFacts(tree, was, s);
      p := tree[s].parent.p;
      CountedFreed(tree, refs, threads, handles, was, s);
      FreedShape(tree, was, s);
      FreedHealthy(tree, masks, was, s);
      HealthyKeys(tree, masks, was);
      CountedKeys(tree, refs, threads, handles, was);
      RestOf(droplist, i);
      tree, masks, refs := tree - {s}, masks - {s}, refs - {s};
      handles, droplist := handles + multiset{p}, droplist[..i] + droplist[i + 1..];
      assert Deferred() == was - {s};
    }

    /** cpuset_rel: gives a reference back; a set without any is freed, and so
        on up the tree. */
    method Rel(s: nat)
      requires Sound() && s in handles
      modifies `tree, `masks, `refs, `handles, `droplist
      ensures Sound() && handles == old(handles) - multiset{s} && droplist == old(droplist)
      ensures Kept(old(tree), old(masks), tree, masks) && tree.Keys <= old(tree.Keys)
      ensures s in old(tree) && s in old(refs)
      ensures if old(refs)[s] > 1 then tree == old(tree) && masks == old(masks) && refs == old(refs)[s := old(refs)[s] - 1]
              else forall d :: d in old(tree) && d !in tree ==> IsBelow(old(tree), s, d)
      ensures s in tree <==> old(refs)[s] > 1
      decreases s
    {
      hide Shape, Counted, Healthy, Detached, Kept;
      ghost var tree0, masks0, handles0 := tree, masks, handles;
      CountedRel(tree, refs, threads, handles, Deferred(), s);
      CountedKeys(tree, refs, threads, handles, Deferred());
      HealthyKeys(tree, masks, Deferred());
      BootReference(tree, refs, threads, handles, Deferred(), s);
      KeptSelf(tree, masks);
      refs := refs[s := refs[s] - 1];
      handles := handles - multiset{s};
      if refs[s] == 0 {
        Unlist(s);
        DetachedKept(tree0, masks0, s);
        ghost var tree1 := tree;
        var p := Free(0);
        KeptTwice(tree0, masks0, tree1, masks0, tree, masks);
        ghost var handles1, tree2, masks2 := handles, tree, masks;
        Rel(p);
        KeptTwice(tree0, masks0, tree2, masks2, tree, masks);
        assert handles1 - multiset{p} == handles0 - multiset{s};
        DetachedParents(tree0, s);
        DetachedKeys(tree0, s);
        assert tree2 == Detached(tree0, s) - {s};
        forall d | d in tree0 && d !in tree
          ensures IsBelow(tree0, s, d)
        {
          if d != s {
            assert d in tree2 && IsBelow(tree2, p, d);
            BelowKept(tree0, tree2, p, d);
          }
        }
      }
    }

    /** cpuset_shadow: an anonymous set under the base of `s`. */
    method Shadow(s: nat, mask: Cpus) returns (error: Error, id: nat)
      requires Sound() && s in tree && s !in Deferred()
      modifies `tree, `masks, `refs, `handles, `next
      ensures Sound() && Base(old(tree), s) in old(masks)
      ensures error == OK <==> mask != {} && mask <= old(masks)[Base(old(tree), s)]
      ensures error != OK ==> tree == old(tree) && masks == old(masks) && refs == old(refs) && handles == old(handles) && next == old(next)
      ensures error == OK ==>
                && id !in old(tree) && handles == old(handles) + multiset{id}
                && Grown(old(tree), old(masks), tree, masks)
                && IsMask(tree, masks, id, Base(old(tree), s), mask)
    {
      hide Shape, Counted, Healthy;
      BaseAlive(tree, refs, threads, handles, Deferred(), s);
      HealthyKeys(tree, masks, Deferred());
      var parent := if tree[s].anon then tree[s].parent.p else s;
      if !(mask <= masks[parent]) {
        return EDEADLK, 0;
      }
      assert masks[parent] * mask == mask;
      ghost var tree0, masks0 := tree, masks;
      error, id := Create(parent, mask, true);
      if error == OK {
        AddedGrown(tree0, masks0, parent, id, true, mask);
      }
    }

    /** A thread changes its set; what it had is in the caller's hands. */
    method Swap(t: nat, n: nat)
      requires Sound() && t < |threads| && n in handles
      modifies `threads, `handles
      ensures Sound() && threads == old(threads)[t := n]
      ensures handles == old(handles) - multiset{n} + multiset{old(threads)[t]}
    {
      hide Shape, Healthy, Counted;
      CountedSwap(tree, refs, threads, handles, Deferred(), t, n);
      handles := handles - multiset{n} + multiset{threads[t]};
      threads := threads[t := n];
    }

    /** cpuset_setthread. */
    method SetThread(t: nat, mask: Cpus) returns (error: Error)
      requires Sound() && t < |threads|
      modifies this
      ensures Sound() && handles == old(handles) && droplist == old(droplist)
      ensures old(threads)[t] in old(tree) && Base(old(tree), old(threads)[t]) in old(masks)
      ensures error == OK <==> mask != {} && mask <= old(masks)[Base(old(tree), old(threads)[t])]
      ensures error != OK ==> tree == old(tree) && masks == old(masks) && refs == old(refs) && threads == old(threads)
      ensures |threads| == |old(threads)|
      ensures error == OK ==>
                && threads == old(threads)[t := threads[t]] && threads[t] !in old(tree)
                && IsMask(tree, masks, threads[t], Base(old(tree), old(threads)[t]), mask)
      ensures Undisturbed(old(tree), old(masks), tree, masks)
    {
      hide Shape, Healthy, Counted;
      ghost var tree0, masks0 := tree, masks;
      HealthyKeys(tree, masks, Deferred());
      ThreadLives(tree, refs, threads, handles, Deferred(), t);
      var nset;
      error, nset := Shadow(threads[t], mask);
      if error == OK {
        ghost var tree1, masks1 := tree, masks;
        var set_ := threads[t];
        Swap(t, nset);
        Rel(set_);
        LeftAlone(tree0, masks0, tree1, masks1, tree, masks);
        ThreadLives(tree, refs, threads, handles, Deferred(), t);
      }
    }

    // ---------------------------------------------------------------- cpuset_setproc

    /** Lines 555-580: would the change leave every thread a CPU, inside its base? */
    method TestProc(ts: seq<nat>, change: Change) returns (error: Error)
      requires Sound() && (forall i :: 0 <= i < |ts| ==> ts[i] < |threads|) && ChangeKnown(tree, change)
      ensures forall t :: t in threads ==> t in tree
      ensures masks.Keys == tree.Keys
      ensures error == OK <==> forall i :: 0 <= i < |ts| ==> MayMove(tree, masks, threads[ts[i]], change)
      ensures error == OK || error == EDEADLK
    {
      hide Shape, Healthy, MayMove;
      HealthyKeys(tree, masks, Deferred());
      error := OK;
      var i: nat := 0;
      while i < |ts|
        invariant i <= |ts| && error == OK
        invariant forall j :: 0 <= j < i ==> MayMove(tree, masks, threads[ts[j]], change)
      {
        assert threads[ts[i]] in threads;
        ParentThere(tree, Deferred(), threads[ts[i]]);
        error := TestThread(threads[ts[i]], change);
        if error != OK {
          return;
        }
        i := i + 1;
      }
    }

    method TestThread(s: nat, change: Change) returns (error: Error)
      requires masks.Keys == tree.Keys && s in tree && ChangeKnown(tree, change)
      requires tree[s].parent.Of? ==> tree[s].parent.p in tree
      ensures error == OK <==> MayMove(tree, masks, s, change)
      ensures error == OK || error == EDEADLK
    {
      error := OK;
      match change
      case ToMask(mask) =>
        var tdset := if tree[s].anon && tree[s].parent.Of? then tree[s].parent.p else s;
        if !(mask <= masks[tdset]) {
          error := EDEADLK;
        }
      case ToSet(set_) =>
        if tree[s].anon && masks[set_] * masks[s] == {} {
          error := EDEADLK;
        }
    }

    /** Lines 597-611: the set a thread with set `s` is to get, with a reference
        for it. */
    method SetFor(s: nat, change: Change) returns (error: Error, nset: nat)
      requires Sound() && s in tree && s !in Deferred() && ChangeKnown(tree, change)
      requires change.ToSet? ==> change.s in handles
      modifies `tree, `masks, `refs, `handles, `next
      ensures Sound() && old(masks.Keys) == old(tree.Keys)
      ensures error == OK <==> CanMove(old(tree), old(masks), s, change)
      ensures error != OK ==> tree == old(tree) && masks == old(masks) && refs == old(refs) && handles == old(handles)
      ensures error == OK ==>
                && handles == old(handles) + multiset{nset} && Grown(old(tree), old(masks), tree, masks)
                && Moved(old(tree), old(masks), tree, masks, s, nset, change)
    {
      hide Shape, Healthy, Counted, Grown;
      ghost var tree0, masks0 := tree, masks;
      HealthyKeys(tree, masks, Deferred());
      if change.ToMask? {
        error, nset := Shadow(s, change.mask);
      } else {
        HandleLives(tree, refs, threads, handles, Deferred(), change.s);
        if tree[s].anon {
          error, nset := Create(change.s, masks[s], true);
          if error == OK {
            AddedGrown(tree0, masks0, change.s, nset, true, masks0[s] * masks0[change.s]);
          }
        } else {
          error, nset := OK, change.s;
          Ref(change.s);
          GrownSelf(tree, masks);
        }
      }
    }

    /** Lines 612-613: the thread's old set is given up for later release. */
    method Replace(t: nat, nset: nat)
      requires Sound() && t < |threads| && nset in handles
      modifies `tree, `refs, `threads, `handles, `droplist
      ensures Sound() && threads == old(threads)[t := nset] && handles == old(handles) - multiset{nset}
      ensures old(threads)[t] in old(tree)
      ensures tree == old(tree) || tree == Detached(old(tree), old(threads)[t])
    {
      hide Shape, Healthy, Counted, Detached, Sound;
      var tdset := threads[t];
      Swap(t, nset);
      RelDefer(tdset);
    }

    /** Lines 586-616: one thread gets its new set, exactly when it can at its
        turn; the old one is released later. */
    method MoveThread(t: nat, change: Change) returns (error: Error)
      requires Sound() && t < |threads| && ChangeKnown(tree, change) && (change.ToSet? ==> change.s in handles)
      modifies this
      ensures Sound() && handles == old(handles) && |threads| == |old(threads)|
      ensures old(masks.Keys) == old(tree.Keys) && old(threads)[t] in old(tree)
      ensures error == OK <==> CanMove(old(tree), old(masks), old(threads)[t], change)
      ensures error != OK ==> Same(old(tree), old(masks), old(refs), old(threads), old(droplist))
      ensures error == OK ==>
                && threads == old(threads)[t := threads[t]] && Grown(old(tree), old(masks), tree, masks)
                && Moved(old(tree), old(masks), tree, masks, old(threads)[t], threads[t], change)
    {
      hide Shape, Healthy, Counted, Grown, Moved, CanMove, Detached;
      ThreadLives(tree, refs, threads, handles, Deferred(), t);
      ghost var tree0, masks0, handles0 := tree, masks, handles;
      var tdset, nset := threads[t], 0;
      error, nset := SetFor(tdset, change);
      if error == OK {
        ghost var tree1, masks1 := tree, masks;
        GrownHas(tree0, masks0, tree, masks, tdset);
        Replace(t, nset);
        assert handles == handles0;
        GrownDetached(tree0, masks0, tree1, masks1, tdset);
        MovedDetached(tree0, masks0, tree1, masks1, tdset, nset, change);
      }
    }

    /** The second pass over the threads of a process. It stops at the first
        thread that cannot move; `moved` is the number of those that did. */
    method MoveAll(ts: seq<nat>, change: Change) returns (error: Error, moved: nat)
      requires Sound() && NoDup(ts) && (forall i :: 0 <= i < |ts| ==> ts[i] < |threads|)
      requires ChangeKnown(tree, change) && (change.ToSet? ==> change.s in handles)
      modifies this
      ensures Sound() && handles == old(handles) && |threads| == |old(threads)|
      ensures old(masks.Keys) == old(tree.Keys) && forall t :: t in old(threads) ==> t in old(tree)
      ensures moved <= |ts| && (error == OK <==> moved == |ts|)
      ensures forall i :: 0 <= i < moved ==> CanMove(old(tree), old(masks), old(threads)[ts[i]], change)
      ensures moved < |ts| ==> !CanMove(old(tree), old(masks), old(threads)[ts[moved]], change)
      ensures AllMoved(old(tree), old(masks), old(threads), tree, masks, threads, ts[..moved], change)
      ensures moved == 0 ==> Same(old(tree), old(masks), old(refs), old(threads), old(droplist))
      ensures Grown(old(tree), old(masks), tree, masks)
    {
      hide Shape, Healthy, Counted, Grown, Moved, CanMove;
      ghost var tree0, masks0, threads0 := tree, masks, threads;
      HealthyKeys(tree, masks, Deferred());
      ThreadsIn(tree, refs, threads, handles, Deferred());
      GrownSelf(tree, masks);
      error, moved := OK, 0;
      while moved < |ts|
        invariant moved <= |ts| && error == OK && Sound() && handles == old(handles)
        invariant Grown(tree0, masks0, tree, masks) && |threads| == |threads0|
        invariant forall i :: 0 <= i < moved ==> CanMove(tree0, masks0, threads0[ts[i]], change)
        invariant AllMoved(tree0, masks0, threads0, tree, masks, threads, ts[..moved], change)
        invariant moved == 0 ==> Same(tree0, masks0, old(refs), threads0, old(droplist))
      {
        ghost var tree1, masks1, threads1 := tree, masks, threads;
        var t := ts[moved];
        NotYet(ts, moved);
        assert threads0[t] in threads0;
        HealthyKeys(tree, masks, Deferred());
        CanMoveStill(tree0, masks0, tree, masks, threads0[t], change);
        error := MoveThread(t, change);
        if error != OK {
          return;
        }
        MovedFrom(tree0, masks0, tree1, masks1, tree, masks, threads0[t], threads[t], change);
        AllMovedMore(tree0, masks0, threads0, tree1, masks1, threads1, tree, masks, threads, ts, moved, change);
        GrownTwice(tree0, masks0, tree1, masks1, tree, masks);
        moved := moved + 1;
      }
    }

    /** Lines 620-621: the sets left without references are freed. */
    method ReleaseAll()
      requires Sound()
      modifies `tree, `masks, `refs, `handles, `droplist
      ensures Valid() && handles == old(handles) && Kept(old(tree), old(masks), tree, masks)
      ensures old(droplist) == [] ==> tree == old(tree) && masks == old(masks) && refs == old(refs)
    {
      hide Shape, Healthy, Counted, Kept;
      ghost var tree0, masks0 := tree, masks;
      HealthyKeys(tree, masks, Deferred());
      KeptSelf(tree, masks);
      while droplist != []
        invariant Sound() && handles == old(handles) && Kept(tree0, masks0, tree, masks)
        invariant old(droplist) == [] ==> tree == tree0 && masks == masks0 && refs == old(refs) && droplist == []
        decreases |droplist|
      {
        ghost var tree1, masks1 := tree, masks;
        var p := Free(0);
        KeptTwice(tree0, masks0, tree1, masks1, tree, masks);
        ghost var tree2, masks2 := tree, masks;
        Rel(p);
        KeptTwice(tree0, masks0, tree2, masks2, tree, masks);
      }
    }

    /** What cpuset_setproc does after its check, however long ago that was: the
        threads before the first that cannot move have moved, the others are as
        they were. So it is all or nothing if and only if all can move or the
        first one cannot. */
    method MoveProc(ts: seq<nat>, change: Change) returns (error: Error, moved: nat)
      requires Valid() && NoDup(ts) && (forall i :: 0 <= i < |ts| ==> ts[i] < |threads|)
      requires ChangeKnown(tree, change) && (change.ToSet? ==> change.s in handles)
      modifies this
      ensures Valid() && handles == old(handles) && |threads| == |old(threads)|
      ensures old(masks.Keys) == old(tree.Keys) && forall t :: t in old(threads) ==> t in old(tree)
      ensures moved <= |ts| && (error == OK <==> moved == |ts|)
      ensures forall i :: 0 <= i < moved ==> CanMove(old(tree), old(masks), old(threads)[ts[i]], change)
      ensures moved < |ts| ==> !CanMove(old(tree), old(masks), old(threads)[ts[moved]], change)
      ensures AllMoved(old(tree), old(masks), old(threads), tree, masks, threads, ts[..moved], change)
      ensures moved == 0 ==> Same(old(tree), old(masks), old(refs), old(threads), [])
      ensures Undisturbed(old(tree), old(masks), tree, masks)
    {
      hide Shape, Healthy, Counted, Moved, CanMove, Grown, Kept, Undisturbed;
      ghost var tree0, masks0, threads0 := tree, masks, threads;
      error, moved := MoveAll(ts, change);
      ghost var tree1, masks1 := tree, masks;
      ReleaseAll();
      LeftAlone(tree0, masks0, tree1, masks1, tree, masks);
      ThreadsIn(tree, refs, threads, handles, Deferred());
      AllMovedKept(tree0, masks0, threads0, tree1, masks1, tree, masks, threads, ts[..moved], change);
    }

    /** cpuset_setproc for a process with threads `ts` when nothing comes in
        between: all or nothing. It succeeds exactly when every thread can move;
        otherwise nothing has changed at all. */
    method SetProc(ts: seq<nat>, change: Change) returns (error: Error)
      requires Valid() && ts != [] && NoDup(ts) && (forall i :: 0 <= i < |ts| ==> ts[i] < |threads|)
      requires ChangeKnown(tree, change) && (change.ToSet? ==> change.s in handles)
      modifies this
      ensures Valid() && handles == old(handles) && |threads| == |old(threads)|
      ensures old(masks.Keys) == old(tree.Keys) && forall t :: t in old(threads) ==> t in old(tree)
      ensures error == OK <==> forall i :: 0 <= i < |ts| ==> CanMove(old(tree), old(masks), old(threads)[ts[i]], change)
      ensures error != OK ==> Same(old(tree), old(masks), old(refs), old(threads), [])
      ensures error == OK ==> AllMoved(old(tree), old(masks), old(threads), tree, masks, threads, ts, change)
      ensures Undisturbed(old(tree), old(masks), tree, masks)
    {
      hide Shape, Healthy, Counted, Moved, MayMove, Grown, Kept, Undisturbed;
      HealthyKeys(tree, masks, Deferred());
      ThreadsIn(tree, refs, threads, handles, Deferred());
      error := TestProc(ts, change);
      GrownSelf(tree, masks);
      KeptSelf(tree, masks);
      LeftAlone(tree, masks, tree, masks, tree, masks);
      if error != OK {
        return;
      }
      var moved;
      error, moved := MoveProc(ts, change);
      if moved > 0 {
        assert CanMove(old(tree), old(masks), old(threads)[ts[0]], change);
      }
      assert ts[..|ts|] == ts;
    }

    // ---------------------------------------------------------------- all runs

    predicate Enabled(a: Action)
      reads this
    {
      Possible(a, Now())
    }

    /** What the checks made before cpuset_lock was taken have not prevented:
        an update with an empty mask or one the parent no longer covers, and a
        new set without a CPU in common with its parent. */
    predicate Breaks(a: Action)
      requires Sound()
      reads this
    {
      Enabled(a)
      && match a
         case Update(s, mask) =>
           s in Live() && Live().Keys <= masks.Keys && AllFit(Live(), masks, s, mask, false)
           && !(mask != {} && InsideParent(tree, masks, s, mask))
         case Link(p, mask, _) => p in masks && masks[p] * mask == {}
         case _ => false
    }

    method Step(a: Action)
      requires Sound() && Enabled(a)
      modifies this
      ensures Sound() <==> !old(Breaks(a))
      ensures Did(a, old(Now()), Now())
    {
      hide Shape, Healthy, Counted, AllFit, InsideParent, Kept, Restricted, Detached, Added, IsBelow;
      match a
      case Update(s, mask) =>
        HandleLives(tree, refs, threads, handles, Deferred(), s);
        HealthyKeys(tree, masks, Deferred());
        var _ := Modify(s, mask);
      case Link(p, mask, anon) => var _ := Insert(p, mask, anon);
      case Take(s) => Ref(s);
      case Give(s) => Rel(s);
      case GiveLater(s) => RelDefer(s);
      case Finish(i) => var _ := Free(i);
      case Spawn(t) => Fork(t);
      case Exchange(t, n) => Swap(t, n);
    }

    /** Any number of callers, each of whose actions may come at any time; an
        action that cannot happen at its turn is left out. All promises hold
        after each action, up to one that breaks them: `n` actions have been
        taken, as `trace` records, and the next one, if any, is of that kind. */
    method Run(actions: seq<Action>) returns (n: nat, ghost trace: seq<State>)
      requires Sound()
      modifies this
      ensures Sound() && n <= |actions| && (n < |actions| ==> Breaks(actions[n]))
      ensures Traced(actions[..n], trace) && trace[0] == old(Now()) && trace[n] == Now()
      ensures forall s :: s in tree ==> SetPromised(s)
      ensures forall t :: 0 <= t < |threads| ==> ThreadPromised(t)
    {
      hide Sound, SetPromised, ThreadPromised, Followed;
      n, trace := 0, [Now()];
      while n < |actions| && !Breaks(actions[n])
        invariant n <= |actions| && Sound()
        invariant Traced(actions[..n], trace) && trace[0] == old(Now()) && trace[n] == Now()
      {
        StepIf(actions[n]);
        TracedMore(actions, n, trace, Now());
        trace := trace + [Now()];
        n := n + 1;
      }
      forall s | s in tree ensures SetPromised(s) {
        SetPromise(s);
      }
      forall t | 0 <= t < |threads| ensures ThreadPromised(t) {
        ThreadPromise(t);
      }
    }

    method StepIf(a: Action)
      requires Sound() && !Breaks(a)
      modifies this
      ensures Sound() && Followed(a, old(Now()), Now())
    {
      hide Did;
      if Enabled(a) {
        Step(a);
      }
    }

    /** Every reference is counted, only sets without any wait for their release,
        and a set in use has a CPU, none outside its parent, and a parent that is
        in use. */
    ghost predicate SetPromised(s: nat)
      requires s in tree
      reads this
    {
      && s in refs && refs[s] == Holders(tree, threads, handles, s) && (refs[s] == 0 <==> s in droplist)
      && (s !in droplist ==>
           && s in masks && masks[s] != {}
           && (tree[s].parent.Of? ==>
                && tree[s].parent.p in tree && tree[s].parent.p !in droplist && tree[s].parent.p in masks
                && masks[s] <= masks[tree[s].parent.p]))
    }

    lemma SetPromise(s: nat)
      requires Sound() && s in tree
      ensures SetPromised(s)
    {
      assert ShapeAt(tree, Deferred(), s) && CountedAt(tree, refs[s], threads, handles, Deferred(), s);
      if s !in droplist {
        assert HealthyAt(tree, masks, s);
        if tree[s].parent.Of? {
          var p := tree[s].parent.p;
          assert s in Kids(tree, p) && CountedAt(tree, refs[p], threads, handles, Deferred(), p);
        }
      }
    }

    /** A thread's set is in use; the thread has a CPU to run on, and only such
        CPUs as its base has. */
    ghost predicate ThreadPromised(t: nat)
      requires t < |threads|
      reads this
    {
      var s := threads[t];
      && s in tree && s !in droplist && s in masks && masks[s] != {}
      && Base(tree, s) in masks && masks[s] <= masks[Base(tree, s)]
    }

    lemma ThreadPromise(t: nat)
      requires Sound() && t < |threads|
      ensures ThreadPromised(t)
    {
      ThreadLives(tree, refs, threads, handles, Deferred(), t);
      SetPromise(threads[t]);
    }

    ghost predicate Same(tree': Nodes, masks': Masks, refs': map<nat, nat>, threads': seq<nat>, droplist': seq<nat>)
      reads this
    {
      tree == tree' && masks == masks' && refs == refs' && threads == threads' && droplist == droplist'
    }
  }

  /** What a caller does to the tree in one piece: the locked parts of
      cpuset_modify and _cpuset_create, a reference taken or given back, a waiting
      set freed, a new thread, a thread that changes its set. */
  datatype Action =
    | Update(s: nat, mask: Cpus)
    | Link(p: nat, mask: Cpus, anon: bool)
    | Take(s: nat)
    | Give(s: nat)
    | GiveLater(s: nat)
    | Finish(i: nat)
    | Spawn(t: nat)
    | Exchange(t: nat, n: nat)

  /** The two cases of cpuset_setproc. */
  datatype Change = ToSet(s: nat) | ToMask(mask: Cpus)

  predicate ChangeKnown(tree: Nodes, change: Change) {
    change.ToSet? ==> change.s in tree && !tree[change.s].anon
  }

  /** The test made of each thread before anything is changed. */
  predicate MayMove(tree: Nodes, masks: Masks, s: nat, change: Change)
    requires masks.Keys == tree.Keys && s in tree && ChangeKnown(tree, change)
  {
    match change
    case ToMask(mask) => Base(tree, s) in masks && mask <= masks[Base(tree, s)]
    case ToSet(new_) => tree[s].anon ==> masks[new_] * masks[s] != {}
  }

  /** The move itself fails where the test would, and for an empty mask. */
  predicate CanMove(tree: Nodes, masks: Masks, s: nat, change: Change)
    requires masks.Keys == tree.Keys && s in tree && ChangeKnown(tree, change)
  {
    change != ToMask({}) && MayMove(tree, masks, s, change)
  }

  /** The set a thread with set `s` gets: a mask under its base, a mask under
      the new set restricted by its own, or the new set itself. */
  predicate Moved(tree: Nodes, masks: Masks, tree': Nodes, masks': Masks, s: nat, n: nat, change: Change) {
    && s in tree && s in masks
    && match change
       case ToMask(mask) => n !in tree && IsMask(tree', masks', n, Base(tree, s), mask)
       case ToSet(new_) =>
         new_ in masks && if tree[s].anon then n !in tree && IsMask(tree', masks', n, new_, masks[s] * masks[new_]) else n == new_
  }

  lemma GrownSelf(tree: Nodes, masks: Masks)
    requires masks.Keys == tree.Keys
    ensures Grown(tree, masks, tree, masks)
  {
  }

  lemma GrownHas(tree: Nodes, masks: Masks, tree': Nodes, masks': Masks, s: nat)
    requires Grown(tree, masks, tree', masks') && s in tree
    ensures s in tree' && tree'[s].parent == tree[s].parent && tree'[s].anon == tree[s].anon
  {
  }

  lemma GrownDetached(tree: Nodes, masks: Masks, tree': Nodes, masks': Masks, s: nat)
    requires Grown(tree, masks, tree', masks') && s in tree'
    ensures Grown(tree, masks, Detached(tree', s), masks')
  {
  }

  lemma MovedDetached(tree: Nodes, masks: Masks, tree': Nodes, masks': Masks, s: nat, n: nat, change: Change)
    requires Moved(tree, masks, tree', masks', s, n, change) && s in tree'
    ensures Moved(tree, masks, Detached(tree', s), masks', s, n, change)
  {
  }

  /** The threads `ts` have moved, the others have not. */
  ghost predicate AllMoved(tree: Nodes, masks: Masks, threads: seq<nat>, tree': Nodes, masks': Masks, threads': seq<nat>, ts: seq<nat>, change: Change) {
    && |threads'| == |threads|
    && (forall i :: 0 <= i < |ts| && ts[i] < |threads| ==> Moved(tree, masks, tree', masks', threads[ts[i]], threads'[ts[i]], change))
    && (forall t :: 0 <= t < |threads| && t !in ts ==> threads'[t] == threads[t])
  }

  /** A set there before and after has kept all but its list of children. */
  ghost predicate Undisturbed(tree: Nodes, masks: Masks, tree': Nodes, masks': Masks) {
    forall s :: s in tree && s in tree' ==> SameSet(tree, masks, tree', masks', s)
  }

  lemma LeftAlone(tree: Nodes, masks: Masks, tree1: Nodes, masks1: Masks, tree2: Nodes, masks2: Masks)
    requires Grown(tree, masks, tree1, masks1) && Kept(tree1, masks1, tree2, masks2)
    ensures Undisturbed(tree, masks, tree2, masks2)
  {
    forall s | s in tree && s in tree2
      ensures SameSet(tree, masks, tree2, masks2, s)
    {
      assert SameSet(tree, masks, tree1, masks1, s);
      assert SameSet(tree1, masks1, tree2, masks2, s);
    }
  }

  lemma RestOf(s: seq<nat>, i: nat)
    requires NoDup(s) && i < |s|
    ensures NoDup(s[..i] + s[i + 1..]) && forall x :: x in s[..i] + s[i + 1..] <==> x in s && x != s[i]
  {
    forall x | x in s && x != s[i]
      ensures x in s[..i] + s[i + 1..]
    {
      var j :| 0 <= j < |s| && s[j] == x;
      assert x == (s[..i] + s[i + 1..])[if j < i then j else j - 1];
    }
  }

  lemma NotYet(ts: seq<nat>, i: nat)
    requires NoDup(ts) && i < |ts|
    ensures ts[i] !in ts[..i]
  {
  }

  lemma GrownTwice(tree: Nodes, masks: Masks, tree1: Nodes, masks1: Masks, tree2: Nodes, masks2: Masks)
    requires Grown(tree, masks, tree1, masks1) && Grown(tree1, masks1, tree2, masks2)
    ensures Grown(tree, masks, tree2, masks2)
  {
    forall s | s in tree
      ensures s in tree2 && SameSet(tree, masks, tree2, masks2, s)
    {
      assert SameSet(tree, masks, tree1, masks1, s);
      assert SameSet(tree1, masks1, tree2, masks2, s);
    }
  }

  lemma CanMoveStill(tree: Nodes, masks: Masks, tree': Nodes, masks': Masks, s: nat, change: Change)
    requires Grown(tree, masks, tree', masks') && masks.Keys == tree.Keys && masks'.Keys == tree'.Keys
    requires s in tree && ChangeKnown(tree, change) && Base(tree, s) in tree
    ensures s in tree' && ChangeKnown(tree', change) && (CanMove(tree', masks', s, change) <==> CanMove(tree, masks, s, change))
  {
    assert SameSet(tree, masks, tree', masks', s);
    assert change.ToSet? ==> SameSet(tree, masks, tree', masks', change.s);
    assert change.ToMask? ==> SameSet(tree, masks, tree', masks', Base(tree, s));
  }

  /** A move seen from an earlier state. */
  lemma MovedFrom(tree: Nodes, masks: Masks, tree1: Nodes, masks1: Masks, tree2: Nodes, masks2: Masks, s: nat, n: nat, change: Change)
    requires Grown(tree, masks, tree1, masks1) && masks.Keys == tree.Keys && s in tree && ChangeKnown(tree, change)
    requires Moved(tree1, masks1, tree2, masks2, s, n, change)
    ensures Moved(tree, masks, tree2, masks2, s, n, change)
  {
    assert SameSet(tree, masks, tree1, masks1, s);
    assert change.ToSet? ==> SameSet(tree, masks, tree1, masks1, change.s);
    assert n in tree ==> n in tree1;
  }

  lemma MovedOn(tree: Nodes, masks: Masks, tree1: Nodes, masks1: Masks, tree2: Nodes, masks2: Masks, s: nat, n: nat, change: Change)
    requires Moved(tree, masks, tree1, masks1, s, n, change)
    requires n in tree1 ==> n in tree2 && SameSet(tree1, masks1, tree2, masks2, n)
    ensures Moved(tree, masks, tree2, masks2, s, n, change)
  {
  }

  lemma AllMovedMore(tree: Nodes, masks: Masks, threads: seq<nat>, tree1: Nodes, masks1: Masks, threads1: seq<nat>,
                     tree2: Nodes, masks2: Masks, threads2: seq<nat>, ts: seq<nat>, i: nat, change: Change)
    requires i < |ts| && ts[i] < |threads| == |threads1| && NoDup(ts)
    requires AllMoved(tree, masks, threads, tree1, masks1, threads1, ts[..i], change)
    requires Grown(tree1, masks1, tree2, masks2) && |threads2| == |threads1| && threads2 == threads1[ts[i] := threads2[ts[i]]]
    requires Moved(tree, masks, tree2, masks2, threads[ts[i]], threads2[ts[i]], change)
    ensures AllMoved(tree, masks, threads, tree2, masks2, threads2, ts[..i + 1], change)
  {
    hide Moved;
    forall j | 0 <= j < i && ts[j] < |threads|
      ensures Moved(tree, masks, tree2, masks2, threads[ts[j]], threads2[ts[j]], change)
    {
      assert ts[..i][j] == ts[j];
      MovedOn(tree, masks, tree1, masks1, tree2, masks2, threads[ts[j]], threads1[ts[j]], change);
    }
    assert forall t :: t in ts[..i + 1] <==> t in ts[..i] || t == ts[i];
  }

  lemma AllMovedKept(tree: Nodes, masks: Masks, threads: seq<nat>, tree1: Nodes, masks1: Masks,
                     tree2: Nodes, masks2: Masks, threads': seq<nat>, ts: seq<nat>, change: Change)
    requires AllMoved(tree, masks, threads, tree1, masks1, threads', ts, change)
    requires Kept(tree1, masks1, tree2, masks2) && forall t :: t in threads' ==> t in tree2
    ensures AllMoved(tree, masks, threads, tree2, masks2, threads', ts, change)
  {
    hide Moved;
    forall j | 0 <= j < |ts| && ts[j] < |threads|
      ensures Moved(tree, masks, tree2, masks2, threads[ts[j]], threads'[ts[j]], change)
    {
      assert threads'[ts[j]] in threads';
      MovedOn(tree, masks, tree1, masks1, tree2, masks2, threads[ts[j]], threads'[ts[j]], change);
    }
  }

  lemma ThreadsIn(tree: Nodes, refs: map<nat, nat>, threads: seq<nat>, handles: multiset<nat>, deferred: set<nat>)
    requires Shape(tree, deferred) && Counted(tree, refs, threads, handles, deferred)
    ensures forall t :: t in threads ==> t in tree && Base(tree, t) in tree
  {
    forall t | t in threads
      ensures t in tree && Base(tree, t) in tree
    {
      ParentThere(tree, deferred, t);
    }
  }

  lemma HandleLives(tree: Nodes, refs: map<nat, nat>, threads: seq<nat>, handles: multiset<nat>, deferred: set<nat>, s: nat)
    requires Counted(tree, refs, threads, handles, deferred) && s in handles
    ensures s in tree && s !in deferred
  {
    assert CountedAt(tree, refs[s], threads, handles, deferred, s);
  }

  /** The named set a thread with set `s` belongs to. */
  function Base(tree: Nodes, s: nat): nat
    requires s in tree
  {
    if tree[s].anon && tree[s].parent.Of? then tree[s].parent.p else s
  }

  /** `id` is an anonymous set under `p` with mask `m`. */
  predicate IsMask(tree: Nodes, masks: Masks, id: nat, p: nat, m: Cpus) {
    id in tree && tree[id].anon && tree[id].parent == Of(p) && id in masks && masks[id] == m
  }

  predicate SameSet(tree: Nodes, masks: Masks, tree': Nodes, masks': Masks, s: nat)
    requires s in tree && s in tree'
  {
    && tree'[s] == tree[s].(children := tree'[s].children)
    && s in masks && s in masks' && masks'[s] == masks[s]
  }

  /** Sets may have gone; those left are the same but for lists of children. */
  ghost predicate Kept(tree: Nodes, masks: Masks, tree': Nodes, masks': Masks) {
    forall s :: s in tree' ==> s in tree && SameSet(tree, masks, tree', masks', s)
  }

  /** Sets may have been added; those there before are the same. */
  ghost predicate Grown(tree: Nodes, masks: Masks, tree': Nodes, masks': Masks) {
    forall s :: s in tree ==> s in tree' && SameSet(tree, masks, tree', masks', s)
  }

  lemma AddedGrown(tree: Nodes, masks: Masks, p: nat, id: nat, anon: bool, m: Cpus)
    requires p in tree && id !in tree && masks.Keys == tree.Keys
    ensures Grown(tree, masks, Added(tree, p, id, anon), masks[id := m])
  {
  }

  lemma KeptSelf(tree: Nodes, masks: Masks)
    requires masks.Keys == tree.Keys
    ensures Kept(tree, masks, tree, masks)
  {
  }

  lemma KeptTwice(tree: Nodes, masks: Masks, tree1: Nodes, masks1: Masks, tree2: Nodes, masks2: Masks)
    requires Kept(tree, masks, tree1, masks1) && Kept(tree1, masks1, tree2, masks2)
    ensures Kept(tree, masks, tree2, masks2)
  {
    forall s | s in tree2
      ensures s in tree && SameSet(tree, masks, tree2, masks2, s)
    {
      assert SameSet(tree1, masks1, tree2, masks2, s);
      assert SameSet(tree, masks, tree1, masks1, s);
    }
  }

  lemma DetachedKept(tree: Nodes, masks: Masks, d: nat)
    requires d in tree && masks.Keys == tree.Keys
    ensures Kept(tree, masks, Detached(tree, d), masks)
  {
  }

  lemma DeferredFacts(tree: Nodes, deferred: set<nat>, s: nat)
    requires Shape(tree, deferred) && s in deferred
    ensures s in tree && tree[s].parent.Of? && tree[s].parent.p in tree && tree[s].parent.p < s
  {
    assert ShapeAt(tree, deferred, s);
  }

  /** The set without a parent keeps the reference taken at boot. */
  lemma BootReference(tree: Nodes, refs: map<nat, nat>, threads: seq<nat>, handles: multiset<nat>, deferred: set<nat>, s: nat)
    requires Counted(tree, refs, threads, handles, deferred) && s in handles && s in tree && s in refs
    ensures tree[s].parent == NoParent ==> refs[s] > 1
  {
    assert CountedAt(tree, refs[s], threads, handles, deferred, s);
  }

  /** A live set's base is alive too. */
  lemma BaseAlive(tree: Nodes, refs: map<nat, nat>, threads: seq<nat>, handles: multiset<nat>, deferred: set<nat>, s: nat)
    requires Counted(tree, refs, threads, handles, deferred) && Shape(tree, deferred)
    requires s in tree && s !in deferred
    ensures var b := Base(tree, s); b in tree && b !in deferred && !tree[b].anon
    ensures tree[s].anon ==> tree[s].parent.Of?
  {
    assert ShapeAt(tree, deferred, s);
    if tree[s].anon {
      var p := tree[s].parent.p;
      assert CountedAt(tree, refs[p], threads, handles, deferred, p);
      assert s in Kids(tree, p);
    }
  }

  lemma ParentThere(tree: Nodes, deferred: set<nat>, s: nat)
    requires Shape(tree, deferred) && s in tree
    ensures tree[s].parent.Of? ==> tree[s].parent.p in tree && tree[s].parent.p < s && !tree[tree[s].parent.p].anon
  {
    assert ShapeAt(tree, deferred, s);
  }

  lemma DetachedParents(tree: Nodes, d: nat)
    requires d in tree
    ensures forall y :: y in Detached(tree, d) ==> y in tree && tree[y].parent == Detached(tree, d)[y].parent
  {
  }

  lemma DetachedKeys(tree: Nodes, d: nat)
    requires d in tree
    ensures Detached(tree, d).Keys == tree.Keys
  {
  }

  /** A set without references has no children. */
  lemma Childless(tree: Nodes, refs: map<nat, nat>, threads: seq<nat>, handles: multiset<nat>, zero: set<nat>, deferred: set<nat>, s: nat)
    requires Counted(tree, refs, threads, handles, zero) && Shape(tree, deferred) && s in tree && refs[s] == 0
    ensures tree[s].children == [] && Kids(tree, s) == {}
  {
    var cs := tree[s].children;
    assert cs == [] || cs[0] in cs;
    assert CountedAt(tree, refs[s], threads, handles, zero, s);
    assert Kids(tree, s) == {};
    assert ShapeAt(tree, deferred, s);
    assert forall c :: c in tree[s].children ==> c in Kids(tree, s);
  }

  lemma HealthyKeys(tree: Nodes, masks: Masks, deferred: set<nat>)
    requires Healthy(tree, masks, deferred)
    ensures masks.Keys == tree.Keys
  {
  }

  lemma CountedKeys(tree: Nodes, refs: map<nat, nat>, threads: seq<nat>, handles: multiset<nat>, deferred: set<nat>)
    requires Counted(tree, refs, threads, handles, deferred)
    ensures refs.Keys == tree.Keys
  {
  }

  lemma ThreadLives(tree: Nodes, refs: map<nat, nat>, threads: seq<nat>, handles: multiset<nat>, deferred: set<nat>, t: nat)
    requires Counted(tree, refs, threads, handles, deferred) && t < |threads|
    ensures threads[t] in tree && threads[t] !in deferred
  {
    var s := threads[t];
    assert s in threads && multiset(threads)[s] > 0;
    assert CountedAt(tree, refs[s], threads, handles, deferred, s);
  }

  lemma NoneFirst(tree: Nodes, masks: Masks, s: nat, m: Cpus)
    requires tree.Keys <= masks.Keys && s in tree
    ensures FirstFit(tree, masks, s, 0, m)
  {
  }

  lemma FirstFitPart(tree: Nodes, masks: Masks, s: nat, n: nat, m: Cpus)
    requires tree.Keys <= masks.Keys && s in tree && n <= |tree[s].children|
    ensures FirstFit(tree, masks, s, |tree[s].children|, m) ==> FirstFit(tree, masks, s, n, m)
  {
    var cs := tree[s].children;
    forall d | d in tree && BelowSome(tree, d, cs[..n])
      ensures BelowSome(tree, d, cs[..|cs|])
    {
      var i :| 0 <= i < n && IsBelow(tree, d, cs[..n][i]);
      assert cs[..|cs|][i] == cs[i];
    }
  }

  lemma ReadOnlyBelow(tree: Nodes, c: nat, s: nat)
    requires IsBelow(tree, c, s)
    ensures (exists d :: d in tree && IsBelow(tree, d, c) && tree[d].rdonly) ==>
              exists d :: d in tree && IsBelow(tree, d, s) && tree[d].rdonly
  {
    if d :| d in tree && IsBelow(tree, d, c) && tree[d].rdonly {
      BelowTrans(tree, d, c, s);
    }
  }

  lemma PartlyNone(tree: Nodes, masks: Masks, s: nat, m: Cpus)
    requires s in tree && s in masks && m <= masks[s]
    ensures masks[s := m] == Partly(tree, masks, s, 0, m)
  {
    assert masks[s] * m == m;
  }

  lemma PartlySelf(tree: Nodes, masks: Masks, s: nat, n: nat, m: Cpus)
    requires s in tree && s in masks && n <= |tree[s].children| && m <= masks[s]
    ensures Partly(tree, masks, s, n, m).Keys == masks.Keys && Partly(tree, masks, s, n, m)[s] == m
  {
    assert masks[s] * m == m;
  }

  // ---------------------------------------------------------------- what can come in between

  /** A set without children takes any mask. */
  lemma LeafFits(tree: Nodes, masks: Masks, s: nat, m: Cpus)
    requires tree.Keys <= masks.Keys && Shape(tree, {}) && s in tree && tree[s].children == [] && !tree[s].rdonly
    ensures AllFit(tree, masks, s, m, false)
  {
    forall d | d in tree
      ensures !(d != s && IsBelow(tree, d, s))
    {
      BelowList(tree, s, d);
    }
  }

  method ParentAndChild() returns (c: Cpusets, s: nat)
    ensures fresh(c) && c.Valid() && c.tree.Keys == {0, s} && s != 0
    ensures c.tree[0] == Node(NoParent, [s], false, false, true) && c.tree[s] == Node(Of(0), [], false, false, false)
    ensures c.masks == map[0 := {0, 1}, s := {0, 1}]
  {
    hide Shape, Counted, Healthy;
    c := new Cpusets({0, 1});
    c.LiveTree();
    var error;
    assert 0 in {0, 1} * {0, 1};
    error, s := c.Create(0, {0, 1}, false);
    assert {0, 1} * {0, 1} == {0, 1};
  }

  /** Between the check and the locked part of one cpuset_modify the parent can
      shrink: the child ends with a CPU its parent does not have. */
  method OutgrownParent() returns (c: Cpusets, s: nat)
    ensures fresh(c) && !c.Sound() && s in c.tree && s in c.masks && c.tree[s].parent == Of(0) && 0 in c.masks
    ensures c.masks[0] == {0} && c.masks[s] == {0, 1}
  {
    hide Shape, Counted, Healthy, AllFit, IsBelow;
    c, s := ParentAndChild();
    var error := c.MayModify(s, {0, 1}, true, false);
    assert error == OK;
    c.LiveTree();
    assert 0 in {0, 1} * {0};
    OneChildFits(c.tree, c.masks, 0, s, {0});
    error := c.Modify(0, {0});
    RootMask(c.tree, map[0 := {0, 1}, s := {0, 1}], 0, {0});
    c.LiveTree();
    LeafFits(c.tree, c.masks, s, {0, 1});
    ghost var was := c.masks;
    error := c.Modify(s, {0, 1});
    RootMask(c.tree, was, s, {0, 1});
    ApartMask(c.tree, was, s, {0, 1}, 0);
    assert 1 !in was[0];
  }

  /** The set an update starts at gets the mask. */
  lemma RootMask(tree: Nodes, masks: Masks, s: nat, m: Cpus)
    requires s in masks
    ensures s in Restricted(tree, masks[s := m], s, m) && Restricted(tree, masks[s := m], s, m)[s] == m
  {
    assert IsBelow(tree, s, s) && m * m == m;
  }

  /** A set that is not below keeps its mask. */
  lemma ApartMask(tree: Nodes, masks: Masks, s: nat, m: Cpus, d: nat)
    requires d in masks && d != s && d in tree && (tree[d].parent.Of? ==> tree[d].parent.p == 0 && s != 0)
    requires 0 in tree && !tree[0].parent.Of?
    ensures d in Restricted(tree, masks[s := m], s, m) && Restricted(tree, masks[s := m], s, m)[d] == masks[d]
  {
    assert !IsBelow(tree, d, s);
  }

  lemma OneChildFits(tree: Nodes, masks: Masks, s: nat, c: nat, m: Cpus)
    requires tree.Keys == masks.Keys == {s, c} && Shape(tree, {}) && tree[s].children == [c] && !tree[s].rdonly && !tree[c].rdonly
    requires masks[c] * m != {}
    ensures AllFit(tree, masks, s, m, false)
  {
  }

  /** Between the test and the insertion of _cpuset_create the parent can lose
      the CPUs that overlapped: the new set has none. */
  method CreatedEmpty() returns (c: Cpusets, id: nat)
    ensures fresh(c) && !c.Sound() && id in c.masks && c.masks[id] == {}
  {
    hide Shape, Counted, Healthy, AllFit;
    c := new Cpusets({0, 1});
    assert 1 in c.masks[0] * {1};
    c.LiveTree();
    LeafFits(c.Live(), c.masks, 0, {0});
    var error := c.Modify(0, {0});
    assert {0} * {0} == {0} && IsBelow(c.Live(), 0, 0);
    assert c.masks[0] == {0};
    id := c.Insert(0, {1}, false);
  }

  /** Two threads under the first set, one of them bound to a CPU. */
  method OneBound() returns (c: Cpusets)
    ensures fresh(c) && c.Valid() && |c.threads| == 2 && c.threads[1] == 0 && IsMask(c.tree, c.masks, c.threads[0], 0, {0})
    ensures 0 in c.tree && c.tree[0].parent == NoParent && !c.tree[0].anon && 0 in c.masks && c.masks[0] == {0, 1}
  {
    hide Shape, Counted, Healthy, Kids;
    c := new Cpusets({0, 1});
    c.Fork(0);
    ghost var tree0, masks0 := c.tree, c.masks;
    var e := c.SetThread(0, {0});
    c.ThreadPromise(1);
    assert SameSet(tree0, masks0, c.tree, c.masks, 0);
  }

  /** Two threads, each bound to a CPU of its own. */
  method BothBound() returns (c: Cpusets)
    ensures fresh(c) && c.Valid() && |c.threads| == 2
    ensures IsMask(c.tree, c.masks, c.threads[0], 0, {0}) && IsMask(c.tree, c.masks, c.threads[1], 0, {1})
    ensures 0 in c.tree && c.tree[0].parent == NoParent && !c.tree[0].anon && 0 in c.masks && c.masks[0] == {0, 1}
  {
    hide Shape, Counted, Healthy, Kids;
    c := OneBound();
    ghost var a, tree1, masks1 := c.threads[0], c.tree, c.masks;
    var e := c.SetThread(1, {1});
    c.ThreadPromise(0);
    c.SetPromise(c.threads[0]);
    assert c.threads[0] == a;
    assert SameSet(tree1, masks1, c.tree, c.masks, a) && SameSet(tree1, masks1, c.tree, c.masks, 0);
  }

  /** The same with a set that has both CPUs. */
  method TwoThreads() returns (c: Cpusets, n: nat)
    ensures fresh(c) && c.Valid() && |c.threads| == 2 && n in c.handles && n in c.tree && n in c.masks
    ensures c.tree[n].children == [] && !c.tree[n].rdonly && !c.tree[n].anon && c.masks[n] == {0, 1}
    ensures IsMask(c.tree, c.masks, c.threads[0], 0, {0}) && IsMask(c.tree, c.masks, c.threads[1], 0, {1})
    ensures c.tree[n].parent == Of(0) && 0 in c.tree && c.tree[0].parent == NoParent
  {
    hide Shape, Counted, Healthy, Kids;
    c := BothBound();
    c.LiveTree();
    assert 0 in {0, 1} * {0, 1};
    var e;
    e, n := c.Create(0, {0, 1}, false);
    assert {0, 1} * {0, 1} == {0, 1};
  }

  /** Between the check of cpuset_setproc and the moves the new set can shrink:
      the first thread has moved, the second has not, and the call fails. */
  method HalfMoved() returns (c: Cpusets, error: Error, moved: nat)
    ensures fresh(c) && c.Valid() && error != OK && moved == 1
  {
    hide Shape, Counted, Healthy, AllFit;
    var n;
    c, n := TwoThreads();
    var a, b := c.threads[0], c.threads[1];
    assert 0 in {0, 1} * {0} && 1 in {0, 1} * {1};
    var e := c.TestProc([0, 1], ToSet(n));
    assert e == OK;
    c.LiveTree();
    LeafFits(c.tree, c.masks, n, {0});
    c.SetPromise(n);
    assert {0} <= {0, 1};
    ghost var was := c.masks;
    e := c.Modify(n, {0});
    RootMask(c.tree, was, n, {0});
    ApartMask(c.tree, was, n, {0}, a);
    ApartMask(c.tree, was, n, {0}, b);
    assert 0 in {0} * {0} && {0} * {1} == {};
    c.LiveTree();
    assert CanMove(c.tree, c.masks, a, ToSet(n)) && !CanMove(c.tree, c.masks, b, ToSet(n));
    assert [0, 1][0] == 0 && [0, 1][1] == 1;
    error, moved := c.MoveProc([0, 1], ToSet(n));
  }
}
