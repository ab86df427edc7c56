/** In which order a walk comes out: a directory before what is below it, siblings
    by folded name, and the order a directory was read in does not matter. */
module WalkOrder {
  import opened Common
  import opened Paths
  import opened Tree
  import opened TreeWalk

  /** A directory holds no name twice. */
  predicate DistinctListings(w: World) {
    forall id | id in w.nodes && w.nodes[id].listing.Some? :: DistinctNames(w.nodes[id].listing.value)
  }

  /** The order of places: at the first difference the smaller name comes first,
      and a directory comes before what is below it. */
  predicate PathLe(fold: string -> string, a: seq<string>, b: seq<string>) {
    a == [] || (b != [] && if a[0] == b[0] then PathLe(fold, a[1..], b[1..]) else NameLe(fold, a[0], b[0]))
  }

  predicate InOrder(fold: string -> string, es: seq<Snapshot>) {
    forall i, j | 0 <= i < j < |es| :: PathLe(fold, Split(es[i].name), Split(es[j].name))
  }

  lemma {:induction false} PathLeSkip(fold: string -> string, base: seq<string>, a: seq<string>, b: seq<string>)
    ensures PathLe(fold, base + a, base + b) == PathLe(fold, a, b)
  {
    if base == [] {
      assert base + a == a && base + b == b;
    } else {
      PathLeSkip(fold, base[1..], a, b);
      assert (base + a)[1..] == base[1..] + a && (base + b)[1..] == base[1..] + b;
    }
  }

  /** Below siblings in order, places are in order. */
  lemma PathLeSiblings(fold: string -> string, base: seq<string>, x: string, y: string, a: seq<string>, b: seq<string>)
    requires base + [x] <= a && base + [y] <= b && x != y && NameLe(fold, x, y)
    ensures PathLe(fold, a, b)
  {
    hide NameLe;
    var n := |base|;
    assert a == base + a[n..] && b == base + b[n..];
    PathLeSkip(fold, base, a[n..], b[n..]);
    assert a[n] == x && b[n] == y;
  }

  lemma PathLeBelow(fold: string -> string, base: seq<string>, a: seq<string>)
    requires base <= a
    ensures PathLe(fold, base, a)
  {
    assert a == base + a[|base|..] && base == base + [];
    PathLeSkip(fold, base, [], a[|base|..]);
  }

  /** Every entry lies below one of the children. */
  predicate BelowChildren(es: seq<Snapshot>, base: seq<string>, children: seq<Child>) {
    forall e | e in es :: exists c :: c in children && base + [c.name] <= Split(e.name)
  }

  lemma Wider(es: seq<Snapshot>, base: seq<string>, c: Child, children: seq<Child>)
    requires c in children && ParentsFirst(es, base + [c.name], |base| + 1)
    ensures BelowChildren(es, base, children)
  {
    hide Split;
  }

  lemma BelowAll(a: seq<Snapshot>, b: seq<Snapshot>, base: seq<string>, c: Child, rest: seq<Child>)
    requires BelowChildren(a, base, [c] + rest) && BelowChildren(b, base, rest)
    ensures BelowChildren(a + b, base, [c] + rest)
  {
    hide Split;
    forall e | e in a + b ensures exists d :: d in [c] + rest && base + [d.name] <= Split(e.name) {
      if e in b {
        var d :| d in rest && base + [d.name] <= Split(e.name);
        assert d in [c] + rest;
      }
    }
  }

  lemma InOrderAppend(fold: string -> string, a: seq<Snapshot>, b: seq<Snapshot>, base: seq<string>, c: Child, rest: seq<Child>)
    requires InOrder(fold, a) && InOrder(fold, b)
    requires ParentsFirst(a, base + [c.name], |base| + 1) && BelowChildren(b, base, rest)
    requires forall d | d in rest :: d.name != c.name && NameLe(fold, c.name, d.name)
    ensures InOrder(fold, a + b)
  {
    hide Split, PathLe, NameLe;
    var es := a + b;
    forall i, j | 0 <= i < j < |es| ensures PathLe(fold, Split(es[i].name), Split(es[j].name)) {
      if i < |a| <= j {
        assert es[i] == a[i] && es[j] == b[j - |a|] && es[j] in b;
        var d :| d in rest && base + [d.name] <= Split(es[j].name);
        PathLeSiblings(fold, base, c.name, d.name, Split(es[i].name), Split(es[j].name));
      } else if i >= |a| {
        assert es[i] == b[i - |a|] && es[j] == b[j - |a|];
      }
    }
  }

  lemma InOrderUnder(fold: string -> string, here: Snapshot, rest: seq<Snapshot>)
    requires InOrder(fold, rest) && ParentsFirst(rest, Split(here.name), |Split(here.name)| + 1)
    ensures InOrder(fold, [here] + rest)
  {
    hide Split, PathLe;
    var es := [here] + rest;
    forall i, j | 0 <= i < j < |es| ensures PathLe(fold, Split(es[i].name), Split(es[j].name)) {
      assert es[j] == rest[j - 1];
      if i == 0 {
        PathLeBelow(fold, Split(here.name), Split(es[j].name));
      } else {
        assert es[i] == rest[i - 1];
      }
    }
  }

  /** A completed walk over directories without repeated names is in the order of
      places. */
  lemma {:induction false} WalkInOrder(w: World, target: Option<Identity>, path: string, depth: nat, active: set<Identity>)
    requires Clean(w, target, path, depth, active) && |Split(path)| == depth + 1 && DistinctListings(w)
    ensures InOrder(w.fold, Walk(w, target, path, active))
    decreases |w.nodes.Keys - active|, 0
  {
    hide Clean, CleanAll, Walk, WalkAll, ValidPath, Split, ParentsFirst, Snapshot.IsDirectory, InOrder;
    OneLevel(w, target, path, depth, active);
    var here := Snap(w.nodes[target.value], target.value, path);
    if Enters(w, target, active) {
      var kids, inner := Kids(w, target), active + {target.value};
      SortedDistinct(w.fold, w.nodes[target.value].listing.value);
      SortedOrders(w.fold, w.nodes[target.value].listing.value);
      WalkAllShape(w, kids, path, depth + 1, inner);
      WalkAllInOrder(w, kids, path, depth + 1, inner);
      InOrderUnder(w.fold, here, WalkAll(w, kids, path, inner));
    } else {
      OneInOrder(w.fold, here);
    }
  }

  lemma OneInOrder(fold: string -> string, here: Snapshot)
    ensures InOrder(fold, []) && InOrder(fold, [here] + [])
  {
  }

  lemma {:induction false} WalkAllInOrder(w: World, children: seq<Child>, path: string, depth: nat, active: set<Identity>)
    requires Named(children) && CleanAll(w, children, path, depth, active) && |Split(path)| == depth
    requires DistinctListings(w) && Ordered(w.fold, children) && DistinctNames(children)
    ensures InOrder(w.fold, WalkAll(w, children, path, active)) && BelowChildren(WalkAll(w, children, path, active), Split(path), children)
    decreases |w.nodes.Keys - active|, |children| + 1
  {
    hide Clean, CleanAll, Walk, ValidPath, Split, ParentsFirst, Named, InOrder, BelowChildren, DistinctListings, NameLe;
    if children == [] {
      NoneBelow(w.fold, Split(path));
    } else {
      OneChild(w, children, path, depth, active);
      hide WalkAll, ChildPath;
      var c, rest := children[0], children[1..];
      var below := ChildPath(path, c.name);
      var first, others := Walk(w, c.target, below, active), WalkAll(w, rest, path, active);
      WalkShape(w, c.target, below, depth, active);
      WalkInOrder(w, c.target, below, depth, active);
      WalkAllInOrder(w, rest, path, depth, active);
      assert children == [c] + rest;
      Wider(first, Split(path), c, children);
      BelowAll(first, others, Split(path), c, rest);
      InOrderAppend(w.fold, first, others, Split(path), c, rest);
    }
  }

  lemma NoneBelow(fold: string -> string, base: seq<string>)
    ensures InOrder(fold, []) && BelowChildren([], base, [])
  {
  }

  // ------------------------------------------------------------- the reading order

  /** The same graph, but each directory may be read in another order. */
  predicate SameButOrder(w: World, v: World) {
    && v.nodes.Keys == w.nodes.Keys
    && forall id | id in w.nodes :: SameNode(w.nodes[id], v.nodes[id])
  }

  predicate SameNode(m: Node, n: Node) {
    && n == m.(listing := n.listing) && (n.listing.Some? <==> m.listing.Some?)
    && (m.listing.Some? ==> multiset(n.listing.value) == multiset(m.listing.value))
  }

  lemma SameSorted(fold: string -> string, a: seq<Child>, b: seq<Child>)
    requires multiset(a) == multiset(b) && DistinctNames(a)
    ensures Sorted(fold, a) == Sorted(fold, b)
  {
    SortedOrders(fold, a);
    SortedOrders(fold, b);
    SortedDistinct(fold, a);
    OrderUnique(fold, Sorted(fold, a), Sorted(fold, b));
  }

  /** The order directories are read in makes no difference to a walk. */
  lemma {:induction false} ReadingOrderDoesNotMatter(w: World, v: World, target: Option<Identity>, path: string, active: set<Identity>)
    requires SameButOrder(w, v) && DistinctListings(w) && w.fold == v.fold
    ensures Walk(w, target, path, active) == Walk(v, target, path, active)
    decreases |w.nodes.Keys - active|, 0
  {
    hide WalkAll;
    if Resolved(w, target) {
      assert SameNode(w.nodes[target.value], v.nodes[target.value]);
    }
    if Enters(w, target, active) {
      var id := target.value;
      Shrinks(w, id, active);
      SameSorted(w.fold, w.nodes[id].listing.value, v.nodes[id].listing.value);
      SameWalkAll(w, v, Sorted(w.fold, w.nodes[id].listing.value), path, active + {id});
    }
  }

  lemma {:induction false} SameWalkAll(w: World, v: World, children: seq<Child>, path: string, active: set<Identity>)
    requires SameButOrder(w, v) && DistinctListings(w) && w.fold == v.fold
    ensures WalkAll(w, children, path, active) == WalkAll(v, children, path, active)
    decreases |w.nodes.Keys - active|, |children| + 1
  {
    hide Walk, SameButOrder, DistinctListings;
    if children != [] {
      ReadingOrderDoesNotMatter(w, v, children[0].target, ChildPath(path, children[0].name), active);
      SameWalkAll(w, v, children[1..], path, active);
    }
  }
}
