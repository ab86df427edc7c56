/** Properties of the walk: every entry is well formed and comes after its
    parents; it holds exactly the places a route without repeated directories
    leads to; and what is left for the tree validator to find. */
module TreeWalk {
  import opened Common
  import opened Paths
  import opened Tree

  predicate Enters(w: World, target: Option<Identity>, active: set<Identity>) {
    && Resolved(w, target) && target.value !in active
    && w.nodes[target.value].IsDirectory() && w.nodes[target.value].listing.Some?
  }

  function Kids(w: World, target: Option<Identity>): seq<Child>
    requires Resolved(w, target)
  {
    var listing := w.nodes[target.value].listing;
    if listing.Some? then Sorted(w.fold, listing.value) else []
  }

  /** One level of the walk. */
  lemma OneLevel(w: World, target: Option<Identity>, path: string, depth: nat, active: set<Identity>)
    requires Clean(w, target, path, depth, active)
    ensures Resolved(w, target) && ValidPath(path) && depth < MAX_VIRTUAL_DEPTH
    ensures var here := Snap(w.nodes[target.value], target.value, path);
      && here.name == path && here.identity == target.value && here.IsDirectory() == w.nodes[target.value].IsDirectory()
      && Walk(w, target, path, active) ==
         [here] + (if Enters(w, target, active) then WalkAll(w, Kids(w, target), path, active + {target.value}) else [])
    ensures Enters(w, target, active) ==>
      && Named(Kids(w, target)) && CleanAll(w, Kids(w, target), path, depth + 1, active + {target.value})
      && |w.nodes.Keys - (active + {target.value})| < |w.nodes.Keys - active|
  {
    var node := w.nodes[target.value];
    hide ValidPath, ValidComponent;
    if Enters(w, target, active) {
      Shrinks(w, target.value, active);
      SortedMembers(w.fold, node.listing.value);
    }
  }

  /** One child of a directory. */
  lemma OneChild(w: World, children: seq<Child>, path: string, depth: nat, active: set<Identity>)
    requires children != [] && Named(children) && CleanAll(w, children, path, depth, active)
    ensures var c := children[0]; var below := ChildPath(path, c.name);
      && Clean(w, c.target, below, depth, active)
      && CleanAll(w, children[1..], path, depth, active) && Named(children[1..])
      && WalkAll(w, children, path, active) == Walk(w, c.target, below, active) + WalkAll(w, children[1..], path, active)
      && Split(below) == Split(path) + [c.name]
  {
    hide Clean, Walk, Split;
    var c := children[0];
    assert c in children;
    ValidComponentIsPlain(c.name);
    SplitChild(path, c.name);
    hide ValidComponent;
    assert forall d | d in children[1..] :: d in children;
  }

  // ---------------------------------------------------- parents before children

  lemma {:induction false} WalkShape(w: World, target: Option<Identity>, path: string, depth: nat, active: set<Identity>)
    requires Clean(w, target, path, depth, active) && |Split(path)| == depth + 1
    ensures var es := Walk(w, target, path, active);
      es != [] && WellFormed(es) && ParentsFirst(es, Split(path), |Split(path)|)
    decreases |w.nodes.Keys - active|, 0
  {
    hide Clean, CleanAll, Walk, WalkAll, ValidPath, Split, ParentsFirst, Snapshot.IsDirectory, Kids;
    OneLevel(w, target, path, depth, active);
    var here := Snap(w.nodes[target.value], target.value, path);
    if Enters(w, target, active) {
      WalkAllShape(w, Kids(w, target), path, depth + 1, active + {target.value});
      ParentsFirstUnder(here, WalkAll(w, Kids(w, target), path, active + {target.value}));
    } else {
      Alone(here);
    }
  }

  lemma Alone(here: Snapshot)
    ensures ParentsFirst([here] + [], Split(here.name), |Split(here.name)|)
  {
  }

  lemma {:induction false} WalkAllShape(w: World, children: seq<Child>, path: string, depth: nat, active: set<Identity>)
    requires Named(children) && CleanAll(w, children, path, depth, active) && |Split(path)| == depth
    ensures var es := WalkAll(w, children, path, active);
      WellFormed(es) && ParentsFirst(es, Split(path), |Split(path)| + 1)
    decreases |w.nodes.Keys - active|, |children| + 1
  {
    hide Clean, CleanAll, Walk, ValidPath, Split, ParentsFirst, Named;
    if children == [] {
      NoEntries(Split(path));
    } else {
      OneChild(w, children, path, depth, active);
      hide WalkAll, ChildPath;
      var below := ChildPath(path, children[0].name);
      WalkShape(w, children[0].target, below, depth, active);
      var first := Walk(w, children[0].target, below, active);
      ParentsFirstWider(first, Split(path), Split(below));
      WalkAllShape(w, children[1..], path, depth, active);
      ParentsFirstAppend(first, WalkAll(w, children[1..], path, active), Split(path), |Split(path)| + 1);
    }
  }

  lemma NoEntries(base: seq<string>)
    ensures ParentsFirst([], base, |base| + 1)
  {
  }

  lemma ParentsFirstWider(es: seq<Snapshot>, base: seq<string>, below: seq<string>)
    requires base < below && |below| == |base| + 1 && ParentsFirst(es, below, |below|)
    ensures ParentsFirst(es, base, |base| + 1)
  {
  }

  // ------------------------------------------------------------- what is captured

  /** `names` leads from `target` to `end` in the graph, entering no directory
      in `active` and none twice. */
  ghost predicate Route(w: World, target: Option<Identity>, names: seq<string>, active: set<Identity>, end: Identity)
    decreases |names|
  {
    if names == [] then Resolved(w, target) && target.value == end
    else Enters(w, target, active) && RouteBelow(w, Kids(w, target), names, active + {target.value}, end)
  }

  ghost predicate RouteBelow(w: World, children: seq<Child>, names: seq<string>, active: set<Identity>, end: Identity)
    requires names != []
    decreases |names|, 0
  {
    exists c :: c in children && c.name == names[0] && Route(w, c.target, names[1..], active, end)
  }

  ghost predicate Lists(es: seq<Snapshot>, place: seq<string>, end: Identity) {
    exists e :: e in es && Split(e.name) == place && e.identity == end
  }

  lemma ListsAppend(a: seq<Snapshot>, b: seq<Snapshot>, place: seq<string>, end: Identity)
    ensures Lists(a + b, place, end) <==> Lists(a, place, end) || Lists(b, place, end)
  {
    hide Split;
    if Lists(a + b, place, end) {
      var e :| e in a + b && Split(e.name) == place && e.identity == end;
      assert e in a || e in b;
    }
    if Lists(a, place, end) {
      var e :| e in a && Split(e.name) == place && e.identity == end;
      assert e in a + b;
    }
    if Lists(b, place, end) {
      var e :| e in b && Split(e.name) == place && e.identity == end;
      assert e in a + b;
    }
  }

  lemma ListsOne(e: Snapshot, place: seq<string>, end: Identity)
    ensures Lists([e], place, end) <==> Split(e.name) == place && e.identity == end
  {
    hide Split;
    assert e in [e];
  }

  /** The walk lists exactly the places some route leads to. */
  lemma {:induction false} WalkListsRoutes(w: World, target: Option<Identity>, path: string, depth: nat, active: set<Identity>,
                                           names: seq<string>, end: Identity)
    requires Clean(w, target, path, depth, active) && |Split(path)| == depth + 1
    ensures Lists(Walk(w, target, path, active), Split(path) + names, end) <==> Route(w, target, names, active, end)
    decreases |w.nodes.Keys - active|, 0
  {
    hide Clean, CleanAll, Walk, WalkAll, ValidPath, Split, Lists, Kids;
    OneLevel(w, target, path, depth, active);
    var here := Snap(w.nodes[target.value], target.value, path);
    ListsOne(here, Split(path) + names, end);
    assert Split(path) + names == Split(path) <==> names == [];
    if Enters(w, target, active) {
      var kids, inner := Kids(w, target), active + {target.value};
      ListsAppend([here], WalkAll(w, kids, path, inner), Split(path) + names, end);
      WalkAllListsRoutes(w, kids, path, depth + 1, inner, names, end);
    } else {
      assert [here] + [] == [here];
    }
  }

  lemma {:induction false} WalkAllListsRoutes(w: World, children: seq<Child>, path: string, depth: nat, active: set<Identity>,
                                              names: seq<string>, end: Identity)
    requires Named(children) && CleanAll(w, children, path, depth, active) && |Split(path)| == depth
    ensures Lists(WalkAll(w, children, path, active), Split(path) + names, end)
       <==> names != [] && RouteBelow(w, children, names, active, end)
    decreases |w.nodes.Keys - active|, |children| + 1
  {
    hide Clean, CleanAll, Walk, ValidPath, Split, Named, Route;
    if children != [] {
      OneChild(w, children, path, depth, active);
      hide WalkAll, Lists, ChildPath;
      var c, rest := children[0], children[1..];
      var below := ChildPath(path, c.name);
      ListsAppend(Walk(w, c.target, below, active), WalkAll(w, rest, path, active), Split(path) + names, end);
      WalkAllListsRoutes(w, rest, path, depth, active, names, end);
      if names != [] {
        RouteFirst(w, children, names, active, end);
      }
      if names != [] && names[0] == c.name {
        assert Split(path) + names == Split(below) + names[1..];
        WalkListsRoutes(w, c.target, below, depth, active, names[1..], end);
      } else {
        WalkShape(w, c.target, below, depth, active);
        NotHere(Walk(w, c.target, below, active), Split(path), c.name, names, end);
      }
    }
  }

  lemma RouteFirst(w: World, children: seq<Child>, names: seq<string>, active: set<Identity>, end: Identity)
    requires children != [] && names != []
    ensures RouteBelow(w, children, names, active, end) <==>
      || (children[0].name == names[0] && Route(w, children[0].target, names[1..], active, end))
      || RouteBelow(w, children[1..], names, active, end)
  {
    hide Route;
    assert children == [children[0]] + children[1..];
  }

  lemma NotHere(es: seq<Snapshot>, base: seq<string>, name: string, names: seq<string>, end: Identity)
    requires ParentsFirst(es, base + [name], |base| + 1) && (names == [] || names[0] != name)
    ensures !Lists(es, base + names, end)
  {
    hide Split;
    assert !(base + [name] <= base + names) by {
      assert (base + [name])[|base|] == name;
      assert names != [] ==> (base + names)[|base|] == names[0];
    }
  }

  // ------------------------------------------------------- what an entry reports

  /** The entry is of a node of the graph and reports what the node does. */
  predicate Describes(w: World, e: Snapshot) {
    && e.identity in w.nodes
    && var node := w.nodes[e.identity];
    && e.size == node.size && e.attributes == node.attributes
    && e.created == node.created && e.accessed == node.accessed && e.written == node.written
  }

  /** Every entry of a walk has its own node's size, attributes and times. */
  lemma {:induction false} WalkDescribes(w: World, target: Option<Identity>, path: string, active: set<Identity>)
    ensures forall e | e in Walk(w, target, path, active) :: Describes(w, e)
    decreases |w.nodes.Keys - active|, 0
  {
    if Enters(w, target, active) {
      var id := target.value;
      Shrinks(w, id, active);
      WalkAllDescribes(w, Sorted(w.fold, w.nodes[id].listing.value), path, active + {id});
    }
    hide WalkAll;
  }

  lemma {:induction false} WalkAllDescribes(w: World, children: seq<Child>, path: string, active: set<Identity>)
    ensures forall e | e in WalkAll(w, children, path, active) :: Describes(w, e)
    decreases |w.nodes.Keys - active|, |children| + 1
  {
    hide Describes, Walk;
    if children != [] {
      WalkDescribes(w, children[0].target, ChildPath(path, children[0].name), active);
      WalkAllDescribes(w, children[1..], path, active);
    }
  }
}
