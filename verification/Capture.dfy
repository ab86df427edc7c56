/** `FileTreeSnapshot::capture` and `capture_tree_entry` (local_file.rs): the
    recursive walk with its running limits, and the checks around it. */
module Capture {
  import opened Common
  import opened Paths
  import opened Tree
  import opened TreeWalk

  const MAX_CAPTURE_ROOTS: nat := 256

  datatype CaptureError =
    | TooManyItems | NonUnicodeName | InvalidPath | InvalidName | TreeTooDeep | Unreadable | NonDiskFile
    | ManifestTooLarge | InvalidTree

  // -------------------------------------------------------------- steps of the walk

  lemma RestOfWalk(w: World, children: seq<Child>, i: nat, path: string, depth: nat, active: set<Identity>)
    requires i < |children|
    ensures var c := children[i]; var below := ChildPath(path, c.name);
      && WalkAll(w, children[i..], path, active) ==
         Walk(w, c.target, below, active) + WalkAll(w, children[i + 1..], path, active)
      && (CleanAll(w, children[i..], path, depth, active) <==>
            Clean(w, c.target, below, depth, active) && CleanAll(w, children[i + 1..], path, depth, active))
  {
    hide Clean, Walk;
    assert children[i..][1..] == children[i + 1..];
  }

  lemma NoChildren(w: World, path: string, depth: nat, active: set<Identity>)
    ensures WalkAll(w, [], path, active) == [] && CleanAll(w, [], path, depth, active)
  {
  }

  lemma PushUnits(es: seq<Snapshot>, e: Snapshot)
    ensures TotalUnits(Described(es + [e])) == TotalUnits(Described(es)) + Bytes.Utf16Units(e.name)
  {
    UnitsSnoc(Described(es), e.ToDescriptor());
    assert Described(es + [e]) == Described(es) + [e.ToDescriptor()];
  }

  /** What the walk is at a place it does not enter, and at one it does. */
  lemma WalkHere(w: World, target: Option<Identity>, path: string, depth: nat, active: set<Identity>)
    requires depth < MAX_VIRTUAL_DEPTH && ValidPath(path) && Resolved(w, target) && w.nodes[target.value].disk
    ensures var node := w.nodes[target.value];
      var here := [Snap(node, target.value, path)];
      var walk := Walk(w, target, path, active);
      if !node.IsDirectory() || target.value in active then
        walk == here && Clean(w, target, path, depth, active)
      else if node.listing.None? || !Named(node.listing.value) then !Clean(w, target, path, depth, active)
      else
        var children, inner := Sorted(w.fold, node.listing.value), active + {target.value};
        walk == here + WalkAll(w, children, path, inner)
        && (Clean(w, target, path, depth, active) <==> CleanAll(w, children, path, depth + 1, inner))
  {
    hide WalkAll, CleanAll, ValidPath, Named;
  }

  lemma WalkStartsHere(w: World, target: Option<Identity>, path: string, active: set<Identity>)
    requires Resolved(w, target)
    ensures [Snap(w.nodes[target.value], target.value, path)] <= Walk(w, target, path, active)
  {
    hide WalkAll;
  }

  lemma NamedPrefix(children: seq<Child>, i: nat)
    requires i < |children|
    ensures Named(children[..i + 1]) <==> Named(children[..i]) && children[i].unicode && ValidComponent(children[i].name)
  {
    hide ValidComponent;
    assert children[..i + 1] == children[..i] + [children[i]];
  }

  class TreeCapture {
    const world: World
    var entries: seq<Snapshot>
    var totalPathUnits: nat
    var active: set<Identity>

    constructor (world: World)
      ensures this.world == world && entries == [] && active == {} && Counted()
    {
      this.world, entries, totalPathUnits, active := world, [], 0, {};
    }

    ghost predicate Counted()
      reads this
    {
      totalPathUnits == TotalUnits(Described(entries))
    }

    /** Names of a directory, checked in the order they are read. */
    method CheckNames(listing: seq<Child>) returns (error: Option<CaptureError>)
      ensures error == None <==> Named(listing)
    {
      hide Named, ValidComponent;
      assert Named(listing[..0]) by { NoNames(); }
      for i := 0 to |listing|
        invariant Named(listing[..i])
      {
        NamedPrefix(listing, i);
        if !listing[i].unicode || !ValidComponent(listing[i].name) {
          NamedAll(listing, i);
          return Some(if !listing[i].unicode then NonUnicodeName else InvalidName);
        }
      }
      assert listing[..|listing|] == listing;
      return None;
    }

    /** `capture_tree_entry`: succeeds exactly when the walk is clean and fits
        with what is already there, and then appends precisely the walk. It
        terminates because each directory entered leaves fewer to enter; the
        depth limit is not needed for that. */
    method CaptureEntry(target: Option<Identity>, path: string, depth: nat) returns (error: Option<CaptureError>)
      requires Counted()
      modifies this
      ensures error == None <==>
        && Clean(world, target, path, depth, old(active))
        && Fits(old(entries) + Walk(world, target, path, old(active)))
      ensures error == None ==>
        && entries == old(entries) + Walk(world, target, path, old(active))
        && active == old(active) && Counted()
      decreases |world.nodes.Keys - active|, 0
    {
      hide Clean, Walk, CleanAll, WalkAll, Fits, ValidPath, Named, Sorted;
      error := CheckHere(world, target, path, depth, active);
      if error.Some? {
        return;
      }
      WalkHere(world, target, path, depth, active);
      WalkStartsHere(world, target, path, active);
      var id := target.value;
      var node := world.nodes[id];
      ghost var goal := entries + Walk(world, target, path, active);
      error := Push(Snap(node, id, path), goal);
      if error.Some? || !node.IsDirectory() || id in active {
        return;
      }
      Shrinks(world, id, active);
      active := active + {id};
      if node.listing.None? {
        return Some(Unreadable);
      }
      error := CheckNames(node.listing.value);
      if error.Some? {
        return;
      }
      var children := Sorted(world.fold, node.listing.value);
      error := CaptureChildren(children, path, depth + 1, goal);
      if error.None? {
        active := active - {id};
        assert active == old(active);
      }
    }

    /** The loop over the sorted children of one directory. */
    method CaptureChildren(children: seq<Child>, path: string, depth: nat, ghost goal: seq<Snapshot>)
      returns (error: Option<CaptureError>)
      requires Counted() && goal == entries + WalkAll(world, children, path, active) && Fits(entries)
      modifies this
      ensures error == None <==> CleanAll(world, children, path, depth, old(active)) && Fits(goal)
      ensures error == None ==> entries == goal && active == old(active) && Counted()
      decreases |world.nodes.Keys - active|, 1
    {
      hide Clean, Walk, CleanAll, WalkAll, Fits;
      assert children[0..] == children;
      for i := 0 to |children|
        invariant Counted() && active == old(active) && Fits(entries)
        invariant goal == entries + WalkAll(world, children[i..], path, active)
        invariant CleanAll(world, children, path, depth, active) <==> CleanAll(world, children[i..], path, depth, active)
      {
        RestOfWalk(world, children, i, path, depth, active);
        var child := children[i];
        var below := ChildPath(path, child.name);
        ghost var with := entries + Walk(world, child.target, below, active);
        assert goal == with + WalkAll(world, children[i + 1..], path, active);
        error := CaptureEntry(child.target, below, depth);
        if error.Some? {
          if Fits(goal) {
            FitsPrefix(with, WalkAll(world, children[i + 1..], path, old(active)));
          }
          return;
        }
      }
      assert children[|children|..] == [];
      NoChildren(world, path, depth, active);
      assert entries + [] == entries;
      return None;
    }

    /** Counting the path, checking both limits and pushing the snapshot. */
    method Push(snapshot: Snapshot, ghost goal: seq<Snapshot>) returns (error: Option<CaptureError>)
      requires Counted() && entries + [snapshot] <= goal
      modifies this`entries, this`totalPathUnits
      ensures error == None ==> entries == old(entries) + [snapshot] && Counted() && Fits(entries)
      ensures error != None ==> !Fits(goal)
    {
      PushUnits(entries, snapshot);
      FitsGoal(entries + [snapshot], goal);
      ghost var pushed := entries + [snapshot];
      totalPathUnits := totalPathUnits + Bytes.Utf16Units(snapshot.name);
      if |entries| >= MAX_VIRTUAL_ITEMS || totalPathUnits > MAX_TOTAL_VIRTUAL_PATH_U16 {
        return Some(ManifestTooLarge);
      }
      entries := entries + [snapshot];
      return None;
    }
  }

  lemma FitsGoal(es: seq<Snapshot>, goal: seq<Snapshot>)
    requires es <= goal
    ensures Fits(goal) ==> Fits(es)
  {
    assert goal == es + goal[|es|..];
    if Fits(goal) {
      FitsPrefix(es, goal[|es|..]);
    }
  }

  lemma NoNames()
    ensures Named([])
  {
  }

  lemma NamedAll(listing: seq<Child>, i: nat)
    requires i < |listing| && (!listing[i].unicode || !ValidComponent(listing[i].name))
    ensures !Named(listing)
  {
    hide ValidComponent;
    assert listing[i] in listing;
  }

  /** The checks of `capture_at` at one place, in their order. */
  method CheckHere(w: World, target: Option<Identity>, path: string, depth: nat, ghost active: set<Identity>)
    returns (error: Option<CaptureError>)
    ensures error == None <==>
      depth < MAX_VIRTUAL_DEPTH && ValidPath(path) && Resolved(w, target) && w.nodes[target.value].disk
    ensures error != None ==> !Clean(w, target, path, depth, active)
    ensures depth >= MAX_VIRTUAL_DEPTH ==> error == Some(TreeTooDeep)
  {
    hide ValidPath, CleanAll;
    if depth >= MAX_VIRTUAL_DEPTH {
      return Some(TreeTooDeep);
    }
    if !ValidPath(path) {
      return Some(InvalidName);
    }
    if !Resolved(w, target) {
      return Some(Unreadable);
    }
    if !w.nodes[target.value].disk {
      return Some(NonDiskFile);
    }
    return None;
  }

  // --------------------------------------------------------------- the whole capture

  /** A path the user chose: its text unless it is not Unicode, whether it is
      absolute, its last component if there is one, and the node it opens. */
  datatype Root = Root(path: Option<string>, absolute: bool, name: Option<string>, target: Option<Identity>)

  function Backslashes(path: string): string {
    seq(|path|, (i: nat) requires i < |path| => if path[i] == '/' then '\\' else path[i])
  }

  function Normal(w: World, path: string): string {
    w.fold(Backslashes(path))
  }

  function TrimEnd(path: string): string {
    if path == "" || path[|path| - 1] != '\\' then path else TrimEnd(path[..|path| - 1])
  }

  /** One chosen path is the other, or lies inside it. */
  predicate Overlaps(root: string, candidate: string) {
    candidate == root || TrimEnd(root) + "\\" <= candidate
  }

  lemma StrictPrefix<T>(x: seq<T>, y: seq<T>)
    requires x != []
    ensures x < y <==> y != [] && x[0] == y[0] && x[1..] < y[1..]
  {
    if y != [] && x[0] == y[0] && x[1..] < y[1..] {
      assert x == [x[0]] + x[1..] && y == [y[0]] + y[1..];
    }
  }

  /** The textual prefix test says what it should: the components of one path
      continue those of the other. */
  lemma {:induction false} PrefixIsInside(root: string, candidate: string)
    ensures root + "\\" <= candidate <==> Split(root) < Split(candidate)
  {
    if root == "" {
      if candidate != "" {
        assert Split(candidate)[0] == "" <==> candidate[0] == '\\';
      }
    } else if candidate != "" {
      var x, y := Split(root[1..]), Split(candidate[1..]);
      PrefixIsInside(root[1..], candidate[1..]);
      assert root + "\\" == [root[0]] + (root[1..] + "\\") && candidate == [candidate[0]] + candidate[1..];
      assert root + "\\" <= candidate <==> root[0] == candidate[0] && root[1..] + "\\" <= candidate[1..];
      StrictPrefix(Split(root), Split(candidate));
      StrictPrefix(x, y);
      SplitHead(root);
      SplitHead(candidate);
      hide Split;
    }
  }

  lemma SplitHead(s: string)
    requires s != ""
    ensures var x := Split(s[1..]); var y := Split(s);
      if s[0] == '\\' then y[0] == "" && y[1..] == x
      else y[0] != "" && y[0][0] == s[0] && y[0][1..] == x[0] && y[1..] == x[1..]
  {
  }

  predicate RootsApart(w: World, roots: seq<Root>) {
    && (forall r | r in roots :: r.path.Some?)
    && forall i, j | 0 <= i < |roots| && 0 <= j < |roots| && i != j ::
         !Overlaps(Normal(w, roots[i].path.value), Normal(w, roots[j].path.value))
  }

  /** The first two passes over the chosen paths. */
  method CheckRoots(w: World, roots: seq<Root>) returns (error: Option<CaptureError>)
    ensures error == None <==> RootsApart(w, roots)
  {
    hide Overlaps, Normal;
    for i := 0 to |roots|
      invariant forall r | r in roots[..i] :: r.path.Some?
    {
      assert roots[..i + 1] == roots[..i] + [roots[i]];
      if roots[i].path.None? {
        assert roots[i] in roots;
        return Some(NonUnicodeName);
      }
    }
    assert roots[..|roots|] == roots;
    for i := 0 to |roots|
      invariant forall k, j | 0 <= k < i && 0 <= j < |roots| && k != j ::
        !Overlaps(Normal(w, roots[k].path.value), Normal(w, roots[j].path.value))
    {
      for j := 0 to |roots|
        invariant forall k | 0 <= k < j && k != i ::
          !Overlaps(Normal(w, roots[i].path.value), Normal(w, roots[k].path.value))
      {
        if i != j && Overlaps(Normal(w, roots[i].path.value), Normal(w, roots[j].path.value)) {
          return Some(InvalidPath);
        }
      }
    }
    return None;
  }

  predicate RootOk(w: World, r: Root) {
    && r.absolute && r.name.Some? && ValidComponent(r.name.value)
    && Clean(w, r.target, r.name.value, 0, {})
  }

  /** All the walks, root after root. */
  function Forest(w: World, roots: seq<Root>): seq<Snapshot> {
    if roots == [] then []
    else
      var last := roots[|roots| - 1];
      Forest(w, roots[..|roots| - 1]) + if last.name.Some? then Walk(w, last.target, last.name.value, {}) else []
  }

  function TotalSize(es: seq<Snapshot>): nat {
    if es == [] then 0
    else TotalSize(es[..|es| - 1]) + if es[|es| - 1].IsDirectory() then 0 else es[|es| - 1].size
  }

  /** What capture requires of its input. */
  ghost predicate Capturable(w: World, lower: LowerCase, roots: seq<Root>) {
    && 1 <= |roots| <= MAX_CAPTURE_ROOTS && RootsApart(w, roots)
    && (forall r | r in roots :: RootOk(w, r))
    && TreeAccepted(lower, Described(Forest(w, roots)))
    && TotalSize(Forest(w, roots)) <= U64_MAX
  }

  lemma ForestSnoc(w: World, roots: seq<Root>, i: nat)
    requires i < |roots| && roots[i].name.Some?
    ensures Forest(w, roots[..i + 1]) == Forest(w, roots[..i]) + Walk(w, roots[i].target, roots[i].name.value, {})
  {
    hide Walk;
    assert roots[..i + 1][..i] == roots[..i];
  }

  lemma {:induction false} ForestPrefix(w: World, roots: seq<Root>, i: nat)
    requires i <= |roots|
    ensures Forest(w, roots[..i]) <= Forest(w, roots)
    decreases |roots| - i
  {
    hide Walk;
    if i < |roots| {
      ForestPrefix(w, roots, i + 1);
      assert roots[..i + 1][..i] == roots[..i];
    } else {
      assert roots[..i] == roots;
    }
  }

  lemma AcceptedFits(lower: LowerCase, es: seq<Snapshot>)
    requires TreeAccepted(lower, Described(es))
    ensures Fits(es)
  {
  }

  /** The walk from every root, with one set of running limits. */
  method CaptureRoots(w: World, roots: seq<Root>) returns (error: Option<CaptureError>, entries: seq<Snapshot>)
    ensures error == None <==> (forall r | r in roots :: RootOk(w, r)) && Fits(Forest(w, roots))
    ensures error == None ==> entries == Forest(w, roots)
  {
    hide Walk, Clean, Fits, ValidComponent;
    var capture := new TreeCapture(w);
    assert roots[..0] == [];
    assert Fits([]) by { NothingFits(); }
    for i := 0 to |roots|
      invariant capture.world == w && capture.Counted() && capture.active == {} && fresh(capture)
      invariant capture.entries == Forest(w, roots[..i]) && Fits(capture.entries)
      invariant forall r | r in roots[..i] :: RootOk(w, r)
    {
      var root := roots[i];
      assert root in roots && roots[..i + 1] == roots[..i] + [root];
      if !root.absolute {
        return Some(InvalidPath), [];
      }
      if root.name.None? {
        return Some(NonUnicodeName), [];
      }
      if !ValidComponent(root.name.value) {
        return Some(InvalidName), [];
      }
      ForestSnoc(w, roots, i);
      ForestPrefix(w, roots, i + 1);
      FitsGoal(Forest(w, roots[..i + 1]), Forest(w, roots));
      hide Forest;
      error := capture.CaptureEntry(root.target, root.name.value, 0);
      if error.Some? {
        return error, [];
      }
    }
    assert roots[..|roots|] == roots;
    return None, capture.entries;
  }

  lemma NothingFits()
    ensures Fits([])
  {
  }

  /** `FileTreeSnapshot::capture`. */
  method CaptureForest(w: World, lower: LowerCase, roots: seq<Root>) returns (error: Option<CaptureError>, entries: seq<Snapshot>)
    ensures error == None <==> Capturable(w, lower, roots)
    ensures error == None ==> entries == Forest(w, roots)
  {
    hide RootsApart, RootOk, TreeAccepted, Fits, TotalSize, Forest;
    entries := [];
    if roots == [] || |roots| > MAX_CAPTURE_ROOTS {
      return Some(TooManyItems), [];
    }
    error := CheckRoots(w, roots);
    if error.Some? {
      return;
    }
    if Capturable(w, lower, roots) {
      AcceptedFits(lower, Forest(w, roots));
    }
    error, entries := CaptureRoots(w, roots);
    if error.Some? {
      return;
    }
    var verdict := ValidateTree(lower, Described(entries));
    if verdict != Accepted {
      return Some(InvalidTree), [];
    }
    var fits := SizeFits(entries);
    if !fits {
      return Some(ManifestTooLarge), [];
    }
    return None, entries;
  }

  /** The checked sum of the file sizes. */
  method SizeFits(entries: seq<Snapshot>) returns (fits: bool)
    ensures fits == (TotalSize(entries) <= U64_MAX)
  {
    var total := 0;
    for i := 0 to |entries|
      invariant total == TotalSize(entries[..i]) <= U64_MAX
    {
      assert entries[..i + 1][..i] == entries[..i];
      if !entries[i].IsDirectory() {
        total := total + entries[i].size;
        if total > U64_MAX {
          SizesGrow(entries, i + 1);
          return false;
        }
      }
    }
    assert entries[..|entries|] == entries;
    return true;
  }

  lemma {:induction false} SizesGrow(es: seq<Snapshot>, k: nat)
    requires k <= |es|
    ensures TotalSize(es[..k]) <= TotalSize(es)
    decreases |es| - k
  {
    if k < |es| {
      SizesGrow(es, k + 1);
      assert es[..k + 1][..k] == es[..k];
    } else {
      assert es[..k] == es;
    }
  }

  // ------------------------------------------------- what the validator can still find

  lemma {:induction false} ForestShape(w: World, roots: seq<Root>)
    requires forall r | r in roots :: RootOk(w, r)
    ensures var es := Forest(w, roots); WellFormed(es) && ParentsFirst(es, [], 1) && (roots != [] ==> es != [])
  {
    hide Walk, Clean, ValidPath, ParentsFirst;
    if roots == [] {
      NoEntries([]);
      assert Forest(w, roots) == [];
    } else {
      var init, last := roots[..|roots| - 1], roots[|roots| - 1];
      assert last in roots && forall r | r in init :: r in roots;
      ForestShape(w, init);
      ValidComponentIsPath(last.name.value);
      hide ValidComponent, Split;
      WalkShape(w, last.target, last.name.value, 0, {});
      var walk := Walk(w, last.target, last.name.value, {});
      ParentsFirstWider(walk, [], [last.name.value]);
      ParentsFirstAppend(Forest(w, init), walk, [], 1);
    }
  }

  lemma ParentsArePresent(lower: LowerCase, es: seq<Snapshot>)
    requires ParentsFirst(es, [], 1)
    ensures AncestorsPresent(lower, Described(es))
  {
    hide Split, Fold, Ancestor;
    var ds := Described(es);
    forall i, depth | 0 <= i < |ds| && 1 <= depth < |Split(ds[i].name)|
      ensures HasDirectory(lower, ds, Fold(lower, Ancestor(ds[i].name, depth)))
    {
      assert Above(es, i, depth);
      var j :| 0 <= j < i && es[j].IsDirectory() && es[j].name == Ancestor(es[i].name, depth);
      assert ds[j].IsDirectory();
    }
  }

  predicate DirectoriesEmpty(es: seq<Snapshot>) {
    forall e | e in es :: e.IsDirectory() ==> e.size == 0
  }

  lemma ProperEntries(es: seq<Snapshot>)
    requires WellFormed(es)
    ensures (forall d | d in Described(es) :: Proper(d)) <==> DirectoriesEmpty(es)
  {
    hide ValidPath, Split;
    var ds := Described(es);
    if DirectoriesEmpty(es) {
      forall i | 0 <= i < |ds| ensures Proper(ds[i]) {
        assert es[i] in es;
      }
    }
    if forall d | d in ds :: Proper(d) {
      forall i | 0 <= i < |es| ensures es[i].IsDirectory() ==> es[i].size == 0 {
        assert ds[i] in ds;
      }
    }
  }

  /** Of a finished walk the validator can refuse only two things: names equal
      under case folding, and a directory with a size. */
  lemma WalkMeetsValidator(w: World, lower: LowerCase, roots: seq<Root>)
    requires roots != [] && (forall r | r in roots :: RootOk(w, r)) && Fits(Forest(w, roots))
    ensures var es := Forest(w, roots);
      TreeAccepted(lower, Described(es)) <==> DistinctFolded(lower, Described(es)) && DirectoriesEmpty(es)
  {
    var es := Forest(w, roots);
    ForestShape(w, roots);
    ParentsArePresent(lower, es);
    ProperEntries(es);
    hide RootOk, WellFormed, ParentsFirst, DirectoriesEmpty, Proper, DistinctFolded, AncestorsPresent, Forest;
    assert forall i | 0 <= i < |es| :: Described(es)[i] in Described(es);
  }

  /** A captured forest holds exactly the places routes from its roots lead to. */
  lemma {:induction false} ForestListsRoutes(w: World, roots: seq<Root>, place: seq<string>, end: Identity)
    requires forall r | r in roots :: RootOk(w, r)
    ensures Lists(Forest(w, roots), place, end) <==>
      place != [] && exists r :: r in roots && r.name == Some(place[0]) && Route(w, r.target, place[1..], {}, end)
  {
    hide Walk, Clean, Split, Lists, Route, ValidComponent;
    if roots == [] {
      NothingListed(place, end);
    } else {
      var init, last := roots[..|roots| - 1], roots[|roots| - 1];
      assert roots == init + [last] && last in roots && RootOk(w, last);
      ForestListsRoutes(w, init, place, end);
      var walk := Walk(w, last.target, last.name.value, {});
      ListsAppend(Forest(w, init), walk, place, end);
      RootRoutes(w, last, place, end);
    }
  }

  lemma NothingListed(place: seq<string>, end: Identity)
    ensures !Lists([], place, end)
  {
  }

  lemma RootRoutes(w: World, r: Root, place: seq<string>, end: Identity)
    requires RootOk(w, r)
    ensures Lists(Walk(w, r.target, r.name.value, {}), place, end) <==>
      place != [] && place[0] == r.name.value && Route(w, r.target, place[1..], {}, end)
  {
    ValidComponentIsPath(r.name.value);
    hide Walk, Clean, Split, Route, ValidComponent, ValidPath;
    if place != [] && place[0] == r.name.value {
      assert place == [r.name.value] + place[1..];
      WalkListsRoutes(w, r.target, r.name.value, 0, {}, place[1..], end);
    } else {
      WalkShape(w, r.target, r.name.value, 0, {});
      assert [] + [r.name.value] == [r.name.value] && [] + place == place;
      NotHere(Walk(w, r.target, r.name.value, {}), [], r.name.value, place, end);
    }
  }

  /** And every entry of a forest reports what its own node does. */
  lemma {:induction false} ForestDescribes(w: World, roots: seq<Root>)
    ensures forall e | e in Forest(w, roots) :: Describes(w, e)
  {
    hide Describes, Walk;
    if roots != [] {
      var last := roots[|roots| - 1];
      ForestDescribes(w, roots[..|roots| - 1]);
      if last.name.Some? {
        WalkDescribes(w, last.target, last.name.value, {});
      }
    }
  }
}
