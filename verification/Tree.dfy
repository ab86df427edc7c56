/** What a capture of a directory graph should contain: the file system as a
    finite graph, possibly cyclic, and the walk over it (local_file.rs). */
module Tree {
  import opened Common
  import opened Paths

  datatype Identity = Identity(volume: nat, index: nat)

  /** A directory entry. `target` is the node its path opens, through any link;
      `None` when it cannot be opened. A name that is not Unicode has no use
      beyond its failing. */
  datatype Child = Child(name: string, unicode: bool, target: Option<Identity>)

  /** `listing` is `None` when the directory cannot be read. */
  datatype Node = Node(
    size: nat, attributes: nat, created: nat, accessed: nat, written: nat,
    disk: bool, listing: Option<seq<Child>>)
  {
    predicate IsDirectory() {
      Bit(attributes, DIRECTORY_BIT)
    }
  }

  /** The graph, and the whole-string lower-casing siblings are sorted by. */
  datatype World = World(nodes: map<Identity, Node>, fold: string -> string)

  datatype Snapshot = Snapshot(
    name: string, identity: Identity, size: nat, attributes: nat, created: nat, accessed: nat, written: nat)
  {
    predicate IsDirectory() {
      Bit(attributes, DIRECTORY_BIT)
    }

    function ToDescriptor(): Descriptor {
      Descriptor(name, size, TransferableAttributes(attributes), Some(created), Some(accessed), Some(written))
    }
  }

  function Snap(node: Node, id: Identity, path: string): Snapshot {
    Snapshot(path, id, node.size, node.attributes, node.created, node.accessed, node.written)
  }

  predicate Bit(n: nat, weight: nat)
    requires weight > 0
  {
    n / weight % 2 == 1
  }

  function KeepBit(n: nat, weight: nat): nat
    requires weight > 0
  {
    if Bit(n, weight) then weight else 0
  }

  const READONLY_BIT: nat := 0x1
  const HIDDEN_BIT: nat := 0x2
  const SYSTEM_BIT: nat := 0x4
  const ARCHIVE_BIT: nat := 0x20
  const NORMAL_BIT: nat := 0x80

  function TransferableAttributes(attributes: nat): (r: nat)
    ensures Bit(r, DIRECTORY_BIT) <==> Bit(attributes, DIRECTORY_BIT)
    ensures 0 < r <= 0xFF
  {
    var basic := KeepBit(attributes, READONLY_BIT) + KeepBit(attributes, HIDDEN_BIT)
                 + KeepBit(attributes, SYSTEM_BIT) + KeepBit(attributes, ARCHIVE_BIT);
    if Bit(attributes, DIRECTORY_BIT) then basic + DIRECTORY_BIT
    else if basic == 0 then NORMAL_BIT
    else basic
  }

  function Weight(present: bool, weight: nat): nat {
    if present then weight else 0
  }

  lemma SumBits(a: bool, b: bool, c: bool, d: bool, e: bool)
    ensures var r := Weight(a, 1) + Weight(b, 2) + Weight(c, 4) + Weight(d, 0x10) + Weight(e, 0x20);
      && (Bit(r, 1) <==> a) && (Bit(r, 2) <==> b) && (Bit(r, 4) <==> c) && (Bit(r, 0x10) <==> d) && (Bit(r, 0x20) <==> e)
      && !Bit(r, 8) && !Bit(r, 0x40) && !Bit(r, 0x80)
  {
  }

  /** The attributes that are sent keep exactly five bits; the normal bit stands
      for none of them. */
  lemma SentAttributes(attributes: nat)
    ensures var r := TransferableAttributes(attributes);
      && (Bit(r, READONLY_BIT) <==> Bit(attributes, READONLY_BIT)) && (Bit(r, HIDDEN_BIT) <==> Bit(attributes, HIDDEN_BIT))
      && (Bit(r, SYSTEM_BIT) <==> Bit(attributes, SYSTEM_BIT)) && (Bit(r, DIRECTORY_BIT) <==> Bit(attributes, DIRECTORY_BIT))
      && (Bit(r, ARCHIVE_BIT) <==> Bit(attributes, ARCHIVE_BIT)) && !Bit(r, 0x8) && !Bit(r, 0x40)
      && (Bit(r, NORMAL_BIT) <==>
            && !Bit(attributes, READONLY_BIT) && !Bit(attributes, HIDDEN_BIT) && !Bit(attributes, SYSTEM_BIT)
            && !Bit(attributes, DIRECTORY_BIT) && !Bit(attributes, ARCHIVE_BIT))
  {
    SumBits(Bit(attributes, READONLY_BIT), Bit(attributes, HIDDEN_BIT), Bit(attributes, SYSTEM_BIT),
            Bit(attributes, DIRECTORY_BIT), Bit(attributes, ARCHIVE_BIT));
  }

  function Described(es: seq<Snapshot>): (ds: seq<Descriptor>)
    ensures |ds| == |es| && forall i | 0 <= i < |es| :: ds[i] == es[i].ToDescriptor()
  {
    seq(|es|, (i: nat) requires i < |es| => es[i].ToDescriptor())
  }

  // ---------------------------------------------------------------- sibling order

  predicate LexLe(a: string, b: string) {
    a == [] || (b != [] && (a[0] < b[0] || (a[0] == b[0] && LexLe(a[1..], b[1..]))))
  }

  lemma {:induction false} LexTotal(a: string, b: string)
    ensures LexLe(a, b) || LexLe(b, a)
    ensures LexLe(a, b) && LexLe(b, a) ==> a == b
  {
    if a != [] && b != [] && a[0] == b[0] {
      LexTotal(a[1..], b[1..]);
      assert a == [a[0]] + a[1..] && b == [b[0]] + b[1..];
    }
  }

  lemma {:induction false} LexTransitive(a: string, b: string, c: string)
    requires LexLe(a, b) && LexLe(b, c)
    ensures LexLe(a, c)
  {
    if a != [] && a[0] == b[0] == c[0] {
      LexTransitive(a[1..], b[1..], c[1..]);
    }
  }

  /** The comparison of `sort_by`: folded names, then the names themselves. */
  predicate NameLe(fold: string -> string, a: string, b: string) {
    LexLe(fold(a), fold(b)) && (fold(a) == fold(b) ==> LexLe(a, b))
  }

  predicate Le(fold: string -> string, a: Child, b: Child) {
    NameLe(fold, a.name, b.name)
  }

  predicate Ordered(fold: string -> string, s: seq<Child>) {
    forall i, j | 0 <= i < j < |s| :: Le(fold, s[i], s[j])
  }

  lemma LeLaws(fold: string -> string, a: Child, b: Child, c: Child)
    ensures Le(fold, a, b) || Le(fold, b, a)
    ensures Le(fold, a, b) && Le(fold, b, a) ==> a.name == b.name
    ensures Le(fold, a, b) && Le(fold, b, c) ==> Le(fold, a, c)
  {
    var x, y, z := fold(a.name), fold(b.name), fold(c.name);
    LexTotal(x, y);
    LexTotal(y, z);
    LexTotal(a.name, b.name);
    if Le(fold, a, b) && Le(fold, b, c) {
      LexTransitive(x, y, z);
      if x == z {
        LexTransitive(a.name, b.name, c.name);
      }
    }
  }

  function Place(fold: string -> string, c: Child, s: seq<Child>): seq<Child> {
    if s == [] || Le(fold, c, s[0]) then [c] + s else [s[0]] + Place(fold, c, s[1..])
  }

  /** A stable sort. */
  function Sorted(fold: string -> string, s: seq<Child>): seq<Child> {
    if s == [] then [] else Place(fold, s[0], Sorted(fold, s[1..]))
  }

  lemma {:induction false} PlaceOrders(fold: string -> string, c: Child, s: seq<Child>)
    requires Ordered(fold, s)
    ensures var r := Place(fold, c, s); Ordered(fold, r) && multiset(r) == multiset{c} + multiset(s)
  {
    hide Le;
    var r := Place(fold, c, s);
    if s != [] {
      assert s == [s[0]] + s[1..];
      if Le(fold, c, s[0]) {
        forall j | 0 <= j < |s| ensures Le(fold, c, s[j]) {
          LeLaws(fold, c, s[0], s[j]);
        }
      } else {
        PlaceOrders(fold, c, s[1..]);
        LeLaws(fold, s[0], c, c);
        var rest := Place(fold, c, s[1..]);
        forall j | 0 <= j < |rest| ensures Le(fold, s[0], rest[j]) {
          assert rest[j] in multiset(rest);
          assert rest[j] == c || rest[j] in s[1..];
        }
      }
    }
  }

  lemma {:induction false} SortedOrders(fold: string -> string, s: seq<Child>)
    ensures Ordered(fold, Sorted(fold, s)) && multiset(Sorted(fold, s)) == multiset(s)
  {
    if s != [] {
      SortedOrders(fold, s[1..]);
      PlaceOrders(fold, s[0], Sorted(fold, s[1..]));
      assert s == [s[0]] + s[1..];
    }
  }

  lemma SortedMembers(fold: string -> string, s: seq<Child>)
    ensures forall c :: c in Sorted(fold, s) <==> c in s
  {
    SortedOrders(fold, s);
    forall c ensures c in Sorted(fold, s) <==> c in s {
      assert c in multiset(Sorted(fold, s)) <==> c in multiset(s);
    }
  }

  predicate DistinctNames(s: seq<Child>) {
    forall i, j | 0 <= i < j < |s| :: s[i].name != s[j].name
  }

  lemma {:induction false} SortedDistinct(fold: string -> string, s: seq<Child>)
    requires DistinctNames(s)
    ensures DistinctNames(Sorted(fold, s))
  {
    if s != [] {
      SortedDistinct(fold, s[1..]);
      SortedMembers(fold, s[1..]);
      PlaceDistinct(fold, s[0], Sorted(fold, s[1..]));
    }
  }

  lemma {:induction false} PlaceDistinct(fold: string -> string, c: Child, s: seq<Child>)
    requires DistinctNames(s) && forall d | d in s :: d.name != c.name
    ensures DistinctNames(Place(fold, c, s)) && forall d | d in Place(fold, c, s) :: d == c || d in s
  {
    hide Le;
    if s != [] && !Le(fold, c, s[0]) {
      PlaceDistinct(fold, c, s[1..]);
      var rest := Place(fold, c, s[1..]);
      forall j | 0 <= j < |rest| ensures s[0].name != rest[j].name {
        assert rest[j] in rest;
      }
    } else {
      forall j | 0 <= j < |s| ensures c.name != s[j].name {
        assert s[j] in s;
      }
    }
  }

  lemma HeadsAgree(fold: string -> string, a: seq<Child>, b: seq<Child>)
    requires a != [] && b != [] && a[0] in b && b[0] in a
    requires Ordered(fold, a) && Ordered(fold, b) && DistinctNames(a)
    ensures a[0] == b[0]
  {
    var i :| 0 <= i < |b| && b[i] == a[0];
    var j :| 0 <= j < |a| && a[j] == b[0];
    LeLaws(fold, a[0], b[0], a[0]);
    hide Le;
  }

  lemma TailMultiset<T>(s: seq<T>)
    requires s != []
    ensures multiset(s[1..]) == multiset(s) - multiset{s[0]}
  {
    assert s == [s[0]] + s[1..];
  }

  lemma SameSize<T>(a: seq<T>, b: seq<T>)
    requires multiset(a) == multiset(b)
    ensures |a| == |b|
  {
    assert |multiset(a)| == |a| && |multiset(b)| == |b|;
  }

  lemma TailOrdered(fold: string -> string, s: seq<Child>)
    requires s != [] && Ordered(fold, s)
    ensures Ordered(fold, s[1..])
  {
  }

  /** The order a directory is read in does not matter: with distinct names
      there is only one sorted order. */
  lemma {:induction false} OrderUnique(fold: string -> string, a: seq<Child>, b: seq<Child>)
    requires multiset(a) == multiset(b) && Ordered(fold, a) && Ordered(fold, b) && DistinctNames(a)
    ensures a == b
  {
    SameSize(a, b);
    if a != [] {
      assert a[0] in multiset(a) && b[0] in multiset(b);
      HeadsAgree(fold, a, b);
      TailOrdered(fold, a);
      TailOrdered(fold, b);
      TailMultiset(a);
      TailMultiset(b);
      hide Ordered;
      OrderUnique(fold, a[1..], b[1..]);
      assert a == [a[0]] + a[1..] && b == [a[0]] + b[1..];
    }
  }

  // --------------------------------------------------------------------- the walk

  predicate Resolved(w: World, target: Option<Identity>) {
    target.Some? && target.value in w.nodes
  }

  function ChildPath(path: string, name: string): string {
    path + "\\" + name
  }

  /** Each directory entered leaves fewer that can still be entered. */
  lemma Shrinks(w: World, id: Identity, active: set<Identity>)
    requires id in w.nodes && id !in active
    ensures |w.nodes.Keys - (active + {id})| < |w.nodes.Keys - active|
  {
    assert w.nodes.Keys - (active + {id}) == (w.nodes.Keys - active) - {id};
  }

  /** The entries below `target`, itself first, siblings sorted. A directory
      already on the chain from the root is kept but not entered. */
  function Walk(w: World, target: Option<Identity>, path: string, active: set<Identity>): seq<Snapshot>
    decreases |w.nodes.Keys - active|, 0
  {
    if !Resolved(w, target) then []
    else
      var id := target.value;
      var node := w.nodes[id];
      var here := [Snap(node, id, path)];
      if !node.IsDirectory() || id in active || node.listing.None? then here
      else
        Shrinks(w, id, active);
        here + WalkAll(w, Sorted(w.fold, node.listing.value), path, active + {id})
  }

  function WalkAll(w: World, children: seq<Child>, path: string, active: set<Identity>): seq<Snapshot>
    decreases |w.nodes.Keys - active|, |children| + 1
  {
    if children == [] then []
    else
      Walk(w, children[0].target, ChildPath(path, children[0].name), active)
      + WalkAll(w, children[1..], path, active)
  }

  predicate Named(children: seq<Child>) {
    forall c | c in children :: c.unicode && ValidComponent(c.name)
  }

  /** The walk meets nothing it must reject, limits on the total aside. */
  predicate Clean(w: World, target: Option<Identity>, path: string, depth: nat, active: set<Identity>)
    decreases |w.nodes.Keys - active|, 0
  {
    && depth < MAX_VIRTUAL_DEPTH && ValidPath(path) && Resolved(w, target)
    && var id := target.value;
       var node := w.nodes[id];
       && node.disk
       && (node.IsDirectory() && id !in active ==>
             && node.listing.Some? && Named(node.listing.value)
             && (Shrinks(w, id, active);
                 CleanAll(w, Sorted(w.fold, node.listing.value), path, depth + 1, active + {id})))
  }

  predicate CleanAll(w: World, children: seq<Child>, path: string, depth: nat, active: set<Identity>)
    decreases |w.nodes.Keys - active|, |children| + 1
  {
    children == [] ||
    (&& Clean(w, children[0].target, ChildPath(path, children[0].name), depth, active)
     && CleanAll(w, children[1..], path, depth, active))
  }

  /** The two running limits, over all entries so far. */
  predicate Fits(es: seq<Snapshot>) {
    |es| <= MAX_VIRTUAL_ITEMS && TotalUnits(Described(es)) <= MAX_TOTAL_VIRTUAL_PATH_U16
  }

  lemma FitsPrefix(es: seq<Snapshot>, more: seq<Snapshot>)
    requires Fits(es + more)
    ensures Fits(es)
  {
    UnitsGrow(Described(es + more), |es|);
    assert Described(es + more)[..|es|] == Described(es);
  }

  // ------------------------------------------------------- parents before children

  predicate Above(es: seq<Snapshot>, i: nat, depth: nat)
    requires i < |es| && depth <= |Split(es[i].name)|
  {
    exists j :: 0 <= j < i && es[j].IsDirectory() && es[j].name == Ancestor(es[i].name, depth)
  }

  /** Everything lies under `base`, and every ancestor with at least `low`
      components comes earlier, as a directory. */
  predicate ParentsFirst(es: seq<Snapshot>, base: seq<string>, low: nat) {
    forall i | 0 <= i < |es| ::
      && base <= Split(es[i].name)
      && forall depth | low <= depth < |Split(es[i].name)| :: Above(es, i, depth)
  }

  predicate WellFormed(es: seq<Snapshot>) {
    forall e | e in es :: ValidPath(e.name) && |Split(e.name)| <= MAX_VIRTUAL_DEPTH
  }

  lemma ParentsFirstAppend(a: seq<Snapshot>, b: seq<Snapshot>, base: seq<string>, low: nat)
    requires ParentsFirst(a, base, low) && ParentsFirst(b, base, low)
    ensures ParentsFirst(a + b, base, low)
  {
    hide Split, Ancestor;
    var es := a + b;
    forall i, depth | 0 <= i < |es| && low <= depth < |Split(es[i].name)| ensures Above(es, i, depth) {
      if i < |a| {
        assert Above(a, i, depth);
        var j :| 0 <= j < i && a[j].IsDirectory() && a[j].name == Ancestor(a[i].name, depth);
        assert es[j] == a[j];
      } else {
        assert es[i] == b[i - |a|] && Above(b, i - |a|, depth);
        var j :| 0 <= j < i - |a| && b[j].IsDirectory() && b[j].name == Ancestor(es[i].name, depth);
        assert es[|a| + j] == b[j];
      }
    }
  }

  lemma ParentsFirstUnder(here: Snapshot, rest: seq<Snapshot>)
    requires here.IsDirectory() && ParentsFirst(rest, Split(here.name), |Split(here.name)| + 1)
    ensures ParentsFirst([here] + rest, Split(here.name), |Split(here.name)|)
  {
    var base, es := Split(here.name), [here] + rest;
    JoinSplit(here.name);
    hide Split, Join, Snapshot.IsDirectory;
    forall i, depth | 0 <= i < |es| && |base| <= depth < |Split(es[i].name)| ensures Above(es, i, depth) {
      if i > 0 {
        assert es[i] == rest[i - 1];
        if depth == |base| {
          assert Split(es[i].name)[..depth] == base;
          assert es[0] == here;
        } else {
          assert Above(rest, i - 1, depth);
          var j :| 0 <= j < i - 1 && rest[j].IsDirectory() && rest[j].name == Ancestor(es[i].name, depth);
          assert es[j + 1] == rest[j];
        }
      }
    }
  }
}
