/** Virtual paths and the check every descriptor tree must pass
    (`validate_virtual_path` and `validate_virtual_descriptor_tree` in
    data_object.rs). The Unicode lower-case mapping of one character is a
    parameter, `lower`. */
module Paths {
  import opened Common
  import opened Bytes

  const MAX_VIRTUAL_ITEMS: nat := 4096
  const MAX_VIRTUAL_DEPTH: nat := 64
  const MAX_TOTAL_VIRTUAL_PATH_U16: nat := 256 * 1024
  const MAX_PATH_U16: nat := 260

  type LowerCase = char -> string

  // ------------------------------------------------------------- components

  /** `split('\\')`: always at least one component. */
  function Split(s: string): (r: seq<string>)
    ensures r != []
  {
    if s == [] then [""]
    else
      var rest := Split(s[1..]);
      if s[0] == '\\' then [""] + rest else [[s[0]] + rest[0]] + rest[1..]
  }

  /** `join("\\")`. */
  function Join(cs: seq<string>): string {
    if cs == [] then "" else if |cs| == 1 then cs[0] else cs[0] + "\\" + Join(cs[1..])
  }

  predicate Plain(name: string) {
    '\\' !in name
  }

  lemma {:induction false} JoinSplit(s: string)
    ensures Join(Split(s)) == s
  {
    if s != [] {
      JoinSplit(s[1..]);
      var rest := Split(s[1..]);
      if s[0] == '\\' {
        assert ([""] + rest)[1..] == rest;
      } else {
        var r := [[s[0]] + rest[0]] + rest[1..];
        assert r[1..] == rest[1..];
        if |r| > 1 {
          assert Join(r) == [s[0]] + rest[0] + "\\" + Join(rest[1..]);
        }
      }
    }
  }

  lemma {:induction false} SplitPlain(name: string)
    requires Plain(name)
    ensures Split(name) == [name]
  {
    if name != [] {
      SplitPlain(name[1..]);
      assert name == [name[0]] + name[1..];
    }
  }

  /** A child path has its parent's components and one more. */
  lemma {:induction false} SplitChild(parent: string, name: string)
    requires Plain(name)
    ensures Split(parent + "\\" + name) == Split(parent) + [name]
  {
    var whole := parent + "\\" + name;
    if parent == [] {
      SplitPlain(name);
      assert whole[1..] == name;
    } else {
      SplitChild(parent[1..], name);
      assert whole[1..] == parent[1..] + "\\" + name;
    }
  }

  // ------------------------------------------------------------- pure checks

  predicate IsControl(c: char) {
    c as int < 0x20 || 0x7F <= c as int <= 0x9F
  }

  predicate Forbidden(c: char) {
    c in "<>:\"/\\|?*"
  }

  function Stem(name: string): string {
    if name == [] || name[0] == '.' then "" else [name[0]] + Stem(name[1..])
  }

  function UpperAscii(s: string): string {
    seq(|s|, (i: nat) requires i < |s| => if 'a' <= s[i] <= 'z' then (s[i] as int - 32) as char else s[i])
  }

  const PORT_SUFFIXES := {"1", "2", "3", "4", "5", "6", "7", "8", "9", "\U{B9}", "\U{B2}", "\U{B3}"}

  predicate ReservedDosName(name: string) {
    var upper := UpperAscii(Stem(name));
    || upper in {"CON", "PRN", "AUX", "NUL", "CLOCK$"}
    || (|upper| >= 3 && upper[..3] in {"COM", "LPT"} && upper[3..] in PORT_SUFFIXES)
  }

  predicate ValidComponent(name: string) {
    && name != "" && name != "." && name != ".."
    && (forall c | c in name :: !Forbidden(c) && !IsControl(c))
    && name[|name| - 1] !in {' ', '.'}
    && !ReservedDosName(name)
    && Utf16Units(name) < MAX_PATH_U16
  }

  predicate ValidPath(path: string) {
    && path != "" && '/' !in path && Utf16Units(path) < MAX_PATH_U16
    && forall c | c in Split(path) :: ValidComponent(c)
  }

  lemma ValidComponentIsPlain(name: string)
    requires ValidComponent(name)
    ensures Plain(name) && '/' !in name
  {
    assert Forbidden('\\') && Forbidden('/');
  }

  lemma ValidComponentIsPath(name: string)
    requires ValidComponent(name)
    ensures ValidPath(name) && Split(name) == [name]
  {
    ValidComponentIsPlain(name);
    SplitPlain(name);
  }

  // -------------------------------------------------------------------- trees

  const DIRECTORY_BIT: nat := 0x10

  datatype Descriptor = Descriptor(
    name: string, size: nat, attributes: nat,
    created: Option<nat>, accessed: Option<nat>, written: Option<nat>)
  {
    predicate IsDirectory() {
      attributes / DIRECTORY_BIT % 2 == 1
    }
  }

  function Fold(lower: LowerCase, path: string): string {
    if path == [] then "" else lower(path[0]) + Fold(lower, path[1..])
  }

  function TotalUnits(ds: seq<Descriptor>): nat {
    if ds == [] then 0 else TotalUnits(ds[..|ds| - 1]) + Utf16Units(ds[|ds| - 1].name)
  }

  function Ancestor(path: string, depth: nat): string
    requires depth <= |Split(path)|
  {
    Join(Split(path)[..depth])
  }

  /** One descriptor on its own. */
  predicate Proper(d: Descriptor) {
    && ValidPath(d.name) && |Split(d.name)| <= MAX_VIRTUAL_DEPTH
    && (d.IsDirectory() ==> d.size == 0)
  }

  ghost predicate DistinctFolded(lower: LowerCase, ds: seq<Descriptor>) {
    forall i, j | 0 <= i < j < |ds| :: Fold(lower, ds[i].name) != Fold(lower, ds[j].name)
  }

  ghost predicate HasDirectory(lower: LowerCase, ds: seq<Descriptor>, key: string) {
    exists i :: 0 <= i < |ds| && ds[i].IsDirectory() && Fold(lower, ds[i].name) == key
  }

  /** Every proper ancestor of every path is there, as a directory. */
  ghost predicate AncestorsPresent(lower: LowerCase, ds: seq<Descriptor>) {
    forall i, depth | 0 <= i < |ds| && 1 <= depth < |Split(ds[i].name)| ::
      HasDirectory(lower, ds, Fold(lower, Ancestor(ds[i].name, depth)))
  }

  /** What the validator is for. */
  ghost predicate TreeAccepted(lower: LowerCase, ds: seq<Descriptor>) {
    && 1 <= |ds| <= MAX_VIRTUAL_ITEMS
    && (forall i | 0 <= i < |ds| :: Proper(ds[i]))
    && TotalUnits(ds) <= MAX_TOTAL_VIRTUAL_PATH_U16
    && DistinctFolded(lower, ds)
    && AncestorsPresent(lower, ds)
  }

  // ----------------------------------------------------------- the validator

  datatype Verdict = Accepted | InvalidArgument | InvalidFormat

  /** The table built by the first loop: the folded paths of the descriptors
      seen so far and whether each is a directory. */
  ghost predicate TableOf(lower: LowerCase, ds: seq<Descriptor>, byPath: map<string, bool>) {
    && (forall i | 0 <= i < |ds| ::
          Fold(lower, ds[i].name) in byPath && byPath[Fold(lower, ds[i].name)] == ds[i].IsDirectory())
    && (forall key | key in byPath :: exists i :: 0 <= i < |ds| && Fold(lower, ds[i].name) == key)
  }

  lemma {:induction false} UnitsGrow(ds: seq<Descriptor>, k: nat)
    requires k <= |ds|
    ensures TotalUnits(ds[..k]) <= TotalUnits(ds)
    decreases |ds| - k
  {
    if k < |ds| {
      UnitsGrow(ds, k + 1);
      assert ds[..k + 1][..k] == ds[..k];
    } else {
      assert ds[..k] == ds;
    }
  }

  /** What the first loop checks. */
  ghost predicate EntriesAccepted(lower: LowerCase, ds: seq<Descriptor>) {
    && (forall i | 0 <= i < |ds| :: Proper(ds[i]))
    && TotalUnits(ds) <= MAX_TOTAL_VIRTUAL_PATH_U16
    && DistinctFolded(lower, ds)
  }

  /** A directory with a size, whose path passes: the other code is for it. */
  predicate SizedDirectory(done: seq<Descriptor>, d: Descriptor) {
    && ValidPath(d.name) && |Split(d.name)| <= MAX_VIRTUAL_DEPTH
    && TotalUnits(done + [d]) <= MAX_TOTAL_VIRTUAL_PATH_U16
    && d.IsDirectory() && d.size != 0
  }

  /** Entry `i` is the first that fails, and it is such a directory. */
  ghost predicate FailsBySize(lower: LowerCase, ds: seq<Descriptor>, i: nat)
    requires i < |ds|
  {
    EntriesAccepted(lower, ds[..i]) && SizedDirectory(ds[..i], ds[i])
  }

  ghost predicate NoFaultBelow(lower: LowerCase, ds: seq<Descriptor>, n: nat)
    requires n <= |ds|
  {
    forall k | 0 <= k < n :: !FailsBySize(lower, ds, k)
  }

  ghost predicate SizeIsTheFault(lower: LowerCase, ds: seq<Descriptor>) {
    exists i :: 0 <= i < |ds| && FailsBySize(lower, ds, i)
  }

  /** One pass of the first loop. */
  method AddEntry(lower: LowerCase, ghost done: seq<Descriptor>, d: Descriptor, byPath: map<string, bool>, totalUnits: nat)
    returns (verdict: Verdict, next: map<string, bool>, units: nat)
    requires EntriesAccepted(lower, done) && TableOf(lower, done, byPath) && totalUnits == TotalUnits(done)
    ensures verdict == Accepted <==> EntriesAccepted(lower, done + [d])
    ensures verdict == Accepted ==> TableOf(lower, done + [d], next) && units == TotalUnits(done + [d])
    ensures verdict == InvalidArgument <==> SizedDirectory(done, d)
  {
    next, units := byPath, totalUnits + Utf16Units(d.name);
    var key := Fold(lower, d.name);
    ghost var all := done + [d];
    assert all[|done|] == d;
    UnitsSnoc(done, d);
    if key in byPath {
      RepeatedKey(lower, done, d, byPath);
    } else {
      TableGrows(lower, done, d, byPath);
    }
    hide ValidPath, DistinctFolded, TableOf, TotalUnits, Fold;
    if !ValidPath(d.name) || |Split(d.name)| > MAX_VIRTUAL_DEPTH {
      return InvalidFormat, next, units;
    }
    if units > MAX_TOTAL_VIRTUAL_PATH_U16 {
      return InvalidFormat, next, units;
    }
    if d.IsDirectory() && d.size != 0 {
      return InvalidArgument, next, units;
    }
    if key in byPath {
      return InvalidFormat, next, units;
    }
    return Accepted, byPath[key := d.IsDirectory()], units;
  }

  lemma EntriesPrefix(lower: LowerCase, ds: seq<Descriptor>, k: nat)
    requires k <= |ds|
    ensures EntriesAccepted(lower, ds) ==> EntriesAccepted(lower, ds[..k])
  {
    UnitsGrow(ds, k);
    DistinctPrefix(lower, ds, k);
  }

  /** The first loop. */
  method CheckEntries(lower: LowerCase, ds: seq<Descriptor>) returns (verdict: Verdict, byPath: map<string, bool>)
    ensures verdict == Accepted <==> EntriesAccepted(lower, ds)
    ensures verdict == Accepted ==> TableOf(lower, ds, byPath)
    ensures verdict == InvalidArgument <==> SizeIsTheFault(lower, ds)
  {
    hide EntriesAccepted, TotalUnits, TableOf, SizedDirectory, NoFaultBelow, SizeIsTheFault;
    byPath := map[];
    var totalUnits := 0;
    NothingSeen(lower);
    NoFault(lower, ds);
    assert ds[..0] == [];
    for i := 0 to |ds|
      invariant EntriesAccepted(lower, ds[..i]) && TableOf(lower, ds[..i], byPath) && totalUnits == TotalUnits(ds[..i])
      invariant NoFaultBelow(lower, ds, i)
    {
      assert ds[..i + 1] == ds[..i] + [ds[i]];
      EntriesPrefix(lower, ds, i + 1);
      verdict, byPath, totalUnits := AddEntry(lower, ds[..i], ds[i], byPath, totalUnits);
      if verdict != Accepted {
        FaultHere(lower, ds, i);
        return;
      }
      NoFaultYet(lower, ds, i);
    }
    assert ds[..|ds|] == ds;
    return Accepted, byPath;
  }

  /** `validate_virtual_descriptor_tree`. */
  method ValidateTree(lower: LowerCase, ds: seq<Descriptor>) returns (verdict: Verdict)
    ensures verdict == Accepted <==> TreeAccepted(lower, ds)
    ensures verdict == InvalidArgument <==>
      |ds| == 0 || |ds| > MAX_VIRTUAL_ITEMS || SizeIsTheFault(lower, ds)
  {
    hide TreeAccepted, EntriesAccepted, AncestorsPresent, TableOf, SizeIsTheFault;
    TreeIsEntriesAndAncestors(lower, ds);
    if |ds| == 0 || |ds| > MAX_VIRTUAL_ITEMS {
      return InvalidArgument;
    }
    var byPath;
    verdict, byPath := CheckEntries(lower, ds);
    if verdict == Accepted {
      verdict := CheckAncestors(lower, ds, byPath);
    }
  }

  lemma NoFaultYet(lower: LowerCase, ds: seq<Descriptor>, i: nat)
    requires i < |ds| && NoFaultBelow(lower, ds, i) && !SizedDirectory(ds[..i], ds[i])
    ensures NoFaultBelow(lower, ds, i + 1)
  {
    hide EntriesAccepted, SizedDirectory;
  }

  lemma NoFault(lower: LowerCase, ds: seq<Descriptor>)
    ensures NoFaultBelow(lower, ds, 0)
    ensures NoFaultBelow(lower, ds, |ds|) ==> !SizeIsTheFault(lower, ds)
  {
    hide FailsBySize;
  }

  /** The first entry that fails decides. */
  lemma FaultHere(lower: LowerCase, ds: seq<Descriptor>, i: nat)
    requires i < |ds| && NoFaultBelow(lower, ds, i)
    requires EntriesAccepted(lower, ds[..i]) && !EntriesAccepted(lower, ds[..i + 1])
    ensures SizeIsTheFault(lower, ds) <==> SizedDirectory(ds[..i], ds[i])
  {
    hide EntriesAccepted, SizedDirectory;
    forall k | i < k < |ds| ensures !FailsBySize(lower, ds, k) {
      EntriesPrefix(lower, ds[..k], i + 1);
      assert ds[..k][..i + 1] == ds[..i + 1];
    }
    assert FailsBySize(lower, ds, i) <==> SizedDirectory(ds[..i], ds[i]);
  }

  lemma TreeIsEntriesAndAncestors(lower: LowerCase, ds: seq<Descriptor>)
    ensures TreeAccepted(lower, ds) <==>
      1 <= |ds| <= MAX_VIRTUAL_ITEMS && EntriesAccepted(lower, ds) && AncestorsPresent(lower, ds)
  {
  }

  lemma NothingSeen(lower: LowerCase)
    ensures EntriesAccepted(lower, []) && TableOf(lower, [], map[]) && TotalUnits([]) == 0
  {
  }

  lemma UnitsSnoc(done: seq<Descriptor>, d: Descriptor)
    ensures TotalUnits(done + [d]) == TotalUnits(done) + Utf16Units(d.name)
  {
    assert (done + [d])[..|done|] == done;
  }

  lemma DistinctPrefix(lower: LowerCase, ds: seq<Descriptor>, k: nat)
    requires k <= |ds|
    ensures DistinctFolded(lower, ds) ==> DistinctFolded(lower, ds[..k])
  {
  }

  lemma RepeatedKey(lower: LowerCase, done: seq<Descriptor>, d: Descriptor, byPath: map<string, bool>)
    requires TableOf(lower, done, byPath) && Fold(lower, d.name) in byPath
    ensures !DistinctFolded(lower, done + [d])
  {
    var k :| 0 <= k < |done| && Fold(lower, done[k].name) == Fold(lower, d.name);
    var all := done + [d];
    assert all[k] == done[k] && all[|done|] == d;
  }

  lemma TableGrows(lower: LowerCase, done: seq<Descriptor>, d: Descriptor, byPath: map<string, bool>)
    requires DistinctFolded(lower, done) && TableOf(lower, done, byPath)
    requires Fold(lower, d.name) !in byPath
    ensures DistinctFolded(lower, done + [d])
    ensures TableOf(lower, done + [d], byPath[Fold(lower, d.name) := d.IsDirectory()])
  {
    var next := byPath[Fold(lower, d.name) := d.IsDirectory()];
    var all := done + [d];
    assert forall k | 0 <= k < |done| :: all[k] == done[k];
    forall key | key in next ensures exists k :: 0 <= k < |all| && Fold(lower, all[k].name) == key {
      if key in byPath {
        var k :| 0 <= k < |done| && Fold(lower, done[k].name) == key;
        assert all[k] == done[k];
      } else {
        assert all[|done|] == d;
      }
    }
  }

  lemma TableAnswers(lower: LowerCase, ds: seq<Descriptor>, byPath: map<string, bool>, key: string)
    requires TableOf(lower, ds, byPath)
    ensures (key in byPath && byPath[key]) <==> HasDirectory(lower, ds, key)
  {
  }

  /** The second loop: every proper ancestor maps to a directory. */
  method CheckAncestors(lower: LowerCase, ds: seq<Descriptor>, byPath: map<string, bool>) returns (verdict: Verdict)
    requires TableOf(lower, ds, byPath)
    ensures verdict == if AncestorsPresent(lower, ds) then Accepted else InvalidFormat
  {
    hide TableOf, HasDirectory, Fold, Split, Join;
    for i := 0 to |ds|
      invariant forall k, depth | 0 <= k < i && 1 <= depth < |Split(ds[k].name)| ::
        HasDirectory(lower, ds, Fold(lower, Ancestor(ds[k].name, depth)))
    {
      var components := Split(ds[i].name);
      var depth := 1;
      while depth < |components|
        invariant 1 <= depth <= |components|
        invariant forall e | 1 <= e < depth :: HasDirectory(lower, ds, Fold(lower, Ancestor(ds[i].name, e)))
      {
        var key := Fold(lower, Join(components[..depth]));
        TableAnswers(lower, ds, byPath, key);
        if key !in byPath || !byPath[key] {
          assert !HasDirectory(lower, ds, Fold(lower, Ancestor(ds[i].name, depth)));
          return InvalidFormat;
        }
        depth := depth + 1;
      }
    }
    return Accepted;
  }

  // ------------------------------------------------- the order does not matter

  lemma {:induction false} UnitsRemove(ds: seq<Descriptor>, k: nat)
    requires k < |ds|
    ensures TotalUnits(ds) == TotalUnits(ds[..k] + ds[k + 1..]) + Utf16Units(ds[k].name)
  {
    hide TotalUnits, Utf16Units;
    var last := |ds| - 1;
    assert ds == ds[..last] + [ds[last]];
    UnitsSnoc(ds[..last], ds[last]);
    if k == last {
      assert ds[..k] + ds[k + 1..] == ds[..last];
    } else {
      UnitsRemove(ds[..last], k);
      var shorter := ds[..last][..k] + ds[..last][k + 1..];
      assert ds[..k] + ds[k + 1..] == shorter + [ds[last]];
      UnitsSnoc(shorter, ds[last]);
    }
  }

  lemma RemoveOne(a: seq<Descriptor>, k: nat)
    requires k < |a|
    ensures multiset(a[..k] + a[k + 1..]) == multiset(a) - multiset{a[k]}
  {
    assert a == a[..k] + [a[k]] + a[k + 1..];
  }

  lemma {:induction false} UnitsPermute(a: seq<Descriptor>, b: seq<Descriptor>)
    requires multiset(a) == multiset(b)
    ensures TotalUnits(a) == TotalUnits(b) && |a| == |b|
  {
    assert |a| == |multiset(a)| == |multiset(b)| == |b|;
    if a != [] {
      var last := |a| - 1;
      assert a[last] in multiset(b);
      var k :| 0 <= k < |b| && b[k] == a[last];
      RemoveOne(a, last);
      RemoveOne(b, k);
      UnitsRemove(a, last);
      UnitsRemove(b, k);
      hide TotalUnits;
      UnitsPermute(a[..last] + a[last + 1..], b[..k] + b[k + 1..]);
    }
  }

  /** No value occurs twice, stated without positions. */
  lemma {:induction false} TwiceMeansTwoPlaces(ds: seq<Descriptor>, d: Descriptor)
    ensures multiset(ds)[d] >= 2 <==> exists i, j :: 0 <= i < j < |ds| && ds[i] == d && ds[j] == d
  {
    if ds != [] {
      var init, last := ds[..|ds| - 1], ds[|ds| - 1];
      assert ds == init + [last];
      TwiceMeansTwoPlaces(init, d);
      if i, j :| 0 <= i < j < |ds| && ds[i] == d && ds[j] == d {
        if j < |init| {
          assert init[i] == d && init[j] == d;
        } else {
          assert init[i] == d && d in multiset(init);
        }
      }
      if multiset(ds)[d] >= 2 {
        if multiset(init)[d] >= 2 {
          var i, j :| 0 <= i < j < |init| && init[i] == d && init[j] == d;
          assert ds[i] == d && ds[j] == d;
        } else {
          assert last == d && d in init;
          var i :| 0 <= i < |init| && init[i] == d;
          assert ds[i] == d && ds[|init|] == d;
        }
      }
    }
  }

  lemma DistinctPermute(lower: LowerCase, a: seq<Descriptor>, b: seq<Descriptor>)
    requires multiset(a) == multiset(b) && DistinctFolded(lower, a)
    ensures DistinctFolded(lower, b)
  {
    forall i, j | 0 <= i < j < |b| ensures Fold(lower, b[i].name) != Fold(lower, b[j].name) {
      assert b[i] in multiset(a) && b[j] in multiset(a);
      var x :| 0 <= x < |a| && a[x] == b[i];
      var y :| 0 <= y < |a| && a[y] == b[j];
      if x == y {
        TwiceMeansTwoPlaces(b, b[i]);
        TwiceMeansTwoPlaces(a, b[i]);
      }
    }
  }

  lemma AncestorsPermute(lower: LowerCase, a: seq<Descriptor>, b: seq<Descriptor>)
    requires multiset(a) == multiset(b) && AncestorsPresent(lower, a)
    ensures AncestorsPresent(lower, b)
  {
    forall i, depth | 0 <= i < |b| && 1 <= depth < |Split(b[i].name)|
      ensures HasDirectory(lower, b, Fold(lower, Ancestor(b[i].name, depth)))
    {
      assert b[i] in multiset(a);
      var x :| 0 <= x < |a| && a[x] == b[i];
      var key := Fold(lower, Ancestor(a[x].name, depth));
      assert HasDirectory(lower, a, key);
      var y :| 0 <= y < |a| && a[y].IsDirectory() && Fold(lower, a[y].name) == key;
      assert a[y] in multiset(b);
      var z :| 0 <= z < |b| && b[z] == a[y];
    }
  }

  /** Acceptance does not depend on the order of the descriptors. */
  lemma OrderDoesNotMatter(lower: LowerCase, a: seq<Descriptor>, b: seq<Descriptor>)
    requires multiset(a) == multiset(b)
    ensures TreeAccepted(lower, a) <==> TreeAccepted(lower, b)
  {
    AcceptedPermute(lower, a, b);
    AcceptedPermute(lower, b, a);
  }

  lemma AcceptedPermute(lower: LowerCase, a: seq<Descriptor>, b: seq<Descriptor>)
    requires multiset(a) == multiset(b)
    ensures TreeAccepted(lower, a) ==> TreeAccepted(lower, b)
  {
    if TreeAccepted(lower, a) {
      UnitsPermute(a, b);
      DistinctPermute(lower, a, b);
      AncestorsPermute(lower, a, b);
      forall i | 0 <= i < |b| ensures Proper(b[i]) {
        assert b[i] in multiset(a);
      }
    }
  }
}
