/** Publication of the device identity by any number of processes at once
    (`load_or_create_identity`, `read_bounded`, `write_new_atomic` in
    device_store.rs), one file-system call to a step. Names point to files, so a
    hard link shares the file it links. A process here is one call; the calls of
    one operating-system process share its id, and ids are used again. */
module Identity {
  import opened Common

  const IDENTITY_PROTECTED_LIMIT: nat := 256 * 1024
  const TEMPORARY_NAMES: nat := 8

  type Bundle = seq<Byte>

  /** A temporary name holds the id of the process and a random suffix. */
  datatype Name = Final | Temporary(process: nat, suffix: nat)

  /** Contents not yet synced do not survive a loss of power. */
  datatype File = File(content: seq<Byte>, synced: bool)

  datatype Outcome = Published(own: Bundle) | LostRace | NoName | Broken

  /** Which of the two loads this is: before creation or after it. */
  datatype Purpose = First | After(outcome: Outcome)

  datatype Phase =
    | Looking(purpose: Purpose)
    | Opening(purpose: Purpose)
    | Reading(purpose: Purpose, source: nat, got: seq<Byte>)
    | Drafting
    | Naming(bundle: Bundle, tries: nat)
    | Writing(bundle: Bundle, name: Name, target: nat, done: nat)
    | Linking(bundle: Bundle, name: Name, target: nat)
    | Removing(outcome: Outcome, name: Name)
    | Returned(identity: Bundle, created: bool)
    | Failed(missing: bool)
    | Crashed

  /** `ids` gives each process its id in the operating system. `bundles` and
      `publisher` are history: every bundle generated so far, and the process
      whose link succeeded. */
  datatype State = State(names: map<Name, nat>, files: map<nat, File>, procs: map<nat, Phase>, ids: map<nat, nat>,
                         bundles: set<Bundle>, publisher: Option<nat>)

  datatype Step =
    | Spawn(p: nat, id: nat)
    | Stat(p: nat)
    | Open(p: nat)
    | Read(p: nat, amount: nat)
    | Generate(p: nat, bundle: Bundle)
    | Create(p: nat, suffix: nat, target: nat)
    | Write(p: nat, amount: nat)
    | Sync(p: nat)
    | Link(p: nat)
    | Remove(p: nat, removed: bool)
    | IoError(p: nat)
    | Crash(p: nat)
    | PowerLoss(damage: map<nat, seq<Byte>>)

  const Initial := State(map[], map[], map[], map[], {}, None)

  // ------------------------------------------------------------------- the steps

  function Go(s: State, p: nat, phase: Phase): State {
    s.(procs := s.procs[p := phase])
  }

  /** No phase but that of `p` differs, and no process gets another id. */
  predicate Moved(s: State, t: State, p: nat) {
    && (t.procs == s.procs || (p in t.procs && t.procs == s.procs[p := t.procs[p]]))
    && t.ids == s.ids
  }

  function Missing(purpose: Purpose): Phase {
    if purpose == First then Drafting else Failed(true)
  }

  function DoStat(s: State, p: nat, purpose: Purpose): (t: State)
    ensures Moved(s, t, p)
  {
    if Final !in s.names then Go(s, p, Missing(purpose))
    else if s.names[Final] !in s.files then s
    else
      var length := |s.files[s.names[Final]].content|;
      Go(s, p, if length == 0 || length > IDENTITY_PROTECTED_LIMIT then Failed(false) else Opening(purpose))
  }

  function DoOpen(s: State, p: nat, purpose: Purpose): (t: State)
    ensures Moved(s, t, p)
  {
    Go(s, p, if Final in s.names then Reading(purpose, s.names[Final], []) else Missing(purpose))
  }

  /** Reads stop one byte past the limit. */
  function DoRead(s: State, p: nat, purpose: Purpose, source: nat, got: seq<Byte>, amount: nat): (t: State)
    ensures Moved(s, t, p)
  {
    if source !in s.files then s
    else
      var content := s.files[source].content;
      var available := Min(|content|, IDENTITY_PROTECTED_LIMIT + 1);
      if |got| < available then
        var end := |got| + Min(Max1(amount), available - |got|);
        Go(s, p, Reading(purpose, source, got + content[|got|..end]))
      else if |got| > IDENTITY_PROTECTED_LIMIT then Go(s, p, Failed(false))
      else Go(s, p, Returned(got, purpose.After? && purpose.outcome.Published?))
  }

  function Max1(n: nat): nat {
    if n == 0 then 1 else n
  }

  function TemporaryName(s: State, p: nat, suffix: nat): Name {
    Temporary(if p in s.ids then s.ids[p] else 0, suffix)
  }

  /** `create_new` under a random name, up to eight times. */
  function DoCreate(s: State, p: nat, bundle: Bundle, tries: nat, suffix: nat, target: nat): (t: State)
    ensures Moved(s, t, p)
  {
    var name := TemporaryName(s, p, suffix);
    if name in s.names then Go(s, p, if tries <= 1 then Looking(After(NoName)) else Naming(bundle, tries - 1))
    else if target in s.files then s
    else
      Go(s, p, Writing(bundle, name, target, 0))
      .(names := s.names[name := target], files := s.files[target := File([], false)])
  }

  function DoWrite(s: State, p: nat, w: Phase, amount: nat): (t: State)
    requires w.Writing?
    ensures Moved(s, t, p)
  {
    var end := Min(w.done + amount, |w.bundle|);
    Go(s, p, w.(done := end)).(files := s.files[w.target := File(w.bundle[..end], false)])
  }

  function DoSync(s: State, p: nat, w: Phase): (t: State)
    requires w.Writing?
    ensures Moved(s, t, p)
  {
    if w.done < |w.bundle| || w.target !in s.files then s
    else
      Go(s, p, Linking(w.bundle, w.name, w.target))
      .(files := s.files[w.target := s.files[w.target].(synced := true)])
  }

  /** `hard_link` fails if the final name exists. */
  function DoLink(s: State, p: nat, l: Phase): (t: State)
    requires l.Linking?
    ensures Moved(s, t, p)
  {
    if Final in s.names then Go(s, p, Removing(LostRace, l.name))
    else if l.name !in s.names then Go(s, p, Removing(Broken, l.name))
    else
      Go(s, p, Removing(Published(l.bundle), l.name))
      .(names := s.names[Final := s.names[l.name]], publisher := Some(p))
  }

  /** A failed removal is ignored. */
  function DoRemove(s: State, p: nat, outcome: Outcome, name: Name, removed: bool): (t: State)
    ensures Moved(s, t, p)
  {
    Go(s, p, if outcome == Broken then Failed(false) else Looking(After(outcome)))
    .(names := if removed then s.names - {name} else s.names)
  }

  function DoError(s: State, p: nat): (t: State)
    requires p in s.procs
    ensures Moved(s, t, p)
  {
    match s.procs[p]
    case Writing(_, name, _, _) => Go(s, p, Removing(Broken, name))
    case Linking(_, name, _) => Go(s, p, Removing(Broken, name))
    case Removing(_, _) => s
    case Returned(_, _) => s
    case Failed(_) => s
    case Crashed => s
    case _ => Go(s, p, Failed(false))
  }

  function Lost(phase: Phase): Phase {
    if phase.Returned? || phase.Failed? then phase else Crashed
  }

  function DoPowerLoss(s: State, damage: map<nat, seq<Byte>>): State {
    s.(procs := map p | p in s.procs :: Lost(s.procs[p]),
       files := map i | i in s.files :: if s.files[i].synced || i !in damage then s.files[i] else File(damage[i], false))
  }

  function Apply(s: State, step: Step): State {
    if step.PowerLoss? then DoPowerLoss(s, step.damage)
    else if step.Spawn? then (if step.p in s.procs then s else Go(s, step.p, Looking(First)).(ids := s.ids[step.p := step.id]))
    else if step.p !in s.procs then s
    else if step.Crash? then Go(s, step.p, Lost(s.procs[step.p]))
    else if step.IoError? then DoError(s, step.p)
    else Proceed(s, step, s.procs[step.p])
  }

  /** The process's own next call. */
  function Proceed(s: State, step: Step, phase: Phase): (t: State)
    requires !step.PowerLoss?
    ensures Moved(s, t, step.p)
  {
    match (step, phase)
    case (Stat(p), Looking(purpose)) => DoStat(s, p, purpose)
    case (Open(p), Opening(purpose)) => DoOpen(s, p, purpose)
    case (Read(p, amount), Reading(purpose, source, got)) => DoRead(s, p, purpose, source, got, amount)
    case (Generate(p, bundle), Drafting) =>
      if bundle == [] then s else Go(s, p, Naming(bundle, TEMPORARY_NAMES)).(bundles := s.bundles + {bundle})
    case (Create(p, suffix, target), Naming(bundle, tries)) => DoCreate(s, p, bundle, tries, suffix, target)
    case (Write(p, amount), Writing(_, _, _, _)) => DoWrite(s, p, phase, amount)
    case (Sync(p), Writing(_, _, _, _)) => DoSync(s, p, phase)
    case (Link(p), Linking(_, _, _)) => DoLink(s, p, phase)
    case (Remove(p, removed), Removing(outcome, name)) => DoRemove(s, p, outcome, name, removed)
    case _ => s
  }

  function Run(s: State, steps: seq<Step>): State
    decreases |steps|
  {
    if steps == [] then s else Apply(Run(s, steps[..|steps| - 1]), steps[|steps| - 1])
  }

  // --------------------------------------------------------------- the invariant

  predicate Stored(s: State) {
    Final in s.names && s.names[Final] in s.files
  }

  function Contents(s: State): seq<Byte>
    requires Stored(s)
  {
    s.files[s.names[Final]].content
  }

  /** What is under the final name is whole, and cannot be lost any more. */
  predicate FinalOk(s: State) {
    && (Final in s.names <==> s.publisher.Some?)
    && (Final in s.names ==> Stored(s) && s.files[s.names[Final]].synced && Contents(s) in s.bundles)
    && (forall b | b in s.bundles :: b != [])
    && (forall n | n in s.names :: s.names[n] in s.files)
  }

  predicate OutcomeOk(s: State, p: nat, outcome: Outcome) {
    && (outcome.LostRace? ==> Stored(s))
    && (outcome.Published? ==> Stored(s) && s.publisher == Some(p) && Contents(s) == outcome.own)
  }

  predicate PurposeOk(s: State, p: nat, purpose: Purpose) {
    purpose.After? ==> purpose.outcome != Broken && OutcomeOk(s, p, purpose.outcome)
  }

  /** A file no other name leads to. */
  predicate Private(s: State, name: Name, target: nat) {
    && name.Temporary? && name in s.names && s.names[name] == target && target in s.files
    && forall n | n in s.names && s.names[n] == target :: n == name
  }

  predicate PhaseOk(s: State, p: nat, phase: Phase) {
    match phase
    case Looking(purpose) => PurposeOk(s, p, purpose)
    case Opening(purpose) => PurposeOk(s, p, purpose) && Stored(s)
    case Reading(purpose, source, got) =>
      PurposeOk(s, p, purpose) && Stored(s) && s.names[Final] == source && got <= Contents(s)
    case Naming(bundle, tries) => bundle in s.bundles && 1 <= tries <= TEMPORARY_NAMES
    case Writing(bundle, name, target, done) =>
      && bundle in s.bundles && Private(s, name, target)
      && done <= |bundle| && s.files[target].content == bundle[..done]
    case Linking(bundle, name, target) =>
      bundle in s.bundles && Private(s, name, target) && s.files[target] == File(bundle, true)
    case Removing(outcome, name) => OutcomeOk(s, p, outcome) && name.Temporary? && name in s.names
    case Returned(identity, created) =>
      Stored(s) && identity == Contents(s) && (created ==> s.publisher == Some(p))
    case _ => true
  }

  function Held(phase: Phase): Option<Name> {
    match phase
    case Writing(_, name, _, _) => Some(name)
    case Linking(_, name, _) => Some(name)
    case Removing(_, name) => Some(name)
    case _ => None
  }

  /** No two processes use one temporary name. */
  predicate NamesApart(s: State) {
    forall p, q | p in s.procs && q in s.procs && p != q && Held(s.procs[p]).Some? :: Held(s.procs[p]) != Held(s.procs[q])
  }

  predicate Inv(s: State) {
    FinalOk(s) && NamesApart(s) && forall p | p in s.procs :: PhaseOk(s, p, s.procs[p])
  }

  // ------------------------------------------------------------------ preservation

  /** What other processes can rely on while `p` moves: the final name never
      moves once set nor does its file change, and names and files of others
      are left alone. */
  predicate Others(s: State, t: State, p: nat) {
    && s.bundles <= t.bundles
    && (s.publisher.Some? ==> t.publisher == s.publisher)
    && (Stored(s) ==> Stored(t) && t.names[Final] == s.names[Final] && Contents(t) == Contents(s))
    && (forall q | q in s.procs && q != p :: q in t.procs && t.procs[q] == s.procs[q])
    && forall q | q in s.procs && q != p && Held(s.procs[q]).Some? :: Untouched(s, t, s.procs[q], Held(s.procs[q]).value)
  }

  /** The temporary name of a process still leads where it did, and if its file
      is private it is unchanged. */
  predicate Untouched(s: State, t: State, phase: Phase, name: Name) {
    name in s.names ==>
      var target := s.names[name];
      && name in t.names && t.names[name] == target
      && (!phase.Removing? && Private(s, name, target) ==> Private(t, name, target) && t.files[target] == s.files[target])
  }

  lemma OtherPhase(s: State, t: State, p: nat, q: nat)
    requires Inv(s) && Others(s, t, p) && q in s.procs && q != p
    ensures PhaseOk(t, q, s.procs[q])
  {
    assert PhaseOk(s, q, s.procs[q]);
    if Held(s.procs[q]).Some? {
      assert Held(s.procs[q]).value in s.names;
    }
    hide Others, Private;
    OthersAt(s, t, p, q);
  }

  lemma OthersAt(s: State, t: State, p: nat, q: nat)
    requires Others(s, t, p) && q in s.procs && q != p
    ensures s.bundles <= t.bundles && (s.publisher.Some? ==> t.publisher == s.publisher)
    ensures Stored(s) ==> Stored(t) && t.names[Final] == s.names[Final] && Contents(t) == Contents(s)
    ensures Held(s.procs[q]).Some? ==> Untouched(s, t, s.procs[q], Held(s.procs[q]).value)
  {
    hide Private, Untouched;
  }

  /** A published identity is still there, unchanged. */
  predicate Kept(s: State, t: State) {
    Stored(s) ==> Stored(t) && Contents(t) == Contents(s)
  }

  /** To preserve the invariant, a step of `p` must leave the others alone, keep
      the final file whole and leave `p` itself in order. */
  lemma Moves(s: State, t: State, p: nat)
    requires Inv(s) && Others(s, t, p) && FinalOk(t)
    requires t.procs.Keys == s.procs.Keys + {p} && PhaseOk(t, p, t.procs[p])
    requires Held(t.procs[p]).Some? ==> forall q | q in s.procs && q != p :: Held(s.procs[q]) != Held(t.procs[p])
    ensures Inv(t) && Kept(s, t)
  {
    forall q | q in t.procs ensures PhaseOk(t, q, t.procs[q]) {
      if q != p {
        OtherPhase(s, t, p, q);
      }
    }
    hide PhaseOk, FinalOk, Held;
  }

  /** A step that changes nothing but the phase of `p`. */
  lemma OnlyPhase(s: State, p: nat, phase: Phase)
    requires Inv(s) && PhaseOk(Go(s, p, phase), p, phase)
    requires Held(phase).Some? ==> p in s.procs && Held(s.procs[p]) == Held(phase)
    ensures Inv(Go(s, p, phase)) && Kept(s, Go(s, p, phase))
  {
    var t := Go(s, p, phase);
    hide PhaseOk, Held;
    Moves(s, t, p);
  }

  lemma StatStep(s: State, p: nat, purpose: Purpose)
    requires Inv(s) && p in s.procs && s.procs[p] == Looking(purpose)
    ensures Inv(DoStat(s, p, purpose)) && Kept(s, DoStat(s, p, purpose))
  {
    var length := if Stored(s) then |Contents(s)| else 0;
    var phase := if Final !in s.names then Missing(purpose)
      else if length == 0 || length > IDENTITY_PROTECTED_LIMIT then Failed(false) else Opening(purpose);
    OnlyPhase(s, p, phase);
  }

  lemma OpenStep(s: State, p: nat, purpose: Purpose)
    requires Inv(s) && p in s.procs && s.procs[p] == Opening(purpose)
    ensures Inv(DoOpen(s, p, purpose)) && Kept(s, DoOpen(s, p, purpose))
  {
    OnlyPhase(s, p, if Final in s.names then Reading(purpose, s.names[Final], []) else Missing(purpose));
  }

  lemma ReadStep(s: State, p: nat, purpose: Purpose, source: nat, got: seq<Byte>, amount: nat)
    requires Inv(s) && p in s.procs && s.procs[p] == Reading(purpose, source, got)
    ensures Inv(DoRead(s, p, purpose, source, got, amount)) && Kept(s, DoRead(s, p, purpose, source, got, amount))
  {
    assert PhaseOk(s, p, s.procs[p]);
    var t := DoRead(s, p, purpose, source, got, amount);
    var phase := t.procs[p];
    if |got| < Min(|Contents(s)|, IDENTITY_PROTECTED_LIMIT + 1) {
      assert phase.got <= Contents(s);
    }
    OnlyPhase(s, p, phase);
  }

  lemma CreateStep(s: State, p: nat, bundle: Bundle, tries: nat, suffix: nat, target: nat)
    requires Inv(s) && p in s.procs && s.procs[p] == Naming(bundle, tries)
    ensures Inv(DoCreate(s, p, bundle, tries, suffix, target)) && Kept(s, DoCreate(s, p, bundle, tries, suffix, target))
  {
    assert PhaseOk(s, p, s.procs[p]);
    var t := DoCreate(s, p, bundle, tries, suffix, target);
    var name := TemporaryName(s, p, suffix);
    if name in s.names {
      OnlyPhase(s, p, t.procs[p]);
    } else if target !in s.files {
      NewFile(s, p, bundle, name, target);
      hide Others, FinalOk, Private;
      Moves(s, t, p);
    }
  }

  lemma NewFile(s: State, p: nat, bundle: Bundle, name: Name, target: nat)
    requires Inv(s) && p in s.procs && name.Temporary? && name !in s.names && target !in s.files
    ensures var t := Go(s, p, Writing(bundle, name, target, 0))
      .(names := s.names[name := target], files := s.files[target := File([], false)]);
      Others(s, t, p) && FinalOk(t) && Private(t, name, target)
    ensures forall q | q in s.procs && q != p :: Held(s.procs[q]) != Some(name)
  {
    forall q | q in s.procs && q != p ensures Held(s.procs[q]) != Some(name) {
      assert PhaseOk(s, q, s.procs[q]);
    }
    hide PhaseOk;
  }

  lemma GenerateStep(s: State, p: nat, bundle: Bundle)
    requires Inv(s) && p in s.procs && s.procs[p] == Drafting && bundle != []
    ensures Inv(Go(s, p, Naming(bundle, TEMPORARY_NAMES)).(bundles := s.bundles + {bundle})) && Kept(s, Go(s, p, Naming(bundle, TEMPORARY_NAMES)).(bundles := s.bundles + {bundle}))
  {
    Moves(s, Go(s, p, Naming(bundle, TEMPORARY_NAMES)).(bundles := s.bundles + {bundle}), p);
  }

  /** Changing a private file disturbs nobody else. */
  lemma PrivateWrite(s: State, t: State, p: nat, file: File)
    requires Inv(s) && p in s.procs && (s.procs[p].Writing? || s.procs[p].Linking?)
    requires Private(s, s.procs[p].name, s.procs[p].target)
    requires t.names == s.names && t.files == s.files[s.procs[p].target := file]
    requires t.bundles == s.bundles && t.publisher == s.publisher
    requires t.procs.Keys == s.procs.Keys && forall q | q in s.procs && q != p :: t.procs[q] == s.procs[q]
    ensures Others(s, t, p) && FinalOk(t) && Private(t, s.procs[p].name, s.procs[p].target)
  {
    hide PhaseOk;
  }

  lemma WriteStep(s: State, p: nat, amount: nat)
    requires Inv(s) && p in s.procs && s.procs[p].Writing?
    ensures Inv(DoWrite(s, p, s.procs[p], amount)) && Kept(s, DoWrite(s, p, s.procs[p], amount))
  {
    assert PhaseOk(s, p, s.procs[p]);
    var t := DoWrite(s, p, s.procs[p], amount);
    PrivateWrite(s, t, p, t.files[s.procs[p].target]);
    hide Others, FinalOk, Private;
    Moves(s, t, p);
  }

  lemma SyncStep(s: State, p: nat)
    requires Inv(s) && p in s.procs && s.procs[p].Writing?
    ensures Inv(DoSync(s, p, s.procs[p])) && Kept(s, DoSync(s, p, s.procs[p]))
  {
    assert PhaseOk(s, p, s.procs[p]);
    var w := s.procs[p];
    var t := DoSync(s, p, w);
    if w.done == |w.bundle| && w.target in s.files {
      assert w.bundle[..w.done] == w.bundle;
      PrivateWrite(s, t, p, t.files[w.target]);
      hide Others, FinalOk, Private;
      Moves(s, t, p);
    }
  }

  lemma LinkStep(s: State, p: nat)
    requires Inv(s) && p in s.procs && s.procs[p].Linking?
    ensures Inv(DoLink(s, p, s.procs[p])) && Kept(s, DoLink(s, p, s.procs[p]))
  {
    assert PhaseOk(s, p, s.procs[p]);
    var l := s.procs[p];
    var t := DoLink(s, p, l);
    if Final in s.names {
      OnlyPhase(s, p, Removing(LostRace, l.name));
    } else {
      assert l.name in t.names;
      Moves(s, t, p);
    }
  }

  lemma RemoveStep(s: State, p: nat, outcome: Outcome, name: Name, removed: bool)
    requires Inv(s) && p in s.procs && s.procs[p] == Removing(outcome, name)
    ensures Inv(DoRemove(s, p, outcome, name, removed)) && Kept(s, DoRemove(s, p, outcome, name, removed))
  {
    assert PhaseOk(s, p, s.procs[p]);
    var t := DoRemove(s, p, outcome, name, removed);
    if removed {
      Moves(s, t, p);
    } else {
      OnlyPhase(s, p, t.procs[p]);
    }
  }

  lemma ErrorStep(s: State, p: nat)
    requires Inv(s) && p in s.procs
    ensures Inv(DoError(s, p)) && Kept(s, DoError(s, p))
  {
    assert PhaseOk(s, p, s.procs[p]);
    var t := DoError(s, p);
    assert t == Go(s, p, t.procs[p]);
    OnlyPhase(s, p, t.procs[p]);
  }

  lemma PowerLossStep(s: State, damage: map<nat, seq<Byte>>)
    requires Inv(s)
    ensures Inv(DoPowerLoss(s, damage)) && Kept(s, DoPowerLoss(s, damage))
  {
    var t := DoPowerLoss(s, damage);
    forall p | p in t.procs ensures PhaseOk(t, p, t.procs[p]) && Held(t.procs[p]).None? {
      assert PhaseOk(s, p, s.procs[p]);
    }
  }

  lemma Unmoved(s: State)
    ensures Kept(s, s)
  {
  }

  lemma ProceedStep(s: State, step: Step)
    requires Inv(s) && !step.PowerLoss? && step.p in s.procs
    ensures Inv(Proceed(s, step, s.procs[step.p])) && Kept(s, Proceed(s, step, s.procs[step.p]))
  {
    hide Inv, Kept, DoStat, DoOpen, DoRead, DoCreate, DoWrite, DoSync, DoLink, DoRemove, Go;
    match (step, s.procs[step.p])
    case (Stat(p), Looking(purpose)) => StatStep(s, p, purpose);
    case (Open(p), Opening(purpose)) => OpenStep(s, p, purpose);
    case (Read(p, amount), Reading(purpose, source, got)) => ReadStep(s, p, purpose, source, got, amount);
    case (Generate(p, bundle), Drafting) =>
      if bundle != [] {
        GenerateStep(s, p, bundle);
      } else {
        Unmoved(s);
      }
    case (Create(p, suffix, target), Naming(bundle, tries)) => CreateStep(s, p, bundle, tries, suffix, target);
    case (Write(p, amount), Writing(_, _, _, _)) => WriteStep(s, p, amount);
    case (Sync(p), Writing(_, _, _, _)) => SyncStep(s, p);
    case (Link(p), Linking(_, _, _)) => LinkStep(s, p);
    case (Remove(p, removed), Removing(outcome, name)) => RemoveStep(s, p, outcome, name, removed);
    case _ => Unmoved(s);
  }

  lemma CrashStep(s: State, p: nat)
    requires Inv(s) && p in s.procs
    ensures Inv(Go(s, p, Lost(s.procs[p]))) && Kept(s, Go(s, p, Lost(s.procs[p])))
  {
    assert PhaseOk(s, p, s.procs[p]);
    OnlyPhase(s, p, Lost(s.procs[p]));
  }

  lemma IdsDoNotMatter(s: State, ids: map<nat, nat>)
    requires Inv(s)
    ensures Inv(s.(ids := ids)) && Kept(s, s.(ids := ids))
  {
    var t := s.(ids := ids);
    forall p | p in t.procs ensures PhaseOk(t, p, t.procs[p]) {
      assert PhaseOk(s, p, s.procs[p]);
    }
  }

  lemma SpawnStep(s: State, p: nat, id: nat)
    requires Inv(s) && p !in s.procs
    ensures Inv(Go(s, p, Looking(First)).(ids := s.ids[p := id])) && Kept(s, Go(s, p, Looking(First)).(ids := s.ids[p := id]))
  {
    OnlyPhase(s, p, Looking(First));
    hide Inv;
    IdsDoNotMatter(Go(s, p, Looking(First)), s.ids[p := id]);
  }

  lemma InvStep(s: State, step: Step)
    requires Inv(s)
    ensures Inv(Apply(s, step)) && Kept(s, Apply(s, step))
  {
    if step.PowerLoss? {
      PowerLossStep(s, step.damage);
    } else if step.Spawn? {
      if step.p !in s.procs {
        SpawnStep(s, step.p, step.id);
      }
    } else if step.p in s.procs {
      hide Inv;
      if step.Crash? {
        CrashStep(s, step.p);
      } else if step.IoError? {
        ErrorStep(s, step.p);
      } else {
        ProceedStep(s, step);
      }
    }
  }

  lemma {:induction false} InvRun(steps: seq<Step>)
    ensures Inv(Run(Initial, steps))
  {
    if steps != [] {
      InvRun(steps[..|steps| - 1]);
      hide Inv, Apply;
      InvStep(Run(Initial, steps[..|steps| - 1]), steps[|steps| - 1]);
    }
  }

  // ------------------------------------------------------------------ over all runs

  /** At every point of every run a file under the final name is whole and on
      disk, and whoever is reading holds a prefix of it. */
  lemma NeverPartial(steps: seq<Step>)
    ensures var s := Run(Initial, steps);
      && (Final in s.names ==> Stored(s) && Contents(s) in s.bundles && s.files[s.names[Final]].synced)
      && forall p | p in s.procs && s.procs[p].Reading? :: Stored(s) && s.procs[p].got <= Contents(s)
  {
    InvRun(steps);
    var s := Run(Initial, steps);
    assert forall p | p in s.procs :: PhaseOk(s, p, s.procs[p]);
  }

  /** No step, crash or loss of power included, changes a published identity. */
  lemma FinalStays(s: State, step: Step)
    requires Inv(s) && Stored(s)
    ensures var t := Apply(s, step); Stored(t) && Contents(t) == Contents(s)
  {
    hide Inv, Apply;
    InvStep(s, step);
  }

  lemma {:induction false} RunAppend(s: State, a: seq<Step>, b: seq<Step>)
    ensures Run(s, a + b) == Run(Run(s, a), b)
  {
    if b == [] {
      assert a + b == a;
    } else {
      var init := b[..|b| - 1];
      RunAppend(s, a, init);
      assert (a + b)[..|a + b| - 1] == a + init;
    }
  }

  lemma {:induction false} PublishedForever(before: seq<Step>, after: seq<Step>)
    requires Final in Run(Initial, before).names
    ensures var s := Run(Initial, before); var t := Run(Initial, before + after);
      Stored(s) && Stored(t) && Contents(t) == Contents(s)
  {
    hide Apply, Inv;
    NeverPartial(before);
    if after == [] {
      assert before + after == before;
    } else {
      var init := after[..|after| - 1];
      PublishedForever(before, init);
      InvRun(before + init);
      assert (before + after)[..|before + after| - 1] == before + init;
      FinalStays(Run(Initial, before + init), after[|after| - 1]);
    }
  }

  /** A process that looks for the identity after its attempt to create one
      finds none only if it never got a temporary name. */
  lemma MissingOnlyWithoutName(steps: seq<Step>, p: nat, outcome: Outcome)
    requires var s := Run(Initial, steps); p in s.procs && s.procs[p] == Looking(After(outcome)) && Final !in s.names
    ensures outcome == NoName
  {
    InvRun(steps);
    var s := Run(Initial, steps);
    assert PhaseOk(s, p, s.procs[p]);
  }

  lemma OneLoad(s: State, p: nat, purpose: Purpose)
    requires p in s.procs && s.procs[p] == Looking(purpose) && Stored(s)
    requires 0 < |Contents(s)| <= IDENTITY_PROTECTED_LIMIT
    ensures var t := Apply(Apply(Apply(Apply(s, Stat(p)), Open(p)), Read(p, |Contents(s)|)), Read(p, 1));
      t == Go(s, p, Returned(Contents(s), purpose.After? && purpose.outcome.Published?))
  {
    var c := Contents(s);
    var source := s.names[Final];
    var s1 := Go(s, p, Opening(purpose));
    var s2 := Go(s, p, Reading(purpose, source, []));
    var s3 := Go(s, p, Reading(purpose, source, c));
    assert Apply(s, Stat(p)) == s1;
    assert Apply(s1, Open(p)) == s2;
    FirstRead(s, s2, p, purpose);
    LastRead(s, s3, p, purpose);
    hide Apply;
  }

  lemma FirstRead(s: State, s2: State, p: nat, purpose: Purpose)
    requires Stored(s) && 0 < |Contents(s)| <= IDENTITY_PROTECTED_LIMIT
    requires s2 == Go(s, p, Reading(purpose, s.names[Final], []))
    ensures Apply(s2, Read(p, |Contents(s)|)) == Go(s, p, Reading(purpose, s.names[Final], Contents(s)))
  {
    var c := Contents(s);
    assert [] + c[0..|c|] == c;
  }

  lemma LastRead(s: State, s3: State, p: nat, purpose: Purpose)
    requires Stored(s) && 0 < |Contents(s)| <= IDENTITY_PROTECTED_LIMIT
    requires s3 == Go(s, p, Reading(purpose, s.names[Final], Contents(s)))
    ensures Apply(s3, Read(p, 1)) == Go(s, p, Returned(Contents(s), purpose.After? && purpose.outcome.Published?))
  {
  }

  /** Undisturbed, any process that looks for a published identity gets it. */
  lemma LoadsAlone(steps: seq<Step>, p: nat, purpose: Purpose)
    requires var s := Run(Initial, steps);
      && p in s.procs && s.procs[p] == Looking(purpose) && Final in s.names
      && Stored(s) && |Contents(s)| <= IDENTITY_PROTECTED_LIMIT
    ensures var s := Run(Initial, steps);
      Run(s, [Stat(p), Open(p), Read(p, |Contents(s)|), Read(p, 1)])
      == Go(s, p, Returned(Contents(s), purpose.After? && purpose.outcome.Published?))
  {
    NeverPartial(steps);
    var s := Run(Initial, steps);
    NoEmptyBundle(steps);
    FourSteps(s, Stat(p), Open(p), Read(p, |Contents(s)|), Read(p, 1));
    OneLoad(s, p, purpose);
    hide Run, Apply, Go;
  }

  lemma NoEmptyBundle(steps: seq<Step>)
    ensures [] !in Run(Initial, steps).bundles
  {
    InvRun(steps);
  }

  lemma FourSteps(s: State, a: Step, b: Step, c: Step, d: Step)
    ensures Run(s, [a, b, c, d]) == Apply(Apply(Apply(Apply(s, a), b), c), d)
  {
    hide Apply;
    assert [a, b, c, d][..3] == [a, b, c] && [a, b, c][..2] == [a, b] && [a, b][..1] == [a] && [a][..0] == [];
    assert Run(s, []) == s;
    assert Run(s, [a]) == Apply(s, a);
    assert Run(s, [a, b]) == Apply(Apply(s, a), b);
  }

  // ------------------------------------------------------ draws of temporary names

  /** `step` is a draw of `p` that finds a name in use, or finds a free one. */
  predicate TakenDraw(s: State, p: nat, step: Step) {
    step.Create? && step.p == p && p in s.procs && s.procs[p].Naming? && TemporaryName(s, p, step.suffix) in s.names
  }

  predicate FreeDraw(s: State, p: nat, step: Step) {
    && step.Create? && step.p == p && p in s.procs && s.procs[p].Naming?
    && TemporaryName(s, p, step.suffix) !in s.names && step.target !in s.files
  }

  /** How many draws of `p` in a run found their name in use. */
  function Taken(steps: seq<Step>, p: nat): nat {
    if steps == [] then 0
    else
      var n := |steps| - 1;
      Taken(steps[..n], p) + if TakenDraw(Run(Initial, steps[..n]), p, steps[n]) then 1 else 0
  }

  function Free(steps: seq<Step>, p: nat): nat {
    if steps == [] then 0
    else
      var n := |steps| - 1;
      Free(steps[..n], p) + if FreeDraw(Run(Initial, steps[..n]), p, steps[n]) then 1 else 0
  }

  /** The first load and what precedes the draws. */
  predicate Early(phase: Phase) {
    || phase.Drafting?
    || ((phase.Looking? || phase.Opening? || phase.Reading?) && phase.purpose == First)
  }

  predicate Nameless(phase: Phase) {
    (phase.Looking? || phase.Opening? || phase.Reading?) && phase.purpose == After(NoName)
  }

  predicate Over(phase: Phase) {
    phase.Returned? || phase.Failed? || phase.Crashed?
  }

  /** The phase of a process tells how its draws went. */
  predicate CountOk(s: State, p: nat, taken: nat, free: nat) {
    if p !in s.procs || Early(s.procs[p]) then taken == free == 0
    else if s.procs[p].Naming? then taken == TEMPORARY_NAMES - s.procs[p].tries && free == 0
    else if Nameless(s.procs[p]) then taken == TEMPORARY_NAMES && free == 0
    else if Over(s.procs[p]) then taken + free <= TEMPORARY_NAMES
    else taken < TEMPORARY_NAMES && free == 1 && (s.procs[p].Removing? ==> s.procs[p].outcome != NoName)
  }

  lemma OthersStay(s: State, p: nat, step: Step)
    requires !step.PowerLoss? && step.p != p
    ensures var t := Apply(s, step);
      && (p in t.procs <==> p in s.procs) && (p in s.procs ==> t.procs[p] == s.procs[p])
      && (p in t.ids <==> p in s.ids) && (p in s.ids ==> t.ids[p] == s.ids[p])
  {
    hide Proceed, DoError, Lost;
  }

  /** Past its draws a process does not go back. */
  lemma LateLoad(s: State, p: nat, step: Step)
    requires (step.Stat? || step.Open? || step.Read?) && step.p == p && p in s.procs
    requires !Early(s.procs[p]) && !s.procs[p].Naming?
    ensures var t := Proceed(s, step, s.procs[p]); p in t.procs && !Early(t.procs[p]) && !t.procs[p].Naming?
  {
    hide DoCreate, DoWrite, DoSync, DoLink, DoRemove;
  }

  lemma LateWork(s: State, p: nat, step: Step)
    requires step.Write? || step.Sync? || step.Link? || step.Remove? || step.Generate? || step.Create?
    requires step.p == p && p in s.procs && !Early(s.procs[p]) && !s.procs[p].Naming?
    ensures var t := Proceed(s, step, s.procs[p]); p in t.procs && !Early(t.procs[p]) && !t.procs[p].Naming?
  {
    hide DoCreate, DoStat, DoOpen, DoRead;
  }

  lemma NoWayBack(s: State, p: nat, step: Step)
    requires !step.PowerLoss? && step.p == p && p in s.procs && !Early(s.procs[p]) && !s.procs[p].Naming?
    ensures var t := Apply(s, step); p in t.procs && !Early(t.procs[p]) && !t.procs[p].Naming? && t.ids == s.ids
  {
    hide Proceed;
    if step.Stat? || step.Open? || step.Read? {
      LateLoad(s, p, step);
    } else if !step.Spawn? && !step.Crash? && !step.IoError? {
      LateWork(s, p, step);
    }
  }

  lemma CountCreate(s: State, p: nat, step: Step, taken: nat, free: nat)
    requires Inv(s) && CountOk(s, p, taken, free) && step.Create? && step.p == p
    ensures CountOk(Apply(s, step), p, taken + (if TakenDraw(s, p, step) then 1 else 0), free + (if FreeDraw(s, p, step) then 1 else 0))
  {
    if p in s.procs {
      assert PhaseOk(s, p, s.procs[p]);
    }
    hide Private, FinalOk, NamesApart, Inv, DoStat, DoOpen, DoRead, DoWrite, DoSync, DoLink, DoRemove, DoError, Lost;
  }

  /** The loads: their purpose stays until they end. */
  lemma CountLoad(s: State, p: nat, step: Step, taken: nat, free: nat)
    requires CountOk(s, p, taken, free) && (step.Stat? || step.Open? || step.Read?) && step.p == p
    ensures CountOk(Apply(s, step), p, taken, free)
  {
    hide DoCreate, DoWrite, DoSync, DoLink, DoRemove, DoError, Lost;
  }

  lemma CountOther(s: State, p: nat, step: Step, taken: nat, free: nat)
    requires CountOk(s, p, taken, free) && !step.PowerLoss? && step.p == p
    requires !step.Create? && !step.Stat? && !step.Open? && !step.Read?
    ensures CountOk(Apply(s, step), p, taken, free)
  {
    hide DoCreate, DoStat, DoOpen, DoRead;
  }

  lemma CountStep(s: State, p: nat, step: Step, taken: nat, free: nat)
    requires Inv(s) && CountOk(s, p, taken, free)
    ensures CountOk(Apply(s, step), p, taken + (if TakenDraw(s, p, step) then 1 else 0), free + (if FreeDraw(s, p, step) then 1 else 0))
  {
    if step.PowerLoss? {
      assert p in s.procs ==> Apply(s, step).procs[p] == Lost(s.procs[p]);
    } else if step.p != p {
      OthersStay(s, p, step);
    } else if step.Create? {
      CountCreate(s, p, step, taken, free);
    } else if step.Stat? || step.Open? || step.Read? {
      CountLoad(s, p, step, taken, free);
    } else {
      CountOther(s, p, step, taken, free);
    }
    hide Inv, Apply, Early, Nameless, Over;
  }

  lemma {:induction false} CountRun(steps: seq<Step>, p: nat)
    ensures CountOk(Run(Initial, steps), p, Taken(steps, p), Free(steps, p))
  {
    if steps != [] {
      var n := |steps| - 1;
      CountRun(steps[..n], p);
      InvRun(steps[..n]);
      hide Inv, Apply, CountOk, TakenDraw, FreeDraw;
      CountStep(Run(Initial, steps[..n]), p, steps[n], Taken(steps[..n], p), Free(steps[..n], p));
    }
  }

  /** `p` has run out of tries: it goes on as if the identity existed already. */
  predicate WithoutName(s: State, p: nat) {
    p in s.procs && s.procs[p] == Looking(After(NoName))
  }

  ghost predicate GaveUp(steps: seq<Step>, p: nat) {
    exists k :: 0 <= k <= |steps| && WithoutName(Run(Initial, steps[..k]), p)
  }

  lemma {:induction false} TakenGrows(steps: seq<Step>, k: nat, p: nat)
    requires k <= |steps|
    ensures Taken(steps[..k], p) <= Taken(steps, p)
    decreases |steps| - k
  {
    hide TakenDraw, Run;
    if k < |steps| {
      TakenGrows(steps, k + 1, p);
      assert steps[..k + 1][..k] == steps[..k];
    } else {
      assert steps[..k] == steps;
    }
  }

  lemma EighthDraw(s: State, p: nat, step: Step)
    requires Inv(s) && CountOk(s, p, TEMPORARY_NAMES - 1, 0) && TakenDraw(s, p, step)
    ensures WithoutName(Apply(s, step), p)
  {
    hide Inv;
  }

  lemma TakenAtMost(s: State, p: nat, taken: nat, free: nat)
    requires CountOk(s, p, taken, free)
    ensures taken <= TEMPORARY_NAMES && (taken == TEMPORARY_NAMES ==> free == 0)
    ensures WithoutName(s, p) ==> taken == TEMPORARY_NAMES
    ensures p in s.procs && s.procs[p].Naming? ==> free == 0
  {
  }

  lemma {:induction false} TakenEight(steps: seq<Step>, p: nat)
    requires Taken(steps, p) == TEMPORARY_NAMES
    ensures GaveUp(steps, p)
  {
    var n := |steps| - 1;
    var s := Run(Initial, steps[..n]);
    CountRun(steps[..n], p);
    InvRun(steps[..n]);
    TakenAtMost(s, p, Taken(steps[..n], p), Free(steps[..n], p));
    if Taken(steps[..n], p) == TEMPORARY_NAMES {
      TakenEight(steps[..n], p);
      EarlierGaveUp(steps, n, p);
    } else {
      EighthDraw(s, p, steps[n]);
      assert steps[..|steps|] == steps;
    }
    hide Inv, CountOk, Apply;
  }

  lemma EarlierGaveUp(steps: seq<Step>, n: nat, p: nat)
    requires n <= |steps| && GaveUp(steps[..n], p)
    ensures GaveUp(steps, p)
  {
    hide Run, WithoutName;
    var k :| 0 <= k <= n && WithoutName(Run(Initial, steps[..n][..k]), p);
    assert steps[..n][..k] == steps[..k];
  }

  /** A process gives up on a temporary name exactly when its eight draws each
      met a name in use; then no draw of it found a free one. */
  lemma GivesUpExactly(steps: seq<Step>, p: nat)
    ensures GaveUp(steps, p) <==> Taken(steps, p) == TEMPORARY_NAMES
    ensures Taken(steps, p) == TEMPORARY_NAMES ==> Free(steps, p) == 0
  {
    CountRun(steps, p);
    TakenAtMost(Run(Initial, steps), p, Taken(steps, p), Free(steps, p));
    hide Run, CountOk, WithoutName;
    if GaveUp(steps, p) {
      var k :| 0 <= k <= |steps| && WithoutName(Run(Initial, steps[..k]), p);
      CountRun(steps[..k], p);
      TakenAtMost(Run(Initial, steps[..k]), p, Taken(steps[..k], p), Free(steps[..k], p));
      TakenGrows(steps, k, p);
    }
    if Taken(steps, p) == TEMPORARY_NAMES {
      TakenEight(steps, p);
    }
  }

  // ------------------------------------------------- when the identity is not found

  predicate Missed(s: State, p: nat) {
    p in s.procs && s.procs[p] == Failed(true)
  }

  /** At step `k`, `p` looks for the identity after eight taken draws, and nobody
      has published one. */
  ghost predicate MissesAt(steps: seq<Step>, p: nat, k: nat)
    requires k < |steps|
  {
    var s := Run(Initial, steps[..k]);
    && Taken(steps[..k], p) == TEMPORARY_NAMES && steps[k] == Stat(p)
    && p in s.procs && s.procs[p].Looking? && Final !in s.names
  }

  /** Only a late look that finds nothing makes a process fail for want of an
      identity. */
  lemma MissHere(s: State, p: nat, step: Step)
    requires Inv(s) && p in s.procs && !step.PowerLoss? && step.p == p
    ensures Missed(Apply(s, step), p) <==>
      Missed(s, p) || (step.Stat? && s.procs[p].Looking? && s.procs[p].purpose.After? && Final !in s.names)
  {
    assert PhaseOk(s, p, s.procs[p]);
    hide Private, FinalOk, NamesApart, Inv, DoCreate, DoWrite, DoSync, DoLink;
  }

  /** And by then its draws were all taken. */
  lemma LateLook(s: State, p: nat, taken: nat, free: nat)
    requires Inv(s) && CountOk(s, p, taken, free) && p in s.procs && s.procs[p].Looking? && Final !in s.names
    ensures s.procs[p].purpose.After? <==> taken == TEMPORARY_NAMES
  {
    assert PhaseOk(s, p, s.procs[p]);
    hide Private, NamesApart, Inv;
  }

  lemma MissStep(s: State, p: nat, step: Step, taken: nat, free: nat)
    requires Inv(s) && CountOk(s, p, taken, free)
    ensures Missed(Apply(s, step), p) <==>
      || Missed(s, p)
      || (taken == TEMPORARY_NAMES && step == Stat(p) && p in s.procs && s.procs[p].Looking? && Final !in s.names)
  {
    if step.PowerLoss? {
      assert p in s.procs ==> Apply(s, step).procs[p] == Lost(s.procs[p]);
    } else if step.p != p {
      OthersStay(s, p, step);
    } else if p in s.procs {
      MissHere(s, p, step);
      if s.procs[p].Looking? && Final !in s.names {
        LateLook(s, p, taken, free);
      }
    } else {
      assert !Missed(Apply(s, step), p);
    }
    hide Inv, Apply, CountOk;
  }

  /** A process fails for want of an identity, after any run, exactly if at some
      point it looked for one after eight taken draws while none was published. */
  lemma {:induction false} MissingExactly(steps: seq<Step>, p: nat)
    ensures Missed(Run(Initial, steps), p) <==> exists k :: 0 <= k < |steps| && MissesAt(steps, p, k)
  {
    if steps != [] {
      var n := |steps| - 1;
      var s := Run(Initial, steps[..n]);
      MissingExactly(steps[..n], p);
      CountRun(steps[..n], p);
      InvRun(steps[..n]);
      MissStep(s, p, steps[n], Taken(steps[..n], p), Free(steps[..n], p));
      MissesSplits(steps, p);
      hide Inv, Apply, CountOk, Missed, Taken, Free;
    }
  }

  lemma MissesSplits(steps: seq<Step>, p: nat)
    requires steps != []
    ensures var n := |steps| - 1;
      (exists k :: 0 <= k < |steps| && MissesAt(steps, p, k)) <==>
      (MissesAt(steps, p, n) || exists k :: 0 <= k < n && MissesAt(steps[..n], p, k))
  {
    hide Run, Taken;
    var n := |steps| - 1;
    forall k | 0 <= k < n ensures MissesAt(steps[..n], p, k) <==> MissesAt(steps, p, k) {
      assert steps[..n][..k] == steps[..k];
    }
  }

  // ------------------------------------------------------------------ whose names

  /** Made by some call with that id that is past its draws. */
  predicate MadeBy(s: State, q: nat, id: nat) {
    q in s.procs && q in s.ids && s.ids[q] == id && !Early(s.procs[q]) && !s.procs[q].Naming?
  }

  ghost predicate NamesMade(s: State) {
    && (forall p | p in s.procs :: p in s.ids)
    && forall n | n in s.names && n.Temporary? :: exists q :: MadeBy(s, q, n.process)
  }

  lemma MadeStays(s: State, step: Step, q: nat, id: nat)
    requires MadeBy(s, q, id)
    ensures MadeBy(Apply(s, step), q, id)
  {
    if step.PowerLoss? {
      assert Apply(s, step).procs[q] == Lost(s.procs[q]);
    } else if step.p != q {
      OthersStay(s, q, step);
    } else {
      NoWayBack(s, q, step);
    }
    hide Apply, Early;
  }

  lemma NewName(s: State, step: Step, n: Name)
    requires Inv(s) && NamesMade(s) && n.Temporary? && n !in s.names && n in Apply(s, step).names
    ensures step.Create? && MadeBy(Apply(s, step), step.p, n.process)
  {
    hide Inv;
  }

  lemma IdsKept(s: State, step: Step)
    requires NamesMade(s)
    ensures forall p | p in Apply(s, step).procs :: p in Apply(s, step).ids
  {
  }

  lemma NamesMadeStep(s: State, step: Step)
    requires Inv(s) && NamesMade(s)
    ensures NamesMade(Apply(s, step))
  {
    IdsKept(s, step);
    hide Inv, Apply, MadeBy;
    var t := Apply(s, step);
    forall n | n in t.names && n.Temporary? ensures exists q :: MadeBy(t, q, n.process) {
      if n in s.names {
        var q :| MadeBy(s, q, n.process);
        MadeStays(s, step, q, n.process);
      } else {
        NewName(s, step, n);
        assert MadeBy(t, step.p, n.process);
      }
    }
  }

  lemma {:induction false} NamesMadeRun(steps: seq<Step>)
    ensures NamesMade(Run(Initial, steps))
  {
    if steps != [] {
      NamesMadeRun(steps[..|steps| - 1]);
      InvRun(steps[..|steps| - 1]);
      hide Inv, Apply, NamesMade;
      NamesMadeStep(Run(Initial, steps[..|steps| - 1]), steps[|steps| - 1]);
    }
  }

  /** A draw meets a name in use only if another call with the same process id
      made that name: a thread of the same process, or an earlier process whose
      id is used again. */
  lemma TakenByOwnId(steps: seq<Step>, p: nat, step: Step)
    requires TakenDraw(Run(Initial, steps), p, step)
    ensures var s := Run(Initial, steps); exists q :: q != p && q in s.ids && p in s.ids && s.ids[q] == s.ids[p]
  {
    NamesMadeRun(steps);
    var s := Run(Initial, steps);
    var q :| MadeBy(s, q, TemporaryName(s, p, step.suffix).process);
    hide Run;
  }

  // --------------------------------------------------------------------- a witness

  lemma OneCollision(s: State, p: nat, bundle: Bundle, tries: nat)
    requires p in s.procs && TemporaryName(s, p, 0) in s.names && tries > 1
    ensures Apply(Go(s, p, Naming(bundle, tries)), Create(p, 0, 1)) == Go(s, p, Naming(bundle, tries - 1))
  {
    hide DoRead, DoWrite, DoSync, DoLink, DoRemove, DoError, DoPowerLoss, DoOpen, DoStat;
  }

  lemma {:induction false} Collide(s: State, p: nat, bundle: Bundle, tries: nat, attempts: nat)
    requires p in s.procs && s.procs[p] == Naming(bundle, tries) && attempts < tries && TemporaryName(s, p, 0) in s.names
    ensures Run(s, seq(attempts, i => Create(p, 0, 1))) == Go(s, p, Naming(bundle, tries - attempts))
  {
    hide Apply;
    var steps := seq(attempts, i => Create(p, 0, 1));
    if attempts == 0 {
      assert Go(s, p, Naming(bundle, tries)) == s;
    } else {
      Collide(s, p, bundle, tries, attempts - 1);
      OneCollision(s, p, bundle, tries - attempts + 1);
      assert steps[..attempts - 1] == seq(attempts - 1, i => Create(p, 0, 1));
    }
  }

  function Begun(s: State, p: nat, id: nat, bundle: Bundle): State {
    s.(procs := s.procs[p := Naming(bundle, TEMPORARY_NAMES)], ids := s.ids[p := id], bundles := s.bundles + {bundle})
  }

  function BeginSteps(p: nat, id: nat, bundle: Bundle): seq<Step> {
    [Spawn(p, id), Stat(p), Generate(p, bundle)]
  }

  lemma SpawnIsStep(s: State, p: nat, id: nat)
    requires p !in s.procs
    ensures Apply(s, Spawn(p, id)) == Go(s, p, Looking(First)).(ids := s.ids[p := id])
  {
    hide Proceed;
  }

  lemma FirstLook(s: State, p: nat)
    requires p in s.procs && s.procs[p] == Looking(First) && Final !in s.names
    ensures Apply(s, Stat(p)) == Go(s, p, Drafting)
  {
    hide DoRead, DoWrite, DoSync, DoLink, DoRemove, DoError, DoPowerLoss, DoOpen, DoCreate;
  }

  lemma GenerateIsStep(s: State, p: nat, bundle: Bundle)
    requires p in s.procs && s.procs[p] == Drafting && bundle != []
    ensures Apply(s, Generate(p, bundle)) == Go(s, p, Naming(bundle, TEMPORARY_NAMES)).(bundles := s.bundles + {bundle})
  {
    hide DoRead, DoWrite, DoSync, DoLink, DoRemove, DoError, DoPowerLoss, DoOpen, DoCreate, DoStat;
  }

  /** With nothing published a new process comes to draw names. */
  lemma Begins(s: State, p: nat, id: nat, bundle: Bundle)
    requires p !in s.procs && Final !in s.names && bundle != []
    ensures Run(s, BeginSteps(p, id, bundle)) == Begun(s, p, id, bundle)
  {
    hide Apply;
    var steps := BeginSteps(p, id, bundle);
    assert steps[..2] == [Spawn(p, id), Stat(p)] && steps[..2][..1] == [Spawn(p, id)] && steps[..1][..0] == [];
    var s1 := Go(s, p, Looking(First)).(ids := s.ids[p := id]);
    assert Run(s, []) == s;
    SpawnIsStep(s, p, id);
    assert Run(s, steps[..1]) == s1;
    FirstLook(s1, p);
    assert Run(s, steps[..2]) == Go(s1, p, Drafting);
    GenerateIsStep(Go(s1, p, Drafting), p, bundle);
  }

  /** It may crash right after creating its temporary file. */
  lemma Abandons(s: State, p: nat, bundle: Bundle, tries: nat)
    requires p in s.procs && s.procs[p] == Naming(bundle, tries) && TemporaryName(s, p, 0) !in s.names && 0 !in s.files
    ensures Run(s, [Create(p, 0, 0), Crash(p)]) ==
      Go(s, p, Crashed).(names := s.names[TemporaryName(s, p, 0) := 0], files := s.files[0 := File([], false)])
  {
    assert [Create(p, 0, 0), Crash(p)][..1] == [Create(p, 0, 0)] && [Create(p, 0, 0)][..0] == [];
    assert Run(s, []) == s;
    var t := DoCreate(s, p, bundle, tries, 0, 0);
    CreateIsStep(s, p, bundle, tries, 0, 0);
    CrashIsStep(t, p);
    hide Apply;
  }

  lemma CreateIsStep(s: State, p: nat, bundle: Bundle, tries: nat, suffix: nat, target: nat)
    requires p in s.procs && s.procs[p] == Naming(bundle, tries)
    ensures Apply(s, Create(p, suffix, target)) == DoCreate(s, p, bundle, tries, suffix, target)
  {
    hide DoRead, DoWrite, DoSync, DoLink, DoRemove, DoError, DoPowerLoss, DoOpen, DoStat, DoCreate;
  }

  lemma CrashIsStep(s: State, p: nat)
    requires p in s.procs
    ensures Apply(s, Crash(p)) == Go(s, p, Lost(s.procs[p]))
  {
    hide Proceed;
  }

  lemma GivesUp(s: State, p: nat, bundle: Bundle)
    requires p in s.procs && s.procs[p] == Naming(bundle, 1) && TemporaryName(s, p, 0) in s.names && Final !in s.names
    ensures Run(s, [Create(p, 0, 1), Stat(p)]) == Go(s, p, Failed(true))
  {
    hide DoRead, DoWrite, DoSync, DoLink, DoRemove, DoError, DoPowerLoss, DoOpen;
    var none := Go(s, p, Looking(After(NoName)));
    assert [Create(p, 0, 1), Stat(p)][..1] == [Create(p, 0, 1)] && [Create(p, 0, 1)][..0] == [];
    assert Run(s, []) == s;
    assert Run(s, [Create(p, 0, 1)]) == none;
    assert Apply(none, Stat(p)) == Go(none, p, Failed(true)) == Go(s, p, Failed(true));
  }

  predicate Smooth(step: Step) {
    !step.IoError? && !step.PowerLoss? && step != Crash(2)
  }

  predicate AllSmooth(steps: seq<Step>) {
    forall step | step in steps :: Smooth(step)
  }

  /** That case is real: a name left behind by a crash, drawn eight times by a
      later process with the same id, makes it take the identity for created
      and then fail to load it, although no call of its own went wrong. A
      process with another id could not meet that name. */
  lemma EightCollisions() returns (steps: seq<Step>)
    ensures var s := Run(Initial, steps); Final !in s.names && 2 in s.procs && s.procs[2] == Failed(true)
    ensures AllSmooth(steps)
  {
    hide Run, Apply, Smooth, BeginSteps;
    var first, second := BeginSteps(1, 5, [7]) + [Create(1, 0, 0), Crash(1)], BeginSteps(2, 5, [8]);
    var draws := seq(TEMPORARY_NAMES - 1, i => Create(2, 0, 1));
    var end := [Create(2, 0, 1), Stat(2)];
    SmoothParts();
    var alive := Begun(Initial, 1, 5, [7]);
    Begins(Initial, 1, 5, [7]);
    Abandons(alive, 1, [7], TEMPORARY_NAMES);
    RunAppend(Initial, BeginSteps(1, 5, [7]), [Create(1, 0, 0), Crash(1)]);
    var dead := Run(Initial, first);
    Begins(dead, 2, 5, [8]);
    var ready := Begun(dead, 2, 5, [8]);
    Collide(ready, 2, [8], TEMPORARY_NAMES, TEMPORARY_NAMES - 1);
    GivesUp(Go(ready, 2, Naming([8], 1)), 2, [8]);
    JoinFour(Initial, first, second, draws, end);
    steps := first + second + draws + end;
  }

  lemma SmoothParts()
    ensures AllSmooth(BeginSteps(1, 5, [7]) + [Create(1, 0, 0), Crash(1)]) && AllSmooth(BeginSteps(2, 5, [8]))
    ensures AllSmooth(seq(TEMPORARY_NAMES - 1, i => Create(2, 0, 1))) && AllSmooth([Create(2, 0, 1), Stat(2)])
  {
  }

  lemma JoinFour(s: State, a: seq<Step>, b: seq<Step>, c: seq<Step>, d: seq<Step>)
    ensures Run(s, a + b + c + d) == Run(Run(Run(Run(s, a), b), c), d)
    ensures AllSmooth(a) && AllSmooth(b) && AllSmooth(c) && AllSmooth(d) ==> AllSmooth(a + b + c + d)
  {
    hide Run, Smooth;
    RunAppend(s, a, b);
    RunAppend(s, a + b, c);
    RunAppend(s, a + b + c, d);
  }
}
