/** Who is told that it created the identity: exactly the process whose link
    succeeded. And with nothing published, a process left alone creates one. */
module IdentityCreator {
  import opened Common
  import opened Identity

  /** What the publisher can be doing from its link on. */
  predicate Announces(phase: Phase) {
    match phase
    case Removing(outcome, _) => outcome.Published?
    case Looking(purpose) => purpose.After? && purpose.outcome.Published?
    case Opening(purpose) => purpose.After? && purpose.outcome.Published?
    case Reading(purpose, _, _) => purpose.After? && purpose.outcome.Published?
    case Returned(_, created) => created
    case Failed(_) => true
    case Crashed => true
    case _ => false
  }

  predicate PublisherOk(s: State) {
    s.publisher.Some? ==> s.publisher.value in s.procs && Announces(s.procs[s.publisher.value])
  }

  /** Only a link that finds no final name sets the publisher. */
  lemma PublisherStays(s: State, step: Step)
    requires FinalOk(s) && s.publisher.Some?
    ensures Apply(s, step).publisher == s.publisher
  {
    hide DoStat, DoOpen, DoRead, DoCreate, DoWrite, DoSync, DoRemove, Private, Contents;
    if !step.PowerLoss? && !step.Spawn? && step.p in s.procs && !(step.Link? && s.procs[step.p].Linking?) {
      LoadsPublishNothing(s, step, s.procs[step.p]);
    }
  }

  lemma LoadsPublishNothing(s: State, step: Step, phase: Phase)
    requires !step.PowerLoss? && !(step.Link? && phase.Linking?)
    ensures Proceed(s, step, phase).publisher == s.publisher
  {
  }

  lemma AnnouncesOn(s: State, step: Step, p: nat)
    requires FinalOk(s) && s.publisher == Some(p) && p in s.procs && Announces(s.procs[p])
    ensures var t := Apply(s, step); p in t.procs && Announces(t.procs[p])
  {
    if step.PowerLoss? {
      assert Apply(s, step).procs[p] == Lost(s.procs[p]);
    } else if step.p != p {
      OthersStay(s, p, step);
    } else {
      hide DoCreate, DoWrite, DoSync, DoLink, Private;
    }
  }

  lemma PublisherStep(s: State, step: Step)
    requires Inv(s) && PublisherOk(s)
    ensures PublisherOk(Apply(s, step))
  {
    if s.publisher.Some? {
      PublisherStays(s, step);
      AnnouncesOn(s, step, s.publisher.value);
    } else if Apply(s, step).publisher.Some? {
      FirstPublisher(s, step);
    }
    hide Apply, Announces, Inv;
  }

  lemma FirstPublisher(s: State, step: Step)
    requires s.publisher.None? && Apply(s, step).publisher.Some?
    ensures PublisherOk(Apply(s, step))
  {
    hide DoStat, DoOpen, DoRead, DoCreate, DoWrite, DoSync, DoRemove;
    if !step.PowerLoss? && !step.Spawn? && step.p in s.procs && !(step.Link? && s.procs[step.p].Linking?) {
      LoadsPublishNothing(s, step, s.procs[step.p]);
    }
  }

  lemma {:induction false} PublisherRun(steps: seq<Step>)
    ensures PublisherOk(Run(Initial, steps))
  {
    if steps != [] {
      PublisherRun(steps[..|steps| - 1]);
      InvRun(steps[..|steps| - 1]);
      hide Inv, Apply, PublisherOk;
      PublisherStep(Run(Initial, steps[..|steps| - 1]), steps[|steps| - 1]);
    }
  }

  /** After any run, processes that returned agree, on a bundle some process
      generated whole; and one of them reports having created it if and only if
      it was its link that succeeded. */
  lemma Agreement(steps: seq<Step>, p: nat, q: nat)
    requires var s := Run(Initial, steps);
      p in s.procs && q in s.procs && s.procs[p].Returned? && s.procs[q].Returned?
    ensures var s := Run(Initial, steps);
      && s.procs[p].identity == s.procs[q].identity
      && s.procs[p].identity in s.bundles && s.procs[p].identity != []
      && (s.procs[p].created <==> s.publisher == Some(p))
  {
    InvRun(steps);
    PublisherRun(steps);
    var s := Run(Initial, steps);
    assert PhaseOk(s, p, s.procs[p]) && PhaseOk(s, q, s.procs[q]);
    hide Run;
  }

  // ------------------------------------------------------------- a process left alone

  function CreateSteps(p: nat, bundle: Bundle, suffix: nat, target: nat, removed: bool): seq<Step> {
    [Create(p, suffix, target), Write(p, |bundle|), Sync(p), Link(p), Remove(p, removed)]
  }

  function LoadSteps(p: nat, bundle: Bundle): seq<Step> {
    [Stat(p), Open(p), Read(p, |bundle|), Read(p, 1)]
  }

  /** The names once the link is made, with or without the temporary one. */
  function Linked(s: State, name: Name, target: nat, removed: bool): map<Name, nat> {
    var names := s.names[name := target][Final := target];
    if removed then names - {name} else names
  }

  /** `p` has published its bundle and is about to load it. */
  function Announced(s: State, p: nat, bundle: Bundle, name: Name, target: nat, removed: bool): State {
    Go(s, p, Looking(After(Published(bundle))))
    .(names := Linked(s, name, target, removed), files := s.files[target := File(bundle, true)], publisher := Some(p))
  }

  lemma FiveSteps(s: State, a: Step, b: Step, c: Step, d: Step, e: Step)
    ensures Run(s, [a, b, c, d, e]) == Apply(Apply(Apply(Apply(Apply(s, a), b), c), d), e)
  {
    hide Apply;
    FourSteps(s, a, b, c, d);
    assert [a, b, c, d, e][..4] == [a, b, c, d];
  }

  lemma Writes(s: State, p: nat, bundle: Bundle, name: Name, target: nat)
    requires p in s.procs && s.procs[p] == Writing(bundle, name, target, 0) && target in s.files
    ensures Apply(Apply(s, Write(p, |bundle|)), Sync(p)) ==
      Go(s, p, Linking(bundle, name, target)).(files := s.files[target := File(bundle, true)])
  {
    hide DoStat, DoOpen, DoRead, DoCreate, DoLink, DoRemove, DoError;
    assert bundle[..|bundle|] == bundle;
    var t := Go(s, p, Writing(bundle, name, target, |bundle|)).(files := s.files[target := File(bundle, false)]);
    assert Apply(s, Write(p, |bundle|)) == t;
  }

  lemma Links(s: State, p: nat, bundle: Bundle, name: Name, target: nat, removed: bool)
    requires p in s.procs && s.procs[p] == Linking(bundle, name, target)
    requires Final !in s.names && name in s.names && s.names[name] == target && name.Temporary?
    ensures Apply(Apply(s, Link(p)), Remove(p, removed)) ==
      Go(s, p, Looking(After(Published(bundle))))
      .(names := (if removed then s.names[Final := target] - {name} else s.names[Final := target]), publisher := Some(p))
  {
    hide DoStat, DoOpen, DoRead, DoCreate, DoWrite, DoSync, DoError;
    var t := Go(s, p, Removing(Published(bundle), name)).(names := s.names[Final := target], publisher := Some(p));
    assert Apply(s, Link(p)) == t;
  }

  function Named(s: State, p: nat, bundle: Bundle, name: Name, target: nat): State {
    Go(s, p, Writing(bundle, name, target, 0)).(names := s.names[name := target], files := s.files[target := File([], false)])
  }

  function Whole(s: State, p: nat, bundle: Bundle, name: Name, target: nat): State {
    Go(s, p, Linking(bundle, name, target)).(names := s.names[name := target], files := s.files[target := File(bundle, true)])
  }

  lemma Names(s: State, p: nat, bundle: Bundle, suffix: nat, target: nat)
    requires p in s.procs && s.procs[p] == Naming(bundle, TEMPORARY_NAMES)
    requires TemporaryName(s, p, suffix) !in s.names && target !in s.files
    ensures Apply(s, Create(p, suffix, target)) == Named(s, p, bundle, TemporaryName(s, p, suffix), target)
  {
    CreateIsStep(s, p, bundle, TEMPORARY_NAMES, suffix, target);
    hide Apply;
  }

  lemma NamedWrites(s: State, p: nat, bundle: Bundle, name: Name, target: nat)
    ensures Apply(Apply(Named(s, p, bundle, name, target), Write(p, |bundle|)), Sync(p)) == Whole(s, p, bundle, name, target)
  {
    Writes(Named(s, p, bundle, name, target), p, bundle, name, target);
    hide Apply;
  }

  lemma WholeLinks(s: State, p: nat, bundle: Bundle, name: Name, target: nat, removed: bool)
    requires Final !in s.names && name.Temporary?
    ensures Apply(Apply(Whole(s, p, bundle, name, target), Link(p)), Remove(p, removed)) ==
      Announced(s, p, bundle, name, target, removed)
  {
    Links(Whole(s, p, bundle, name, target), p, bundle, name, target, removed);
    hide Apply;
  }

  lemma Publishes(s: State, p: nat, bundle: Bundle, suffix: nat, target: nat, removed: bool)
    requires p in s.procs && s.procs[p] == Naming(bundle, TEMPORARY_NAMES) && Final !in s.names
    requires TemporaryName(s, p, suffix) !in s.names && target !in s.files
    ensures Run(s, CreateSteps(p, bundle, suffix, target, removed)) ==
      Announced(s, p, bundle, TemporaryName(s, p, suffix), target, removed)
  {
    hide Apply, Run, Named, Whole, Announced;
    var name := TemporaryName(s, p, suffix);
    FiveSteps(s, Create(p, suffix, target), Write(p, |bundle|), Sync(p), Link(p), Remove(p, removed));
    Names(s, p, bundle, suffix, target);
    NamedWrites(s, p, bundle, name, target);
    WholeLinks(s, p, bundle, name, target, removed);
  }

  /** With nothing published, after whatever came before, a new process that gets
      a free temporary name and is left alone creates the identity and is told
      so. */
  lemma LoneCreates(steps: seq<Step>, p: nat, id: nat, bundle: Bundle, suffix: nat, target: nat, removed: bool)
    requires var s := Run(Initial, steps);
      && Final !in s.names && p !in s.procs && Temporary(id, suffix) !in s.names && target !in s.files
    requires 0 < |bundle| <= IDENTITY_PROTECTED_LIMIT
    ensures var s := Run(Initial, steps);
      var t := Run(Initial, steps + (BeginSteps(p, id, bundle) + CreateSteps(p, bundle, suffix, target, removed) + LoadSteps(p, bundle)));
      && t.procs == s.procs[p := Returned(bundle, true)] && t.publisher == Some(p)
      && Stored(t) && Contents(t) == bundle && t.files[t.names[Final]].synced
      && (removed ==> t.names == s.names[Final := target])
  {
    hide Run, Apply, BeginSteps, CreateSteps;
    var s := Run(Initial, steps);
    var begun := Begun(s, p, id, bundle);
    var announced := Announced(begun, p, bundle, Temporary(id, suffix), target, removed);
    Begins(s, p, id, bundle);
    Publishes(begun, p, bundle, suffix, target, removed);
    FourSteps(announced, Stat(p), Open(p), Read(p, |bundle|), Read(p, 1));
    OneLoad(announced, p, After(Published(bundle)));
    JoinThree(Initial, steps, BeginSteps(p, id, bundle), CreateSteps(p, bundle, suffix, target, removed), LoadSteps(p, bundle));
    if removed {
      NameGone(s.names, Temporary(id, suffix), target);
    }
  }

  lemma NameGone(names: map<Name, nat>, name: Name, target: nat)
    requires name !in names && name != Final
    ensures names[name := target][Final := target] - {name} == names[Final := target]
  {
  }

  lemma JoinThree(s: State, before: seq<Step>, a: seq<Step>, b: seq<Step>, c: seq<Step>)
    ensures Run(s, before + (a + b + c)) == Run(Run(Run(Run(s, before), a), b), c)
  {
    hide Run;
    RunAppend(s, before, a + b + c);
    RunAppend(Run(s, before), a + b, c);
    RunAppend(Run(s, before), a, b);
  }
}
