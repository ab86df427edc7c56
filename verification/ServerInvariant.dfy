/** The invariant of every reachable server state. */
module ServerInvariant {
  import opened Common
  import opened ServerModel
  import opened ServerHistory
  import Coverage

  // ------------------------------------------------------------------ clauses

  ghost predicate HasNonce(s: State, id: TransferId) {
    exists n :: n in s.nonces && s.nonces[n].transfer == id
  }

  ghost predicate Backed(s: State, record: NonceRecord)
    requires Wf(s)
  {
    && record.transfer in s.transfers
    && var session := s.sessions[s.transfers[record.transfer]];
    && session.peer == record.peer && session.creds.offer == record.offer
    && session.creds.file == record.file && session.expires == record.expires
  }

  /** Nonce records and live sessions are in bijection and agree. */
  ghost predicate Tables(s: State)
    requires Wf(s)
  {
    && (forall id | id in s.transfers :: s.sessions[s.transfers[id]].creds.transfer == id && HasNonce(s, id))
    && (forall n | n in s.nonces :: Backed(s, s.nonces[n]))
    && (forall m, n | m in s.nonces && n in s.nonces && s.nonces[m].transfer == s.nonces[n].transfer :: m == n)
  }

  ghost predicate Limits(s: State)
    requires Wf(s)
  {
    |ActiveIds(s)| <= MAX_ACTIVE_TRANSFERS && |s.transfers| <= MAX_BEGIN_NONCES
  }

  ghost function CancelledRefs(s: State): set<Ref> {
    set r: Ref | 0 <= r < |s.sessions| && s.sessions[r].state.Cancelled?
  }

  /** A note came from a read of the session's own file. */
  predicate NoteInside(note: Coverage.NoteCall, size: nat) {
    note.length > 0 ==> note.start + note.length <= size
  }

  ghost predicate SessionOk(cfg: Config, session: Session) {
    && session.creds.file in cfg.files
    && session.peer == cfg.authorized && session.creds.offer == cfg.offer
    && session.cover == Coverage.NoteAll(session.notes)
    && forall i | 0 <= i < |session.notes| :: NoteInside(session.notes[i], |cfg.files[session.creds.file]|)
  }

  function SumUnique(sessions: seq<Session>): nat {
    if sessions == [] then 0
    else SumUnique(sessions[..|sessions| - 1]) + sessions[|sessions| - 1].cover.unique
  }

  ghost predicate Core(s: State) {
    && Wf(s) && Tables(s) && Limits(s)
    && s.cancelled == |CancelledRefs(s)|
    && (forall r | 0 <= r < |s.sessions| :: SessionOk(s.cfg, s.sessions[r]))
    && SumUnique(s.sessions) <= s.served
  }

  /** A worker about to commit holds exactly a piece of its session's file. */
  ghost predicate WorkerOk(s: State, w: Worker)
    requires Wf(s) && (HasRef(w) ==> w.ref < |s.sessions|)
  {
    && (w.WantBegin? ==> w.peer == s.cfg.authorized && w.offer == s.cfg.offer)
    && (w.AtGate? || w.AtSource? || w.AtCommit? ==> w.peer == s.sessions[w.ref].peer)
    && (w.AtCommit? && w.bytes != [] ==>
          var file := s.cfg.files[s.sessions[w.ref].creds.file];
          w.offset + |w.bytes| <= |file| && w.bytes == file[w.offset..w.offset + |w.bytes|])
  }

  ghost predicate Inv(s: State) {
    && Core(s)
    && forall w | w in s.workers :: WorkerOk(s, s.workers[w])
  }

  // -------------------------------------------------------------- small sums

  lemma {:induction false} SumUpdate(sessions: seq<Session>, r: Ref, session: Session)
    requires r < |sessions|
    ensures SumUnique(sessions[r := session]) + sessions[r].cover.unique == SumUnique(sessions) + session.cover.unique
  {
    var last := |sessions| - 1;
    var updated := sessions[r := session];
    if r == last {
      assert updated[..last] == sessions[..last];
    } else {
      SumUpdate(sessions[..last], r, session);
      assert updated[..last] == sessions[..last][r := session];
    }
  }

  lemma {:induction false} SumSame(a: seq<Session>, b: seq<Session>)
    requires |a| == |b| && forall r | 0 <= r < |a| :: a[r].cover == b[r].cover
    ensures SumUnique(a) == SumUnique(b)
  {
    if a != [] {
      SumSame(a[..|a| - 1], b[..|b| - 1]);
    }
  }

  // ------------------------------------------------ the five kinds of changes

  lemma CoreQuiet(s: State, t: State)
    requires Core(s) && Wf(t) && t.cfg == s.cfg
    requires t.sessions == s.sessions && t.transfers == s.transfers && t.nonces == s.nonces
    requires t.served == s.served && t.cancelled == s.cancelled
    ensures Core(t)
  {
    assert ActiveIds(t) == ActiveIds(s);
    assert CancelledRefs(t) == CancelledRefs(s);
    forall id | id in t.transfers ensures HasNonce(t, id) {
      assert HasNonce(s, id);
    }
    forall n | n in t.nonces ensures Backed(t, t.nonces[n]) {
      assert Backed(s, s.nonces[n]);
    }
  }

  ghost predicate SameIdentity(a: Session, b: Session) {
    a.peer == b.peer && a.creds == b.creds && a.expires == b.expires
  }

  /** The tables only look at the fixed part of sessions. */
  lemma TablesFixed(s: State, t: State)
    requires Wf(s) && Tables(s) && Wf(t)
    requires |t.sessions| == |s.sessions| && t.transfers == s.transfers && t.nonces == s.nonces
    requires forall r | 0 <= r < |s.sessions| :: SameIdentity(s.sessions[r], t.sessions[r])
    ensures Tables(t)
  {
    forall id | id in t.transfers ensures t.sessions[t.transfers[id]].creds.transfer == id && HasNonce(t, id) {
      assert HasNonce(s, id);
      assert SameIdentity(s.sessions[s.transfers[id]], t.sessions[s.transfers[id]]);
    }
    forall n | n in t.nonces ensures Backed(t, t.nonces[n]) {
      assert Backed(s, s.nonces[n]);
      var r := s.transfers[s.nonces[n].transfer];
      assert SameIdentity(s.sessions[r], t.sessions[r]);
    }
  }

  lemma LimitsShrink(s: State, t: State)
    requires Wf(s) && Limits(s) && Wf(t)
    requires t.transfers == s.transfers && t.nonces == s.nonces && |t.sessions| == |s.sessions|
    requires forall r | 0 <= r < |s.sessions| :: Active(t.sessions[r].state) ==> Active(s.sessions[r].state)
    ensures Limits(t)
  {
    SubsetSize(ActiveIds(t), ActiveIds(s));
  }

  lemma SetKeeps(s: State, t: State, r: Ref, after: Session)
    requires r < |s.sessions| && t.sessions == s.sessions[r := after]
    requires SameIdentity(s.sessions[r], after) && (Active(after.state) ==> Active(s.sessions[r].state))
    ensures forall x | 0 <= x < |s.sessions| :: SameIdentity(s.sessions[x], t.sessions[x])
    ensures forall x | 0 <= x < |s.sessions| :: Active(t.sessions[x].state) ==> Active(s.sessions[x].state)
  {
  }

  lemma SetOk(cfg: Config, s: seq<Session>, t: seq<Session>, r: Ref, after: Session)
    requires r < |s| && SessionOk(cfg, after) && t == s[r := after] && forall x | 0 <= x < |s| :: SessionOk(cfg, s[x])
    ensures forall x | 0 <= x < |t| :: SessionOk(cfg, t[x])
  {
    hide SessionOk;
  }

  lemma CoreSet(s: State, t: State, r: Ref, after: Session)
    requires Core(s) && Wf(t) && t.cfg == s.cfg && r < |s.sessions|
    requires t.sessions == s.sessions[r := after] && t.transfers == s.transfers && t.nonces == s.nonces
    requires SameIdentity(s.sessions[r], after) && SessionOk(s.cfg, after)
    requires Active(after.state) ==> Active(s.sessions[r].state)
    requires s.sessions[r].state.Cancelled? ==> after.state.Cancelled?
    requires t.cancelled == s.cancelled + (if after.state.Cancelled? && !s.sessions[r].state.Cancelled? then 1 else 0)
    requires s.served + after.cover.unique <= t.served + s.sessions[r].cover.unique
    ensures Core(t)
  {
    hide Wf, Tables, Limits, SessionOk, SumUnique, CancelledRefs, SameIdentity, Active;
    SetKeeps(s, t, r, after);
    TablesFixed(s, t);
    LimitsShrink(s, t);
    SumUpdate(s.sessions, r, after);
    CancelledSet(s, t, r, after);
    SetOk(s.cfg, s.sessions, t.sessions, r, after);
  }

  lemma CancelledSet(s: State, t: State, r: Ref, after: Session)
    requires r < |s.sessions| && t.sessions == s.sessions[r := after]
    requires s.sessions[r].state.Cancelled? ==> after.state.Cancelled?
    ensures |CancelledRefs(t)| == |CancelledRefs(s)| + (if after.state.Cancelled? && !s.sessions[r].state.Cancelled? then 1 else 0)
  {
    if after.state.Cancelled? && !s.sessions[r].state.Cancelled? {
      assert CancelledRefs(t) == CancelledRefs(s) + {r};
    } else {
      assert CancelledRefs(t) == CancelledRefs(s);
    }
  }

  lemma CancelPeerCounts(s: State, peer: Peer)
    ensures |CancelledRefs(CancelPeer(s, peer))| == |CancelledRefs(s)| + |LostRefs(s, peer)|
  {
    var t := CancelPeer(s, peer);
    assert CancelledRefs(t) == CancelledRefs(s) + LostRefs(s, peer);
    assert CancelledRefs(s) !! LostRefs(s, peer);
  }

  lemma CancelPeerSessions(s: State, peer: Peer)
    requires Wf(s)
    ensures var t := CancelPeer(s, peer);
      && Wf(t)
      && (forall r | 0 <= r < |s.sessions| ::
            && SameIdentity(s.sessions[r], t.sessions[r]) && t.sessions[r].cover == s.sessions[r].cover
            && (Active(t.sessions[r].state) ==> Active(s.sessions[r].state))
            && (SessionOk(s.cfg, s.sessions[r]) ==> SessionOk(s.cfg, t.sessions[r])))
  {
  }

  lemma CoreCancelPeer(s: State, peer: Peer)
    requires Core(s)
    ensures Core(CancelPeer(s, peer))
  {
    var t := CancelPeer(s, peer);
    CancelPeerSessions(s, peer);
    CancelPeerCounts(s, peer);
    TablesFixed(s, t);
    LimitsShrink(s, t);
    SumSame(s.sessions, t.sessions);
    hide Wf, Tables, Limits, SessionOk, SumUnique, CancelledRefs, SameIdentity, Active, LostRefs;
  }

  lemma WfCounters(s: State, t: State)
    requires Wf(s) && t == s.(denied := t.denied, replayed := t.replayed)
    ensures Wf(t)
  {
  }

  lemma CoreDeny(s: State, peer: Peer)
    requires Wf(s) && Core(s)
    ensures Core(Deny(s, peer))
  {
    hide Core, Wf, CancelPeer;
    var t := s.(denied := s.denied + 1);
    WfCounters(s, t);
    CoreQuiet(s, t);
    CoreCancelPeer(t, peer);
  }

  lemma TablesRetain(s: State, now: nat)
    requires Wf(s) && Tables(s)
    ensures Tables(Retain(s, now))
  {
    var t := Retain(s, now);
    forall id | id in t.transfers ensures HasNonce(t, id) {
      assert HasNonce(s, id);
      var n :| n in s.nonces && s.nonces[n].transfer == id;
      assert Backed(s, s.nonces[n]);
      assert n in t.nonces;
    }
    forall n | n in t.nonces ensures Backed(t, t.nonces[n]) {
      assert Backed(s, s.nonces[n]);
    }
  }

  lemma CoreRetain(s: State, now: nat)
    requires Core(s)
    ensures Core(Retain(s, now))
  {
    var t := Retain(s, now);
    TablesRetain(s, now);
    SubsetSize(ActiveIds(t), ActiveIds(s));
    SubsetSize(t.transfers.Keys, s.transfers.Keys);
    assert CancelledRefs(t) == CancelledRefs(s);
  }

  lemma NamedAfterOpen(s: State, nonce: Nonce, session: Session, x: TransferId)
    requires Wf(s) && Tables(s) && session.creds.file in s.cfg.files
    requires session.creds.transfer !in s.transfers && nonce !in s.nonces
    ensures var t := Open(s, nonce, session);
      x in t.transfers ==> t.sessions[t.transfers[x]].creds.transfer == x && HasNonce(t, x)
  {
    hide Backed, Wf;
    var t := Open(s, nonce, session);
    if x == session.creds.transfer {
      assert t.nonces[nonce].transfer == x;
    } else if x in s.transfers {
      LiveInRange(s, x);
      assert HasNonce(s, x);
      var n :| n in s.nonces && s.nonces[n].transfer == x;
      assert t.nonces[n].transfer == x;
    }
  }

  lemma LiveInRange(s: State, id: TransferId)
    requires Wf(s) && id in s.transfers
    ensures s.transfers[id] < |s.sessions|
  {
  }

  lemma BackedAfterOpen(s: State, nonce: Nonce, session: Session, n: Nonce)
    requires Wf(s) && session.creds.file in s.cfg.files && session.creds.transfer !in s.transfers && nonce !in s.nonces
    requires n in s.nonces ==> Backed(s, s.nonces[n])
    ensures var t := Open(s, nonce, session); n in t.nonces ==> Backed(t, t.nonces[n])
  {
    hide Wf;
    if n in s.nonces {
      LiveInRange(s, s.nonces[n].transfer);
    }
  }

  lemma ApartAfterOpen(s: State, nonce: Nonce, session: Session, m: Nonce, n: Nonce)
    requires Wf(s) && Tables(s) && session.creds.file in s.cfg.files
    requires session.creds.transfer !in s.transfers && nonce !in s.nonces
    ensures var t := Open(s, nonce, session);
      m in t.nonces && n in t.nonces && t.nonces[m].transfer == t.nonces[n].transfer ==> m == n
  {
    hide Wf, HasNonce;
    assert m in s.nonces ==> Backed(s, s.nonces[m]);
    assert n in s.nonces ==> Backed(s, s.nonces[n]);
  }

  lemma TablesOpen(s: State, nonce: Nonce, session: Session)
    requires Wf(s) && Tables(s) && session.creds.file in s.cfg.files
    requires session.creds.transfer !in s.transfers && nonce !in s.nonces
    ensures Tables(Open(s, nonce, session))
  {
    hide Backed, HasNonce, Open;
    var t := Open(s, nonce, session);
    forall x | x in t.transfers ensures t.sessions[t.transfers[x]].creds.transfer == x && HasNonce(t, x) {
      NamedAfterOpen(s, nonce, session, x);
    }
    forall n | n in t.nonces ensures Backed(t, t.nonces[n]) {
      BackedAfterOpen(s, nonce, session, n);
    }
    forall m, n | m in t.nonces && n in t.nonces && t.nonces[m].transfer == t.nonces[n].transfer ensures m == n {
      ApartAfterOpen(s, nonce, session, m, n);
    }
  }

  lemma LimitsOpen(s: State, nonce: Nonce, session: Session)
    requires Wf(s) && Limits(s) && session.creds.file in s.cfg.files
    requires session.creds.transfer !in s.transfers && nonce !in s.nonces && !Full(s)
    ensures Limits(Open(s, nonce, session))
  {
    var t, id := Open(s, nonce, session), session.creds.transfer;
    forall x | x in ActiveIds(t) && x != id ensures x in ActiveIds(s) {
      assert t.transfers[x] == s.transfers[x] < |s.sessions|;
    }
    SubsetSize(ActiveIds(t), ActiveIds(s) + {id});
    SizeAfterInsert(s.transfers, id, |s.sessions|);
  }

  lemma SizeAfterInsert<K, V>(m: map<K, V>, k: K, v: V)
    requires k !in m
    ensures |m[k := v]| == |m| + 1
  {
    assert m[k := v].Keys == m.Keys + {k};
  }

  lemma OpenCounts(s: State, nonce: Nonce, session: Session)
    requires Wf(s) && session.creds.file in s.cfg.files && session.state.Running? && session.cover == Coverage.EMPTY
    ensures var t := Open(s, nonce, session);
      CancelledRefs(t) == CancelledRefs(s) && SumUnique(t.sessions) == SumUnique(s.sessions)
  {
    var t := Open(s, nonce, session);
    assert CancelledRefs(t) == CancelledRefs(s);
    assert t.sessions[..|t.sessions| - 1] == s.sessions;
  }

  lemma CoreOpen(s: State, nonce: Nonce, session: Session)
    requires Core(s) && SessionOk(s.cfg, session) && session.state.Running? && session.cover == Coverage.EMPTY
    requires session.creds.file in s.cfg.files
    requires session.creds.transfer !in s.transfers && nonce !in s.nonces && !Full(s)
    ensures Core(Open(s, nonce, session))
  {
    hide Wf, Tables, Limits, SessionOk, SumUnique, CancelledRefs, Full;
    TablesOpen(s, nonce, session);
    LimitsOpen(s, nonce, session);
    OpenCounts(s, nonce, session);
  }

  // ------------------------------------------- as many nonces as live sessions

  ghost predicate OneNonceEach(nonces: map<Nonce, NonceRecord>) {
    forall m, n | m in nonces && n in nonces && nonces[m].transfer == nonces[n].transfer :: m == n
  }

  ghost function Named(nonces: map<Nonce, NonceRecord>): set<TransferId> {
    set n | n in nonces :: nonces[n].transfer
  }

  lemma {:induction false} NamedSize(nonces: map<Nonce, NonceRecord>)
    requires OneNonceEach(nonces)
    ensures |Named(nonces)| == |nonces|
  {
    if nonces == map[] {
      assert Named(nonces) == {};
    } else {
      var n :| n in nonces;
      var rest := nonces - {n};
      NamedSize(rest);
      assert nonces.Keys == rest.Keys + {n};
      assert Named(nonces) == Named(rest) + {nonces[n].transfer};
    }
  }

  /** The nonce table is exactly as large as the session table, and so within
      its limit too. */
  lemma NoncesCounted(s: State)
    requires Inv(s)
    ensures |s.nonces| == |s.transfers| <= MAX_BEGIN_NONCES
  {
    NamedSize(s.nonces);
    assert Named(s.nonces) == s.transfers.Keys by {
      forall id | id in s.transfers ensures id in Named(s.nonces) {
        assert HasNonce(s, id);
      }
      forall n | n in s.nonces ensures s.nonces[n].transfer in s.transfers {
        assert Backed(s, s.nonces[n]);
      }
    }
  }

  // --------------------------------------------------------- the lock regions

  lemma CoreSession(s: State, r: Ref)
    requires Core(s) && r < |s.sessions|
    ensures SessionOk(s.cfg, s.sessions[r])
  {
  }

  lemma StatesDoNotMatter(cfg: Config, a: Session, b: Session)
    requires SessionOk(cfg, a)
    requires b == a.(state := b.state, lastSequence := b.lastSequence, lastOp := b.lastOp)
    ensures SessionOk(cfg, b)
  {
  }

  lemma FreshSessionOk(s: State, w: WorkerId, id: TransferId, capability: Secret, serverNonce: Secret)
    requires Wf(s) && w in s.workers && s.workers[w].WantBegin? && WorkerOk(s, s.workers[w])
    ensures SessionOk(s.cfg, NewSession(s.workers[w], s.cfg.ttl, id, capability, serverNonce))
    ensures s.workers[w].file in s.cfg.files
  {
  }

  lemma CoreBeginLocked(s: State, w: WorkerId, id: TransferId, capability: Secret, serverNonce: Secret)
    requires Wf(s) && Core(s) && (w in s.workers ==> WorkerOk(s, s.workers[w]))
    ensures Core(BeginLocked(s, w, id, capability, serverNonce).0)
  {
    hide Core, SessionOk, Full, Wf;
    if w in s.workers && s.workers[w].WantBegin? && id !in s.transfers {
      var b := s.workers[w];
      var kept := Retain(s, b.seenAt);
      CoreRetain(s, b.seenAt);
      var t := Finish(kept, w);
      CoreQuiet(kept, t);
      var u := BeginLocked(s, w, id, capability, serverNonce).0;
      if b.nonce !in t.nonces && !Full(t) {
        var session := NewSession(b, s.cfg.ttl, id, capability, serverNonce);
        FreshSessionOk(s, w, id, capability, serverNonce);
        CoreOpen(t, b.nonce, session);
      } else {
        CoreQuiet(t, u);
      }
    }
  }

  lemma CoreAuthenticate(s: State, peer: Peer, creds: Credentials)
    requires Wf(s) && Core(s)
    ensures Core(Authenticate(s, peer, creds).0)
  {
    hide Core, Wf, CancelPeer, PeerAllowed;
    if PeerAllowed(s, peer) {
      CoreQuiet(s, Authenticate(s, peer, creds).0);
    } else {
      CoreDeny(s, peer);
    }
  }

  lemma CoreControlLocked(s: State, w: WorkerId)
    requires Wf(s) && Core(s)
    ensures Core(ControlLocked(s, w).0)
  {
    hide Core, SessionOk;
    var t := ControlLocked(s, w).0;
    if w in s.workers && s.workers[w].WantControl? {
      var c := s.workers[w];
      var session := s.sessions[c.ref];
      CoreSession(s, c.ref);
      StatesDoNotMatter(s.cfg, session, ControlLocked(s, w).0.sessions[c.ref]);
      if c.sequence <= session.lastSequence {
        CoreQuiet(s, t);
      } else {
        CoreSet(s, t, c.ref, t.sessions[c.ref]);
      }
    }
  }

  lemma CoreReadGate(s: State, w: WorkerId, timedOut: bool)
    requires Wf(s) && Core(s)
    ensures Core(ReadGate(s, w, timedOut).0)
  {
    hide Core, SessionOk, PeerAllowed;
    var t := ReadGate(s, w, timedOut).0;
    if w in s.workers && s.workers[w].AtGate? {
      var r := s.workers[w].ref;
      CoreSession(s, r);
      StatesDoNotMatter(s.cfg, s.sessions[r], t.sessions[r]);
      if t.cancelled == s.cancelled {
        CoreQuiet(s, t);
      } else {
        CoreSet(s, t, r, t.sessions[r]);
      }
    }
  }

  lemma CoreReadSource(s: State, w: WorkerId, outcome: SourceOutcome)
    requires Wf(s) && Core(s)
    ensures Core(ReadSource(s, w, outcome).0)
  {
    hide Core, Deny;
    var t := ReadSource(s, w, outcome).0;
    if w in s.workers && s.workers[w].AtSource? && !PeerAllowed(s, s.workers[w].peer) {
      CoreQuiet(s, Finish(s, w));
      CoreDeny(Finish(s, w), s.workers[w].peer);
    } else {
      CoreQuiet(s, t);
    }
  }

  /** The commit of `bytes`: at most as many new offsets as bytes served. */
  lemma NotedSession(cfg: Config, session: Session, offset: nat, length: nat)
    requires SessionOk(cfg, session)
    requires length > 0 ==> offset + length <= |cfg.files[session.creds.file]|
    ensures var note := Coverage.NoteCall(offset, length);
      var after := session.(cover := Coverage.Noted(session.cover, offset, length), notes := session.notes + [note]);
      SessionOk(cfg, after) && after.cover.unique <= session.cover.unique + length
  {
    hide Coverage.Agrees, Coverage.Noted;
    var note := Coverage.NoteCall(offset, length);
    var notes := session.notes + [note];
    Coverage.NoteAllMeaning(session.notes);
    Coverage.NoteAllSnoc(session.notes, note);
    NotedGrowth(session.cover, offset, length, Coverage.Union(session.notes));
    assert NoteInside(note, |cfg.files[session.creds.file]|);
  }

  lemma NotedGrowth(c: Coverage.Cover, offset: nat, length: nat, offsets: set<int>)
    requires Coverage.Agrees(c, offsets)
    ensures Coverage.Noted(c, offset, length).unique <= c.unique + length
  {
    hide Coverage.Canonical, Coverage.Valid, Coverage.Offsets;
    Coverage.NotedAgrees(c, offset, length, offsets);
    Coverage.SpanSize(offset, offset + length);
    var added := Coverage.Span(offset, offset + length);
    assert offsets + added == offsets + (added - offsets);
    SubsetSize(added - offsets, added);
  }

  lemma CoreReadCommit(s: State, w: WorkerId)
    requires Wf(s) && Core(s) && (w in s.workers ==> WorkerOk(s, s.workers[w]))
    ensures Core(ReadCommit(s, w).0)
  {
    hide Core, SessionOk, Coverage.Noted, PeerAllowed;
    var t := ReadCommit(s, w).0;
    if w in s.workers && s.workers[w].AtCommit? {
      var a := s.workers[w];
      var session := s.sessions[a.ref];
      CoreSession(s, a.ref);
      if !PeerAllowed(s, a.peer) && Active(session.state) {
        StatesDoNotMatter(s.cfg, session, session.(state := Cancelled));
        CoreSet(s, t, a.ref, session.(state := Cancelled));
      } else if !PeerAllowed(s, a.peer) || s.clock >= session.expires || session.state.Cancelled? {
        CoreQuiet(s, t);
      } else {
        NotedSession(s.cfg, session, a.offset, |a.bytes|);
        CoreSet(s, t, a.ref, t.sessions[a.ref]);
      }
    }
  }

  lemma CoreAuthStep(s: State, t: State, peer: Peer, creds: Credentials)
    requires Wf(s) && Core(s) && Wf(t)
    requires var a := Authenticate(s, peer, creds).0; t == a.(workers := t.workers)
    ensures Core(t)
  {
    hide Core;
    CoreAuthenticate(s, peer, creds);
    CoreQuiet(Authenticate(s, peer, creds).0, t);
  }

  lemma CoreBeginCheck(s: State, w: WorkerId, peer: Peer, offer: nat, file: FileId, nonce: Nonce)
    requires Wf(s) && Core(s)
    ensures Core(BeginCheck(s, w, peer, offer, file, nonce).0)
  {
    hide Core, Wf, Deny;
    if w !in s.workers && nonce != 0 && !PeerAllowed(s, peer) {
      CoreDeny(s, peer);
    } else {
      CoreQuiet(s, BeginCheck(s, w, peer, offer, file, nonce).0);
    }
  }

  lemma CoreStep(s: State, step: Step)
    requires Wf(s) && Core(s) && forall w | w in s.workers :: WorkerOk(s, s.workers[w])
    ensures Core(Apply(s, step).0)
  {
    hide Core, Wf, WorkerOk, CancelPeer, Retain, BeginCheck, BeginLocked, ControlLocked, ReadGate, ReadSource, ReadCommit;
    var t := Apply(s, step).0;
    match step
    case Tick(_) => CoreQuiet(s, t);
    case SetTrust(_) => CoreQuiet(s, t);
    case CleanUp(seenAt) =>
      if seenAt <= s.clock {
        CoreRetain(s, seenAt);
      }
    case DropPeer(peer) => CoreCancelPeer(s, peer);
    case DoBeginCheck(w, peer, offer, file, nonce) => CoreBeginCheck(s, w, peer, offer, file, nonce);
    case DoBeginLocked(w, id, capability, serverNonce) => CoreBeginLocked(s, w, id, capability, serverNonce);
    case DoControlAuth(w, peer, creds, _, _) =>
      if w !in s.workers {
        CoreAuthStep(s, t, peer, creds);
      }
    case DoControlLocked(w) => CoreControlLocked(s, w);
    case DoReadAuth(w, peer, creds, _, requested) =>
      if w !in s.workers && requested <= MAX_RANGE_BYTES {
        CoreAuthStep(s, t, peer, creds);
      }
    case DoReadGate(w, timedOut) => CoreReadGate(s, w, timedOut);
    case DoReadSource(w, outcome) => CoreReadSource(s, w, outcome);
    case DoReadCommit(w) => CoreReadCommit(s, w);
  }

  // -------------------------------------------------------- workers and runs

  /** A worker entry that was there before keeps its facts: the fixed part of
      its session did not change. */
  lemma WorkerKept(s: State, t: State, w: Worker)
    requires Wf(s) && Wf(t) && Later(s, t)
    requires (HasRef(w) ==> w.ref < |s.sessions|) && WorkerOk(s, w)
    ensures (HasRef(w) ==> w.ref < |t.sessions|) && WorkerOk(t, w)
  {
    if HasRef(w) {
      assert SessionLater(s.sessions[w.ref], t.sessions[w.ref]);
    }
  }

  /** Only the stepping worker's own entry is written. */
  function Mover(step: Step): Option<WorkerId> {
    match step
    case DoBeginCheck(w, _, _, _, _) => Some(w)
    case DoBeginLocked(w, _, _, _) => Some(w)
    case DoControlAuth(w, _, _, _, _) => Some(w)
    case DoControlLocked(w) => Some(w)
    case DoReadAuth(w, _, _, _, _) => Some(w)
    case DoReadGate(w, _) => Some(w)
    case DoReadSource(w, _) => Some(w)
    case DoReadCommit(w) => Some(w)
    case _ => None
  }

  /** The entries of the other workers are as before. */
  ghost predicate OnlyWorker(s: State, t: State, w: WorkerId) {
    forall v | v != w :: (v in t.workers <==> v in s.workers) && (v in s.workers ==> t.workers[v] == s.workers[v])
  }

  lemma BeginLockedWorkers(s: State, w: WorkerId, id: TransferId, capability: Secret, serverNonce: Secret)
    requires Wf(s)
    ensures var t := BeginLocked(s, w, id, capability, serverNonce).0; OnlyWorker(s, t, w) && (w in t.workers ==> t == s)
  {
    hide Wf, Full;
  }

  lemma ControlLockedWorkers(s: State, w: WorkerId)
    requires Wf(s)
    ensures var t := ControlLocked(s, w).0; OnlyWorker(s, t, w) && (w in t.workers ==> t == s)
  {
  }

  lemma ReadCommitWorkers(s: State, w: WorkerId)
    requires Wf(s)
    ensures var t := ReadCommit(s, w).0; OnlyWorker(s, t, w) && (w in t.workers ==> t == s)
  {
    CommitFinishes(s, w);
    hide ReadCommit, Wf;
  }

  lemma CommitFinishes(s: State, w: WorkerId)
    requires Wf(s)
    ensures var t := ReadCommit(s, w).0; t == s || t.workers == s.workers - {w}
  {
    hide Coverage.Noted, PeerAllowed, Wf;
    if w in s.workers && s.workers[w].AtCommit? {
      RefInRange(s, w);
    }
  }

  lemma ReadGateWorkers(s: State, w: WorkerId, timedOut: bool)
    requires Wf(s)
    ensures OnlyWorker(s, ReadGate(s, w, timedOut).0, w)
  {
    hide PeerAllowed;
  }

  lemma ReadSourceWorkers(s: State, w: WorkerId, outcome: SourceOutcome)
    requires Wf(s)
    ensures OnlyWorker(s, ReadSource(s, w, outcome).0, w)
  {
    hide PeerAllowed, SourceBytes;
  }

  lemma BeginCheckWorkers(s: State, w: WorkerId, peer: Peer, offer: nat, file: FileId, nonce: Nonce)
    requires Wf(s)
    ensures OnlyWorker(s, BeginCheck(s, w, peer, offer, file, nonce).0, w)
  {
    hide PeerAllowed;
  }

  lemma OthersUntouched(s: State, step: Step, w: WorkerId)
    requires Wf(s) && Mover(step) == Some(w)
    ensures OnlyWorker(s, Apply(s, step).0, w)
  {
    hide BeginCheck, BeginLocked, ControlLocked, ReadGate, ReadSource, ReadCommit, Wf, Authenticate;
    match step
    case DoBeginCheck(_, peer, offer, file, nonce) => BeginCheckWorkers(s, w, peer, offer, file, nonce);
    case DoBeginLocked(_, id, capability, serverNonce) => BeginLockedWorkers(s, w, id, capability, serverNonce);
    case DoControlAuth(_, peer, creds, _, _) => AuthenticateWorkers(s, peer, creds);
    case DoControlLocked(_) => ControlLockedWorkers(s, w);
    case DoReadAuth(_, peer, creds, _, _) => AuthenticateWorkers(s, peer, creds);
    case DoReadGate(_, timedOut) => ReadGateWorkers(s, w, timedOut);
    case DoReadSource(_, outcome) => ReadSourceWorkers(s, w, outcome);
    case DoReadCommit(_) => ReadCommitWorkers(s, w);
  }

  lemma NobodyMoves(s: State, step: Step)
    requires Wf(s) && Mover(step).None?
    ensures Apply(s, step).0.workers == s.workers
  {
  }

  lemma AuthenticatedWorkerOk(s: State, peer: Peer, creds: Credentials, t: State, w: Worker)
    requires Wf(s) && Core(s) && Wf(t)
    requires var a := Authenticate(s, peer, creds);
      a.1.Some? && t.sessions == a.0.sessions && HasRef(w) && w.ref == a.1.value && !w.AtCommit? && (w.AtGate? ==> w.peer == peer)
    requires !w.AtSource?
    ensures WorkerOk(t, w)
  {
    AuthenticatedRef(s, peer, creds);
  }

  lemma AuthWorkers(s: State, step: Step, w: WorkerId)
    requires Wf(s) && Core(s) && w !in s.workers
    requires (step.DoControlAuth? || step.DoReadAuth?) && step.w == w
    ensures var t := Apply(s, step).0; w in t.workers ==> WorkerOk(t, t.workers[w])
  {
    hide Core, Wf, Authenticate, WorkerOk;
    var t := Apply(s, step).0;
    if w in t.workers {
      AuthenticateWorkers(s, step.peer, step.creds);
      AuthenticatedWorkerOk(s, step.peer, step.creds, t, t.workers[w]);
    }
  }

  lemma AuthenticateWorkers(s: State, peer: Peer, creds: Credentials)
    requires Wf(s)
    ensures Authenticate(s, peer, creds).0.workers == s.workers
  {
  }

  lemma BeginCheckWorker(s: State, w: WorkerId, peer: Peer, offer: nat, file: FileId, nonce: Nonce)
    requires Wf(s) && w !in s.workers
    ensures var t := BeginCheck(s, w, peer, offer, file, nonce).0; w in t.workers ==> WorkerOk(t, t.workers[w])
  {
  }

  lemma ReadGateWorker(s: State, w: WorkerId, timedOut: bool)
    requires Wf(s) && (w in s.workers ==> WorkerOk(s, s.workers[w]))
    ensures var t := ReadGate(s, w, timedOut).0; w in t.workers ==> WorkerOk(t, t.workers[w])
  {
    hide Wf;
  }

  lemma ReadSourceWorker(s: State, w: WorkerId, outcome: SourceOutcome)
    requires Wf(s) && (w in s.workers ==> WorkerOk(s, s.workers[w]))
    ensures var t := ReadSource(s, w, outcome).0; w in t.workers ==> WorkerOk(t, t.workers[w])
  {
    hide Wf;
  }

  lemma MoverOk(s: State, step: Step, w: WorkerId)
    requires Wf(s) && Core(s) && (w in s.workers ==> WorkerOk(s, s.workers[w]))
    requires Mover(step) == Some(w)
    ensures var t := Apply(s, step).0; w in t.workers ==> WorkerOk(t, t.workers[w])
  {
    hide Core, WorkerOk, Wf, BeginCheck, BeginLocked, ControlLocked, ReadGate, ReadSource, ReadCommit, Authenticate;
    match step
    case DoBeginCheck(_, peer, offer, file, nonce) =>
      if w in s.workers {
        BusyWorkerIgnored(s, w, peer, offer, file, nonce);
      } else {
        BeginCheckWorker(s, w, peer, offer, file, nonce);
      }
    case DoControlAuth(_, _, _, _, _) =>
      if w !in s.workers {
        AuthWorkers(s, step, w);
      }
    case DoReadAuth(_, _, _, _, _) =>
      if w !in s.workers {
        AuthWorkers(s, step, w);
      }
    case DoBeginLocked(_, id, capability, serverNonce) => BeginLockedWorkers(s, w, id, capability, serverNonce);
    case DoControlLocked(_) => ControlLockedWorkers(s, w);
    case DoReadCommit(_) => ReadCommitWorkers(s, w);
    case DoReadGate(_, timedOut) => ReadGateWorker(s, w, timedOut);
    case DoReadSource(_, outcome) => ReadSourceWorker(s, w, outcome);
  }

  lemma BusyWorkerIgnored(s: State, w: WorkerId, peer: Peer, offer: nat, file: FileId, nonce: Nonce)
    requires Wf(s) && w in s.workers
    ensures BeginCheck(s, w, peer, offer, file, nonce).0 == s
  {
  }

  /** What an accepted authentication means. */
  lemma AuthenticatedRef(s: State, peer: Peer, creds: Credentials)
    requires Wf(s) && Core(s)
    ensures var a := Authenticate(s, peer, creds); a.1.Some? ==>
      && a.0 == s && PeerAllowed(s, peer) && Live(s, a.1.value)
      && s.sessions[a.1.value].peer == peer && s.sessions[a.1.value].creds == creds
      && s.clock < s.sessions[a.1.value].expires
  {
    hide PeerAllowed, Deny, Limits;
  }

  lemma OtherWorker(s: State, step: Step, w: WorkerId)
    requires Wf(s) && Mover(step) != Some(w)
    ensures var t := Apply(s, step).0; (w in t.workers <==> w in s.workers) && (w in s.workers ==> t.workers[w] == s.workers[w])
  {
    hide Apply, Wf;
    if Mover(step).Some? {
      OthersUntouched(s, step, Mover(step).value);
    } else {
      NobodyMoves(s, step);
    }
  }

  lemma InvStep(s: State, step: Step)
    requires Inv(s)
    ensures Inv(Apply(s, step).0)
  {
    hide Core, Wf, WorkerOk, Later, Apply, Mover;
    CoreWf(s);
    var t := Apply(s, step).0;
    CoreStep(s, step);
    CoreWf(t);
    StepLater(s, step);
    forall w | w in t.workers ensures WorkerOk(t, t.workers[w]) {
      if Mover(step) == Some(w) {
        MoverOk(s, step, w);
      } else {
        OtherWorker(s, step, w);
        WorkerKept(s, t, s.workers[w]);
      }
    }
  }

  lemma CoreWf(s: State)
    requires Core(s)
    ensures Wf(s) && forall w | w in s.workers && HasRef(s.workers[w]) :: s.workers[w].ref < |s.sessions|
  {
  }

  /** Every reachable state satisfies the invariant. */
  lemma {:induction false} InvRun(s: State, steps: seq<Step>)
    requires Inv(s)
    ensures Inv(Run(s, steps))
    decreases |steps|
  {
    if steps != [] {
      InvStep(s, steps[0]);
      InvRun(Apply(s, steps[0]).0, steps[1..]);
    }
  }

  lemma InvInitial(cfg: Config, trusted: set<Peer>)
    ensures Inv(Initial(cfg, trusted))
  {
    var s := Initial(cfg, trusted);
    assert ActiveIds(s) == {} && CancelledRefs(s) == {};
  }
}
