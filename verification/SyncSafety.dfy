/**
 No lost update: in every reachable state of the protocol each group either
 agrees with upstream or something that will make the replica look at it
 again is outstanding.
 */
module SyncSafety {
  import opened Base
  import opened Crypto
  import opened Tables
  import opened Transactions
  import opened Requests
  import opened Runs
  import opened Notification
  import opened Mirror
  import opened Convergence
  import opened Protocol

  // ---- the invariant ----

  /** A received or sent group state that has not been applied yet. */
  ghost predicate InFlight(s: System, st: GroupState) {
    || st in s.wire.groups
    || (s.phase.Reading? && st in s.phase.stash)
    || (s.phase.Resync? && st in s.phase.todo)
    || (Working(s) && !s.phase.job.value.FetchGroup? && s.phase.job.value.st == st)
  }

  /** Which parts of the stream can be unread in which phase. */
  ghost predicate Shape(s: System) {
    match s.phase
    case Offline => s.server.Idle? && s.wire == QUIET
    case Reading(stash) =>
      && (s.server.Idle? || s.server.Subscribed? ==> stash == [] && s.wire == QUIET)
      && (s.server.Manifest? ==> !s.wire.done && s.wire.pushes == [])
      && (s.server.Pushing? ==> s.wire.done)
    case _ => s.server.Pushing? && s.wire.groups == [] && !s.wire.done
  }

  ghost predicate HasScope(s: System) {
    s.server.Manifest? || s.server.Pushing?
  }

  /** Membership in the server's cached scope is right for every group whose
      events the server has all looked at. */
  ghost predicate ScopeKnown(s: System) {
    HasScope(s) ==> forall g :: Unseen(s, g) || (InScope(s.node.db, g, s.own) <==> g in s.server.cached)
  }

  /** The groups the manifest carries, from the replica's side. */
  function ManifestNames(s: System): set<Name> {
    match s.phase
    case Reading(stash) =>
      StateNames(s.wire.groups) + StateNames(stash) + if s.server.Manifest? then Elements(s.server.todo) else {}
    case Resync(names, _, _) => names
    case _ => {}
  }

  /** The manifest and everything mirrored stay within the cached scope, as
      long as the session has not been declared stale. */
  ghost predicate NamesKnown(s: System) {
    HasScope(s) && ScopeChanged !in s.wire.pushes ==>
      && (s.phase.Reading? || s.phase.Resync? ==> ManifestNames(s) == s.server.cached)
      && (s.phase.Live? ==> s.mirror.groups.Keys <= s.server.cached)
      && (s.phase.Resync? ==> StateNames(s.phase.todo) <= s.server.cached)
      && (Working(s) ==> JobName(s.phase.job.value) in s.server.cached)
      && (forall g :: Changed(g) in s.wire.pushes ==> g in s.server.cached)
  }

  ghost predicate StateFresh(s: System, st: GroupState) {
    || Pending(s, st.name)
    || (InScope(s.node.db, st.name, s.own) && Snapshot(st, ViewIn(s.node.db, st.name, s.own)))
  }

  ghost predicate StatesFresh(s: System) {
    forall st :: InFlight(s, st) ==> StateFresh(s, st)
  }

  /** An unapplied state, however old, cannot disturb a group with nothing pending. */
  ghost predicate StateHarmless(s: System, st: GroupState, g: Name) {
    InScope(s.node.db, g, s.own) ==>
      Pending(s, g) || AllCompatible(st.acl, AclRows(s.node.db, s.node.db.groups[g]))
  }

  ghost predicate StatesHarmless(s: System) {
    forall st, g :: InFlight(s, st) ==> StateHarmless(s, st, g)
  }

  /** The rows fetched so far are upstream's, unless the group is pending. */
  ghost predicate GotFresh(s: System) {
    Working(s) && s.phase.job.value.FetchSecrets? ==>
      var job := s.phase.job.value;
      || Pending(s, job.st.name)
      || (&& InScope(s.node.db, job.st.name, s.own)
          && exists asked: seq<Name> ::
               && asked + job.names == NeedFetch(LocalGroup(s.mirror, job.st.name), job.st.secrets)
               && FetchedFrom(job.got, asked, ViewIn(s.node.db, job.st.name, s.own).secrets))
  }

  /** A row drawn earlier: equal nonces mean equal rows. */
  ghost predicate RowKnown(n: Name, cur: Current, up: map<Name, Current>, tick: nat) {
    cur.row.nonce < tick && (n in up && up[n].row.nonce == cur.row.nonce ==> up[n] == cur)
  }

  ghost predicate RowsKnown(rows: map<Name, Current>, up: map<Name, Current>, tick: nat) {
    forall n :: n in rows ==> RowKnown(n, rows[n], up, tick)
  }

  ghost predicate MirrorKnown(mirror: Db, up: Db, tick: nat) {
    forall g :: g in mirror.groups ==> RowsKnown(CurrentRows(mirror.groups[g]), UpRows(up, g), tick)
  }

  ghost predicate NoncesOk(s: System) {
    && MirrorKnown(s.mirror, s.node.db, s.node.tick)
    && (Working(s) && s.phase.job.value.FetchSecrets? ==>
          var job := s.phase.job.value;
          forall i :: 0 <= i < |job.got| ==>
            RowKnown(job.got[i].name, job.got[i].cur, UpRows(s.node.db, job.st.name), s.node.tick))
  }

  ghost predicate Covered(s: System) {
    forall g :: Agrees(s, g) || Triggered(s, g)
  }

  ghost predicate SysInv(s: System) {
    && Inv(s.node) && MirrorOk(s.mirror)
    && Shape(s)
    && ScopeKnown(s) && NamesKnown(s)
    && StatesFresh(s) && StatesHarmless(s)
    && GotFresh(s) && NoncesOk(s)
    && Covered(s)
  }

  // ---- facts about upstream ----

  lemma SnapshotRowsDistinct(n: Node, g: Name, own: Endpoint)
    requires Inv(n) && g in n.db.groups
    ensures NamesDistinct(ViewIn(n.db, g, own).rows)
  {
  }

  /** A snapshot comes from one identity table, so it is compatible with every group. */
  lemma SnapshotCompatible(n: Node, st: GroupState, own: Endpoint, h: Name)
    requires Inv(n) && st.name in n.db.groups && h in n.db.groups
    requires Snapshot(st, ViewIn(n.db, st.name, own))
    ensures AllCompatible(st.acl, AclRows(n.db, n.db.groups[h]))
  {
    var rows := ViewIn(n.db, st.name, own).rows;
    forall i | 0 <= i < |st.acl|
      ensures Compatible(st.acl[i], AclRows(n.db, n.db.groups[h]))
    {
      assert st.acl[i].endpoint in rows && rows[st.acl[i].endpoint].0 == st.acl[i].name;
    }
  }

  /** A reader holds a wrap for the DEK version of every secret it can see. */
  lemma ReaderCanDecrypt(n: Node, g: Name, own: Endpoint, name: Name)
    requires Inv(n) && InScope(n.db, g, own)
    requires name in ViewIn(n.db, g, own).secrets
    ensures ViewIn(n.db, g, own).secrets[name].row.dekVersion in ViewIn(n.db, g, own).wraps
  {
    var grp := n.db.groups[g];
    assert GroupInv(n.db, g, n.tick);
    var cur := CurrentOf(grp, name).value;
    assert RowSealed(g, grp, name, cur.version, cur.row, n.tick);
    var k := (cur.row.dekVersion, Reader(own));
    assert Entitled(grp, Reader(own));
    assert k in grp.wraps;
  }

  /** A group that is not announced looks the same to the replica. */
  lemma UpstreamFrame(n: Node, remote: Endpoint, req: Request, g: Name, own: Endpoint)
    requires Inv(n) && g !in Published(n, remote, req)
    ensures var n' := After(n, remote, req);
            && (InScope(n'.db, g, own) <==> InScope(n.db, g, own))
            && (g in n.db.groups <==> g in n'.db.groups)
            && (g in n.db.groups ==>
                  && ViewIn(n'.db, g, own) == ViewIn(n.db, g, own)
                  && AclRows(n'.db, n'.db.groups[g]) == AclRows(n.db, n.db.groups[g]))
  {
    NotificationComplete(n, remote, req, g);
  }

  /** A request draws a fresh nonce for the one row it may write. */
  lemma UpstreamRows(n: Node, remote: Endpoint, req: Request, g: Name, name: Name)
    requires name in UpRows(After(n, remote, req).db, g)
    ensures var up, up' := UpRows(n.db, g), UpRows(After(n, remote, req).db, g);
            (name in up && up'[name] == up[name]) || up'[name].row.nonce == n.tick
  {
    var tx := TxOf(n, remote, req);
    CommitRows(n.db, tx, n.tick, g, name);
  }

  lemma CommitRows(db: Db, tx: Tx, tick: nat, g: Name, name: Name)
    requires TxOk(db, tx)
    requires name in UpRows(Commit(db, tx, tick), g)
    ensures var up, up' := UpRows(db, g), UpRows(Commit(db, tx, tick), g);
            (name in up && up'[name] == up[name]) || up'[name].row.nonce == tick
  {
  }

  // ---- the event channel loses nothing silently ----

  lemma {:induction false} SendAllKeeps(ch: Channel, events: seq<Name>, g: Name)
    requires g in ch.queue || ch.lagged || g in events
    ensures g in SendAll(ch, events).queue || SendAll(ch, events).lagged
  {
    if events != [] {
      var front, last := events[..|events| - 1], events[|events| - 1];
      var mid := SendAll(ch, front);
      if g in ch.queue || ch.lagged || g in front {
        SendAllKeeps(ch, front, g);
        if g in mid.queue && |mid.queue| < CHANNEL_CAPACITY {
          assert g in mid.queue + [last];
        }
      } else {
        assert g == last;
        assert Send(mid, last).queue[|Send(mid, last).queue| - 1] == last;
      }
    }
  }

  // ---- upstream steps ----

  /** Upstream looks the same about `g` in both states. */
  ghost predicate SameUpstream(s: System, t: System, g: Name) {
    && s.own == t.own
    && (InScope(s.node.db, g, s.own) <==> InScope(t.node.db, g, s.own))
    && (g in s.node.db.groups <==> g in t.node.db.groups)
    && (g in s.node.db.groups ==>
          && ViewIn(t.node.db, g, s.own) == ViewIn(s.node.db, g, s.own)
          && AclRows(t.node.db, t.node.db.groups[g]) == AclRows(s.node.db, s.node.db.groups[g]))
  }

  /** An upstream step forgets no pending group, and whatever it changes
      becomes unseen if a session is listening. */
  lemma UpstreamEffect(s: System, a: Action, g: Name)
    requires a.Upstream? && Enabled(s, a) && Inv(s.node)
    ensures Unseen(s, g) ==> Unseen(Do(s, a), g)
    ensures Pending(s, g) ==> Pending(Do(s, a), g)
    ensures s.server.Idle? || Unseen(Do(s, a), g) || SameUpstream(s, Do(s, a), g)
  {
    var t := Do(s, a);
    if !s.server.Idle? {
      if g in s.server.ch.queue || s.server.ch.lagged || g in a.events {
        SendAllKeeps(s.server.ch, a.events, g);
      }
      if g in Published(s.node, a.remote, a.req) {
        assert g in a.events;
      } else {
        UpstreamFrame(s.node, a.remote, a.req, g, s.own);
      }
    }
  }

  lemma UpstreamNonces(s: System, a: Action)
    requires a.Upstream? && Enabled(s, a) && NoncesOk(s)
    ensures NoncesOk(Do(s, a))
  {
    var t := Do(s, a);
    forall g, n, cur | RowKnown(n, cur, UpRows(s.node.db, g), s.node.tick)
      ensures RowKnown(n, cur, UpRows(t.node.db, g), t.node.tick)
    {
      if n in UpRows(t.node.db, g) {
        UpstreamRows(s.node, a.remote, a.req, g, n);
      }
    }
  }

  lemma UpstreamStates(s: System, a: Action)
    requires a.Upstream? && Enabled(s, a) && SysInv(s)
    ensures StatesFresh(Do(s, a)) && StatesHarmless(Do(s, a)) && GotFresh(Do(s, a))
  {
    var t := Do(s, a);
    forall st | InFlight(t, st)
      ensures StateFresh(t, st)
      ensures forall g :: StateHarmless(t, st, g)
    {
      assert InFlight(s, st);
      assert StateFresh(s, st);
      UpstreamEffect(s, a, st.name);
      forall g
        ensures StateHarmless(t, st, g)
      {
        assert StateHarmless(s, st, g);
        UpstreamEffect(s, a, g);
      }
    }
    if Working(t) && t.phase.job.value.FetchSecrets? {
      UpstreamEffect(s, a, t.phase.job.value.st.name);
    }
  }

  lemma UpstreamKeeps(s: System, a: Action)
    requires a.Upstream? && Enabled(s, a) && SysInv(s)
    ensures SysInv(Do(s, a))
  {
    var t := Do(s, a);
    StepKeepsInv(s.node, a.remote, a.req);
    UpstreamNonces(s, a);
    UpstreamStates(s, a);
    forall g
      ensures Unseen(s, g) ==> Unseen(t, g)
      ensures Pending(s, g) ==> Pending(t, g)
      ensures s.server.Idle? || Unseen(t, g) || SameUpstream(s, t, g)
    {
      UpstreamEffect(s, a, g);
    }
    UpstreamScope(s, t);
    UpstreamCovered(s, t);
  }

  lemma UpstreamScope(s: System, t: System)
    requires ScopeKnown(s)
    requires t == s.(node := t.node, server := t.server)
    requires t.server == s.server || (!s.server.Idle? && !t.server.Idle? && t.server == s.server.(ch := t.server.ch))
    requires forall g :: Unseen(s, g) ==> Unseen(t, g)
    requires forall g :: s.server.Idle? || Unseen(t, g) || SameUpstream(s, t, g)
    ensures ScopeKnown(t)
  {
  }

  lemma UpstreamCovered(s: System, t: System)
    requires Covered(s) && Shape(s)
    requires t == s.(node := t.node, server := t.server)
    requires forall g :: Pending(s, g) ==> Pending(t, g)
    requires forall g :: s.server.Idle? || Unseen(t, g) || SameUpstream(s, t, g)
    ensures Covered(t)
  {
    forall g
      ensures Agrees(t, g) || Triggered(t, g)
    {
      assert Agrees(s, g) || Triggered(s, g);
    }
  }

  // ---- session steps ----

  lemma EndSessionKeeps(s: System)
    requires SysInv(s)
    ensures SysInv(EndSession(s))
  {
  }

  lemma MaintainKeeps(s: System, db: Db)
    requires SysInv(s) && Enabled(s, Maintain(db))
    ensures SysInv(EndSession(s.(node := Node(db, s.node.tick + 1))))
  {
    assert MirrorKnown(s.mirror, db, s.node.tick + 1) by { StillKnown(s.mirror, s.node.db, db, s.node.tick); }
  }

  lemma StillKnown(mirror: Db, up: Db, up': Db, tick: nat)
    requires MirrorKnown(mirror, up, tick) && forall g :: UpRows(up', g) == UpRows(up, g)
    ensures MirrorKnown(mirror, up', tick + 1)
  {
    forall g | g in mirror.groups
      ensures RowsKnown(CurrentRows(mirror.groups[g]), UpRows(up', g), tick + 1)
    {
      assert RowsKnown(CurrentRows(mirror.groups[g]), UpRows(up, g), tick);
    }
  }

  /** Starting a session, or cycling it, leaves nothing in flight. */
  lemma RestartKeeps(s: System, server: Server)
    requires SysInv(s)
    requires server.Idle? || server == Subscribed(Channel([], false))
    ensures SysInv(s.(server := server, wire := QUIET, phase := Reading([])))
  {
  }

  lemma ReadScopeKeeps(s: System, scope: seq<Name>)
    requires SysInv(s) && s.server.Subscribed? && Elements(scope) == Scope(s.node.db, s.own)
    ensures SysInv(s.(server := Manifest(s.server.ch, Scope(s.node.db, s.own), scope)))
  {
    var t := s.(server := Manifest(s.server.ch, Scope(s.node.db, s.own), scope));
    assert s.phase.Reading? && s.wire == QUIET && s.phase.stash == [];
    assert forall st :: !InFlight(t, st);
    assert ManifestNames(t) == t.server.cached;
  }

  lemma SendGroupKeeps(s: System, st: GroupState)
    requires SysInv(s) && Enabled(s, SendGroup(st))
    ensures SysInv(s.(server := s.server.(todo := s.server.todo[1..]), wire := s.wire.(groups := s.wire.groups + [st])))
  {
    var t := s.(server := s.server.(todo := s.server.todo[1..]), wire := s.wire.(groups := s.wire.groups + [st]));
    assert s.phase.Reading?;
    SendGroupNames(s, st, t);
    assert forall g :: Pending(t, g) <==> Pending(s, g);
    assert forall g :: Unseen(t, g) <==> Unseen(s, g);
    forall x | InFlight(t, x)
      ensures StateFresh(t, x)
      ensures forall g :: StateHarmless(t, x, g)
    {
      if x == st {
        assert st.name in ManifestNames(s);
        forall g
          ensures StateHarmless(t, x, g)
        {
          if InScope(t.node.db, g, t.own) { SnapshotCompatible(s.node, st, s.own, g); }
        }
      } else {
        assert InFlight(s, x);
        SameVerdict(s, t, x);
      }
    }
  }

  /** What the invariant says of one state depends on upstream and on what is pending only. */
  lemma SameVerdict(s: System, t: System, st: GroupState)
    requires s.node == t.node && s.own == t.own
    requires forall g :: Pending(s, g) ==> Pending(t, g)
    ensures StateFresh(s, st) ==> StateFresh(t, st)
    ensures forall g :: StateHarmless(s, st, g) ==> StateHarmless(t, st, g)
  {
    forall g | StateHarmless(s, st, g)
      ensures StateHarmless(t, st, g)
    {
    }
  }

  lemma SendGroupNames(s: System, st: GroupState, t: System)
    requires s.phase.Reading? && s.server.Manifest? && s.server.todo != [] && st.name == s.server.todo[0]
    requires t == s.(server := s.server.(todo := s.server.todo[1..]), wire := s.wire.(groups := s.wire.groups + [st]))
    ensures ManifestNames(t) == ManifestNames(s)
    ensures st.name in ManifestNames(s)
  {
    NamesAppend(s.wire.groups, st);
    ElementsHead(s.server.todo);
  }

  lemma NamesAppend(sts: seq<GroupState>, st: GroupState)
    ensures StateNames(sts + [st]) == StateNames(sts) + {st.name}
  {
    var all := sts + [st];
    forall n | n in StateNames(sts)
      ensures n in StateNames(all)
    {
      var i :| 0 <= i < |sts| && sts[i].name == n;
      assert all[i].name == n;
    }
    assert all[|sts|].name == st.name;
    forall n | n in StateNames(all)
      ensures n in StateNames(sts) + {st.name}
    {
      var i :| 0 <= i < |all| && all[i].name == n;
      if i < |sts| { assert sts[i].name == n; }
    }
  }

  lemma NamesHead(sts: seq<GroupState>)
    requires sts != []
    ensures StateNames(sts) == {sts[0].name} + StateNames(sts[1..])
  {
    forall n | n in StateNames(sts)
      ensures n in {sts[0].name} + StateNames(sts[1..])
    {
      var i :| 0 <= i < |sts| && sts[i].name == n;
      if i > 0 { assert sts[1..][i - 1].name == n; }
    }
    forall n | n in StateNames(sts[1..])
      ensures n in StateNames(sts)
    {
      var i :| 0 <= i < |sts[1..]| && sts[1..][i].name == n;
      assert sts[i + 1].name == n;
    }
  }

  lemma ElementsHead(names: seq<Name>)
    requires names != []
    ensures Elements(names) == {names[0]} + Elements(names[1..])
  {
    forall n | n in Elements(names)
      ensures n in {names[0]} + Elements(names[1..])
    {
      var i :| 0 <= i < |names| && names[i] == n;
      if i > 0 { assert names[1..][i - 1] == n; }
    }
    forall n | n in Elements(names[1..])
      ensures n in Elements(names)
    {
      var i :| 0 <= i < |names[1..]| && names[1..][i] == n;
      assert names[i + 1] == n;
    }
  }

  lemma SendDoneKeeps(s: System)
    requires SysInv(s) && Enabled(s, SendDone)
    ensures SysInv(Do(s, SendDone))
  {
    var t := Do(s, SendDone);
    assert s.phase.Reading?;
    assert Elements(s.server.todo) == {};
    assert forall st :: InFlight(t, st) <==> InFlight(s, st);
    assert forall g :: Pending(t, g) <==> Pending(s, g);
    assert forall g :: Unseen(t, g) <==> Unseen(s, g);
    assert forall st :: StateFresh(t, st) <==> StateFresh(s, st);
    assert forall st, g :: StateHarmless(t, st, g) <==> StateHarmless(s, st, g);
  }

  /** A step that moves only events between the channel and the batch. */
  lemma ReceiveKeeps(s: System)
    requires SysInv(s) && Enabled(s, Receive)
    ensures SysInv(Do(s, Receive))
  {
    var t := Do(s, Receive);
    forall g
      ensures Unseen(t, g) <==> Unseen(s, g)
    {
      if !s.server.ch.lagged {
        assert s.server.ch.queue == [s.server.ch.queue[0]] + s.server.ch.queue[1..];
      }
    }
    SameInFlight(s, t);
  }

  /** Everything the invariant says carries over to a state with the same
      unapplied states, the same pending groups and the same mirror. */
  lemma SameInFlight(s: System, t: System)
    requires SysInv(s) && s.server.Pushing? && t.server.Pushing?
    requires t == s.(server := t.server) && t.server.cached == s.server.cached
    requires forall g :: Unseen(t, g) <==> Unseen(s, g)
    ensures SysInv(t)
  {
    assert forall g :: Pending(t, g) <==> Pending(s, g);
    assert forall st :: InFlight(t, st) <==> InFlight(s, st);
    assert forall st :: StateFresh(t, st) <==> StateFresh(s, st);
    assert forall st, g :: StateHarmless(t, st, g) <==> StateHarmless(s, st, g);
    forall g
      ensures Agrees(t, g) || Triggered(t, g)
    {
      assert Agrees(s, g) || Triggered(s, g);
    }
  }

  /** Once the session has been declared stale every group is pending, so
      only the facts that do not depend on pending groups need care. */
  lemma StaleSessionKeeps(s: System)
    requires Inv(s.node) && MirrorOk(s.mirror) && Shape(s) && NoncesOk(s)
    requires ScopeChanged in s.wire.pushes
    ensures SysInv(s)
  {
    assert forall g :: Pending(s, g);
  }

  lemma InFlightInScope(s: System, st: GroupState)
    requires SysInv(s) && InFlight(s, st) && ScopeChanged !in s.wire.pushes
    ensures HasScope(s) && st.name in s.server.cached
  {
    if s.phase.Reading? {
      if st in s.wire.groups {
        var i :| 0 <= i < |s.wire.groups| && s.wire.groups[i] == st;
        assert st.name in StateNames(s.wire.groups);
      } else {
        var i :| 0 <= i < |s.phase.stash| && s.phase.stash[i] == st;
        assert st.name in StateNames(s.phase.stash);
      }
    } else if s.phase.Resync? && st in s.phase.todo {
      var i :| 0 <= i < |s.phase.todo| && s.phase.todo[i] == st;
      assert st.name in StateNames(s.phase.todo);
    }
  }

  lemma EmitStale(s: System, order: seq<Name>)
    requires SysInv(s) && Enabled(s, Emit(order))
    requires s.server.lagged || Scope(s.node.db, s.own) != s.server.cached
    ensures SysInv(DoEmit(s, order))
  {
    var t := DoEmit(s, order);
    assert t.wire.pushes[|s.wire.pushes|] == ScopeChanged;
    StaleSessionKeeps(t);
  }

  /** Naming the touched groups keeps every group of the scope pending. */
  lemma EmitPending(s: System, order: seq<Name>, g: Name)
    requires Enabled(s, Emit(order)) && !s.server.lagged && Scope(s.node.db, s.own) == s.server.cached
    ensures Pending(DoEmit(s, order), g) ==> Pending(s, g)
    ensures Pending(s, g) && g in s.server.cached ==> Pending(DoEmit(s, order), g)
    ensures ScopeChanged in DoEmit(s, order).wire.pushes <==> ScopeChanged in s.wire.pushes
    ensures Changed(g) in DoEmit(s, order).wire.pushes ==> Changed(g) in s.wire.pushes || g in s.server.cached
  {
    var more := ChangedAll(order);
    var t := DoEmit(s, order);
    assert t.wire.pushes == s.wire.pushes + more;
    assert forall i :: 0 <= i < |more| ==> more[i] == Changed(order[i]) && order[i] in Elements(order);
    if g in s.server.batch && g in s.server.cached {
      assert g in Elements(order);
      var i :| 0 <= i < |order| && order[i] == g;
      assert more[i] == Changed(g);
      assert t.wire.pushes[|s.wire.pushes| + i] == Changed(g);
    }
  }

  lemma EmitStates(s: System, order: seq<Name>)
    requires SysInv(s) && Enabled(s, Emit(order)) && ScopeChanged !in s.wire.pushes
    requires !s.server.lagged && Scope(s.node.db, s.own) == s.server.cached
    ensures StatesFresh(DoEmit(s, order)) && StatesHarmless(DoEmit(s, order)) && GotFresh(DoEmit(s, order))
  {
    var t := DoEmit(s, order);
    forall st | InFlight(t, st)
      ensures StateFresh(t, st)
      ensures forall g :: StateHarmless(t, st, g)
    {
      assert InFlight(s, st);
      InFlightInScope(s, st);
      EmitPending(s, order, st.name);
      assert StateFresh(s, st);
      forall g
        ensures StateHarmless(t, st, g)
      {
        assert StateHarmless(s, st, g);
        EmitPending(s, order, g);
      }
    }
    if Working(t) {
      EmitPending(s, order, JobName(t.phase.job.value));
    }
  }

  lemma EmitCovered(s: System, order: seq<Name>)
    requires SysInv(s) && Enabled(s, Emit(order)) && ScopeChanged !in s.wire.pushes
    requires !s.server.lagged && Scope(s.node.db, s.own) == s.server.cached
    ensures Covered(DoEmit(s, order))
  {
    var t := DoEmit(s, order);
    forall g
      ensures Agrees(t, g) || Triggered(t, g)
    {
      EmitPending(s, order, g);
      assert Agrees(s, g) || Triggered(s, g);
    }
  }

  lemma EmitKeeps(s: System, order: seq<Name>)
    requires SysInv(s) && Enabled(s, Emit(order))
    ensures SysInv(DoEmit(s, order))
  {
    var t := DoEmit(s, order);
    if s.server.lagged || Scope(s.node.db, s.own) != s.server.cached {
      EmitStale(s, order);
    } else {
      forall g
        ensures ScopeChanged in t.wire.pushes <==> ScopeChanged in s.wire.pushes
        ensures Changed(g) in t.wire.pushes ==> Changed(g) in s.wire.pushes || g in s.server.cached
      {
        EmitPending(s, order, g);
      }
      if ScopeChanged in s.wire.pushes {
        assert t.wire.pushes == s.wire.pushes + ChangedAll(order);
        StaleSessionKeeps(t);
      } else {
        EmitStates(s, order);
        EmitCovered(s, order);
        assert NamesKnown(t);
      }
    }
  }

  // ---- the replica reads the manifest ----

  lemma ReadGroupKeeps(s: System)
    requires SysInv(s) && Enabled(s, ReadGroup)
    ensures SysInv(Do(s, ReadGroup))
  {
    var t := Do(s, ReadGroup);
    var head := s.wire.groups[0];
    NamesHead(s.wire.groups);
    NamesAppend(s.phase.stash, head);
    assert s.wire.groups == [head] + s.wire.groups[1..];
    assert forall st :: InFlight(t, st) ==> InFlight(s, st);
    forall st | InFlight(t, st)
      ensures StateFresh(t, st)
      ensures forall g :: StateHarmless(t, st, g)
    {
      SameVerdict(s, t, st);
    }
  }

  lemma ReadDoneKeeps(s: System)
    requires SysInv(s) && Enabled(s, ReadDone)
    ensures SysInv(Do(s, ReadDone))
  {
    var t := Do(s, ReadDone);
    assert StateNames(s.wire.groups) == {};
    forall st | InFlight(t, st)
      ensures StateFresh(t, st)
      ensures forall g :: StateHarmless(t, st, g)
    {
      assert InFlight(s, st);
      SameVerdict(s, t, st);
    }
    assert s.server.Pushing?;
    forall g
      ensures Agrees(t, g) || Triggered(t, g)
    {
      assert Unseen(s, g) || (InScope(s.node.db, g, s.own) <==> g in s.server.cached);
    }
  }

  lemma StartGroupKeeps(s: System)
    requires SysInv(s) && Enabled(s, StartGroup)
    ensures SysInv(Do(s, StartGroup))
  {
    var t := Do(s, StartGroup);
    NamesHead(s.phase.todo);
    assert s.phase.todo == [s.phase.todo[0]] + s.phase.todo[1..];
    forall st | InFlight(t, st)
      ensures StateFresh(t, st)
      ensures forall g :: StateHarmless(t, st, g)
    {
      assert InFlight(s, st);
      SameVerdict(s, t, st);
    }
    forall g
      ensures Agrees(t, g) || Triggered(t, g)
    {
      assert Agrees(s, g) || Triggered(s, g);
    }
  }

  // ---- dropping and sweeping ----

  /** Dropping one group and sweeping identities changes no other group's view. */
  lemma DropEffect(db: Db, g: Name, own: Endpoint, h: Name)
    requires h != g
    ensures h in DropGroup(db, g).groups <==> h in db.groups
    ensures h in DropAndSweep(db, g).groups <==> h in db.groups
    ensures h in db.groups ==> ViewIn(DropGroup(db, g), h, own) == ViewIn(db, h, own)
    ensures h in db.groups ==> ViewIn(DropAndSweep(db, g), h, own) == ViewIn(db, h, own)
  {
    if h in db.groups {
      SweepKeepsViews(DropGroup(db, g), own, h);
    }
  }

  lemma DropStaleKeeps(s: System, g: Name)
    requires SysInv(s) && Enabled(s, DropStale(g))
    ensures SysInv(s.(mirror := DropGroup(s.mirror, g)))
  {
    var t := s.(mirror := DropGroup(s.mirror, g));
    DropKeepsMirrorOk(s.mirror, g);
    forall st | InFlight(t, st)
      ensures StateFresh(t, st)
      ensures forall h :: StateHarmless(t, st, h)
    {
      assert InFlight(s, st);
      SameVerdict(s, t, st);
    }
    forall h
      ensures Agrees(t, h) || Triggered(t, h)
    {
      assert Agrees(s, h) || Triggered(s, h);
      if h == g {
        assert Unseen(s, g) || (InScope(s.node.db, g, s.own) <==> g in s.server.cached);
      } else {
        DropEffect(s.mirror, g, s.own, h);
      }
    }
  }

  lemma FinishResyncKeeps(s: System)
    requires SysInv(s) && Enabled(s, FinishResync)
    ensures SysInv(s.(mirror := SweepIdentities(s.mirror), phase := Live(None)))
  {
    var t := s.(mirror := SweepIdentities(s.mirror), phase := Live(None));
    DropKeepsMirrorOk(s.mirror, []);
    forall h
      ensures Agrees(t, h) || Triggered(t, h)
    {
      assert Agrees(s, h) || Triggered(s, h);
      if h in s.mirror.groups {
        SweepKeepsViews(s.mirror, s.own, h);
      }
    }
  }

  /** Access to a group is gone: its mirror goes, and the job with it. */
  lemma DropJobKeeps(s: System)
    requires SysInv(s) && Working(s) && !InScope(s.node.db, JobName(s.phase.job.value), s.own)
    ensures SysInv(WithJob(s.(mirror := DropAndSweep(s.mirror, JobName(s.phase.job.value))), None))
  {
    var g := JobName(s.phase.job.value);
    var t := WithJob(s.(mirror := DropAndSweep(s.mirror, g)), None);
    DropKeepsMirrorOk(s.mirror, g);
    DropKeepsMirrorOk(DropGroup(s.mirror, g), g);
    forall st | InFlight(t, st)
      ensures StateFresh(t, st)
      ensures forall h :: StateHarmless(t, st, h)
    {
      assert InFlight(s, st);
      SameVerdict(s, t, st);
    }
    forall h
      ensures Agrees(t, h) || Triggered(t, h)
    {
      assert Agrees(s, h) || Triggered(s, h);
      if h != g {
        DropEffect(s.mirror, g, s.own, h);
      }
    }
  }

  // ---- converging one group ----

  lemma ReadPushKeeps(s: System)
    requires SysInv(s) && Enabled(s, ReadPush)
    ensures SysInv(Do(s, ReadPush))
  {
    var t := Do(s, ReadPush);
    if s.wire.pushes[0].ScopeChanged? {
      RestartKeeps(s, Idle);
    } else {
      var g := s.wire.pushes[0].group;
      assert s.wire.pushes == [Changed(g)] + t.wire.pushes;
      assert forall h :: Unseen(t, h) <==> Unseen(s, h);
      assert forall h :: h != g ==> (Pending(t, h) <==> Pending(s, h));
      assert forall st :: !InFlight(t, st);
      forall h
        ensures Agrees(t, h) || Triggered(t, h)
      {
        assert Agrees(s, h) || Triggered(s, h);
      }
    }
  }

  lemma GetGroupKeeps(s: System, st: GroupState)
    requires SysInv(s) && Enabled(s, GetGroup(st)) && InScope(s.node.db, st.name, s.own)
    ensures SysInv(WithJob(s, Some(HaveState(st, s.phase.job.value.again))))
  {
    var t := WithJob(s, Some(HaveState(st, s.phase.job.value.again)));
    forall x | InFlight(t, x)
      ensures StateFresh(t, x)
      ensures forall g :: StateHarmless(t, x, g)
    {
      StillHarmless(s, t, st, x);
    }
    SameCover(s, t);
  }

  lemma StillHarmless(s: System, t: System, st: GroupState, x: GroupState)
    requires SysInv(s) && Enabled(s, GetGroup(st)) && InScope(s.node.db, st.name, s.own)
    requires t == WithJob(s, Some(HaveState(st, s.phase.job.value.again))) && InFlight(t, x)
    ensures StateFresh(t, x)
    ensures forall g :: StateHarmless(t, x, g)
  {
    if x == st {
      FetchedIsHarmless(s, t, st);
    } else {
      assert InFlight(s, x);
      SameVerdict(s, t, x);
    }
  }

  lemma FetchedIsHarmless(s: System, t: System, st: GroupState)
    requires SysInv(s) && Enabled(s, GetGroup(st)) && InScope(s.node.db, st.name, s.own)
    requires t == WithJob(s, Some(HaveState(st, s.phase.job.value.again)))
    ensures StateFresh(t, st)
    ensures forall g :: StateHarmless(t, st, g)
  {
    forall g
      ensures StateHarmless(t, st, g)
    {
      if InScope(t.node.db, g, t.own) { SnapshotCompatible(s.node, st, s.own, g); }
    }
  }

  /** Advancing a job on the same group changes no agreement and no trigger. */
  lemma SameCover(s: System, t: System)
    requires Covered(s) && Working(s) && Working(t)
    requires t == WithJob(s, t.phase.job) && JobName(t.phase.job.value) == JobName(s.phase.job.value)
    ensures Covered(t)
  {
    forall g
      ensures Agrees(t, g) || Triggered(t, g)
    {
      assert Agrees(s, g) || Triggered(s, g);
    }
  }

  lemma DiffKeeps(s: System)
    requires SysInv(s) && Enabled(s, Diff)
    ensures SysInv(DoDiff(s))
  {
    var job := s.phase.job.value;
    var needed := NeedFetch(LocalGroup(s.mirror, job.st.name), job.st.secrets);
    if needed == [] || InScope(s.node.db, job.st.name, s.own) {
      AskKeeps(s, needed);
    } else {
      DropJobKeeps(s);
    }
  }

  lemma AskKeeps(s: System, needed: seq<Name>)
    requires SysInv(s) && Enabled(s, Diff)
    requires needed == NeedFetch(LocalGroup(s.mirror, s.phase.job.value.st.name), s.phase.job.value.st.secrets)
    ensures SysInv(WithJob(s, Some(FetchSecrets(s.phase.job.value.st, needed, [], s.phase.job.value.again))))
  {
    var job := s.phase.job.value;
    var t := WithJob(s, Some(FetchSecrets(job.st, needed, [], job.again)));
    NothingGotYet(s, t, needed);
    JobAdvances(s, t);
  }

  lemma NothingGotYet(s: System, t: System, needed: seq<Name>)
    requires SysInv(s) && Enabled(s, Diff)
    requires needed == NeedFetch(LocalGroup(s.mirror, s.phase.job.value.st.name), s.phase.job.value.st.secrets)
    requires t == WithJob(s, Some(FetchSecrets(s.phase.job.value.st, needed, [], s.phase.job.value.again)))
    ensures GotFresh(t) && NoncesOk(t)
  {
    var job := s.phase.job.value;
    assert StateFresh(s, job.st) by { assert InFlight(s, job.st); }
    assert NoncesOk(t) by { assert MirrorKnown(s.mirror, s.node.db, s.node.tick); }
    EmptyIsFresh(t, job.st, needed, job.again);
  }

  lemma EmptyIsFresh(t: System, st: GroupState, needed: seq<Name>, again: bool)
    requires (t.phase.Resync? || t.phase.Live?) && t.phase.job == Some(FetchSecrets(st, needed, [], again))
    requires needed == NeedFetch(LocalGroup(t.mirror, st.name), st.secrets) && StateFresh(t, st)
    ensures GotFresh(t)
  {
    if !Pending(t, st.name) {
      var asked: seq<Name> := [];
      assert asked + needed == needed;
      assert FetchedFrom([], asked, ViewIn(t.node.db, st.name, t.own).secrets);
    }
  }

  /** Moving on with the same state of the same group keeps the invariant. */
  lemma JobAdvances(s: System, t: System)
    requires SysInv(s) && Working(s) && !s.phase.job.value.FetchGroup?
    requires Working(t) && t == WithJob(s, t.phase.job)
    requires !t.phase.job.value.FetchGroup? && t.phase.job.value.st == s.phase.job.value.st
    requires GotFresh(t) && NoncesOk(t)
    ensures SysInv(t)
  {
    forall st | InFlight(t, st)
      ensures StateFresh(t, st)
      ensures forall g :: StateHarmless(t, st, g)
    {
      assert InFlight(s, st);
      SameVerdict(s, t, st);
    }
    SameCover(s, t);
  }

  /** Upstream's current rows are known rows. */
  lemma UpstreamRowKnown(n: Node, g: Name, name: Name)
    requires Inv(n) && RowUpstream(n.db, g, name).Some?
    ensures RowKnown(name, RowUpstream(n.db, g, name).value, UpRows(n.db, g), n.tick)
  {
    assert GroupInv(n.db, g, n.tick);
    var cur := CurrentOf(n.db.groups[g], name).value;
    assert RowSealed(g, n.db.groups[g], name, cur.version, cur.row, n.tick);
  }

  /** The next name of the fetch list is one of the view's secrets, and its
      row extends the rows fetched so far. */
  lemma FetchExtends(grp: Group, entries: seq<SecretEntry>, asked: seq<Name>, names: seq<Name>, got: seq<Fetched>, secrets: map<Name, Current>)
    requires names != [] && asked + names == NeedFetch(grp, entries)
    requires ListsSecrets(entries, secrets) && FetchedFrom(got, asked, secrets)
    ensures names[0] in secrets
    ensures (asked + [names[0]]) + names[1..] == NeedFetch(grp, entries)
    ensures FetchedFrom(got + [Fetched(names[0], secrets[names[0]])], asked + [names[0]], secrets)
  {
    var n := names[0];
    assert NeedFetch(grp, entries)[|asked|] == n;
    NeedFetchSpec(grp, entries, n);
    assert n in Listed(entries);
    assert names == [n] + names[1..];
  }

  lemma GetSecretFresh(s: System)
    requires SysInv(s) && Enabled(s, GetSecret)
    ensures GotFresh(DoGetSecret(s))
  {
    var job := s.phase.job.value;
    var g := job.st.name;
    if !Pending(s, g) {
      assert StateFresh(s, job.st) by { assert InFlight(s, job.st); }
      var secrets := ViewIn(s.node.db, g, s.own).secrets;
      var asked: seq<Name> :| asked + job.names == NeedFetch(LocalGroup(s.mirror, g), job.st.secrets) && FetchedFrom(job.got, asked, secrets);
      FetchExtends(LocalGroup(s.mirror, g), job.st.secrets, asked, job.names, job.got, secrets);
      assert RowUpstream(s.node.db, g, job.names[0]) == Some(secrets[job.names[0]]);
    }
  }

  lemma GetSecretNonces(s: System)
    requires NoncesOk(s) && Enabled(s, GetSecret)
    requires var row := RowUpstream(s.node.db, s.phase.job.value.st.name, s.phase.job.value.names[0]);
             row.Some? ==> RowKnown(s.phase.job.value.names[0], row.value, UpRows(s.node.db, s.phase.job.value.st.name), s.node.tick)
    ensures NoncesOk(DoGetSecret(s))
  {
  }

  lemma GetSecretKeeps(s: System)
    requires SysInv(s) && Enabled(s, GetSecret)
    ensures SysInv(DoGetSecret(s))
  {
    var job := s.phase.job.value;
    if RowUpstream(s.node.db, job.st.name, job.names[0]).Some? {
      UpstreamRowKnown(s.node, job.st.name, job.names[0]);
    }
    GetSecretFresh(s);
    GetSecretNonces(s);
    JobAdvances(s, DoGetSecret(s));
  }

  // ---- applying ----

  lemma {:induction false} DecryptableSubset(got: seq<Fetched>, deks: seq<DekEntry>, i: nat)
    requires i < |Decryptable(got, deks)|
    ensures Decryptable(got, deks)[i] in got
  {
    if got != [] && i < |Decryptable(got[..|got| - 1], deks)| {
      DecryptableSubset(got[..|got| - 1], deks, i);
    }
  }

  /** If nothing is pending for the job's group, applying makes it agree. */
  lemma ApplyAgrees(s: System)
    requires SysInv(s) && Enabled(s, Apply) && !Pending(s, s.phase.job.value.st.name)
    ensures Agrees(DoApply(s), s.phase.job.value.st.name)
  {
    var job := s.phase.job.value;
    var g := job.st.name;
    assert StateFresh(s, job.st) by { assert InFlight(s, job.st); }
    var view := ViewIn(s.node.db, g, s.own);
    var asked: seq<Name> :| asked + job.names == NeedFetch(LocalGroup(s.mirror, g), job.st.secrets) && FetchedFrom(job.got, asked, view.secrets);
    assert asked + [] == asked;
    forall i | 0 <= i < |job.got|
      ensures job.got[i].cur.row.dekVersion in Versions(job.st.deks)
    {
      ReaderCanDecrypt(s.node, g, s.own, asked[i]);
    }
    AllDecryptable(job.got, job.st.deks);
    SnapshotRowsDistinct(s.node, g, s.own);
    LocalReady(s, g);
    ApplyConverges(s.mirror, s.own, job.st, job.got, view);
  }

  lemma LocalReady(s: System, g: Name)
    requires MirrorOk(s.mirror) && NoncesOk(s) && g in s.node.db.groups
    ensures RowsPresent(LocalGroup(s.mirror, g))
    ensures NonceCoherent(CurrentRows(LocalGroup(s.mirror, g)), ViewIn(s.node.db, g, s.own).secrets)
  {
    var local, secrets := CurrentRows(LocalGroup(s.mirror, g)), ViewIn(s.node.db, g, s.own).secrets;
    if g in s.mirror.groups {
      assert RowsKnown(local, UpRows(s.node.db, g), s.node.tick);
      assert secrets == UpRows(s.node.db, g);
      forall n | n in local && n in secrets && local[n].row.nonce == secrets[n].row.nonce
        ensures local[n] == secrets[n]
      {
        assert RowKnown(n, local[n], UpRows(s.node.db, g), s.node.tick);
      }
    }
  }

  /** A group with nothing pending keeps agreeing while another one is applied. */
  lemma ApplyLeavesAgreement(s: System, h: Name)
    requires SysInv(s) && Enabled(s, Apply) && h != s.phase.job.value.st.name
    requires Agrees(s, h) && !Pending(s, h)
    ensures Agrees(DoApply(s), h)
  {
    var job := s.phase.job.value;
    var kept := Decryptable(job.got, job.st.deks);
    if InScope(s.node.db, h, s.own) {
      assert StateHarmless(s, job.st, h) by { assert InFlight(s, job.st); }
      assert AclRows(s.mirror, s.mirror.groups[h]) == ViewIn(s.mirror, h, s.own).rows == AclRows(s.node.db, s.node.db.groups[h]);
      ApplyLeavesOthers(s.mirror, s.own, job.st, kept, h);
    } else {
      UpsertAllGroups(s.mirror, EffectiveAcl(job.st.acl));
    }
  }

  lemma ApplyCovered(s: System)
    requires SysInv(s) && Enabled(s, Apply)
    ensures Covered(DoApply(s))
  {
    var t, g := DoApply(s), s.phase.job.value.st.name;
    assert forall h :: Pending(t, h) <==> Pending(s, h);
    forall h
      ensures Agrees(t, h) || Triggered(t, h)
    {
      assert Agrees(s, h) || Triggered(s, h);
      if !Pending(s, h) {
        if h == g {
          ApplyAgrees(s);
        } else if Agrees(s, h) {
          ApplyLeavesAgreement(s, h);
        } else {
          UpsertAllGroups(s.mirror, EffectiveAcl(s.phase.job.value.st.acl));
        }
      }
    }
  }

  /** Rows of an applied group were local or fetched. */
  lemma AppliedRowKnown(grp: Group, own: Endpoint, st: GroupState, fetched: seq<Fetched>, up: map<Name, Current>, tick: nat, n: Name)
    requires RowsKnown(CurrentRows(grp), up, tick)
    requires forall i :: 0 <= i < |fetched| ==> RowKnown(fetched[i].name, fetched[i].cur, up, tick)
    requires n in CurrentRows(AppliedGroup(own, grp, st, fetched))
    ensures RowKnown(n, CurrentRows(AppliedGroup(own, grp, st, fetched))[n], up, tick)
  {
    StoreFetchedSpec(grp.secrets, fetched, n);
    if exists i :: 0 <= i < |fetched| && fetched[i].name == n {
      var i :| 0 <= i < |fetched| && fetched[i].name == n && StoreFetched(grp.secrets, fetched)[n] == Single(fetched[i].cur);
      assert RowKnown(fetched[i].name, fetched[i].cur, up, tick);
    } else {
      assert n in CurrentRows(grp);
    }
  }

  lemma KeptKnown(got: seq<Fetched>, deks: seq<DekEntry>, up: map<Name, Current>, tick: nat)
    requires forall i :: 0 <= i < |got| ==> RowKnown(got[i].name, got[i].cur, up, tick)
    ensures forall i :: 0 <= i < |Decryptable(got, deks)| ==>
              RowKnown(Decryptable(got, deks)[i].name, Decryptable(got, deks)[i].cur, up, tick)
  {
    var kept := Decryptable(got, deks);
    forall i | 0 <= i < |kept|
      ensures RowKnown(kept[i].name, kept[i].cur, up, tick)
    {
      DecryptableSubset(got, deks, i);
      var j :| 0 <= j < |got| && got[j] == kept[i];
    }
  }

  lemma ApplyNonces(s: System)
    requires NoncesOk(s) && Enabled(s, Apply)
    ensures NoncesOk(DoApply(s))
  {
    var job := s.phase.job.value;
    KeptKnown(job.got, job.st.deks, UpRows(s.node.db, job.st.name), s.node.tick);
    ApplyKnown(s.mirror, s.own, job.st, Decryptable(job.got, job.st.deks), s.node.db, s.node.tick);
  }

  lemma ApplyKnown(mirror: Db, own: Endpoint, st: GroupState, kept: seq<Fetched>, up: Db, tick: nat)
    requires MirrorKnown(mirror, up, tick)
    requires forall i :: 0 <= i < |kept| ==> RowKnown(kept[i].name, kept[i].cur, UpRows(up, st.name), tick)
    ensures MirrorKnown(ApplySync(mirror, own, st, kept), up, tick)
  {
    var m := ApplySync(mirror, own, st, kept);
    UpsertAllGroups(mirror, EffectiveAcl(st.acl));
    AppliedRowsKnown(LocalGroup(mirror, st.name), own, st, kept, UpRows(up, st.name), tick);
    forall h | h in m.groups && h != st.name
      ensures RowsKnown(CurrentRows(m.groups[h]), UpRows(up, h), tick)
    {
      SameSecretsSameRows(mirror.groups[h], m.groups[h]);
    }
  }

  lemma AppliedRowsKnown(grp: Group, own: Endpoint, st: GroupState, fetched: seq<Fetched>, up: map<Name, Current>, tick: nat)
    requires RowsKnown(CurrentRows(grp), up, tick)
    requires forall i :: 0 <= i < |fetched| ==> RowKnown(fetched[i].name, fetched[i].cur, up, tick)
    ensures RowsKnown(CurrentRows(AppliedGroup(own, grp, st, fetched)), up, tick)
  {
    forall n | n in CurrentRows(AppliedGroup(own, grp, st, fetched))
      ensures RowKnown(n, CurrentRows(AppliedGroup(own, grp, st, fetched))[n], up, tick)
    {
      AppliedRowKnown(grp, own, st, fetched, up, tick, n);
    }
  }

  lemma ApplyKeeps(s: System)
    requires SysInv(s) && Enabled(s, Apply)
    ensures SysInv(DoApply(s))
  {
    var job, t := s.phase.job.value, DoApply(s);
    ApplyCovered(s);
    ApplyNonces(s);
    ApplyKeepsMirrorOk(s.mirror, s.own, job.st, Decryptable(job.got, job.st.deks));
    UpsertAllGroups(s.mirror, EffectiveAcl(job.st.acl));
    forall st | InFlight(t, st)
      ensures StateFresh(t, st)
      ensures forall g :: StateHarmless(t, st, g)
    {
      assert InFlight(s, st);
      SameVerdict(s, t, st);
    }
    assert NamesKnown(t);
  }

  /** An apply step of the protocol, on the rows: whatever was fetched, a secret
      row it changes can be opened through a wrap the mirror then holds, and
      the group is fetched once more iff a row had to be withheld. */
  lemma ApplyWithholds(s: System)
    requires Enabled(s, Apply)
    ensures var job, t := s.phase.job.value, Do(s, Apply);
            && job.st.name in t.mirror.groups
            && ChangedRowsOpen(LocalGroup(s.mirror, job.st.name), t.mirror.groups[job.st.name], s.own)
            && (t.phase.job == Some(FetchGroup(job.st.name, true)) <==>
                  !job.again && exists k :: 0 <= k < |job.got| && !CarriesDek(job.st.deks, job.got[k].cur.row.dekVersion))
  {
    var job := s.phase.job.value;
    WithheldUntilWrapped(s.mirror, s.own, job.st, job.got);
    WithholdsIff(job.got, job.st.deks);
  }

  // ---- every reachable state ----

  /** A step of the node, of maintenance, or of the session coming and going. */
  predicate SessionStep(a: Action) {
    a.Upstream? || a.Connect? || a.Subscribe? || a.ReadScope? || a.Disconnect? || a.Maintain?
  }

  lemma SessionStepKeeps(s: System, a: Action)
    requires SysInv(s) && Enabled(s, a) && SessionStep(a)
    ensures SysInv(Do(s, a))
  {
    match a
    case Upstream(_, _, _) => UpstreamKeeps(s, a);
    case Connect => RestartKeeps(s, Idle);
    case Subscribe => RestartKeeps(s, Subscribed(Channel([], false)));
    case ReadScope(scope) => if s.own in s.node.db.ids { ReadScopeKeeps(s, scope); } else { EndSessionKeeps(s); }
    case Disconnect => EndSessionKeeps(s);
    case Maintain(db) => MaintainKeeps(s, db);
  }

  /** A message sent or read on the session stream. */
  predicate StreamStep(a: Action) {
    a.SendGroup? || a.SendDone? || a.Receive? || a.Emit? || a.ReadGroup? || a.ReadDone? || a.ReadPush?
  }

  lemma StreamStepKeeps(s: System, a: Action)
    requires SysInv(s) && Enabled(s, a) && StreamStep(a)
    ensures SysInv(Do(s, a))
  {
    match a
    case SendGroup(st) => SendGroupKeeps(s, st);
    case SendDone => SendDoneKeeps(s);
    case Receive => ReceiveKeeps(s);
    case Emit(order) => EmitKeeps(s, order);
    case ReadGroup => ReadGroupKeeps(s);
    case ReadDone => ReadDoneKeeps(s);
    case ReadPush => ReadPushKeeps(s);
  }

  /** The replica at work on its mirror. */
  lemma MirrorStepKeeps(s: System, a: Action)
    requires SysInv(s) && Enabled(s, a) && !SessionStep(a) && !StreamStep(a)
    ensures SysInv(Do(s, a))
  {
    match a
    case StartGroup => StartGroupKeeps(s);
    case DropStale(g) => DropStaleKeeps(s, g);
    case FinishResync => FinishResyncKeeps(s);
    case GetGroup(st) => if InScope(s.node.db, st.name, s.own) { GetGroupKeeps(s, st); } else { DropJobKeeps(s); }
    case Diff => DiffKeeps(s);
    case GetSecret => GetSecretKeeps(s);
    case Apply => ApplyKeeps(s);
  }

  /** Every step of the protocol keeps the invariant. */
  lemma StepKeepsSysInv(s: System, a: Action)
    requires SysInv(s) && Enabled(s, a)
    ensures SysInv(Do(s, a))
  {
    if SessionStep(a) {
      SessionStepKeeps(s, a);
    } else if StreamStep(a) {
      StreamStepKeeps(s, a);
    } else {
      MirrorStepKeeps(s, a);
    }
  }

  /** Every action of the list is enabled when its turn comes. */
  ghost predicate Possible(s: System, actions: seq<Action>)
    decreases |actions|
  {
    actions == [] || (Enabled(s, actions[0]) && Possible(Do(s, actions[0]), actions[1..]))
  }

  ghost function Outcome(s: System, actions: seq<Action>): System
    requires Possible(s, actions)
    decreases |actions|
  {
    if actions == [] then s else Outcome(Do(s, actions[0]), actions[1..])
  }

  /** A replica not yet connected, over any mirror made of rows the node once wrote. */
  ghost predicate Start(s: System) {
    && Inv(s.node) && MirrorOk(s.mirror) && NoncesOk(s)
    && s.phase.Offline? && s.server.Idle? && s.wire == QUIET
  }

  lemma {:induction false} RunKeepsSysInv(s: System, actions: seq<Action>)
    requires SysInv(s) && Possible(s, actions)
    ensures SysInv(Outcome(s, actions))
    decreases |actions|
  {
    if actions != [] {
      StepKeepsSysInv(s, actions[0]);
      RunKeepsSysInv(Do(s, actions[0]), actions[1..]);
    }
  }

  /** No lost update, in every reachable state, for every group. */
  lemma NoLostUpdate(s: System, actions: seq<Action>, g: Name)
    requires Start(s) && Possible(s, actions)
    ensures Agrees(Outcome(s, actions), g) || Triggered(Outcome(s, actions), g)
  {
    RunKeepsSysInv(s, actions);
  }

  /** A settled session has converged: every group agrees with upstream. */
  lemma SettledAgrees(s: System, actions: seq<Action>, g: Name)
    requires Start(s) && Possible(s, actions) && Settled(Outcome(s, actions))
    ensures Agrees(Outcome(s, actions), g)
  {
    NoLostUpdate(s, actions, g);
  }
}
