/** The replica's methods are runs of the sync protocol: with the node quiet in
    between, what they do to the mirror is what the protocol's steps do. */
module ReplicaRuns {
  import opened Base
  import opened Crypto
  import opened Tables
  import opened Requests
  import opened Mirror
  import opened Convergence
  import opened Protocol
  import opened SyncSafety
  import opened ReplicaNode
  import opened FullResync

  // ---- composing runs ----

  lemma {:induction false} RunOn(s: System, a: seq<Action>, b: seq<Action>)
    requires Possible(s, a) && Possible(Outcome(s, a), b)
    ensures Possible(s, a + b) && Outcome(s, a + b) == Outcome(Outcome(s, a), b)
    decreases |a|
  {
    if a == [] {
      assert a + b == b;
    } else {
      assert (a + b)[1..] == a[1..] + b;
      RunOn(Do(s, a[0]), a[1..], b);
    }
  }

  lemma OneStep(s: System, a: Action)
    requires Enabled(s, a)
    ensures Possible(s, [a]) && Outcome(s, [a]) == Do(s, a)
  {
    assert [a][1..] == [];
    assert Possible(Do(s, a), []);
  }

  /** `actions` lead from `s` to `t`. */
  ghost predicate Reaches(s: System, actions: seq<Action>, t: System) {
    Possible(s, actions) && Outcome(s, actions) == t
  }

  lemma ThenStep(s: System, actions: seq<Action>, t: System, a: Action)
    requires Reaches(s, actions, t) && Enabled(t, a)
    ensures Reaches(s, actions + [a], Do(t, a))
  {
    OneStep(t, a);
    RunOn(s, actions, [a]);
  }

  // ---- fetching secrets one by one ----

  lemma {:induction false} ReadRowsSplit(up: Db, g: Name, a: seq<Name>, b: seq<Name>)
    ensures ReadRows(up, g, a + b) == ReadRows(up, g, a) + ReadRows(up, g, b)
  {
    if b == [] {
      assert a + b == a;
    } else {
      assert (a + b)[..|a + b| - 1] == a + b[..|b| - 1];
      ReadRowsSplit(up, g, a, b[..|b| - 1]);
    }
  }

  lemma {:induction false} GetsAll(s: System, st: GroupState, names: seq<Name>, got: seq<Fetched>, again: bool)
    returns (actions: seq<Action>)
    requires (s.phase.Resync? || s.phase.Live?) && s.phase.job == Some(FetchSecrets(st, names, got, again))
    ensures Reaches(s, actions, WithJob(s, Some(FetchSecrets(st, [], got + ReadRows(s.node.db, st.name, names), again))))
    decreases |names|
  {
    if names == [] {
      actions := [];
      assert got + ReadRows(s.node.db, st.name, names) == got;
    } else {
      var t := GetOne(s, st, names, got, again);
      var rest := GetsAll(t, st, names[1..], t.phase.job.value.got, again);
      RunOn(s, [GetSecret], rest);
      actions := [GetSecret] + rest;
    }
  }

  lemma GetOne(s: System, st: GroupState, names: seq<Name>, got: seq<Fetched>, again: bool) returns (t: System)
    requires (s.phase.Resync? || s.phase.Live?) && s.phase.job == Some(FetchSecrets(st, names, got, again)) && names != []
    ensures Reaches(s, [GetSecret], t) && t.phase.job.Some? && t == WithJob(s, t.phase.job)
    ensures t.phase.job.value == FetchSecrets(st, names[1..], t.phase.job.value.got, again)
    ensures t.phase.job.value.got + ReadRows(s.node.db, st.name, names[1..]) == got + ReadRows(s.node.db, st.name, names)
  {
    t := DoGetSecret(s);
    OneStep(s, GetSecret);
    FirstRow(s.node.db, st.name, names, got);
  }

  /** The row of the first name, then those of the rest. */
  lemma FirstRow(up: Db, g: Name, names: seq<Name>, got: seq<Fetched>)
    requires names != []
    ensures var row := RowUpstream(up, g, names[0]);
            got + (if row.Some? then [Fetched(names[0], row.value)] else []) + ReadRows(up, g, names[1..])
            == got + ReadRows(up, g, names)
  {
    OneRow(up, g, names[0]);
    assert [names[0]] + names[1..] == names;
    ReadRowsSplit(up, g, [names[0]], names[1..]);
    Associate(got, ReadRows(up, g, [names[0]]), ReadRows(up, g, names[1..]));
  }

  lemma OneRow(up: Db, g: Name, name: Name)
    ensures ReadRows(up, g, [name]) == if RowUpstream(up, g, name).Some? then [Fetched(name, RowUpstream(up, g, name).value)] else []
  {
    assert [name][..0] == [];
  }

  lemma Associate(a: seq<Fetched>, b: seq<Fetched>, c: seq<Fetched>)
    ensures a + b + c == a + (b + c)
  {
  }

  // ---- one exchange ----

  /** The secrets a quiet node ships for a state; `None` is a denial. */
  function ReplyOf(up: Db, own: Endpoint, m: Db, st: GroupState): Option<seq<Fetched>> {
    if InScope(up, st.name, own) then Some(ReadRows(up, st.name, NeedFetch(LocalGroup(m, st.name), st.secrets))) else None
  }

  /** Diff, secrets and apply: the state is applied unless the node denies the fetch. */
  lemma ApplyIsRun(s: System, st: GroupState, again: bool) returns (actions: seq<Action>)
    requires (s.phase.Resync? || s.phase.Live?) && s.phase.job == Some(HaveState(st, again))
    ensures match FetchedFor(s.mirror, st, ReplyOf(s.node.db, s.own, s.mirror, st))
            case None => Reaches(s, actions, WithJob(s.(mirror := DropAndSweep(s.mirror, st.name)), None))
            case Some(fetched) =>
              var kept := Decryptable(fetched, st.deks);
              Reaches(s, actions, WithJob(s.(mirror := ApplySync(s.mirror, s.own, st, kept)),
                                          if |kept| != |fetched| && !again then Some(FetchGroup(st.name, true)) else None))
  {
    var names := NeedFetch(LocalGroup(s.mirror, st.name), st.secrets);
    OneStep(s, Diff);
    if names == [] || InScope(s.node.db, st.name, s.own) {
      var t := WithJob(s, Some(FetchSecrets(st, names, [], again)));
      var gets := GetsAll(t, st, names, [], again);
      RunOn(s, [Diff], gets);
      var fetched := ReadRows(s.node.db, st.name, names);
      assert [] + fetched == fetched;
      ThenStep(s, [Diff] + gets, WithJob(t, Some(FetchSecrets(st, [], fetched, again))), Apply);
      actions := [Diff] + gets + [Apply];
    } else {
      actions := [Diff];
    }
  }

  /** A quiet node's answers to the whole exchange about one group. */
  function QuietAnswers(up: Db, own: Endpoint, m: Db, st: GroupState, latest: GroupState): Answers {
    var reply := ReplyOf(up, own, m, st);
    var fetched := FetchedFor(m, st, reply);
    if fetched.None? then Answers(reply, None, None)
    else
      var m1 := ApplySync(m, own, st, Decryptable(fetched.value, st.deks));
      Answers(reply, if InScope(up, st.name, own) then Some(latest) else None, ReplyOf(up, own, m1, latest))
  }

  /** `latest` is what a re-fetch of the group would read. */
  ghost predicate IsLatest(up: Db, own: Endpoint, st: GroupState, latest: GroupState) {
    latest.name == st.name && (InScope(up, st.name, own) ==> Snapshot(latest, ViewIn(up, st.name, own)))
  }

  /** `SyncOneGroup` against a quiet node is a run of the protocol: diff,
      secrets, apply, and at most one re-fetch, or a drop. */
  lemma SyncOneIsRun(s: System, st: GroupState, latest: GroupState) returns (actions: seq<Action>)
    requires (s.phase.Resync? || s.phase.Live?) && s.phase.job == Some(HaveState(st, false))
    requires IsLatest(s.node.db, s.own, st, latest)
    ensures Reaches(s, actions,
                    WithJob(s.(mirror := SyncedOne(s.mirror, s.own, st, QuietAnswers(s.node.db, s.own, s.mirror, st, latest))), None))
  {
    actions := ApplyIsRun(s, st, false);
    var fetched := FetchedFor(s.mirror, st, ReplyOf(s.node.db, s.own, s.mirror, st));
    if fetched.Some? && |Decryptable(fetched.value, st.deks)| != |fetched.value| {
      var m1 := ApplySync(s.mirror, s.own, st, Decryptable(fetched.value, st.deks));
      var t := WithJob(s.(mirror := m1), Some(FetchGroup(st.name, true)));
      ThenStep(s, actions, t, GetGroup(latest));
      actions := actions + [GetGroup(latest)];
      if InScope(s.node.db, st.name, s.own) {
        var u := WithJob(t, Some(HaveState(latest, true)));
        var more := ApplyIsRun(u, latest, true);
        RunOn(s, actions, more);
        actions := actions + more;
      }
    }
  }

  // ---- a whole resync ----

  /** The answers of a quiet node, group by group, to a manifest. */
  function QuietAll(up: Db, own: Endpoint, db: Db, states: seq<GroupState>, latest: seq<GroupState>): (answers: seq<Answers>)
    requires |latest| == |states|
    ensures |answers| == |states|
  {
    if states == [] then []
    else
      var n := |states| - 1;
      var before := QuietAll(up, own, db, states[..n], latest[..n]);
      before + [QuietAnswers(up, own, SyncedAll(db, own, states[..n], before), states[n], latest[n])]
  }

  lemma QuietAllPrefix(up: Db, own: Endpoint, db: Db, states: seq<GroupState>, latest: seq<GroupState>, i: nat)
    requires |latest| == |states| && i < |states|
    ensures var before := QuietAll(up, own, db, states[..i], latest[..i]);
            var m := SyncedAll(db, own, states[..i], before);
            && QuietAll(up, own, db, states[..i + 1], latest[..i + 1]) == before + [QuietAnswers(up, own, m, states[i], latest[i])]
            && SyncedAll(db, own, states[..i + 1], QuietAll(up, own, db, states[..i + 1], latest[..i + 1]))
               == SyncedOne(m, own, states[i], QuietAnswers(up, own, m, states[i], latest[i]))
  {
    var before := QuietAll(up, own, db, states[..i], latest[..i]);
    var a := QuietAnswers(up, own, SyncedAll(db, own, states[..i], before), states[i], latest[i]);
    assert states[..i + 1][..i] == states[..i] && latest[..i + 1][..i] == latest[..i];
    assert (before + [a])[..i] == before;
  }

  /** The system after the first `i` groups of a resync. */
  ghost function Midway(s: System, states: seq<GroupState>, latest: seq<GroupState>, i: nat): System
    requires s.phase.Resync? && |latest| == |states| && i <= |states|
  {
    s.(mirror := SyncedAll(s.mirror, s.own, states[..i], QuietAll(s.node.db, s.own, s.mirror, states[..i], latest[..i])),
       phase := s.phase.(todo := states[i..]))
  }

  lemma GroupIsRun(s: System, states: seq<GroupState>, latest: seq<GroupState>, i: nat) returns (actions: seq<Action>)
    requires s.phase == Resync(StateNames(states), states, None) && |latest| == |states| && i < |states|
    requires IsLatest(s.node.db, s.own, states[i], latest[i])
    ensures Reaches(Midway(s, states, latest, i), actions, Midway(s, states, latest, i + 1))
  {
    var t := Midway(s, states, latest, i);
    var u := t.(phase := t.phase.(todo := states[i + 1..], job := Some(HaveState(states[i], false))));
    assert states[i..][1..] == states[i + 1..];
    OneStep(t, StartGroup);
    var rest := SyncOneIsRun(u, states[i], latest[i]);
    RunOn(t, [StartGroup], rest);
    actions := [StartGroup] + rest;
    QuietAllPrefix(s.node.db, s.own, s.mirror, states, latest, i);
  }

  lemma {:induction false} GroupsAreRun(s: System, states: seq<GroupState>, latest: seq<GroupState>, i: nat) returns (actions: seq<Action>)
    requires s.phase == Resync(StateNames(states), states, None) && |latest| == |states| && i <= |states|
    requires forall k :: 0 <= k < |states| ==> IsLatest(s.node.db, s.own, states[k], latest[k])
    ensures Reaches(s, actions, Midway(s, states, latest, i))
  {
    if i == 0 {
      actions := [];
      assert states[0..] == states;
    } else {
      var front := GroupsAreRun(s, states, latest, i - 1);
      var last := GroupIsRun(s, states, latest, i - 1);
      RunOn(s, front, last);
      actions := front + last;
    }
  }

  lemma {:induction false} DropsAreRun(s: System, stale: set<Name>) returns (actions: seq<Action>)
    requires s.phase.Resync? && s.phase.job.None? && s.phase.todo == []
    requires stale <= s.mirror.groups.Keys && stale !! s.phase.names
    ensures Reaches(s, actions, s.(mirror := s.mirror.(groups := s.mirror.groups - stale)))
    decreases |stale|
  {
    if stale == {} {
      actions := [];
      assert s.mirror.groups - stale == s.mirror.groups;
    } else {
      var g :| g in stale;
      OneStep(s, DropStale(g));
      var t := s.(mirror := DropGroup(s.mirror, g));
      var rest := DropsAreRun(t, stale - {g});
      RunOn(s, [DropStale(g)], rest);
      actions := [DropStale(g)] + rest;
      assert s.mirror.groups - {g} - (stale - {g}) == s.mirror.groups - stale;
    }
  }

  /** `FullResync` against a quiet node is a run of the protocol that ends live
      and idle, so what holds of every reachable state holds of its result. */
  lemma FullResyncIsRun(s: System, states: seq<GroupState>, latest: seq<GroupState>) returns (actions: seq<Action>)
    requires s.phase == Resync(StateNames(states), states, None) && |latest| == |states|
    requires forall k :: 0 <= k < |states| ==> IsLatest(s.node.db, s.own, states[k], latest[k])
    ensures Reaches(s, actions,
                    s.(mirror := Resynced(s.mirror, s.own, states, QuietAll(s.node.db, s.own, s.mirror, states, latest)),
                       phase := Live(None)))
  {
    actions := GroupsAreRun(s, states, latest, |states|);
    assert states[..|states|] == states && latest[..|latest|] == latest;
    var t := Midway(s, states, latest, |states|);
    var stale := t.mirror.groups.Keys - StateNames(states);
    var drops := DropsAreRun(t, stale);
    RunOn(s, actions, drops);
    var u := t.(mirror := t.mirror.(groups := t.mirror.groups - stale));
    ThenStep(s, actions + drops, u, FinishResync);
    actions := actions + drops + [FinishResync];
  }
}
