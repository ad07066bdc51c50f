/**
 The Kubernetes operator's reconcile, one API call at a time. A reconcile
 works from a cached copy of its custom resource, which may be out of date;
 it may stop after any call, because the call failed or the process died.
 */
module Operator {
  import opened Base
  import opened Encoding

  /** Rendered data: the sorted listing of a map from keys to values. */
  type Content = seq<(Bytes, Bytes)>

  /** A cluster Secret, and whether the custom resource is among its owners. */
  datatype Stored = Stored(data: Option<Content>, owned: bool)

  datatype Policy = DeleteOld | RetainOld

  /** What a reconcile reads from its copy of the custom resource. */
  datatype Cr = Cr(target: Name, policy: Policy, prior: Option<Name>)

  datatype Phase =
    | Idle
    | Got(cr: Cr, data: Content)
    | Placed(cr: Cr)
    | Found(cr: Cr, prev: Name)
    | Retired(cr: Cr)

  /** `applied` is where the last applied data went, and what it was. */
  datatype State = State(secrets: map<Name, Stored>, status: Option<Name>, phase: Phase, applied: Option<(Name, Content)>)

  datatype Call =
    | Start(cr: Cr, rendered: Option<Content>)
    | Place
    | Look
    | Retire
    | Report
    | Crash

  function ContentHash(hash: Hash, data: Content): Bytes {
    hash(ContentPreimage(data))
  }

  method FeedPair(fed: Bytes, p: (Bytes, Bytes)) returns (more: Bytes)
    ensures more == fed + PairBytes(p)
  {
    more := fed + LittleEndian(|p.0|, 8);
    more := more + p.0;
    more := more + LittleEndian(|p.1|, 8);
    more := more + p.1;
  }

  /** The hasher is fed key and value, each with its length, in key order. */
  method HashContent(hash: Hash, data: Content) returns (digest: Bytes)
    ensures digest == ContentHash(hash, data)
  {
    var fed: Bytes := [];
    for i := 0 to |data|
      invariant fed == ContentPreimage(data[..i])
    {
      ContentAppend(data[..i], data[i]);
      assert data[..i + 1] == data[..i] + [data[i]];
      fed := FeedPair(fed, data[i]);
    }
    assert data[..|data|] == data;
    digest := hash(fed);
  }

  lemma {:induction false} ContentAppend(pairs: Content, p: (Bytes, Bytes))
    ensures ContentPreimage(pairs + [p]) == ContentPreimage(pairs) + PairBytes(p)
  {
    if pairs == [] {
      assert pairs + [p] == [p] && [p][1..] == [];
    } else {
      assert (pairs + [p])[1..] == pairs[1..] + [p];
      ContentAppend(pairs[1..], p);
    }
  }

  predicate OwnedOrAbsent(secrets: map<Name, Stored>, n: Name) {
    n in secrets ==> secrets[n].owned
  }

  /** The stored content hashes like the rendered one, so the patch is skipped. */
  predicate Unchanged(hash: Hash, s: State, cr: Cr, data: Content) {
    Current(hash, s.secrets, cr.target, data)
  }

  /** The Secret is there with content that hashes like `data`. */
  predicate Current(hash: Hash, secrets: map<Name, Stored>, n: Name, data: Content) {
    n in secrets && secrets[n].data.Some? && ContentHash(hash, secrets[n].data.value) == ContentHash(hash, data)
  }

  predicate Enabled(s: State, c: Call) {
    match c
    case Start(_, _) => s.phase.Idle?
    case Place => s.phase.Got?
    case Look => s.phase.Placed?
    case Retire => s.phase.Found?
    case Report => s.phase.Retired?
    case Crash => true
  }

  function Step(hash: Hash, s: State, c: Call): State
    requires Enabled(s, c)
  {
    match c
    case Start(cr, rendered) =>
      // A failed render and a target owned by someone else only write a condition.
      if rendered.None? || !OwnedOrAbsent(s.secrets, cr.target) then s
      else s.(phase := Got(cr, rendered.value))
    case Place =>
      var cr, data := s.phase.cr, s.phase.data;
      var placed := if Unchanged(hash, s, cr, data) then s.secrets else s.secrets[cr.target := Stored(Some(data), true)];
      s.(secrets := placed, phase := Placed(cr), applied := Some((cr.target, data)))
    case Look =>
      var cr := s.phase.cr;
      if cr.prior.Some? && cr.prior.value != cr.target && cr.prior.value in s.secrets && s.secrets[cr.prior.value].owned
      then s.(phase := Found(cr, cr.prior.value))
      else s.(phase := Retired(cr))
    case Retire =>
      var cr, prev := s.phase.cr, s.phase.prev;
      var left :=
        if cr.policy.DeleteOld? then s.secrets - {prev}
        else if prev in s.secrets then s.secrets[prev := s.secrets[prev].(owned := false)]
        else s.secrets;
      s.(secrets := left, phase := Retired(cr))
    case Report => s.(status := Some(s.phase.cr.target), phase := Idle)
    case Crash => s.(phase := Idle)
  }

  // ---- runs ----

  ghost predicate Run(hash: Hash, states: seq<State>, calls: seq<Call>) {
    && |states| == |calls| + 1
    && forall i :: 0 <= i < |calls| ==> Enabled(states[i], calls[i]) && states[i + 1] == Step(hash, states[i], calls[i])
  }

  /** The data applied last sits, unaltered and owned, where it was applied;
      and the reconcile in progress only acts on Secrets the resource owns. */
  ghost predicate Inv(s: State) {
    && (s.applied.Some? ==>
          s.applied.value.0 in s.secrets && s.secrets[s.applied.value.0] == Stored(Some(s.applied.value.1), true))
    && match s.phase
       case Idle => true
       case Got(cr, _) => OwnedOrAbsent(s.secrets, cr.target)
       case Placed(cr) => s.applied.Some? && s.applied.value.0 == cr.target
       case Found(cr, prev) =>
         && s.applied.Some? && s.applied.value.0 == cr.target
         && prev != cr.target && prev in s.secrets && s.secrets[prev].owned
       case Retired(cr) => s.applied.Some? && s.applied.value.0 == cr.target
  }

  /** No two contents met by this step collide under the hash. */
  ghost predicate NoCollision(hash: Hash, s: State) {
    s.phase.Got? && Unchanged(hash, s, s.phase.cr, s.phase.data) ==>
      var stored := s.secrets[s.phase.cr.target].data.value;
      PairsFit(stored) && PairsFit(s.phase.data)
      && (hash(ContentPreimage(stored)) == hash(ContentPreimage(s.phase.data)) ==>
            ContentPreimage(stored) == ContentPreimage(s.phase.data))
  }

  lemma StepKeepsInv(hash: Hash, s: State, c: Call)
    requires Inv(s) && Enabled(s, c) && NoCollision(hash, s)
    ensures Inv(Step(hash, s, c))
  {
    if c.Place? && Unchanged(hash, s, s.phase.cr, s.phase.data) {
      ContentPreimageInjective(s.secrets[s.phase.cr.target].data.value, s.phase.data);
    }
  }

  /** A Secret the resource does not own is neither written nor deleted. */
  lemma StepLeavesForeign(hash: Hash, s: State, c: Call, n: Name)
    requires Inv(s) && Enabled(s, c)
    requires n in s.secrets && !s.secrets[n].owned
    ensures n in Step(hash, s, c).secrets && Step(hash, s, c).secrets[n] == s.secrets[n]
  {
  }

  /** Crash-safe rename: over every run of reconciles, whatever copies of the
      resource they work from, whatever they render and wherever they stop,
      once data has been applied some Secret carries the data applied last. */
  lemma {:induction false} AppliedDataSurvives(hash: Hash, states: seq<State>, calls: seq<Call>, i: nat)
    requires Run(hash, states, calls) && i < |states|
    requires Inv(states[0]) && forall k :: 0 <= k < |calls| ==> NoCollision(hash, states[k])
    ensures Inv(states[i])
    ensures states[i].applied.Some? ==>
              exists n :: n in states[i].secrets && states[i].secrets[n].owned
                          && states[i].secrets[n].data == Some(states[i].applied.value.1)
  {
    if i > 0 {
      AppliedDataSurvives(hash, states, calls, i - 1);
      StepKeepsInv(hash, states[i - 1], calls[i - 1]);
    }
    if states[i].applied.Some? {
      assert states[i].applied.value.0 in states[i].secrets;
    }
  }

  /** From the moment a Secret is not owned it stays as it is. */
  lemma {:induction false} ForeignUntouched(hash: Hash, states: seq<State>, calls: seq<Call>, i: nat, j: nat, n: Name)
    requires Run(hash, states, calls) && i <= j < |states|
    requires Inv(states[0]) && forall k :: 0 <= k < |calls| ==> NoCollision(hash, states[k])
    requires n in states[i].secrets && !states[i].secrets[n].owned
    ensures n in states[j].secrets && states[j].secrets[n] == states[i].secrets[n]
    decreases j - i
  {
    if i < j {
      AppliedDataSurvives(hash, states, calls, i);
      StepLeavesForeign(hash, states[i], calls[i], n);
      ForeignUntouched(hash, states, calls, i + 1, j, n);
    }
  }

  // ---- the reconcile as code ----

  /** These calls lead from `s` to `t`. */
  ghost predicate Leads(hash: Hash, s: State, calls: seq<Call>, t: State)
    decreases |calls|
  {
    if calls == [] then s == t
    else
      var front, last := calls[..|calls| - 1], calls[|calls| - 1];
      exists m :: Leads(hash, s, front, m) && Enabled(m, last) && t == Step(hash, m, last)
  }

  lemma LeadsOn(hash: Hash, s: State, calls: seq<Call>, t: State, c: Call)
    requires Leads(hash, s, calls, t) && Enabled(t, c)
    ensures Leads(hash, s, calls + [c], Step(hash, t, c))
  {
    assert (calls + [c])[..|calls|] == calls;
  }

  /** The API calls a reconcile makes when nothing stops it: it reads the target,
      writes it unless the content hashes alike, reads a previous target and
      retires it if owned, and writes the status. */
  function CallsNeeded(hash: Hash, secrets: map<Name, Stored>, cr: Cr, data: Content): (n: nat)
    ensures 2 <= n <= 5
  {
    2 + (if Current(hash, secrets, cr.target, data) then 0 else 1)
      + RetireCalls(secrets, cr)
  }

  function RetireCalls(secrets: map<Name, Stored>, cr: Cr): nat {
    if !Renamed(cr) then 0 else if cr.prior.value in secrets && secrets[cr.prior.value].owned then 2 else 1
  }

  predicate Renamed(cr: Cr) {
    cr.prior.Some? && cr.prior.value != cr.target
  }

  /** An owned previous target is gone, or kept with its data and given up. */
  ghost predicate PriorRetired(before: map<Name, Stored>, after: map<Name, Stored>, cr: Cr) {
    Renamed(cr) && cr.prior.value in before ==>
      var prev := cr.prior.value;
      if !before[prev].owned then prev in after && after[prev] == before[prev]
      else if cr.policy.DeleteOld? then prev !in after
      else prev in after && after[prev] == before[prev].(owned := false)
  }

  /** Secrets other than the target and the previous target are as they were. */
  ghost predicate OthersSame(before: map<Name, Stored>, after: map<Name, Stored>, cr: Cr) {
    forall n :: n != cr.target && Some(n) != cr.prior ==> (n in after <==> n in before) && (n in after ==> after[n] == before[n])
  }

  class Controller {
    const hash: Hash
    var secrets: map<Name, Stored>
    var status: Option<Name>
    ghost var applied: Option<(Name, Content)>

    /** The cluster between two reconciles. */
    ghost function Now(): State
      reads this
    {
      State(secrets, status, Idle, applied)
    }

    constructor (hash: Hash, secrets: map<Name, Stored>)
      ensures Now() == State(secrets, None, Idle, None) && this.hash == hash
    {
      this.hash, this.secrets := hash, secrets;
      status, applied := None, None;
    }

    /** Retires the previous target of a rename, if the resource owns it. */
    method CleanupTarget(cr: Cr, budget: nat, ghost start: State, ghost before: seq<Call>)
      returns (ok: bool, left: nat, ghost calls: seq<Call>)
      requires Leads(hash, start, before, State(secrets, status, Placed(cr), applied))
      modifies this`secrets
      ensures Leads(hash, start, calls, State(secrets, status, if ok then Retired(cr) else Idle, applied))
      ensures ok <==> budget >= RetireCalls(old(secrets), cr)
      ensures ok ==> left == budget - RetireCalls(old(secrets), cr) && PriorRetired(old(secrets), secrets, cr)
      ensures !ok ==> secrets == old(secrets)
      ensures OthersSame(old(secrets), secrets, cr)
      ensures (cr.target in secrets <==> cr.target in old(secrets)) && (cr.target in secrets ==> secrets[cr.target] == old(secrets)[cr.target])
    {
      ghost var s := State(secrets, status, Placed(cr), applied);
      calls, left := before, budget;
      var renamed := cr.prior.Some? && cr.prior.value != cr.target;
      if renamed {
        if left == 0 {
          LeadsOn(hash, start, calls, s, Crash);
          calls := calls + [Crash];
          return false, 0, calls;
        }
        left := left - 1;
      }
      LeadsOn(hash, start, calls, s, Look);
      calls, s := calls + [Look], Step(hash, s, Look);
      if renamed && cr.prior.value in secrets && secrets[cr.prior.value].owned {
        if left == 0 {
          LeadsOn(hash, start, calls, s, Crash);
          calls := calls + [Crash];
          return false, 0, calls;
        }
        left := left - 1;
        LeadsOn(hash, start, calls, s, Retire);
        calls := calls + [Retire];
        var prev := cr.prior.value;
        if cr.policy.DeleteOld? {
          secrets := secrets - {prev};
        } else {
          secrets := secrets[prev := secrets[prev].(owned := false)];
        }
      }
      ok := true;
    }

    /** Reconciles once, stopping early when `budget` API calls have been
        made. What it did is a run of the machine above. */
    method Apply(cr: Cr, rendered: Option<Content>, budget: nat) returns (done: bool, ghost calls: seq<Call>)
      modifies this
      ensures Leads(hash, old(Now()), calls, Now())
      ensures done <==> rendered.Some? && OwnedOrAbsent(old(secrets), cr.target)
                        && budget >= CallsNeeded(hash, old(secrets), cr, rendered.value)
      ensures done ==> status == Some(cr.target) && applied == Some((cr.target, rendered.value))
      ensures done ==> Current(hash, secrets, cr.target, rendered.value) && secrets[cr.target].owned
      ensures done ==> PriorRetired(old(secrets), secrets, cr)
      ensures rendered.None? || !OwnedOrAbsent(old(secrets), cr.target) ==> secrets == old(secrets) && status == old(status)
      ensures OthersSame(old(secrets), secrets, cr)
    {
      ghost var start := Now();
      ghost var s := start;
      calls := [];
      done := false;
      if rendered.None? || budget == 0 {
        return;
      }
      var left := budget - 1;
      LeadsOn(hash, start, calls, s, Start(cr, rendered));
      calls, s := calls + [Start(cr, rendered)], Step(hash, s, Start(cr, rendered));
      if cr.target in secrets && !secrets[cr.target].owned {
        return;
      }
      var skip := false;
      if cr.target in secrets && secrets[cr.target].data.Some? {
        var there := HashContent(hash, secrets[cr.target].data.value);
        var desired := HashContent(hash, rendered.value);
        skip := there == desired;
      }
      if !skip && left == 0 {
        LeadsOn(hash, start, calls, s, Crash);
        calls := calls + [Crash];
        return;
      }
      if !skip {
        left := left - 1;
        secrets := secrets[cr.target := Stored(Some(rendered.value), true)];
      }
      applied := Some((cr.target, rendered.value));
      LeadsOn(hash, start, calls, s, Place);
      calls, s := calls + [Place], Step(hash, s, Place);
      assert RetireCalls(secrets, cr) == RetireCalls(old(secrets), cr);
      var ok;
      ok, left, calls := CleanupTarget(cr, left, start, calls);
      if !ok {
        return;
      }
      s := State(secrets, status, Retired(cr), applied);
      if left == 0 {
        LeadsOn(hash, start, calls, s, Crash);
        calls := calls + [Crash];
        return;
      }
      status := Some(cr.target);
      LeadsOn(hash, start, calls, s, Report);
      calls := calls + [Report];
      done := true;
    }
  }
}
