/**
 The sync protocol between the authoritative node and one replica, as a
 state machine. A mutation and its announcement are one step, because the
 node sends events while it still holds the store lock; every other lock
 acquisition of the two sides is a step of its own, so they interleave
 freely.
 */
module Protocol {
  import opened Base
  import opened Crypto
  import opened Tables
  import opened Requests
  import opened Mirror

  // ---- state ----

  const CHANNEL_CAPACITY := 1024

  /** A session's receiver on the event channel. `lagged` marks that events
      were dropped and the receiver has not been told yet. */
  datatype Channel = Channel(queue: seq<Name>, lagged: bool)

  /** The server's side of one Hello stream. */
  datatype Server =
    | Idle
    | Subscribed(ch: Channel)
    | Manifest(ch: Channel, cached: set<Name>, todo: seq<Name>)
    | Pushing(ch: Channel, cached: set<Name>, batch: set<Name>, lagged: bool)

  datatype Push = Changed(group: Name) | ScopeChanged

  /** The unread part of the session stream: manifest groups, then the end of
      the manifest, then pushes. */
  datatype Wire = Wire(groups: seq<GroupState>, done: bool, pushes: seq<Push>)

  const QUIET := Wire([], false, [])

  /** Where the replica is in converging one group. `again` marks the single
      re-fetch after rows had to be withheld. */
  datatype Job =
    | FetchGroup(group: Name, again: bool)
    | HaveState(st: GroupState, again: bool)
    | FetchSecrets(st: GroupState, names: seq<Name>, got: seq<Fetched>, again: bool)

  datatype Phase =
    | Offline
    | Reading(stash: seq<GroupState>)
    | Resync(names: set<Name>, todo: seq<GroupState>, job: Option<Job>)
    | Live(job: Option<Job>)

  datatype System = System(own: Endpoint, node: Node, server: Server, wire: Wire, mirror: Db, phase: Phase)

  datatype Action =
    | Upstream(remote: Endpoint, req: Request, events: seq<Name>)
    | Connect
    | Subscribe
    | ReadScope(scope: seq<Name>)
    | SendGroup(st: GroupState)
    | SendDone
    | Receive
    | Emit(order: seq<Name>)
    | ReadGroup
    | ReadDone
    | StartGroup
    | DropStale(group: Name)
    | FinishResync
    | ReadPush
    | GetGroup(st: GroupState)
    | Diff
    | GetSecret
    | Apply
    | Disconnect
    | Maintain(db: Db)

  // ---- helpers ----

  /** Sending to a full channel drops its oldest event. */
  function Send(ch: Channel, g: Name): Channel {
    if |ch.queue| >= CHANNEL_CAPACITY then Channel(ch.queue[1..] + [g], true)
    else ch.(queue := ch.queue + [g])
  }

  function SendAll(ch: Channel, events: seq<Name>): Channel {
    if events == [] then ch else Send(SendAll(ch, events[..|events| - 1]), events[|events| - 1])
  }

  function Announce(server: Server, events: seq<Name>): Server {
    if server.Idle? then server else server.(ch := SendAll(server.ch, events))
  }

  /** The groups an endpoint may mirror: explicit read, no service-admin bypass. */
  function Scope(db: Db, e: Endpoint): set<Name> {
    set g | g in db.groups && HasRead(db.groups[g], e)
  }

  function ViewIn(db: Db, g: Name, own: Endpoint): GroupView
    requires g in db.groups
  {
    ViewOf(db, db.groups[g], own)
  }

  function JobName(job: Job): Name {
    if job.FetchGroup? then job.group else job.st.name
  }

  predicate Working(s: System) {
    (s.phase.Resync? || s.phase.Live?) && s.phase.job.Some?
  }

  function WithJob(s: System, job: Option<Job>): System
    requires s.phase.Resync? || s.phase.Live?
  {
    s.(phase := s.phase.(job := job))
  }

  function EndSession(s: System): System {
    s.(server := Idle, wire := QUIET, phase := Offline)
  }

  function ChangedAll(order: seq<Name>): seq<Push> {
    seq(|order|, i requires 0 <= i < |order| => Changed(order[i]))
  }

  /** The row a secret fetch ships, if the secret still exists. */
  function RowUpstream(db: Db, g: Name, n: Name): Option<Current> {
    if g in db.groups then CurrentOf(db.groups[g], n) else None
  }

  function UpRows(db: Db, g: Name): map<Name, Current> {
    if g in db.groups then CurrentRows(db.groups[g]) else map[]
  }

  // ---- steps ----

  ghost predicate Enabled(s: System, a: Action) {
    match a
    case Upstream(remote, req, events) => Elements(events) == Published(s.node, remote, req)
    case Connect => s.phase.Offline?
    case Subscribe => s.phase.Reading? && s.server.Idle?
    case ReadScope(scope) => s.server.Subscribed? && Elements(scope) == Scope(s.node.db, s.own)
    case SendGroup(st) =>
      && s.server.Manifest? && s.server.todo != [] && st.name == s.server.todo[0]
      && st.name in s.node.db.groups && Snapshot(st, ViewIn(s.node.db, st.name, s.own))
    case SendDone => s.server.Manifest? && s.server.todo == []
    case Receive => s.server.Pushing? && (s.server.ch.lagged || s.server.ch.queue != [])
    case Emit(order) =>
      && s.server.Pushing? && (s.server.batch != {} || s.server.lagged)
      && Elements(order) == s.server.batch * s.server.cached
    case ReadGroup => s.phase.Reading? && s.wire.groups != []
    case ReadDone => s.phase.Reading? && s.wire.groups == [] && s.wire.done
    case StartGroup => s.phase.Resync? && s.phase.job.None? && s.phase.todo != []
    case DropStale(g) =>
      s.phase.Resync? && s.phase.job.None? && s.phase.todo == [] && g in s.mirror.groups && g !in s.phase.names
    case FinishResync =>
      s.phase.Resync? && s.phase.job.None? && s.phase.todo == [] && s.mirror.groups.Keys <= s.phase.names
    case ReadPush => s.phase.Live? && s.phase.job.None? && s.wire.pushes != []
    case GetGroup(st) =>
      && Working(s) && s.phase.job.value.FetchGroup? && st.name == s.phase.job.value.group
      && (InScope(s.node.db, st.name, s.own) ==> Snapshot(st, ViewIn(s.node.db, st.name, s.own)))
    case Diff => Working(s) && s.phase.job.value.HaveState?
    case GetSecret => Working(s) && s.phase.job.value.FetchSecrets? && s.phase.job.value.names != []
    case Apply => Working(s) && s.phase.job.value.FetchSecrets? && s.phase.job.value.names == []
    case Disconnect => true
    case Maintain(db) => DbInv(db, s.node.tick + 1) && forall g :: UpRows(db, g) == UpRows(s.node.db, g)
  }

  ghost function Do(s: System, a: Action): System
    requires Enabled(s, a)
  {
    match a
    case Upstream(remote, req, events) =>
      s.(node := After(s.node, remote, req), server := Announce(s.server, events))
    case Connect => s.(phase := Reading([]))
    case Subscribe => s.(server := Subscribed(Channel([], false)))
    case ReadScope(scope) =>
      if s.own in s.node.db.ids then s.(server := Manifest(s.server.ch, Scope(s.node.db, s.own), scope))
      else EndSession(s)
    case SendGroup(st) =>
      s.(server := s.server.(todo := s.server.todo[1..]), wire := s.wire.(groups := s.wire.groups + [st]))
    case SendDone =>
      s.(server := Pushing(s.server.ch, s.server.cached, {}, false), wire := s.wire.(done := true))
    case Receive =>
      s.(server := if s.server.ch.lagged
                   then s.server.(ch := s.server.ch.(lagged := false), lagged := true)
                   else s.server.(ch := s.server.ch.(queue := s.server.ch.queue[1..]),
                                  batch := s.server.batch + {s.server.ch.queue[0]}))
    case Emit(order) => DoEmit(s, order)
    case ReadGroup =>
      s.(wire := s.wire.(groups := s.wire.groups[1..]), phase := Reading(s.phase.stash + [s.wire.groups[0]]))
    case ReadDone =>
      s.(wire := s.wire.(done := false), phase := Resync(StateNames(s.phase.stash), s.phase.stash, None))
    case StartGroup =>
      s.(phase := s.phase.(todo := s.phase.todo[1..], job := Some(HaveState(s.phase.todo[0], false))))
    case DropStale(g) => s.(mirror := DropGroup(s.mirror, g))
    case FinishResync => s.(mirror := SweepIdentities(s.mirror), phase := Live(None))
    case ReadPush =>
      (match s.wire.pushes[0]
       case Changed(g) => WithJob(s.(wire := s.wire.(pushes := s.wire.pushes[1..])), Some(FetchGroup(g, false)))
       case ScopeChanged => s.(server := Idle, wire := QUIET, phase := Reading([])))
    case GetGroup(st) =>
      if InScope(s.node.db, st.name, s.own) then WithJob(s, Some(HaveState(st, s.phase.job.value.again)))
      else WithJob(s.(mirror := DropAndSweep(s.mirror, st.name)), None)
    case Diff => DoDiff(s)
    case GetSecret => DoGetSecret(s)
    case Apply => DoApply(s)
    case Disconnect => EndSession(s)
    // Offline maintenance runs with the service stopped, so it ends the session.
    case Maintain(db) => EndSession(s.(node := Node(db, s.node.tick + 1)))
  }

  /** After the debounce: if the scope moved or events were lost the whole
      manifest is stale, else each touched group of the scope is named. */
  ghost function DoEmit(s: System, order: seq<Name>): System
    requires s.server.Pushing?
  {
    var scope := Scope(s.node.db, s.own);
    if s.server.lagged || scope != s.server.cached then
      s.(server := Pushing(s.server.ch, scope, {}, false), wire := s.wire.(pushes := s.wire.pushes + [ScopeChanged]))
    else
      s.(server := s.server.(batch := {}), wire := s.wire.(pushes := s.wire.pushes + ChangedAll(order)))
  }

  /** Compares the state with the mirror; asks for what differs, if anything. */
  ghost function DoDiff(s: System): System
    requires Working(s) && s.phase.job.value.HaveState?
  {
    var job := s.phase.job.value;
    var needed := NeedFetch(LocalGroup(s.mirror, job.st.name), job.st.secrets);
    if needed == [] || InScope(s.node.db, job.st.name, s.own)
    then WithJob(s, Some(FetchSecrets(job.st, needed, [], job.again)))
    else WithJob(s.(mirror := DropAndSweep(s.mirror, job.st.name)), None)
  }

  /** One secret of the fetch list; a name that vanished is skipped. */
  ghost function DoGetSecret(s: System): System
    requires Working(s) && s.phase.job.value.FetchSecrets? && s.phase.job.value.names != []
  {
    var job := s.phase.job.value;
    var row := RowUpstream(s.node.db, job.st.name, job.names[0]);
    WithJob(s, Some(job.(names := job.names[1..],
                         got := job.got + if row.Some? then [Fetched(job.names[0], row.value)] else [])))
  }

  /** Withholds undecryptable rows, applies the rest in one transaction, and
      re-fetches the group once if anything was withheld. */
  ghost function DoApply(s: System): System
    requires Working(s) && s.phase.job.value.FetchSecrets?
  {
    var job := s.phase.job.value;
    var kept := Decryptable(job.got, job.st.deks);
    WithJob(s.(mirror := ApplySync(s.mirror, s.own, job.st, kept)),
            if |kept| != |job.got| && !job.again then Some(FetchGroup(job.st.name, true)) else None)
  }

  // ---- agreement and triggers ----

  /** The mirror agrees with upstream about `g`. */
  ghost predicate Agrees(s: System, g: Name) {
    if InScope(s.node.db, g, s.own)
    then g in s.mirror.groups && ViewIn(s.mirror, g, s.own) == ViewIn(s.node.db, g, s.own)
    else g !in s.mirror.groups
  }

  /** The server has yet to look at an event for `g`, or has declared the
      whole session stale. */
  ghost predicate Unseen(s: System, g: Name) {
    || (!s.server.Idle? && (g in s.server.ch.queue || s.server.ch.lagged))
    || (s.server.Pushing? && (g in s.server.batch || s.server.lagged))
    || ScopeChanged in s.wire.pushes
  }

  ghost predicate Pending(s: System, g: Name) {
    Unseen(s, g) || Changed(g) in s.wire.pushes
  }

  /** Something that will make the replica look at `g` again is outstanding. */
  ghost predicate Triggered(s: System, g: Name) {
    match s.phase
    case Offline => true
    case Reading(_) => true
    case Resync(names, todo, job) =>
      || Pending(s, g)
      || g in StateNames(todo)
      || (job.Some? && JobName(job.value) == g)
      || (g in s.mirror.groups && g !in names)
    case Live(job) => Pending(s, g) || (job.Some? && JobName(job.value) == g)
  }

  /** Nothing is under way: the replica has read everything the server sent
      and the server has seen every event. */
  ghost predicate Settled(s: System) {
    && s.phase == Live(None) && s.wire.pushes == []
    && s.server.Pushing? && s.server.ch == Channel([], false) && s.server.batch == {} && !s.server.lagged
  }
}
