/** The manifest on the wire: how snapshots are cut into messages, and how
    a replica assembles the messages it reads back into group states. */
module Manifest {
  import opened Base
  import opened Tables
  import opened Mirror
  import opened Framing

  datatype SyncMessage =
    | SyncDenied
    | GroupMsg(name: Name, acl: seq<AclEntry>, deks: seq<DekEntry>)
    | GroupSecrets(group: Name, secrets: seq<SecretEntry>)
    | ManifestDone
    | FetchDone
    | ChangedMsg(group: Name)
    | ScopeChangedMsg
    | SecretData(secret: Fetched)

  type Encode = SyncMessage -> Bytes
  type Decode = Bytes -> Option<SyncMessage>

  const SYNC_SECRETS_CHUNK := 1000

  // ---- sending ----

  /** The listing in chunks; an empty listing is one empty chunk. */
  function Listing(group: Name, secrets: seq<SecretEntry>, chunk: nat): (l: seq<SyncMessage>)
    requires chunk > 0
    ensures l != []
    decreases |secrets|
  {
    if |secrets| <= chunk then [GroupSecrets(group, secrets)]
    else [GroupSecrets(group, secrets[..chunk])] + Listing(group, secrets[chunk..], chunk)
  }

  function SnapshotMessages(st: GroupState, chunk: nat): seq<SyncMessage>
    requires chunk > 0
  {
    [GroupMsg(st.name, st.acl, st.deks)] + Listing(st.name, st.secrets, chunk)
  }

  function GroupMessages(snaps: seq<GroupState>, chunk: nat): seq<SyncMessage>
    requires chunk > 0
  {
    if snaps == [] then [] else SnapshotMessages(snaps[0], chunk) + GroupMessages(snaps[1..], chunk)
  }

  lemma {:induction false} GroupMessagesAppend(snaps: seq<GroupState>, st: GroupState, chunk: nat)
    requires chunk > 0
    ensures GroupMessages(snaps + [st], chunk) == GroupMessages(snaps, chunk) + SnapshotMessages(st, chunk)
  {
    if snaps == [] {
      assert snaps + [st] == [st];
    } else {
      assert (snaps + [st])[1..] == snaps[1..] + [st];
      GroupMessagesAppend(snaps[1..], st, chunk);
    }
  }

  /** Writes one more message after those already written. */
  method WriteNext(send: Sender<SyncMessage>, msg: SyncMessage, ghost start: Bytes, ghost sent: seq<SyncMessage>)
    returns (ok: bool)
    requires send.bytes == start + Frames(send.encode, sent)
    modifies send`bytes
    ensures ok <==> Fits(send.encode, msg)
    ensures ok ==> send.bytes == start + Frames(send.encode, sent + [msg])
  {
    ok := send.Write(msg);
    FramesAppend(send.encode, sent, [msg]);
  }

  method SendSnapshot(send: Sender<SyncMessage>, st: GroupState, chunk: nat) returns (ok: bool)
    requires chunk > 0
    modifies send`bytes
    ensures ok <==> AllFit(send.encode, SnapshotMessages(st, chunk))
    ensures ok ==> send.bytes == old(send.bytes) + Frames(send.encode, SnapshotMessages(st, chunk))
  {
    ghost var start, all := send.bytes, SnapshotMessages(st, chunk);
    var msg := GroupMsg(st.name, st.acl, st.deks);
    ok := WriteNext(send, msg, start, []);
    if !ok {
      assert all[0] == msg;
      return;
    }
    ghost var sent := [msg];
    assert [] + [msg] == sent;
    var left := st.secrets;
    var more := true;
    while more
      invariant send.bytes == start + Frames(send.encode, sent)
      invariant AllFit(send.encode, sent)
      invariant all == if more then sent + Listing(st.name, left, chunk) else sent
      decreases more, |left|
    {
      var cut := if chunk < |left| then chunk else |left|;
      msg := GroupSecrets(st.name, left[..cut]);
      ChunkStep(sent, st.name, left, chunk);
      ok := WriteNext(send, msg, start, sent);
      if !ok {
        assert all[|sent|] == msg;
        return;
      }
      sent := sent + [msg];
      left := left[cut..];
      more := left != [];
    }
    ok := true;
  }

  lemma ChunkStep(sent: seq<SyncMessage>, group: Name, left: seq<SecretEntry>, chunk: nat)
    requires chunk > 0
    ensures |left| <= chunk ==> sent + Listing(group, left, chunk) == sent + [GroupSecrets(group, left[..|left|])]
    ensures |left| > chunk ==>
      sent + Listing(group, left, chunk) == sent + [GroupSecrets(group, left[..chunk])] + Listing(group, left[chunk..], chunk)
  {
    assert left[..|left|] == left;
  }

  method SendManifest(send: Sender<SyncMessage>, snaps: seq<GroupState>) returns (ok: bool)
    modifies send`bytes
    ensures ok <==> AllFit(send.encode, GroupMessages(snaps, SYNC_SECRETS_CHUNK) + [ManifestDone])
    ensures ok ==> send.bytes == old(send.bytes) + Frames(send.encode, GroupMessages(snaps, SYNC_SECRETS_CHUNK) + [ManifestDone])
  {
    ghost var start := send.bytes;
    ghost var all := GroupMessages(snaps, SYNC_SECRETS_CHUNK);
    for i := 0 to |snaps|
      invariant send.bytes == start + Frames(send.encode, GroupMessages(snaps[..i], SYNC_SECRETS_CHUNK))
      invariant AllFit(send.encode, GroupMessages(snaps[..i], SYNC_SECRETS_CHUNK))
    {
      ghost var before := GroupMessages(snaps[..i], SYNC_SECRETS_CHUNK);
      ghost var these := SnapshotMessages(snaps[i], SYNC_SECRETS_CHUNK);
      GroupMessagesAppend(snaps[..i], snaps[i], SYNC_SECRETS_CHUNK);
      FramesAppend(send.encode, before, these);
      assert snaps[..i + 1] == snaps[..i] + [snaps[i]];
      ok := SendSnapshot(send, snaps[i], SYNC_SECRETS_CHUNK);
      if !ok {
        PartOf(send.encode, snaps, i, SYNC_SECRETS_CHUNK);
        return;
      }
    }
    assert snaps[..|snaps|] == snaps;
    ok := WriteNext(send, ManifestDone, start, all);
    assert (all + [ManifestDone])[|all|] == ManifestDone;
  }

  lemma PartOf(encode: Encode, snaps: seq<GroupState>, i: nat, chunk: nat)
    requires chunk > 0 && i < |snaps| && !AllFit(encode, SnapshotMessages(snaps[i], chunk))
    ensures !AllFit(encode, GroupMessages(snaps, chunk) + [ManifestDone])
  {
    AllFitPart(encode, snaps, i, chunk);
    var all := GroupMessages(snaps, chunk);
    var k :| 0 <= k < |all| && !Fits(encode, all[k]);
    assert (all + [ManifestDone])[k] == all[k];
  }

  lemma {:induction false} AllFitPart(encode: Encode, snaps: seq<GroupState>, i: nat, chunk: nat)
    requires chunk > 0 && i < |snaps| && !AllFit(encode, SnapshotMessages(snaps[i], chunk))
    ensures !AllFit(encode, GroupMessages(snaps, chunk))
  {
    var first, rest := SnapshotMessages(snaps[0], chunk), GroupMessages(snaps[1..], chunk);
    if i == 0 {
      var k :| 0 <= k < |first| && !Fits(encode, first[k]);
      assert (first + rest)[k] == first[k];
    } else {
      AllFitPart(encode, snaps[1..], i - 1, chunk);
      var k :| 0 <= k < |rest| && !Fits(encode, rest[k]);
      assert (first + rest)[|first| + k] == rest[k];
    }
  }

  // ---- assembling ----

  /** The position of the first state with this name, or the length. */
  function Find(stash: seq<GroupState>, name: Name): (i: nat)
    ensures i <= |stash|
    ensures i < |stash| ==> stash[i].name == name
    ensures forall k :: 0 <= k < i ==> stash[k].name != name
  {
    if stash == [] then 0
    else if stash[0].name == name then 0
    else 1 + Find(stash[1..], name)
  }

  function Merge(stash: seq<GroupState>, msg: SyncMessage): seq<GroupState> {
    match msg
    case GroupMsg(name, acl, deks) =>
      var i := Find(stash, name);
      if i < |stash| then stash[i := stash[i].(acl := stash[i].acl + acl, deks := stash[i].deks + deks)]
      else stash + [GroupState(name, acl, deks, [])]
    case GroupSecrets(group, secrets) =>
      var i := Find(stash, group);
      if i < |stash| then stash[i := stash[i].(secrets := stash[i].secrets + secrets)]
      else stash + [GroupState(group, [], [], secrets)]
    case _ => stash
  }

  function MergeAll(stash: seq<GroupState>, msgs: seq<SyncMessage>): seq<GroupState>
    decreases |msgs|
  {
    if msgs == [] then stash else MergeAll(Merge(stash, msgs[0]), msgs[1..])
  }

  datatype Received = Stash(groups: seq<GroupState>) | Denied | Unexpected | Ended | BadFrame

  /** What reading a manifest from the remaining bytes of the stream gives. */
  function ReadManifest(decode: Decode, bytes: Bytes, stash: seq<GroupState>, helloOk: bool): Received
    decreases |bytes|
  {
    if bytes == [] then Ended
    else
      match Deframe(decode, bytes)
      case Ok(msg, n) =>
        (match msg
         case SyncDenied => if helloOk then Unexpected else Denied
         case ManifestDone => Stash(stash)
         case GroupMsg(_, _, _) => ReadManifest(decode, bytes[n..], Merge(stash, msg), true)
         case GroupSecrets(_, _) => ReadManifest(decode, bytes[n..], Merge(stash, msg), true)
         case _ => Unexpected)
      case _ => BadFrame
  }

  /** Adds one message to the entry of its group, or starts a new entry. */
  method MergeInto(stash: seq<GroupState>, msg: SyncMessage) returns (merged: seq<GroupState>)
    ensures merged == Merge(stash, msg)
  {
    merged := stash;
    match msg {
      case GroupMsg(name, acl, deks) =>
        var i := Find(stash, name);
        if i < |stash| {
          merged := merged[i := merged[i].(acl := merged[i].acl + acl)];
          merged := merged[i := merged[i].(deks := merged[i].deks + deks)];
        } else {
          merged := merged + [GroupState(name, acl, deks, [])];
        }
      case GroupSecrets(group, secrets) =>
        var i := Find(stash, group);
        if i < |stash| {
          merged := merged[i := merged[i].(secrets := merged[i].secrets + secrets)];
        } else {
          merged := merged + [GroupState(group, [], [], secrets)];
        }
      case _ =>
    }
  }

  /** Reads one message: either the phase ends, or `n` bytes are consumed. */
  method ReadNext(decode: Decode, bytes: Bytes, stash: seq<GroupState>, helloOk: bool)
    returns (end: Option<Received>, merged: seq<GroupState>, n: nat)
    requires bytes != []
    ensures end.Some? ==> end.value == ReadManifest(decode, bytes, stash, helloOk)
    ensures end.None? ==> 0 < n <= |bytes|
    ensures end.None? ==> ReadManifest(decode, bytes, stash, helloOk) == ReadManifest(decode, bytes[n..], merged, true)
  {
    merged, n := stash, 0;
    var next := Deframe(decode, bytes);
    if !next.Ok? {
      return Some(BadFrame), merged, n;
    }
    n := next.consumed;
    if !helloOk && next.msg.SyncDenied? {
      return Some(Denied), merged, n;
    }
    match next.msg {
      case GroupMsg(_, _, _) =>
        merged := MergeInto(stash, next.msg);
        end := None;
      case GroupSecrets(_, _) =>
        merged := MergeInto(stash, next.msg);
        end := None;
      case ManifestDone =>
        end := Some(Stash(stash));
      case _ =>
        end := Some(Unexpected);
    }
  }

  method ReceiveManifest(decode: Decode, bytes: Bytes) returns (r: Received)
    ensures r == ReadManifest(decode, bytes, [], false)
  {
    var left := bytes;
    var stash: seq<GroupState> := [];
    var helloOk := false;
    while left != []
      invariant ReadManifest(decode, bytes, [], false) == ReadManifest(decode, left, stash, helloOk)
      decreases |left|
    {
      var end, merged, n := ReadNext(decode, left, stash, helloOk);
      if end.Some? {
        return end.value;
      }
      stash, helloOk, left := merged, true, left[n..];
    }
    r := Ended;
  }

  // ---- round trip ----

  ghost predicate DistinctNames(snaps: seq<GroupState>) {
    forall i, j :: 0 <= i < j < |snaps| ==> snaps[i].name != snaps[j].name
  }

  ghost predicate Fresh(stash: seq<GroupState>, name: Name) {
    forall i :: 0 <= i < |stash| ==> stash[i].name != name
  }

  ghost predicate Payload(msgs: seq<SyncMessage>) {
    forall i :: 0 <= i < |msgs| ==> msgs[i].GroupMsg? || msgs[i].GroupSecrets?
  }

  lemma {:induction false} MergeAllAppend(stash: seq<GroupState>, a: seq<SyncMessage>, b: seq<SyncMessage>)
    ensures MergeAll(stash, a + b) == MergeAll(MergeAll(stash, a), b)
    decreases |a|
  {
    if a == [] {
      assert a + b == b;
    } else {
      assert (a + b)[1..] == a[1..] + b;
      MergeAllAppend(Merge(stash, a[0]), a[1..], b);
    }
  }

  lemma {:induction false} MergeListing(stash: seq<GroupState>, st: GroupState, secrets: seq<SecretEntry>, chunk: nat)
    requires chunk > 0 && Fresh(stash, st.name)
    ensures MergeAll(stash + [st], Listing(st.name, secrets, chunk)) == stash + [st.(secrets := st.secrets + secrets)]
    decreases |secrets|
  {
    var first := if |secrets| <= chunk then secrets else secrets[..chunk];
    var merged := st.(secrets := st.secrets + first);
    assert (stash + [st])[|stash|] == st;
    assert Find(stash + [st], st.name) == |stash|;
    assert Merge(stash + [st], GroupSecrets(st.name, first)) == stash + [merged];
    if |secrets| > chunk {
      MergeListing(stash, merged, secrets[chunk..], chunk);
      assert merged.secrets + secrets[chunk..] == st.secrets + secrets;
      var tail := Listing(st.name, secrets[chunk..], chunk);
      assert ([GroupSecrets(st.name, first)] + tail)[1..] == tail;
    }
  }

  lemma MergeSnapshot(stash: seq<GroupState>, st: GroupState, chunk: nat)
    requires chunk > 0 && Fresh(stash, st.name)
    ensures MergeAll(stash, SnapshotMessages(st, chunk)) == stash + [st]
  {
    var bare := st.(secrets := []);
    assert Find(stash, st.name) == |stash|;
    assert SnapshotMessages(st, chunk)[1..] == Listing(st.name, st.secrets, chunk);
    MergeListing(stash, bare, st.secrets, chunk);
    assert bare.(secrets := [] + st.secrets) == st;
  }

  lemma {:induction false} MergeSnapshots(stash: seq<GroupState>, snaps: seq<GroupState>, chunk: nat)
    requires chunk > 0 && DistinctNames(stash + snaps)
    ensures MergeAll(stash, GroupMessages(snaps, chunk)) == stash + snaps
    decreases |snaps|
  {
    if snaps == [] {
      assert stash + snaps == stash;
    } else {
      FreshHead(stash, snaps);
      MergeSnapshot(stash, snaps[0], chunk);
      MergeAllAppend(stash, SnapshotMessages(snaps[0], chunk), GroupMessages(snaps[1..], chunk));
      HeadOver(stash, snaps);
      MergeSnapshots(stash + [snaps[0]], snaps[1..], chunk);
    }
  }

  lemma HeadOver(stash: seq<GroupState>, snaps: seq<GroupState>)
    requires snaps != []
    ensures stash + [snaps[0]] + snaps[1..] == stash + snaps
  {
  }

  lemma FreshHead(stash: seq<GroupState>, snaps: seq<GroupState>)
    requires snaps != [] && DistinctNames(stash + snaps)
    ensures Fresh(stash, snaps[0].name)
  {
    var all := stash + snaps;
    assert all[|stash|] == snaps[0];
    forall i | 0 <= i < |stash|
      ensures stash[i].name != snaps[0].name
    {
      assert all[i] == stash[i];
    }
  }

  lemma {:induction false} ListingIsPayload(group: Name, secrets: seq<SecretEntry>, chunk: nat)
    requires chunk > 0
    ensures Payload(Listing(group, secrets, chunk))
    decreases |secrets|
  {
    if |secrets| > chunk {
      ListingIsPayload(group, secrets[chunk..], chunk);
    }
  }

  lemma {:induction false} GroupsArePayload(snaps: seq<GroupState>, chunk: nat)
    requires chunk > 0
    ensures Payload(GroupMessages(snaps, chunk))
  {
    if snaps != [] {
      ListingIsPayload(snaps[0].name, snaps[0].secrets, chunk);
      GroupsArePayload(snaps[1..], chunk);
    }
  }

  lemma {:induction false} ReadPayload(
    encode: Encode, decode: Decode, msgs: seq<SyncMessage>, rest: Bytes, stash: seq<GroupState>, helloOk: bool)
    requires Inverse(encode, decode) && AllFit(encode, msgs) && Payload(msgs)
    ensures ReadManifest(decode, Frames(encode, msgs) + rest, stash, helloOk)
         == ReadManifest(decode, rest, MergeAll(stash, msgs), helloOk || msgs != [])
    decreases |msgs|
  {
    if msgs == [] {
      assert Frames(encode, msgs) + rest == rest;
    } else {
      var frame, tail := Frame(encode(msgs[0])), Frames(encode, msgs[1..]) + rest;
      assert Frames(encode, msgs) + rest == frame + tail;
      DeframeFrame(encode, decode, msgs[0], tail);
      assert (frame + tail)[|frame|..] == tail;
      ReadPayload(encode, decode, msgs[1..], rest, Merge(stash, msgs[0]), true);
    }
  }

  /** A replica assembles exactly the snapshots that were sent, in order,
      for every chunk size and whatever follows on the stream. */
  lemma ManifestRoundTrip(encode: Encode, decode: Decode, snaps: seq<GroupState>, chunk: nat, rest: Bytes)
    requires chunk > 0 && Inverse(encode, decode) && DistinctNames(snaps)
    requires AllFit(encode, GroupMessages(snaps, chunk) + [ManifestDone])
    ensures ReadManifest(decode, Frames(encode, GroupMessages(snaps, chunk) + [ManifestDone]) + rest, [], false) == Stash(snaps)
  {
    var msgs := GroupMessages(snaps, chunk);
    var all := msgs + [ManifestDone];
    assert AllFit(encode, msgs) by { assert forall i :: 0 <= i < |msgs| ==> all[i] == msgs[i]; }
    assert Fits(encode, ManifestDone) by { assert all[|msgs|] == ManifestDone; }
    GroupsArePayload(snaps, chunk);
    var done := Frame(encode(ManifestDone)) + rest;
    FramesAppend(encode, msgs, [ManifestDone]);
    assert Frames(encode, [ManifestDone]) == Frame(encode(ManifestDone)) by {
      assert [ManifestDone][1..] == [];
    }
    assert Frames(encode, all) + rest == Frames(encode, msgs) + done;
    ReadPayload(encode, decode, msgs, done, [], false);
    DeframeFrame(encode, decode, ManifestDone, rest);
    assert [] + snaps == snaps;
    MergeSnapshots([], snaps, chunk);
  }

  /** Chunks are full, except that the last holds what is left, and is empty
      only when the whole listing is. */
  lemma {:induction false} ChunksAreFull(group: Name, secrets: seq<SecretEntry>, chunk: nat, i: nat)
    requires chunk > 0 && i < |Listing(group, secrets, chunk)|
    ensures var l := Listing(group, secrets, chunk);
            && l[i].GroupSecrets? && l[i].group == group && |l[i].secrets| <= chunk
            && (i < |l| - 1 ==> |l[i].secrets| == chunk)
            && (|l| > 1 ==> l[i].secrets != [])
    decreases |secrets|
  {
    if |secrets| > chunk && i > 0 {
      ChunksAreFull(group, secrets[chunk..], chunk, i - 1);
      assert Listing(group, secrets, chunk)[i] == Listing(group, secrets[chunk..], chunk)[i - 1];
    }
  }

  /** What ends a manifest: its end mark, a denial as the very first reply, or
      an error; a stream that merely stops is an error too. */
  lemma ManifestEnds(encode: Encode, decode: Decode, msgs: seq<SyncMessage>, last: SyncMessage, rest: Bytes)
    requires Inverse(encode, decode) && AllFit(encode, msgs) && Fits(encode, last)
    requires Payload(msgs) && !last.GroupMsg? && !last.GroupSecrets?
    ensures ReadManifest(decode, Frames(encode, msgs), [], false) == Ended
    ensures ReadManifest(decode, Frames(encode, msgs) + (Frame(encode(last)) + rest), [], false) ==
            if last.ManifestDone? then Stash(MergeAll([], msgs))
            else if last.SyncDenied? && msgs == [] then Denied
            else Unexpected
  {
    ReadPayload(encode, decode, msgs, [], [], false);
    assert Frames(encode, msgs) + [] == Frames(encode, msgs);
    ReadPayload(encode, decode, msgs, Frame(encode(last)) + rest, [], false);
    DeframeFrame(encode, decode, last, rest);
  }

  // ---- one group at a time ----

  datatype GroupReply = State(state: GroupState) | Refused | Failed

  function Absorb(state: GroupState, msg: SyncMessage): GroupState {
    match msg
    case GroupMsg(_, acl, deks) => state.(acl := state.acl + acl, deks := state.deks + deks)
    case GroupSecrets(_, secrets) => state.(secrets := state.secrets + secrets)
    case _ => state
  }

  /** A message about this group, whose content the state takes up. */
  predicate About(msg: SyncMessage, group: Name) {
    (msg.GroupMsg? && msg.name == group) || (msg.GroupSecrets? && msg.group == group)
  }

  function ReadGroup(decode: Decode, bytes: Bytes, state: GroupState): GroupReply
    decreases |bytes|
  {
    if bytes == [] then Failed
    else
      match Deframe(decode, bytes)
      case Ok(msg, n) =>
        if About(msg, state.name) then ReadGroup(decode, bytes[n..], Absorb(state, msg))
        else if msg.FetchDone? then State(state)
        else if msg.SyncDenied? then Refused
        else Failed
      case _ => Failed
  }

  method ReceiveGroup(decode: Decode, group: Name, bytes: Bytes) returns (r: GroupReply)
    ensures r == ReadGroup(decode, bytes, GroupState(group, [], [], []))
  {
    var left := bytes;
    var state := GroupState(group, [], [], []);
    while left != []
      invariant state.name == group
      invariant ReadGroup(decode, bytes, GroupState(group, [], [], [])) == ReadGroup(decode, left, state)
      decreases |left|
    {
      var next := Deframe(decode, left);
      if !next.Ok? {
        return Failed;
      }
      match next.msg {
        case GroupMsg(name, acl, deks) =>
          if name != group {
            return Failed;
          }
          state := state.(acl := state.acl + acl);
          state := state.(deks := state.deks + deks);
        case GroupSecrets(listed, secrets) =>
          if listed != group {
            return Failed;
          }
          state := state.(secrets := state.secrets + secrets);
        case FetchDone =>
          return State(state);
        case SyncDenied =>
          return Refused;
        case _ =>
          return Failed;
      }
      left := left[next.consumed..];
    }
    r := Failed;
  }

  ghost predicate AllAbout(msgs: seq<SyncMessage>, group: Name) {
    forall i :: 0 <= i < |msgs| ==> About(msgs[i], group)
  }

  function AbsorbAll(state: GroupState, msgs: seq<SyncMessage>): GroupState
    decreases |msgs|
  {
    if msgs == [] then state else AbsorbAll(Absorb(state, msgs[0]), msgs[1..])
  }

  lemma {:induction false} AbsorbListing(state: GroupState, secrets: seq<SecretEntry>, chunk: nat)
    requires chunk > 0
    ensures AllAbout(Listing(state.name, secrets, chunk), state.name)
    ensures AbsorbAll(state, Listing(state.name, secrets, chunk)) == state.(secrets := state.secrets + secrets)
    decreases |secrets|
  {
    if |secrets| > chunk {
      var merged := state.(secrets := state.secrets + secrets[..chunk]);
      var tail := Listing(state.name, secrets[chunk..], chunk);
      AbsorbListing(merged, secrets[chunk..], chunk);
      assert merged.secrets + secrets[chunk..] == state.secrets + secrets;
      assert Listing(state.name, secrets, chunk)[1..] == tail;
    }
  }

  lemma {:induction false} ReadAbsorbs(
    encode: Encode, decode: Decode, msgs: seq<SyncMessage>, rest: Bytes, state: GroupState)
    requires Inverse(encode, decode) && AllFit(encode, msgs) && AllAbout(msgs, state.name)
    ensures ReadGroup(decode, Frames(encode, msgs) + rest, state) == ReadGroup(decode, rest, AbsorbAll(state, msgs))
    decreases |msgs|
  {
    if msgs == [] {
      assert Frames(encode, msgs) + rest == rest;
    } else {
      var frame, tail := Frame(encode(msgs[0])), Frames(encode, msgs[1..]) + rest;
      assert Frames(encode, msgs) + rest == frame + tail;
      DeframeFrame(encode, decode, msgs[0], tail);
      assert (frame + tail)[|frame|..] == tail;
      ReadAbsorbs(encode, decode, msgs[1..], rest, Absorb(state, msgs[0]));
    }
  }

  /** A fetched group is the snapshot that was sent. */
  lemma GroupRoundTrip(encode: Encode, decode: Decode, st: GroupState, chunk: nat, rest: Bytes)
    requires chunk > 0 && Inverse(encode, decode)
    requires AllFit(encode, SnapshotMessages(st, chunk)) && Fits(encode, FetchDone)
    ensures ReadGroup(decode, Frames(encode, SnapshotMessages(st, chunk)) + Frame(encode(FetchDone)) + rest,
                      GroupState(st.name, [], [], [])) == State(st)
  {
    var empty := GroupState(st.name, [], [], []);
    var msgs := SnapshotMessages(st, chunk);
    var done := Frame(encode(FetchDone)) + rest;
    assert Frames(encode, msgs) + Frame(encode(FetchDone)) + rest == Frames(encode, msgs) + done;
    assert msgs[1..] == Listing(st.name, st.secrets, chunk);
    var header := Absorb(empty, msgs[0]);
    AbsorbListing(header, st.secrets, chunk);
    assert header.acl == st.acl && header.deks == st.deks && [] + st.secrets == st.secrets;
    ReadAbsorbs(encode, decode, msgs, done, empty);
    DeframeFrame(encode, decode, FetchDone, rest);
  }

  /** What ends a group fetch: its end mark, a denial at any point, or an error,
      messages about another group included. */
  lemma GroupEnds(encode: Encode, decode: Decode, group: Name, msgs: seq<SyncMessage>, last: SyncMessage, rest: Bytes)
    requires Inverse(encode, decode) && AllFit(encode, msgs) && Fits(encode, last)
    requires AllAbout(msgs, group) && !About(last, group)
    ensures ReadGroup(decode, Frames(encode, msgs), GroupState(group, [], [], [])) == Failed
    ensures ReadGroup(decode, Frames(encode, msgs) + (Frame(encode(last)) + rest), GroupState(group, [], [], [])) ==
            if last.FetchDone? then State(AbsorbAll(GroupState(group, [], [], []), msgs))
            else if last.SyncDenied? then Refused
            else Failed
  {
    var empty := GroupState(group, [], [], []);
    ReadAbsorbs(encode, decode, msgs, [], empty);
    assert Frames(encode, msgs) + [] == Frames(encode, msgs);
    ReadAbsorbs(encode, decode, msgs, Frame(encode(last)) + rest, empty);
    DeframeFrame(encode, decode, last, rest);
    AbsorbKeepsName(empty, msgs);
  }

  lemma {:induction false} AbsorbKeepsName(state: GroupState, msgs: seq<SyncMessage>)
    ensures AbsorbAll(state, msgs).name == state.name
    decreases |msgs|
  {
    if msgs != [] {
      AbsorbKeepsName(Absorb(state, msgs[0]), msgs[1..]);
    }
  }

  // ---- the two ways of merging agree ----

  /** The state stashed under a name. */
  function EntryOf(stash: seq<GroupState>, name: Name): Option<GroupState> {
    var i := Find(stash, name);
    if i < |stash| then Some(stash[i]) else None
  }

  /** The messages about one group, in order. */
  function AboutOnly(msgs: seq<SyncMessage>, group: Name): seq<SyncMessage> {
    if msgs == [] then []
    else (if About(msgs[0], group) then [msgs[0]] else []) + AboutOnly(msgs[1..], group)
  }

  function Known(stash: seq<GroupState>, name: Name): GroupState {
    match EntryOf(stash, name)
    case Some(st) => st
    case None => GroupState(name, [], [], [])
  }

  lemma FindInOther(stash: seq<GroupState>, i: nat, st: GroupState, name: Name)
    requires i < |stash| && st.name == stash[i].name
    ensures Find(stash[i := st], name) == Find(stash, name)
  {
    var other := stash[i := st];
    assert forall k :: 0 <= k < |stash| ==> other[k].name == stash[k].name;
  }

  lemma FindInLonger(stash: seq<GroupState>, st: GroupState, name: Name)
    ensures Find(stash + [st], name) == if Find(stash, name) < |stash| then Find(stash, name) else if st.name == name then |stash| else |stash| + 1
  {
    var longer := stash + [st];
    assert forall k :: 0 <= k < |stash| ==> longer[k] == stash[k];
    assert longer[|stash|] == st;
  }

  lemma MergeOne(stash: seq<GroupState>, msg: SyncMessage, name: Name)
    requires msg.GroupMsg? || msg.GroupSecrets?
    ensures EntryOf(Merge(stash, msg), name) == if About(msg, name) then Some(Absorb(Known(stash, name), msg)) else EntryOf(stash, name)
  {
    var about := if msg.GroupMsg? then msg.name else msg.group;
    var i := Find(stash, about);
    if i < |stash| {
      FindInOther(stash, i, Absorb(stash[i], msg), name);
    } else {
      var st := Absorb(GroupState(about, [], [], []), msg);
      if msg.GroupMsg? {
        assert [] + msg.acl == msg.acl && [] + msg.deks == msg.deks;
      } else {
        assert [] + msg.secrets == msg.secrets;
      }
      assert Merge(stash, msg) == stash + [st];
      FindInLonger(stash, st, name);
    }
  }

  /** For any messages in any order, headers repeated or missing, what a manifest
      stashes under a name is what a fetch of that group would assemble from the
      messages about it; a group nobody spoke of is not stashed. */
  lemma {:induction false} MergesLikeAFetch(stash: seq<GroupState>, msgs: seq<SyncMessage>, name: Name)
    requires Payload(msgs)
    ensures EntryOf(MergeAll(stash, msgs), name) ==
            if AboutOnly(msgs, name) == [] then EntryOf(stash, name) else Some(AbsorbAll(Known(stash, name), AboutOnly(msgs, name)))
    decreases |msgs|
  {
    if msgs != [] {
      MergeOne(stash, msgs[0], name);
      MergesLikeAFetch(Merge(stash, msgs[0]), msgs[1..], name);
      if About(msgs[0], name) {
        assert AboutOnly(msgs, name) == [msgs[0]] + AboutOnly(msgs[1..], name);
        assert AboutOnly(msgs, name)[1..] == AboutOnly(msgs[1..], name);
      } else {
        assert AboutOnly(msgs, name) == AboutOnly(msgs[1..], name);
      }
    }
  }
}
