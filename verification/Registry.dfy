/**
 The registry of accepted connections in src/udt.rs as a state machine. A handshake is answered
 by the socket that already serves the same peer, unless that socket is broken; sockets break,
 close and are collected in any order.
 */
module RegistryModel {
  import opened SeqNumber
  import opened OrderedKeys
  import opened SenderModel

  const ID_MOD: nat := 0x1_0000_0000

  /** What a handshake is recognised by: peer address, peer socket id and initial number. */
  datatype Peer = Peer(address: nat, socketId: nat, isn: nat)

  /** A socket; `peer` is set for the accepted ones. */
  datatype Sock = Sock(peer: Option<Peer>, status: Status)

  datatype Registry = Registry(sockets: map<nat, Sock>, peers: map<(nat, nat), set<nat>>, nextId: nat)

  /** `get_new_socket_id`: ids count down, wrapping at 0. */
  function NextId(id: nat): nat {
    if id == 0 then ID_MOD - 1 else id - 1
  }

  /** The id handed out `n` steps after `id`. */
  function NthId(id: nat, n: nat): nat {
    if n == 0 then id else NextId(NthId(id, n - 1))
  }

  /** Ids count down modulo 2^32, so that two of them agree only a multiple of 2^32 steps apart. */
  lemma {:induction false} IdsCountDown(id: nat, n: nat)
    requires id < ID_MOD
    ensures NthId(id, n) == (id - n) % ID_MOD
  {
    if n > 0 {
      IdsCountDown(id, n - 1);
    }
  }

  lemma IdsAreDistinct(id: nat, m: nat, n: nat)
    requires id < ID_MOD && m <= n
    ensures NthId(id, m) == NthId(id, n) <==> (n - m) % ID_MOD == 0
  {
    IdsCountDown(id, m);
    IdsCountDown(id, n);
    SameRemainder(id - m, id - n, ID_MOD);
  }

  lemma SameRemainder(x: int, y: int, modulus: nat)
    requires modulus > 0
    ensures x % modulus == y % modulus <==> (x - y) % modulus == 0
  {
    var p, q, k := x / modulus, y / modulus, (x - y) / modulus;
    if x % modulus == y % modulus {
      assert x - y == (p - q) * modulus;
      ModUnique(x - y, modulus, p - q, 0);
    }
    if (x - y) % modulus == 0 {
      assert x == (q + k) * modulus + y % modulus;
      ModUnique(x, modulus, q + k, y % modulus);
    }
  }

  predicate Serves(r: Registry, id: nat, p: Peer) {
    id in r.sockets && r.sockets[id].peer == Some(p)
  }

  /** The search over candidate ids in ascending order. */
  function FirstServing(r: Registry, ids: seq<nat>, p: Peer): Option<nat> {
    if ids == [] then None
    else if ids[0] in r.sockets && r.sockets[ids[0]].peer.Some? && r.sockets[ids[0]].peer.value.address == p.address
    then Some(ids[0])
    else FirstServing(r, ids[1..], p)
  }

  function Candidates(r: Registry, p: Peer): set<nat> {
    if (p.socketId, p.isn) in r.peers then r.peers[(p.socketId, p.isn)] else {}
  }

  /** `get_peer_socket`. */
  function GetPeer(r: Registry, p: Peer): Option<nat> {
    FirstServing(r, KeysIn(Candidates(r, p), 0, ID_MOD), p)
  }

  /** The outcome of a handshake. */
  datatype Answer = Existing(id: nat) | Accepted(id: nat) | Rejected

  /** `new_connection`; `admitted` says that the listener has a multiplexer and room in its queue. */
  function NewConnection(r: Registry, p: Peer, admitted: bool): (Answer, Registry) {
    var found := GetPeer(r, p);
    if found.Some? && found.value in r.sockets && r.sockets[found.value].status != Broken
    then (Existing(found.value), r)
    else
      var id := r.nextId;
      var r1 := r.(nextId := NextId(id));
      if !admitted then (Rejected, r1)
      else (Accepted(id), r1.(sockets := r.sockets[id := Sock(Some(p), Connected)],
                              peers := r.peers[(p.socketId, p.isn) := Candidates(r, p) + {id}]))
  }

  /** `new_socket`: a socket that no peer has connected to. */
  function NewSocket(r: Registry): Registry {
    var r1 := r.(nextId := NextId(r.nextId));
    if r.nextId in r.sockets then r1 else r1.(sockets := r.sockets[r.nextId := Sock(None, Init)])
  }

  /** A status change of one socket by any of its handlers. */
  function SetStatus(r: Registry, id: nat, status: Status): Registry {
    if id in r.sockets then r.(sockets := r.sockets[id := r.sockets[id].(status := status)]) else r
  }

  /** `garbage_collect_sockets` removes the closing sockets; broken ones are told to close. */
  function Collect(r: Registry): Registry {
    r.(sockets := map id | id in r.sockets && r.sockets[id].status != Closing :: r.sockets[id])
  }

  // ---------------------------------------------------------------- runs

  datatype Step =
    | Handshake(peer: Peer, admitted: bool)
    | OpenSocket
    | Change(id: nat, status: Status)
    | CollectGarbage

  /** Sockets never come back to life, and a socket's handlers do not touch others. */
  predicate Allowed(r: Registry, s: Step) {
    s.Change? && s.id in r.sockets && !r.sockets[s.id].status.IsAlive() ==> !s.status.IsAlive()
  }

  /** The step takes an id from the counter. */
  predicate TakesId(r: Registry, s: Step) {
    s.OpenSocket? || (s.Handshake? && !NewConnection(r, s.peer, s.admitted).0.Existing?)
  }

  function Take(r: Registry, s: Step): Registry {
    match s
    case Handshake(p, admitted) => NewConnection(r, p, admitted).1
    case OpenSocket => NewSocket(r)
    case Change(id, status) => SetStatus(r, id, status)
    case CollectGarbage => Collect(r)
  }

  /** A run whose steps are allowed and in which the id counter does not pass 0. */
  predicate Sound(r: Registry, steps: seq<Step>)
    decreases |steps|
  {
    steps != [] ==>
      && Allowed(r, steps[0]) && (TakesId(r, steps[0]) ==> r.nextId > 0)
      && Sound(Take(r, steps[0]), steps[1..])
  }

  function After(r: Registry, steps: seq<Step>): Registry
    decreases |steps|
  {
    if steps == [] then r else After(Take(r, steps[0]), steps[1..])
  }

  // ---------------------------------------------------------------- the invariant

  /** The peer index lists every accepted socket, and no registered socket under another peer. */
  ghost predicate Indexed(r: Registry) {
    && r.nextId < ID_MOD
    && (forall id :: id in r.sockets ==> id < ID_MOD)
    && (forall id :: id in r.sockets && r.sockets[id].peer.Some? ==> id in Candidates(r, r.sockets[id].peer.value))
    && (forall key, id :: key in r.peers && id in r.peers[key] ==> id < ID_MOD)
    && (forall key, id :: key in r.peers && id in r.peers[key] && id in r.sockets ==>
          && r.sockets[id].peer.Some?
          && key == (r.sockets[id].peer.value.socketId, r.sockets[id].peer.value.isn))
  }

  /** Neither a socket nor the peer index knows the id. */
  ghost predicate Unused(r: Registry, id: nat) {
    id !in r.sockets && forall key :: key in r.peers ==> id !in r.peers[key]
  }

  /** Every id known is above the counter. */
  ghost predicate Downward(r: Registry) {
    && (forall id :: id in r.sockets ==> r.nextId < id)
    && (forall key, id :: key in r.peers && id in r.peers[key] ==> r.nextId < id)
  }

  /** Of the sockets serving one peer only the newest, which has the smallest id, may be alive. */
  ghost predicate NewestAlive(r: Registry) {
    forall i, j, p :: Serves(r, i, p) && Serves(r, j, p) && i < j ==> !r.sockets[j].status.IsAlive()
  }

  ghost predicate RegistryInv(r: Registry) {
    Indexed(r) && Downward(r) && NewestAlive(r)
  }

  lemma {:induction false} FirstServingMeaning(r: Registry, ids: seq<nat>, p: Peer)
    requires forall i, j :: 0 <= i < j < |ids| ==> ids[i] < ids[j]
    requires forall i :: 0 <= i < |ids| && ids[i] in r.sockets ==>
      r.sockets[ids[i]].peer.Some? && (r.sockets[ids[i]].peer.value.address == p.address <==> Serves(r, ids[i], p))
    ensures
      var f := FirstServing(r, ids, p);
      && (f.None? ==> forall i :: 0 <= i < |ids| ==> !Serves(r, ids[i], p))
      && (f.Some? ==> f.value in ids && Serves(r, f.value, p)
                      && forall i :: 0 <= i < |ids| && Serves(r, ids[i], p) ==> f.value <= ids[i])
  {
    if ids != [] {
      FirstServingMeaning(r, ids[1..], p);
      assert forall i :: 0 < i < |ids| ==> ids[i] == ids[1..][i - 1];
    }
  }

  /** The lookup finds the serving socket with the smallest id, and fails only when there is none. */
  lemma GetPeerMeaning(r: Registry, p: Peer)
    requires Indexed(r)
    ensures
      var f := GetPeer(r, p);
      && (f.None? <==> forall id :: !Serves(r, id, p))
      && (f.Some? ==> Serves(r, f.value, p) && forall id :: Serves(r, id, p) ==> f.value <= id)
  {
    var ids := KeysIn(Candidates(r, p), 0, ID_MOD);
    KeysInMeaning(Candidates(r, p), 0, ID_MOD);
    assert forall i :: 0 <= i < |ids| ==> ids[i] in ids;
    FirstServingMeaning(r, ids, p);
    forall id | Serves(r, id, p)
      ensures exists i :: 0 <= i < |ids| && ids[i] == id
    {
      assert id in Candidates(r, p) && id in ids;
    }
  }

  /** Nothing that serves the peer is alive when a handshake gets a new socket. */
  lemma NoneAliveBeforeAccept(r: Registry, p: Peer, admitted: bool)
    requires RegistryInv(r) && !NewConnection(r, p, admitted).0.Existing?
    ensures forall id :: Serves(r, id, p) ==> !r.sockets[id].status.IsAlive()
  {
    GetPeerMeaning(r, p);
    var f := GetPeer(r, p);
    hide GetPeer;
    forall id | Serves(r, id, p)
      ensures !r.sockets[id].status.IsAlive()
    {
      assert f.value <= id;
    }
  }

  /** With an id that is not in use every step keeps the index. */
  lemma StepKeepsIndex(r: Registry, s: Step)
    requires Indexed(r) && (TakesId(r, s) ==> Unused(r, r.nextId))
    ensures Indexed(Take(r, s))
  {
    hide GetPeer;
  }

  lemma AcceptKeepsInv(r: Registry, p: Peer, admitted: bool)
    requires RegistryInv(r) && (!NewConnection(r, p, admitted).0.Existing? ==> r.nextId > 0)
    ensures RegistryInv(NewConnection(r, p, admitted).1)
  {
    var (answer, r') := NewConnection(r, p, admitted);
    if !answer.Existing? {
      NoneAliveBeforeAccept(r, p, admitted);
      StepKeepsIndex(r, Handshake(p, admitted));
      hide GetPeer, Indexed;
      forall i, j, q | Serves(r', i, q) && Serves(r', j, q) && i < j
        ensures !r'.sockets[j].status.IsAlive()
      {
        if answer.Accepted? && i == r.nextId {
          assert Serves(r, j, p);
        } else {
          assert j == r.nextId || (Serves(r, i, q) && Serves(r, j, q));
        }
      }
    }
  }

  lemma ChangeKeepsInv(r: Registry, id: nat, status: Status)
    requires RegistryInv(r) && Allowed(r, Change(id, status))
    ensures RegistryInv(SetStatus(r, id, status))
  {
    var r' := SetStatus(r, id, status);
    forall i, j, p | Serves(r', i, p) && Serves(r', j, p) && i < j
      ensures !r'.sockets[j].status.IsAlive()
    {
      assert Serves(r, i, p) && Serves(r, j, p);
    }
  }

  lemma CollectKeepsInv(r: Registry)
    requires RegistryInv(r)
    ensures RegistryInv(Collect(r))
  {
    var r' := Collect(r);
    forall i, j, p | Serves(r', i, p) && Serves(r', j, p) && i < j
      ensures !r'.sockets[j].status.IsAlive()
    {
      assert Serves(r, i, p) && Serves(r, j, p);
    }
  }

  lemma OpenKeepsInv(r: Registry)
    requires RegistryInv(r) && r.nextId > 0
    ensures RegistryInv(NewSocket(r))
  {
    var r' := NewSocket(r);
    forall i, j, p | Serves(r', i, p) && Serves(r', j, p) && i < j
      ensures !r'.sockets[j].status.IsAlive()
    {
      assert Serves(r, i, p) && Serves(r, j, p);
    }
  }

  lemma {:induction false} RunKeepsRegistry(r: Registry, steps: seq<Step>)
    requires RegistryInv(r) && Sound(r, steps)
    ensures RegistryInv(After(r, steps))
    decreases |steps|
  {
    if steps != [] {
      hide RegistryInv;
      match steps[0] {
        case Handshake(p, admitted) => AcceptKeepsInv(r, p, admitted);
        case OpenSocket => OpenKeepsInv(r);
        case Change(id, status) => ChangeKeepsInv(r, id, status);
        case CollectGarbage => CollectKeepsInv(r);
      }
      RunKeepsRegistry(Take(r, steps[0]), steps[1..]);
    }
  }

  /**
   At every point of every run in which the id counter does not pass 0, at most one alive
   accepted socket exists for a peer address, peer socket id and initial number.
   */
  lemma AtMostOneAlive(firstId: nat, steps: seq<Step>, i: nat, j: nat, p: Peer)
    requires firstId < ID_MOD && Sound(Registry(map[], map[], firstId), steps)
    requires Serves(After(Registry(map[], map[], firstId), steps), i, p)
    requires Serves(After(Registry(map[], map[], firstId), steps), j, p)
    requires After(Registry(map[], map[], firstId), steps).sockets[i].status.IsAlive()
    requires After(Registry(map[], map[], firstId), steps).sockets[j].status.IsAlive()
    ensures i == j
  {
    RunKeepsRegistry(Registry(map[], map[], firstId), steps);
  }

  // ---------------------------------------------------------------- what a step does to the sockets

  /** The socket that answers a handshake: the serving one with the smallest id, unless it is broken. */
  ghost predicate Answers(r: Registry, p: Peer, id: nat) {
    && Serves(r, id, p) && r.sockets[id].status != Broken
    && forall j :: Serves(r, j, p) ==> id <= j
  }

  /**
   Which answer a handshake gets, and what it changes: an existing socket answers and nothing
   changes; otherwise an id is used up, and if the handshake is admitted a connected socket for the
   peer is registered and indexed under that id, all others staying as they are.
   */
  lemma HandshakeOutcome(r: Registry, p: Peer, admitted: bool)
    requires Indexed(r)
    ensures
      var (answer, r') := NewConnection(r, p, admitted);
      && (forall id :: answer == Existing(id) <==> Answers(r, p, id))
      && (answer.Existing? ==> r' == r)
      && (!answer.Existing? ==> r'.nextId == NextId(r.nextId) && answer == if admitted then Accepted(r.nextId) else Rejected)
      && (answer.Rejected? ==> r'.sockets == r.sockets && r'.peers == r.peers)
      && (answer.Accepted? ==>
            && Serves(r', answer.id, p) && r'.sockets[answer.id].status == Connected
            && (forall id :: id != answer.id ==> SameSocket(r, r', id))
            && Candidates(r', p) == Candidates(r, p) + {answer.id}
            && (forall q: Peer :: (q.socketId, q.isn) != (p.socketId, p.isn) ==> Candidates(r', q) == Candidates(r, q)))
  {
    GetPeerMeaning(r, p);
    hide GetPeer, Indexed;
  }

  ghost predicate SameSocket(r: Registry, r': Registry, id: nat) {
    (id in r'.sockets <==> id in r.sockets) && (id in r.sockets ==> r'.sockets[id] == r.sockets[id])
  }

  /** A collection removes the closing sockets, all of them and no others. */
  lemma CollectMeaning(r: Registry, id: nat)
    ensures id in Collect(r).sockets <==> id in r.sockets && r.sockets[id].status != Closing
    ensures id in Collect(r).sockets ==> Collect(r).sockets[id] == r.sockets[id]
    ensures Collect(r).peers == r.peers && Collect(r).nextId == r.nextId
  {
  }

  /**
   What becomes of a registered socket at a step with an unused id: it leaves the registry exactly
   when it is closing and the step is a collection; until then its peer stays, and its status
   changes only by a change of its own.
   */
  lemma SocketStays(r: Registry, s: Step, id: nat)
    requires id in r.sockets && (TakesId(r, s) ==> Unused(r, r.nextId))
    ensures id !in Take(r, s).sockets <==> s.CollectGarbage? && r.sockets[id].status == Closing
    ensures id in Take(r, s).sockets ==>
      Take(r, s).sockets[id] == if s.Change? && s.id == id then r.sockets[id].(status := s.status) else r.sockets[id]
  {
    hide GetPeer;
    CollectMeaning(r, id);
    hide Collect;
  }

  /** A socket that a step registers: the id from the counter, for the peer of an admitted handshake or for none. */
  lemma SocketAppears(r: Registry, s: Step, id: nat)
    requires id !in r.sockets && id in Take(r, s).sockets
    ensures id == r.nextId && TakesId(r, s)
    ensures s.OpenSocket? ==> Take(r, s).sockets[id] == Sock(None, Init)
    ensures s.Handshake? ==> s.admitted && Take(r, s).sockets[id] == Sock(Some(s.peer), Connected)
    ensures s.OpenSocket? || s.Handshake?
  {
    hide GetPeer;
  }

  /** Opening a socket always uses up an id, and registers a socket under it if it is free. */
  lemma OpenOutcome(r: Registry)
    ensures
      var r' := NewSocket(r);
      && r'.nextId == NextId(r.nextId) && r'.peers == r.peers && r.nextId in r'.sockets
      && (r.nextId in r.sockets ==> r'.sockets == r.sockets)
      && (r.nextId !in r.sockets ==> r'.sockets[r.nextId] == Sock(None, Init))
      && forall id :: id != r.nextId ==> SameSocket(r, r', id)
  {
  }

  /** No status change of the socket occurs in the run. */
  predicate LeftAlone(steps: seq<Step>, id: nat) {
    forall i :: 0 <= i < |steps| ==> !(steps[i].Change? && steps[i].id == id)
  }

  /**
   Along every run with unused ids a socket that is not closing stays registered, with its peer
   and status, until its own status changes: collections do not touch it.
   */
  lemma {:induction false} RunKeepsSocket(r: Registry, steps: seq<Step>, id: nat)
    requires FreshIds(r, steps) && LeftAlone(steps, id) && id in r.sockets && r.sockets[id].status != Closing
    ensures id in After(r, steps).sockets && After(r, steps).sockets[id] == r.sockets[id]
    decreases |steps|
  {
    hide Take, Allowed, TakesId, Unused;
    if steps != [] {
      SocketStays(r, steps[0], id);
      RunKeepsSocket(Take(r, steps[0]), steps[1..], id);
    }
  }

  // ---------------------------------------------------------------- the exact condition

  /** At most one alive socket serves any peer. */
  ghost predicate OneAlive(r: Registry) {
    forall i, j, p ::
      Serves(r, i, p) && Serves(r, j, p) && r.sockets[i].status.IsAlive() && r.sockets[j].status.IsAlive() ==> i == j
  }

  /** The socket with the smallest id that serves the peer is broken while another is alive. */
  ghost predicate Shadowed(r: Registry, p: Peer) {
    exists i, j ::
      && Serves(r, i, p) && r.sockets[i].status == Broken && (forall id :: Serves(r, id, p) ==> i <= id)
      && Serves(r, j, p) && r.sockets[j].status.IsAlive()
  }

  ghost predicate Duplicates(r: Registry, s: Step) {
    s.Handshake? && s.admitted && Shadowed(r, s.peer)
  }

  /** A handshake is given a new socket beside an alive one exactly when that one is shadowed. */
  lemma ShadowedIff(r: Registry, p: Peer, admitted: bool)
    requires Indexed(r)
    ensures Shadowed(r, p) <==>
      && !NewConnection(r, p, admitted).0.Existing?
      && exists j :: Serves(r, j, p) && r.sockets[j].status.IsAlive()
  {
    GetPeerMeaning(r, p);
    hide GetPeer, Indexed;
    var f := GetPeer(r, p);
    if Shadowed(r, p) {
      var i, j :|
        && Serves(r, i, p) && r.sockets[i].status == Broken && (forall id :: Serves(r, id, p) ==> i <= id)
        && Serves(r, j, p) && r.sockets[j].status.IsAlive();
      assert f == Some(i);
    }
  }

  lemma AcceptOneAlive(r: Registry, p: Peer)
    requires Indexed(r) && OneAlive(r)
    requires !NewConnection(r, p, true).0.Existing? ==> Unused(r, r.nextId)
    ensures OneAlive(NewConnection(r, p, true).1) <==> !Shadowed(r, p)
  {
    ShadowedIff(r, p, true);
    hide GetPeer, Indexed, Shadowed;
    var (answer, r') := NewConnection(r, p, true);
    if !answer.Existing? {
      assert Serves(r', r.nextId, p) && r'.sockets[r.nextId].status.IsAlive();
      assert forall id, q :: id != r.nextId ==> (Serves(r', id, q) <==> Serves(r, id, q));
      assert forall q :: !Serves(r, r.nextId, q);
    }
  }

  lemma SameSockets(r: Registry, r': Registry)
    requires r'.sockets == r.sockets && OneAlive(r)
    ensures OneAlive(r')
  {
    assert forall id, q :: Serves(r', id, q) ==> Serves(r, id, q);
  }

  /**
   A step keeps at most one alive socket per peer if and only if it is not an admitted handshake
   of a peer whose alive socket is shadowed by a broken one with a smaller id.
   */
  lemma StepKeepsOneAliveIff(r: Registry, s: Step)
    requires Indexed(r) && OneAlive(r) && Allowed(r, s) && (TakesId(r, s) ==> Unused(r, r.nextId))
    ensures OneAlive(Take(r, s)) <==> !Duplicates(r, s)
  {
    hide GetPeer, Indexed, Shadowed;
    match s
    case Handshake(p, admitted) =>
      if admitted {
        AcceptOneAlive(r, p);
      } else {
        SameSockets(r, Take(r, s));
      }
    case _ =>
      var r' := Take(r, s);
      assert forall id, q :: Serves(r', id, q) ==> Serves(r, id, q);
  }

  /** A run of allowed steps in which every id taken is unused. */
  ghost predicate FreshIds(r: Registry, steps: seq<Step>)
    decreases |steps|
  {
    steps != [] ==>
      && Allowed(r, steps[0]) && (TakesId(r, steps[0]) ==> Unused(r, r.nextId))
      && FreshIds(Take(r, steps[0]), steps[1..])
  }

  ghost predicate AlwaysOneAlive(r: Registry, steps: seq<Step>)
    decreases |steps|
  {
    OneAlive(r) && (steps != [] ==> AlwaysOneAlive(Take(r, steps[0]), steps[1..]))
  }

  ghost predicate NeverDuplicates(r: Registry, steps: seq<Step>)
    decreases |steps|
  {
    steps != [] ==> !Duplicates(r, steps[0]) && NeverDuplicates(Take(r, steps[0]), steps[1..])
  }

  /** Along a run at most one alive socket serves any peer if and only if no step duplicates. */
  lemma {:induction false} OneAliveIff(r: Registry, steps: seq<Step>)
    requires Indexed(r) && OneAlive(r) && FreshIds(r, steps)
    ensures AlwaysOneAlive(r, steps) <==> NeverDuplicates(r, steps)
    decreases |steps|
  {
    if steps != [] {
      hide Indexed, OneAlive, Duplicates, Take, Allowed, TakesId, Unused;
      var s := steps[0];
      StepKeepsIndex(r, s);
      StepKeepsOneAliveIff(r, s);
      if !Duplicates(r, s) {
        OneAliveIff(Take(r, s), steps[1..]);
      }
    }
  }

  // ---------------------------------------------------------------- how long ids stay unused

  /** How many ids the steps take. */
  function IdsTaken(r: Registry, steps: seq<Step>): nat
    decreases |steps|
  {
    if steps == [] then 0
    else (if TakesId(r, steps[0]) then 1 else 0) + IdsTaken(Take(r, steps[0]), steps[1..])
  }

  predicate AllAllowed(r: Registry, steps: seq<Step>)
    decreases |steps|
  {
    steps != [] ==> Allowed(r, steps[0]) && AllAllowed(Take(r, steps[0]), steps[1..])
  }

  /** The position of an id in the order in which they are handed out from `first` on. */
  function Turn(first: nat, id: nat): int {
    if id <= first then first - id else first + ID_MOD - id
  }

  /** The first `n` ids have been handed out, and only they are known. */
  ghost predicate HandedOut(r: Registry, first: nat, n: nat) {
    && first < ID_MOD && r.nextId < ID_MOD
    && (n < ID_MOD ==> Turn(first, r.nextId) == n)
    && (forall id :: id in r.sockets ==> id < ID_MOD && Turn(first, id) < n)
    && (forall key, id {:trigger id in r.peers[key]} :: key in r.peers && id in r.peers[key] ==>
          id < ID_MOD && Turn(first, id) < n)
  }

  lemma StepHandsOut(r: Registry, s: Step, first: nat, n: nat)
    requires HandedOut(r, first, n) && (TakesId(r, s) ==> n < ID_MOD)
    ensures TakesId(r, s) ==> Unused(r, r.nextId)
    ensures HandedOut(Take(r, s), first, if TakesId(r, s) then n + 1 else n)
  {
    hide GetPeer;
    var r' := Take(r, s);
    assert r'.nextId == if TakesId(r, s) then NextId(r.nextId) else r.nextId;
    assert forall id :: id in r'.sockets ==> id in r.sockets || (TakesId(r, s) && id == r.nextId);
    forall key, id | key in r'.peers && id in r'.peers[key]
      ensures id < ID_MOD && (Turn(first, id) < n || (TakesId(r, s) && id == r.nextId))
    {
      assert (TakesId(r, s) && id == r.nextId) || (key in r.peers && id in r.peers[key]);
    }
    hide Take;
  }

  lemma {:induction false} UntilWrapped(r: Registry, steps: seq<Step>, first: nat, n: nat)
    requires HandedOut(r, first, n) && AllAllowed(r, steps) && n + IdsTaken(r, steps) <= ID_MOD
    ensures FreshIds(r, steps)
    decreases |steps|
  {
    if steps != [] {
      hide HandedOut, Take, TakesId, Allowed, Unused;
      StepHandsOut(r, steps[0], first, n);
      UntilWrapped(Take(r, steps[0]), steps[1..], first, if TakesId(r, steps[0]) then n + 1 else n);
    }
  }

  /** For every run from an empty registry that takes at most 2^32 ids, wrapping past 0 or not. */
  lemma OneAliveFromStart(firstId: nat, steps: seq<Step>)
    requires firstId < ID_MOD
    requires
      var r := Registry(map[], map[], firstId);
      AllAllowed(r, steps) && IdsTaken(r, steps) <= ID_MOD
    ensures
      var r := Registry(map[], map[], firstId);
      AlwaysOneAlive(r, steps) <==> NeverDuplicates(r, steps)
  {
    var r := Registry(map[], map[], firstId);
    UntilWrapped(r, steps, firstId, 0);
    OneAliveIff(r, steps);
  }

  // ---------------------------------------------------------------- wrap-around

  const ANN := Peer(1, 2, 3)
  const TOP: nat := ID_MOD - 1
  const R0: Registry := Registry(map[], map[], 0)
  const R1: Registry := Registry(map[0 := Sock(Some(ANN), Connected)], map[(2, 3) := {0}], TOP)
  const R2: Registry := R1.(sockets := map[0 := Sock(Some(ANN), Broken)])
  const R3: Registry := Registry(R2.sockets[TOP := Sock(Some(ANN), Connected)], map[(2, 3) := {0, TOP}], TOP - 1)

  lemma FindsZero(r: Registry)
    requires 0 in r.sockets && r.sockets[0].peer == Some(ANN) && (2, 3) in r.peers && 0 in r.peers[(2, 3)]
    ensures GetPeer(r, ANN) == Some(0)
  {
    assert KeysIn(Candidates(r, ANN), 0, ID_MOD)[0] == 0;
  }

  lemma FindsNone(r: Registry)
    requires r.peers == map[]
    ensures GetPeer(r, ANN) == None
  {
    NoKeys(0, ID_MOD);
    assert Candidates(r, ANN) == {};
  }

  lemma WrapFirst()
    ensures Take(R0, Handshake(ANN, true)) == R1 && Take(R1, Change(0, Broken)) == R2
  {
    FindsNone(R0);
    hide GetPeer;
    assert Candidates(R0, ANN) + {0} == {0};
    assert Take(R0, Handshake(ANN, true)).sockets == R1.sockets;
    assert Take(R0, Handshake(ANN, true)).peers == R1.peers;
    assert Take(R1, Change(0, Broken)).sockets == R2.sockets;
  }

  lemma WrapSecond()
    ensures Take(R2, Handshake(ANN, true)) == R3
  {
    FindsZero(R2);
    hide GetPeer;
    assert Candidates(R2, ANN) + {TOP} == {0, TOP};
    assert Take(R2, Handshake(ANN, true)).peers == R3.peers;
  }

  lemma WrapThird()
    ensures
      var r := Take(R3, Handshake(ANN, true));
      && Serves(r, TOP, ANN) && r.sockets[TOP].status.IsAlive()
      && Serves(r, TOP - 1, ANN) && r.sockets[TOP - 1].status.IsAlive()
  {
    FindsZero(R3);
    hide GetPeer;
  }

  /**
   Past 0 the newest id is the largest, the lookup finds a broken older socket first, and two
   alive sockets end up serving one peer.
   */
  lemma WrapAdmitsTwo()
    ensures
      var steps := [Handshake(ANN, true), Change(0, Broken), Handshake(ANN, true), Handshake(ANN, true)];
      var r := After(R0, steps);
      exists i, j :: i != j && Serves(r, i, ANN) && Serves(r, j, ANN)
                     && r.sockets[i].status.IsAlive() && r.sockets[j].status.IsAlive()
  {
    WrapFirst();
    WrapSecond();
    WrapThird();
    var hello := Handshake(ANN, true);
    var four := [hello, Change(0, Broken), hello, hello];
    var three := [Change(0, Broken), hello, hello];
    var two := [hello, hello];
    assert four[1..] == three && three[1..] == two && two[1..] == [hello] && [hello][1..] == [];
    hide Take;
    var r := Take(R3, hello);
    assert After(R3, [hello]) == r;
    assert After(R2, two) == r;
    assert After(R1, three) == r;
    assert After(R0, four) == r;
  }
}

/** The mutable registry of src/udt.rs. */
module Udt {
  import opened OrderedKeys
  import opened SenderModel
  import opened M = RegistryModel

  class Udt {
    var sockets: map<nat, Sock>
    var peers: map<(nat, nat), set<nat>>
    var nextSocketId: nat

    function Value(): Registry
      reads this
    {
      Registry(sockets, peers, nextSocketId)
    }

    constructor (firstId: nat)
      ensures Value() == Registry(map[], map[], firstId)
    {
      sockets, peers, nextSocketId := map[], map[], firstId;
    }

    method GetNewSocketId() returns (id: nat)
      modifies this
      ensures id == old(nextSocketId) && Value() == old(Value()).(nextId := NextId(id))
      ensures id < ID_MOD ==> nextSocketId == (id - 1) % ID_MOD < ID_MOD
    {
      id := nextSocketId;
      nextSocketId := if nextSocketId == 0 then ID_MOD - 1 else nextSocketId - 1;
    }

    /** The serving socket with the smallest id, if the registry is well indexed. */
    method GetPeerSocket(p: Peer) returns (id: Option<nat>)
      ensures id == GetPeer(Value(), p)
      ensures Indexed(Value()) ==> (id.None? <==> forall i :: !Serves(Value(), i, p))
      ensures Indexed(Value()) && id.Some? ==>
                Serves(Value(), id.value, p) && forall i :: Serves(Value(), i, p) ==> id.value <= i
    {
      if Indexed(Value()) {
        GetPeerMeaning(Value(), p);
      }
      hide Indexed, Serves;
      var ids := KeysIn(Candidates(Value(), p), 0, ID_MOD);
      for i := 0 to |ids|
        invariant FirstServing(Value(), ids, p) == FirstServing(Value(), ids[i..], p)
      {
        if ids[i] in sockets && sockets[ids[i]].peer.Some? && sockets[ids[i]].peer.value.address == p.address {
          return Some(ids[i]);
        }
      }
      return None;
    }

    method NewConnection(p: Peer, admitted: bool) returns (answer: Answer)
      modifies this
      ensures (answer, Value()) == M.NewConnection(old(Value()), p, admitted)
    {
      hide GetPeer;
      var found := GetPeerSocket(p);
      if found.Some? && found.value in sockets && sockets[found.value].status != Broken {
        return Existing(found.value);
      }
      var id := GetNewSocketId();
      if !admitted {
        return Rejected;
      }
      peers := peers[(p.socketId, p.isn) := Candidates(Value(), p) + {id}];
      sockets := sockets[id := Sock(Some(p), Connected)];
      return Accepted(id);
    }

    /** Removes the closing sockets and returns the broken ones, which are told to close. */
    method GarbageCollect() returns (toClose: set<nat>)
      modifies this
      ensures Value() == M.Collect(old(Value()))
      ensures toClose == set id | id in old(sockets) && old(sockets)[id].status == Broken
      ensures forall id :: id in sockets <==> id in old(sockets) && old(sockets)[id].status != Closing
      ensures forall id :: id in sockets ==> sockets[id] == old(sockets)[id]
    {
      toClose := set id | id in sockets && sockets[id].status == Broken;
      var toRemove := set id | id in sockets && sockets[id].status == Closing;
      var left := toRemove;
      while left != {}
        invariant left <= toRemove
        invariant peers == old(peers) && nextSocketId == old(nextSocketId)
        invariant sockets == old(sockets) - (toRemove - left)
        decreases |left|
      {
        var id :| id in left;
        left := left - {id};
        sockets := sockets - {id};
      }
      assert toRemove - left == toRemove;
      forall id
        ensures id in sockets <==> id in old(sockets) && old(sockets)[id].status != Closing
        ensures id in sockets <==> id in M.Collect(old(Value())).sockets
      {
        CollectMeaning(old(Value()), id);
      }
      assert sockets == M.Collect(old(Value())).sockets;
    }
  }
}
