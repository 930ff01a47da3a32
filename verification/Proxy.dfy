/**
 The shared state of the embedded CONNECT proxy (native/pondnet/proxy.go) and what each
 critical section does to it. `Proxy` is the object as the program updates it; every method
 is one section under its mutex, or one operation on its 32-slot channel.
 */
module ConnectProxy {
  import opened Results

  /** The modulus of the program's unsigned 64-bit counters. */
  const WORD: nat := 0x1_0000_0000_0000_0000
  const SLOTS: nat := 32
  const MAX_TARGETS: nat := 8

  datatype Peer = Peer(address: string, port: nat)

  /** Tailscale's own resolver and local API, which are never a Pond. */
  const SERVICE_ADDRESSES: set<string> := {"100.100.100.100", "fd7a:115c:a1e0::53"}

  /** A handler's two sockets. */
  datatype Conn = Client(handler: nat) | Upstream(handler: nat)

  /** What `ServeHTTP` reads from a request: `peer` is None when the host is no socket address. */
  datatype Request = Request(authorized: bool, connect: bool, peer: Option<Peer>)

  datatype Refusal = TooManyTargets | InvalidPeer | ServiceAddress | ProxyClosed

  /**
   The fields behind the mutex, the used slots of `limit`, and the two things the sections
   change outside them: which dial contexts are cancelled and which sockets are open.
   `pending` maps a dial id to the handler whose context it cancels.
   */
  datatype Shared = Shared(
    targets: set<Peer>,
    active: set<Conn>,
    closed: bool,
    generation: nat,
    pending: map<nat, nat>,
    nextDial: nat,
    used: nat,
    cancelled: set<nat>,
    open: set<Conn>)

  // ----- The allowlist --------------------------------------------------------

  /** Why a list of addresses is refused, checked in order; None when it may be installed. */
  function ListProblem(addresses: seq<Option<Peer>>): Option<Refusal> {
    if |addresses| > MAX_TARGETS then Some(TooManyTargets) else FirstProblem(addresses)
  }

  function FirstProblem(addresses: seq<Option<Peer>>): Option<Refusal> {
    if addresses == [] then None
    else if addresses[0].None? then Some(InvalidPeer)
    else if addresses[0].value.address in SERVICE_ADDRESSES then Some(ServiceAddress)
    else FirstProblem(addresses[1..])
  }

  function Peers(addresses: seq<Option<Peer>>): set<Peer> {
    set a | a in addresses && a.Some? :: a.value
  }

  // ----- The sections ---------------------------------------------------------

  /** Every change of the allowlist or of `closed`: a new epoch, and nothing old survives it. */
  function Invalidate(sh: Shared): Shared {
    sh.(generation := (sh.generation + 1) % WORD,
        cancelled := sh.cancelled + sh.pending.Values,
        open := sh.open - sh.active)
  }

  function Install(sh: Shared, addresses: seq<Option<Peer>>): (Shared, Result<(), Refusal>) {
    var problem := ListProblem(addresses);
    if problem.Some? then (sh, Err(problem.value))
    else if sh.closed then (sh, Err(ProxyClosed))
    else (Invalidate(sh).(targets := Peers(addresses)), Ok(()))
  }

  function Shut(sh: Shared): Shared {
    Invalidate(sh).(closed := true)
  }

  predicate Allowed(sh: Shared, request: Request) {
    && request.authorized && request.connect && request.peer.Some?
    && request.peer.value in sh.targets && !sh.closed
  }

  function AcquireSlot(sh: Shared): Shared {
    if sh.used < SLOTS then sh.(used := sh.used + 1) else sh
  }

  /** The dial is entered only while the epoch the target was checked in still stands. */
  function StartDial(sh: Shared, handler: nat, epoch: nat): (Shared, Option<nat>) {
    if sh.closed || sh.generation != epoch then
      (sh.(cancelled := sh.cancelled + {handler}), None)
    else
      var id := (sh.nextDial + 1) % WORD;
      (sh.(nextDial := id, pending := sh.pending[id := handler]), Some(id))
  }

  function FinishDial(sh: Shared, handler: nat, id: nat): Shared {
    sh.(pending := sh.pending - {id}, cancelled := sh.cancelled + {handler})
  }

  predicate MayRegister(sh: Shared, epoch: nat, peer: Peer) {
    !sh.closed && sh.generation == epoch && peer in sh.targets
  }

  function Sockets(handler: nat): set<Conn> {
    {Client(handler), Upstream(handler)}
  }

  function Enter(sh: Shared, handler: nat, epoch: nat, peer: Peer): Shared {
    if MayRegister(sh, epoch, peer) then sh.(active := sh.active + Sockets(handler)) else sh
  }

  function Leave(sh: Shared, handler: nat): Shared {
    sh.(active := sh.active - Sockets(handler))
  }

  lemma {:induction false} ListedPeers(addresses: seq<Option<Peer>>)
    ensures FirstProblem(addresses).None? <==>
      forall i :: 0 <= i < |addresses| ==> addresses[i].Some? && addresses[i].value.address !in SERVICE_ADDRESSES
  {
    if addresses != [] {
      ListedPeers(addresses[1..]);
      assert forall i :: 1 <= i < |addresses| ==> addresses[i] == addresses[1..][i - 1];
    }
  }

  /** A list is installed exactly when it is short enough, holds only peers, and none of them is a service. */
  lemma InstallsExactly(sh: Shared, addresses: seq<Option<Peer>>)
    ensures Install(sh, addresses).1.Ok? <==>
      && |addresses| <= MAX_TARGETS && !sh.closed
      && forall i :: 0 <= i < |addresses| ==> addresses[i].Some? && addresses[i].value.address !in SERVICE_ADDRESSES
  {
    hide FirstProblem;
    ListedPeers(addresses);
  }

  // ----- The object -----------------------------------------------------------

  class Proxy {
    var targets: set<Peer>
    var active: set<Conn>
    var closed: bool
    var generation: nat
    var pending: map<nat, nat>
    var nextDial: nat
    var used: nat
    var cancelled: set<nat>
    var open: set<Conn>

    function View(): Shared
      reads this
    {
      Shared(targets, active, closed, generation, pending, nextDial, used, cancelled, open)
    }

    constructor ()
      ensures View() == Shared({}, {}, false, 0, map[], 0, 0, {}, {})
    {
      targets, active, closed, generation := {}, {}, false, 0;
      pending, nextDial, used, cancelled, open := map[], 0, 0, {}, {};
    }

    /** Replace the allowlist and invalidate live tunnels; a refused list changes nothing. */
    method SetTargets(addresses: seq<Option<Peer>>) returns (r: Result<(), Refusal>)
      modifies this
      ensures (View(), r) == Install(old(View()), addresses)
      ensures r.Ok? <==>
        && |addresses| <= 8 && !old(closed)
        && (forall i :: 0 <= i < |addresses| ==> addresses[i].Some?)
        && (forall i :: 0 <= i < |addresses| && addresses[i].Some? ==>
              addresses[i].value.address !in {"100.100.100.100", "fd7a:115c:a1e0::53"})
      ensures r.Ok? ==>
        && active * open == {} && pending.Values <= cancelled
        && open == old(open) - active && cancelled == old(cancelled) + pending.Values
        && generation == (old(generation) + 1) % 0x1_0000_0000_0000_0000
        && active == old(active) && pending == old(pending) && nextDial == old(nextDial)
        && used == old(used) && !closed
      ensures r.Ok? ==> forall p :: p in targets <==> Some(p) in addresses
      ensures r.Err? ==> View() == old(View())
    {
      InstallsExactly(View(), addresses);
      if |addresses| > MAX_TARGETS {
        return Err(TooManyTargets);
      }
      var next: set<Peer> := {};
      for i := 0 to |addresses|
        invariant next == Peers(addresses[..i])
        invariant FirstProblem(addresses) == FirstProblem(addresses[i..])
        invariant View() == old(View())
      {
        assert addresses[i..][1..] == addresses[i + 1..];
        var peer := addresses[i];
        if peer.None? {
          return Err(InvalidPeer);
        }
        if peer.value.address in SERVICE_ADDRESSES {
          return Err(ServiceAddress);
        }
        assert addresses[..i + 1] == addresses[..i] + [peer];
        assert peer in addresses[..i + 1];
        next := next + {peer.value};
      }
      assert addresses[..|addresses|] == addresses;
      if closed {
        return Err(ProxyClosed);
      }
      generation := (generation + 1) % WORD;
      CancelPending();
      targets := next;
      CloseActive();
      r := Ok(());
    }

    /** Cancel active streams as well as pending dials, for good. */
    method Close()
      modifies this
      ensures View() == Shut(old(View()))
      ensures closed && active * open == {} && pending.Values <= cancelled
      ensures open == old(open) - active && cancelled == old(cancelled) + pending.Values
      ensures generation == (old(generation) + 1) % 0x1_0000_0000_0000_0000
      ensures targets == old(targets) && active == old(active) && pending == old(pending)
      ensures nextDial == old(nextDial) && used == old(used)
    {
      closed := true;
      generation := (generation + 1) % WORD;
      CancelPending();
      CloseActive();
    }

    method CancelPending()
      modifies this`cancelled
      ensures cancelled == old(cancelled) + pending.Values
    {
      var todo := pending.Keys;
      while todo != {}
        invariant todo <= pending.Keys
        invariant cancelled == old(cancelled) + (set id | id in pending.Keys - todo :: pending[id])
        decreases todo
      {
        var id :| id in todo;
        todo := todo - {id};
        cancelled := cancelled + {pending[id]};
        assert pending.Keys - todo == (pending.Keys - todo - {id}) + {id};
      }
      assert (set id | id in pending.Keys :: pending[id]) == pending.Values;
      assert pending.Keys - {} == pending.Keys;
    }

    method CloseActive()
      modifies this`open
      ensures open == old(open) - active
    {
      var todo := active;
      while todo != {}
        invariant todo <= active
        invariant open == old(open) - (active - todo)
        decreases todo
      {
        var conn :| conn in todo;
        todo := todo - {conn};
        open := open - {conn};
      }
    }

    /** The first check of a request: the epoch it was admitted in, or None for a refusal. */
    method Admit(request: Request) returns (epoch: Option<nat>)
      ensures epoch.Some? <==>
        && request.authorized && request.connect && request.peer.Some?
        && request.peer.value in targets && !closed
      ensures epoch.Some? ==> epoch.value == generation
      ensures epoch == if Allowed(View(), request) then Some(generation) else None
    {
      if !request.authorized {
        return None;
      }
      var seen := generation;
      var allowed := request.peer.Some? && request.peer.value in targets && !closed;
      if !request.connect || !allowed {
        return None;
      }
      epoch := Some(seen);
    }

    method TryAcquire() returns (ok: bool)
      modifies this`used
      ensures ok == (old(used) < 32) && used == if ok then old(used) + 1 else old(used)
      ensures View() == AcquireSlot(old(View()))
    {
      ok := used < SLOTS;
      if ok {
        used := used + 1;
      }
    }

    method BeginDial(handler: nat, epoch: nat) returns (id: Option<nat>)
      modifies this
      ensures (View(), id) == StartDial(old(View()), handler, epoch)
      ensures id.Some? <==> !closed && generation == epoch
      ensures id.Some? ==>
        && id.value == nextDial == (old(nextDial) + 1) % 0x1_0000_0000_0000_0000
        && pending == old(pending)[nextDial := handler] && cancelled == old(cancelled)
      ensures id.None? ==>
        pending == old(pending) && nextDial == old(nextDial) && cancelled == old(cancelled) + {handler}
      ensures targets == old(targets) && active == old(active) && closed == old(closed)
      ensures generation == old(generation) && used == old(used) && open == old(open)
    {
      if closed || generation != epoch {
        cancelled := cancelled + {handler};
        return None;
      }
      nextDial := (nextDial + 1) % WORD;
      pending := pending[nextDial := handler];
      id := Some(nextDial);
    }

    method EndDial(handler: nat, id: nat)
      modifies this
      ensures View() == FinishDial(old(View()), handler, id)
      ensures pending == old(pending) - {id} && cancelled == old(cancelled) + {handler}
      ensures targets == old(targets) && active == old(active) && closed == old(closed)
      ensures generation == old(generation) && nextDial == old(nextDial) && used == old(used) && open == old(open)
    {
      pending := pending - {id};
      cancelled := cancelled + {handler};
    }

    method Register(handler: nat, epoch: nat, peer: Peer) returns (ok: bool)
      modifies this`active
      ensures ok <==> !closed && generation == epoch && peer in targets
      ensures active == if ok then old(active) + {Client(handler), Upstream(handler)} else old(active)
      ensures ok == MayRegister(old(View()), epoch, peer)
      ensures View() == Enter(old(View()), handler, epoch, peer)
    {
      if closed || generation != epoch || peer !in targets {
        return false;
      }
      active := active + {Client(handler)};
      active := active + {Upstream(handler)};
      ok := true;
    }

    method Unregister(handler: nat)
      modifies this`active
      ensures active == old(active) - {Client(handler), Upstream(handler)}
      ensures View() == Leave(old(View()), handler)
    {
      active := active - {Client(handler)};
      active := active - {Upstream(handler)};
    }
  }
}
