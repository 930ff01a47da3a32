/**
 Every interleaving of any number of `ServeHTTP` handlers with `SetTargets` and `Close`
 (native/pondnet/proxy.go): a labelled transition system whose atomic steps are the
 sections of `ConnectProxy`, and what holds in every state it can reach.
 */
module ProxyProtocol {
  import Sets
  import opened Results
  import opened ConnectProxy

  // ----- States and steps -----------------------------------------------------

  /**
   Where a handler is. `epoch` is the generation it read when its target was checked; `seen`
   and `nth` are history: how many invalidations had happened then, and which dial of the
   proxy's life its own is.
   */
  datatype Handler =
    | Admitted(epoch: nat, peer: Peer, seen: nat)
    | Slotted(epoch: nat, peer: Peer, seen: nat)
    | Dialing(epoch: nat, peer: Peer, seen: nat, id: nat, nth: nat)
    | Answered(epoch: nat, peer: Peer, seen: nat, id: nat, nth: nat, ok: bool)
    | Dialed(epoch: nat, peer: Peer, seen: nat)
    | Hijacked(epoch: nat, peer: Peer, seen: nat)
    | Tunnel(epoch: nat, peer: Peer, seen: nat)
    | Draining
    | Closed
    | Returned
  {
    /** Between taking a slot of `limit` and giving it back. */
    predicate Holds() { !Admitted? && !Returned? }

    predicate InDial() { Dialing? || Answered? }

    predicate HasEpoch() { !Draining? && !Closed? && !Returned? }

    /** May own an open upstream socket. */
    predicate MayHaveUpstream() {
      (Answered? && ok) || Dialed? || Hijacked? || Tunnel? || Draining?
    }

    /** May own an open client socket. */
    predicate MayHaveClient() { Hijacked? || Tunnel? || Draining? }
  }

  /** `bumps` and `dials` count every invalidation and every dial, without wrap-around. */
  datatype State = State(shared: Shared, handlers: map<nat, Handler>, bumps: nat, dials: nat)

  const Init := State(Shared({}, {}, false, 0, map[], 0, 0, {}, {}), map[], 0, 0)

  datatype Label =
    | Arrive(h: nat, request: Request)
    | Acquire(h: nat)
    | BeginDial(h: nat)
    | Expire(h: nat)
    | DialReturns(h: nat, ok: bool)
    | EndDial(h: nat)
    | Hijack(h: nat, ok: bool)
    | Register(h: nat)
    | Hangup(h: nat)
    | Unregister(h: nat)
    | CloseSockets(h: nat)
    | Release(h: nat)
    | SetTargets(addresses: seq<Option<Peer>>)
    | Close

  predicate Can(s: State, l: Label) {
    match l
    case Arrive(h, _) => h !in s.handlers
    case SetTargets(_) => true
    case Close => true
    case _ =>
      l.h in s.handlers &&
      var p := s.handlers[l.h];
      match l
      case Acquire(_) => p.Admitted?
      case BeginDial(_) => p.Slotted?
      case Expire(_) => p.InDial()
      case DialReturns(_, _) => p.Dialing?
      case EndDial(_) => p.Answered?
      case Hijack(_, _) => p.Dialed?
      case Register(_) => p.Hijacked?
      case Hangup(_) => p.Tunnel?
      case Unregister(_) => p.Tunnel?
      case CloseSockets(_) => p.Draining?
      case Release(_) => p.Closed?
      case _ => true
  }

  function Move(s: State, shared: Shared, h: nat, p: Handler): State {
    s.(shared := shared, handlers := s.handlers[h := p])
  }

  function Apply(s: State, l: Label): State
    requires Can(s, l)
  {
    var sh := s.shared;
    match l
    case Arrive(h, request) =>
      Move(s, sh, h,
           if Allowed(sh, request) then Admitted(sh.generation, request.peer.value, s.bumps)
           else Returned)
    case SetTargets(addresses) =>
      var (sh', r) := Install(sh, addresses);
      s.(shared := sh', bumps := if r.Ok? then s.bumps + 1 else s.bumps)
    case Close =>
      s.(shared := Shut(sh), bumps := s.bumps + 1)
    case _ => Progress(s, l, s.handlers[l.h])
  }

  /** The steps of one handler after its request was admitted. */
  function Progress(s: State, l: Label, p: Handler): State
    requires Can(s, l) && !l.Arrive? && !l.SetTargets? && !l.Close?
    requires p == s.handlers[l.h]
  {
    var sh := s.shared;
    match l
    case Acquire(h) =>
      Move(s, AcquireSlot(sh), h,
           if sh.used < SLOTS then Slotted(p.epoch, p.peer, p.seen) else Returned)
    case BeginDial(h) =>
      var (sh', id) := StartDial(sh, h, p.epoch);
      if id.None? then Move(s, sh', h, Closed)
      else Move(s, sh', h, Dialing(p.epoch, p.peer, p.seen, id.value, s.dials + 1))
             .(dials := s.dials + 1)
    case Expire(h) =>
      s.(shared := sh.(cancelled := sh.cancelled + {h}))
    case DialReturns(h, ok) =>
      Move(s, if ok then sh.(open := sh.open + {Upstream(h)}) else sh, h,
           Answered(p.epoch, p.peer, p.seen, p.id, p.nth, ok))
    case EndDial(h) =>
      Move(s, FinishDial(sh, h, p.id), h,
           if p.ok then Dialed(p.epoch, p.peer, p.seen) else Closed)
    case Hijack(h, ok) =>
      if ok then Move(s, sh.(open := sh.open + {Client(h)}), h, Hijacked(p.epoch, p.peer, p.seen))
      else Move(s, sh, h, Draining)
    case Register(h) =>
      Move(s, Enter(sh, h, p.epoch, p.peer), h,
           if MayRegister(sh, p.epoch, p.peer) then Tunnel(p.epoch, p.peer, p.seen) else Draining)
    case Hangup(h) =>
      s.(shared := sh.(open := sh.open - Sockets(h)))
    case Unregister(h) =>
      Move(s, Leave(sh, h), h, Draining)
    case CloseSockets(h) =>
      Move(s, sh.(open := sh.open - Sockets(h)), h, Closed)
    case Release(h) =>
      Move(s, if sh.used > 0 then sh.(used := sh.used - 1) else sh, h, Returned)
  }

  /** The state a sequence of steps leads to; None when a step is not possible where it stands. */
  function Run(s: State, labels: seq<Label>): Option<State> {
    if labels == [] then Some(s)
    else
      var before := Run(s, labels[..|labels| - 1]);
      var last := labels[|labels| - 1];
      if before.Some? && Can(before.value, last) then Some(Apply(before.value, last)) else None
  }

  ghost predicate Reachable(s: State) {
    exists labels :: Run(Init, labels) == Some(s)
  }

  // ----- The invariant --------------------------------------------------------

  function Holders(s: State): set<nat> {
    set h | h in s.handlers && s.handlers[h].Holds()
  }

  function HandlerOf(conn: Conn): nat {
    conn.handler
  }

  /** The used slots are the handlers between acquire and release, and fit the channel. */
  ghost predicate SlotsInv(s: State) {
    s.shared.used == |Holders(s)| && s.shared.used <= SLOTS
  }

  /** Counters are their histories modulo the word, and every handler's epoch is in the past. */
  ghost predicate HistoryInv(s: State) {
    && s.shared.generation == s.bumps % WORD
    && s.shared.nextDial == s.dials % WORD
    && (forall h :: h in s.handlers && s.handlers[h].HasEpoch() ==>
          var p := s.handlers[h];
          && p.seen <= s.bumps
          && p.epoch == p.seen % WORD
          && (p.seen == s.bumps ==> p.peer in s.shared.targets && !s.shared.closed))
  }

  /** Pending entries belong to handlers in their dial; those not cancelled are of this epoch. */
  ghost predicate PendingInv(s: State) {
    forall id :: id in s.shared.pending ==>
      var h := s.shared.pending[id];
      && h in s.handlers && s.handlers[h].InDial() && s.handlers[h].id == id
      && (h !in s.shared.cancelled ==>
            s.handlers[h].epoch == s.shared.generation && !s.shared.closed)
  }

  /** Dials are numbered in order, and their ids are those numbers modulo the word. */
  ghost predicate DialInv(s: State) {
    && (forall h :: h in s.handlers && s.handlers[h].InDial() ==>
          1 <= s.handlers[h].nth <= s.dials && s.handlers[h].id == s.handlers[h].nth % WORD)
    && (forall h, g :: h in s.handlers && g in s.handlers && h != g
                       && s.handlers[h].InDial() && s.handlers[g].InDial() ==>
          s.handlers[h].nth != s.handlers[g].nth)
  }

  /** Until ids have wrapped, every handler in its dial has its own pending entry. */
  ghost predicate OwnEntryInv(s: State) {
    s.dials <= WORD ==>
      forall h :: h in s.handlers && s.handlers[h].InDial() ==>
        s.handlers[h].id in s.shared.pending && s.shared.pending[s.handlers[h].id] == h
  }

  /** Registered sockets are exactly the tunnels'; the open ones are of this epoch. */
  ghost predicate ActiveInv(s: State) {
    && (forall c :: c in s.shared.active <==>
          HandlerOf(c) in s.handlers && s.handlers[HandlerOf(c)].Tunnel?)
    && (forall c :: c in s.shared.active && c in s.shared.open ==>
          TunnelIsCurrent(s, HandlerOf(c)))
  }

  ghost predicate TunnelIsCurrent(s: State, h: nat) {
    && h in s.handlers && s.handlers[h].Tunnel?
    && s.handlers[h].epoch == s.shared.generation
    && s.handlers[h].peer in s.shared.targets
    && !s.shared.closed
  }

  ghost predicate OpenInv(s: State) {
    forall c :: c in s.shared.open ==>
      && HandlerOf(c) in s.handlers
      && (c.Upstream? ==> s.handlers[HandlerOf(c)].MayHaveUpstream())
      && (c.Client? ==> s.handlers[HandlerOf(c)].MayHaveClient())
  }

  ghost predicate Inv(s: State) {
    && SlotsInv(s) && HistoryInv(s) && PendingInv(s) && DialInv(s)
    && OwnEntryInv(s) && ActiveInv(s) && OpenInv(s)
  }

  // ----- Every step keeps it --------------------------------------------------

  lemma HoldersAfter(s: State, s': State, h: nat)
    requires s'.handlers.Keys == s.handlers.Keys + {h}
    requires forall g :: g in s.handlers && g != h ==> s'.handlers[g] == s.handlers[g]
    ensures |Holders(s')| == |Holders(s)|
              + (if s'.handlers[h].Holds() && h !in Holders(s) then 1
                 else if !s'.handlers[h].Holds() && h in Holders(s) then -1 else 0)
  {
    hide Handler.Holds;
    var without := Holders(s) - {h};
    assert Holders(s) == if h in Holders(s) then without + {h} else without;
    assert Holders(s') == if s'.handlers[h].Holds() then without + {h} else without;
  }

  lemma StepKeepsSlots(s: State, l: Label)
    requires Inv(s) && Can(s, l)
    ensures SlotsInv(Apply(s, l))
  {
    hide HistoryInv, PendingInv, DialInv, OwnEntryInv, ActiveInv, OpenInv, ListProblem, Peers;
    var s' := Apply(s, l);
    if l.SetTargets? || l.Close? {
      assert Holders(s') == Holders(s);
    } else {
      HoldersAfter(s, s', l.h);
      if l.Release? {
        assert l.h in Holders(s);
      }
    }
  }

  lemma StepKeepsHistory(s: State, l: Label)
    requires Inv(s) && Can(s, l)
    ensures HistoryInv(Apply(s, l))
  {
    hide SlotsInv, PendingInv, DialInv, OwnEntryInv, ActiveInv, OpenInv, ListProblem;
    if l.SetTargets? || l.Close? || l.BeginDial? {
      NextWord(s.bumps);
      NextWord(s.dials);
    }
  }

  lemma NextWord(n: nat)
    ensures (n % WORD + 1) % WORD == (n + 1) % WORD
  {
  }

  lemma StepKeepsPending(s: State, l: Label)
    requires Inv(s) && Can(s, l)
    ensures PendingInv(Apply(s, l))
  {
    hide SlotsInv, HistoryInv, DialInv, OwnEntryInv, ActiveInv, OpenInv, Apply, Can;
    forall id | id in Apply(s, l).shared.pending ensures PendingIsCurrent(Apply(s, l), id) {
      StepKeepsOnePending(s, l, id);
    }
  }

  predicate PendingIsCurrent(s: State, id: nat)
    requires id in s.shared.pending
  {
    var h := s.shared.pending[id];
    && h in s.handlers && s.handlers[h].InDial() && s.handlers[h].id == id
    && (h !in s.shared.cancelled ==> s.handlers[h].epoch == s.shared.generation && !s.shared.closed)
  }

  lemma StepKeepsOnePending(s: State, l: Label, id: nat)
    requires Inv(s) && Can(s, l) && id in Apply(s, l).shared.pending
    ensures PendingIsCurrent(Apply(s, l), id)
  {
    hide SlotsInv, HistoryInv, DialInv, OwnEntryInv, ActiveInv, OpenInv, ListProblem, Peers, MayRegister;
    if id in s.shared.pending {
      assert s.shared.pending[id] in s.shared.pending.Values;
    }
  }

  lemma StepKeepsDial(s: State, l: Label)
    requires Inv(s) && Can(s, l)
    ensures DialInv(Apply(s, l))
  {
    hide SlotsInv, HistoryInv, PendingInv, DialInv, OwnEntryInv, ActiveInv, OpenInv, Apply, Can;
    var s' := Apply(s, l);
    forall h | h in s'.handlers && s'.handlers[h].InDial()
      ensures 1 <= s'.handlers[h].nth <= s'.dials && s'.handlers[h].id == s'.handlers[h].nth % WORD
    {
      StepKeepsOneDial(s, l, h);
    }
    DialInvIs(s');
    forall h, g | h in s'.handlers && g in s'.handlers && h != g
                  && s'.handlers[h].InDial() && s'.handlers[g].InDial()
      ensures s'.handlers[h].nth != s'.handlers[g].nth
    {
      StepKeepsDialPair(s, l, h, g);
    }
  }

  /** What is to be shown of the dials of a state. */
  lemma DialInvIs(s: State)
    ensures DialInv(s) <==>
      && (forall h :: h in s.handlers && s.handlers[h].InDial() ==>
            1 <= s.handlers[h].nth <= s.dials && s.handlers[h].id == s.handlers[h].nth % WORD)
      && (forall h, g :: h in s.handlers && g in s.handlers && h != g
                         && s.handlers[h].InDial() && s.handlers[g].InDial() ==>
            s.handlers[h].nth != s.handlers[g].nth)
  {
  }

  lemma StepKeepsOneDial(s: State, l: Label, h: nat)
    requires Inv(s) && Can(s, l)
    requires h in Apply(s, l).handlers && Apply(s, l).handlers[h].InDial()
    ensures var s' := Apply(s, l);
      1 <= s'.handlers[h].nth <= s'.dials && s'.handlers[h].id == s'.handlers[h].nth % WORD
  {
    hide SlotsInv, PendingInv, OwnEntryInv, ActiveInv, OpenInv, ListProblem, Peers;
    NextWord(s.dials);
  }

  lemma StepKeepsDialPair(s: State, l: Label, h: nat, g: nat)
    requires Inv(s) && Can(s, l) && h != g
    requires h in Apply(s, l).handlers && Apply(s, l).handlers[h].InDial()
    requires g in Apply(s, l).handlers && Apply(s, l).handlers[g].InDial()
    ensures Apply(s, l).handlers[h].nth != Apply(s, l).handlers[g].nth
  {
    hide SlotsInv, HistoryInv, PendingInv, OwnEntryInv, ActiveInv, OpenInv, ListProblem, Peers;
    var s' := Apply(s, l);
    if l.BeginDial? && (l.h == h || l.h == g) {
      var other := if l.h == h then g else h;
      assert s.handlers[other].nth <= s.dials;
    } else {
      assert s.handlers[h].InDial() && s.handlers[h].nth == s'.handlers[h].nth;
      assert s.handlers[g].InDial() && s.handlers[g].nth == s'.handlers[g].nth;
    }
  }

  ghost predicate HasOwnEntry(s: State, h: nat)
    requires h in s.handlers && s.handlers[h].InDial()
  {
    s.handlers[h].id in s.shared.pending && s.shared.pending[s.handlers[h].id] == h
  }

  lemma StepKeepsOwnEntry(s: State, l: Label)
    requires Inv(s) && Can(s, l)
    ensures OwnEntryInv(Apply(s, l))
  {
    hide SlotsInv, HistoryInv, PendingInv, DialInv, ActiveInv, OpenInv, ListProblem, Peers, Apply;
    var s' := Apply(s, l);
    if s'.dials <= WORD {
      forall h | h in s'.handlers && s'.handlers[h].InDial()
        ensures HasOwnEntry(s', h)
      {
        StepKeepsOneEntry(s, l, h);
      }
    }
  }

  lemma StepKeepsOneEntry(s: State, l: Label, h: nat)
    requires Inv(s) && Can(s, l) && Apply(s, l).dials <= WORD
    requires h in Apply(s, l).handlers && Apply(s, l).handlers[h].InDial()
    ensures HasOwnEntry(Apply(s, l), h)
  {
    hide SlotsInv, PendingInv, ActiveInv, OpenInv, ListProblem, Peers, Allowed, MayRegister;
    var s' := Apply(s, l);
    if l.BeginDial? && l.h != h && s'.dials > s.dials {
      NextWord(s.dials);
      DistinctIds(s.handlers[h].nth, s.dials + 1, s.dials + 1);
    } else if l.EndDial? {
      DistinctIds(s.handlers[h].nth, s.handlers[l.h].nth, s.dials);
    }
  }

  lemma DistinctIds(m: nat, n: nat, dials: nat)
    requires 1 <= m <= dials && 1 <= n <= dials && dials <= WORD
    ensures m % WORD == n % WORD ==> m == n
  {
    if m < WORD { assert m % WORD == m; } else { assert m % WORD == 0; }
    if n < WORD { assert n % WORD == n; } else { assert n % WORD == 0; }
  }

  lemma StepKeepsActive(s: State, l: Label)
    requires Inv(s) && Can(s, l)
    ensures ActiveInv(Apply(s, l))
  {
    hide SlotsInv, HistoryInv, PendingInv, DialInv, OwnEntryInv, OpenInv, ListProblem;
  }

  lemma StepKeepsOpen(s: State, l: Label)
    requires Inv(s) && Can(s, l)
    ensures OpenInv(Apply(s, l))
  {
    hide SlotsInv, HistoryInv, PendingInv, DialInv, OwnEntryInv, ActiveInv, ListProblem, Peers;
  }

  lemma StepKeepsInv(s: State, l: Label)
    requires Inv(s) && Can(s, l)
    ensures Inv(Apply(s, l))
  {
    StepKeepsSlots(s, l);
    StepKeepsHistory(s, l);
    StepKeepsPending(s, l);
    StepKeepsDial(s, l);
    StepKeepsOwnEntry(s, l);
    StepKeepsActive(s, l);
    StepKeepsOpen(s, l);
  }

  lemma {:induction false} RunKeepsInv(s: State, labels: seq<Label>)
    requires Inv(s) && Run(s, labels).Some?
    ensures Inv(Run(s, labels).value)
  {
    if labels != [] {
      RunKeepsInv(s, labels[..|labels| - 1]);
      StepKeepsInv(Run(s, labels[..|labels| - 1]).value, labels[|labels| - 1]);
    }
  }

  lemma ReachableInv(s: State)
    requires Reachable(s)
    ensures Inv(s)
  {
    var labels :| Run(Init, labels) == Some(s);
    assert Holders(Init) == {};
    RunKeepsInv(Init, labels);
  }

  // ----- What every reachable state satisfies ---------------------------------

  /**
   No tunnel outlives an allowlist change: a registered socket that is still open belongs to
   a tunnel of the current epoch, to a target still allowed, on a proxy still open.
   */
  lemma NoTunnelOutlivesItsEpoch(s: State, c: Conn)
    requires Reachable(s) && c in s.shared.active && c in s.shared.open
    ensures HandlerOf(c) in s.handlers && s.handlers[HandlerOf(c)].Tunnel?
    ensures s.handlers[HandlerOf(c)].epoch == s.shared.generation
    ensures s.handlers[HandlerOf(c)].peer in s.shared.targets
    ensures !s.shared.closed
  {
    ReachableInv(s);
  }

  /** Whoever is past admission, a tunnel included, came with the credential and asked for its peer. */
  ghost predicate CameIn(labels: seq<Label>, h: nat, peer: Peer) {
    exists r :: Arrive(h, r) in labels && r.authorized && r.connect && r.peer == Some(peer)
  }

  lemma {:induction false} NoEpochWithoutCredential(labels: seq<Label>, s: State, h: nat)
    requires Run(Init, labels) == Some(s) && h in s.handlers && s.handlers[h].HasEpoch()
    ensures CameIn(labels, h, s.handlers[h].peer)
    decreases |labels|
  {
    hide CameIn, Run;
    RunOfNone();
    if labels != [] {
      var front, l := labels[..|labels| - 1], labels[|labels| - 1];
      var u := LastStep(labels, s);
      if l == Arrive(h, if l.Arrive? then l.request else Request(false, false, None)) {
        ArrivalHasCredential(u, l, labels, h);
      } else {
        StepKeepsPeer(u, l, h);
        NoEpochWithoutCredential(front, u, h);
        LongerCameIn(front, l, h, s.handlers[h].peer);
        assert labels == front + [l];
      }
    }
  }

  lemma RunOfNone()
    ensures Run(Init, []) == Some(Init)
  {
  }

  lemma LastStep(labels: seq<Label>, s: State) returns (u: State)
    requires labels != [] && Run(Init, labels) == Some(s)
    ensures Run(Init, labels[..|labels| - 1]) == Some(u)
    ensures Can(u, labels[|labels| - 1]) && Apply(u, labels[|labels| - 1]) == s
  {
    hide Can, Apply;
    u := Run(Init, labels[..|labels| - 1]).value;
  }

  lemma ArrivalHasCredential(s: State, l: Label, labels: seq<Label>, h: nat)
    requires Can(s, l) && l.Arrive? && l.h == h && l in labels && Apply(s, l).handlers[h].HasEpoch()
    ensures CameIn(labels, h, Apply(s, l).handlers[h].peer)
  {
    assert Arrive(h, l.request) in labels;
  }

  lemma StepKeepsPeer(s: State, l: Label, h: nat)
    requires Can(s, l) && !(l.Arrive? && l.h == h)
    requires h in Apply(s, l).handlers && Apply(s, l).handlers[h].HasEpoch()
    ensures h in s.handlers && s.handlers[h].HasEpoch() && s.handlers[h].peer == Apply(s, l).handlers[h].peer
  {
    hide Install, Shut, StartDial, Enter, MayRegister, Allowed;
  }

  lemma LongerCameIn(front: seq<Label>, l: Label, h: nat, peer: Peer)
    requires CameIn(front, h, peer)
    ensures CameIn(front + [l], h, peer)
  {
  }

  /** An accepted `SetTargets`, or `Close`, leaves no registered socket open and no dial alive. */
  lemma InvalidationReachesEveryone(s: State, l: Label)
    requires Reachable(s) && (l.Close? || (l.SetTargets? && Install(s.shared, l.addresses).1.Ok?))
    ensures Apply(s, l).shared.active * Apply(s, l).shared.open == {}
    ensures forall id :: id in s.shared.pending ==>
      s.shared.pending[id] in Apply(s, l).shared.cancelled
    ensures s.dials <= WORD ==> forall h :: h in s.handlers && s.handlers[h].InDial() ==>
      h in Apply(s, l).shared.cancelled
    ensures forall h :: h in s.handlers && s.handlers[h].HasEpoch() ==>
      s.handlers[h].seen < Apply(s, l).bumps
  {
    ReachableInv(s);
    forall id | id in s.shared.pending
      ensures s.shared.pending[id] in s.shared.pending.Values
    {
    }
    forall h | s.dials <= WORD && h in s.handlers && s.handlers[h].InDial()
      ensures h in s.shared.pending.Values
    {
      assert s.shared.pending[s.handlers[h].id] == h;
    }
  }

  /** A dial entry whose context is not cancelled is of the current epoch, on an open proxy. */
  lemma PendingDialsAreCurrent(s: State, id: nat)
    requires Reachable(s) && id in s.shared.pending
    ensures var h := s.shared.pending[id];
      && h in s.handlers && s.handlers[h].InDial() && s.handlers[h].id == id
      && (h in s.shared.cancelled
          || (s.handlers[h].epoch == s.shared.generation && !s.shared.closed))
    ensures forall h ::
      h in s.handlers && s.handlers[h].InDial() && s.handlers[h].id == id && s.dials <= WORD ==>
        h == s.shared.pending[id]
  {
    ReachableInv(s);
  }

  /** Two handlers can share a dial id only if whole words of dials lie between their dials. */
  lemma SharedDialIds(s: State, h: nat, g: nat)
    requires Reachable(s) && h in s.handlers && g in s.handlers && h != g
    requires s.handlers[h].InDial() && s.handlers[g].InDial()
    requires s.handlers[h].nth <= s.handlers[g].nth && s.handlers[h].id == s.handlers[g].id
    ensures s.handlers[h].nth + WORD <= s.handlers[g].nth <= s.dials
  {
    ReachableInv(s);
    var m, n := s.handlers[h].nth, s.handlers[g].nth;
    assert m % WORD == n % WORD && m != n;
    assert n == m + (n / WORD - m / WORD) * WORD;
  }

  lemma InjectiveImageSize<A, B>(m: map<A, B>, s: set<B>)
    requires forall a :: a in m ==> m[a] in s
    requires forall a, b :: a in m && b in m && a != b ==> m[a] != m[b]
    ensures |m| <= |s|
    decreases |m|
  {
    if m != map[] {
      var a :| a in m;
      InjectiveImageSize(m - {a}, s - {m[a]});
      assert m.Keys == (m - {a}).Keys + {a};
    }
  }

  lemma SocketsSize(conns: set<Conn>, handlers: set<nat>)
    requires forall c :: c in conns ==> HandlerOf(c) in handlers
    ensures |conns| <= 2 * |handlers|
    decreases |handlers|
  {
    if handlers == {} {
      assert conns == {};
    } else {
      var h :| h in handlers;
      SocketsSize(conns - Sockets(h), handlers - {h});
      assert conns <= (conns - Sockets(h)) + Sockets(h);
      Sets.SubsetSize(conns, (conns - Sockets(h)) + Sockets(h));
    }
  }

  /** The semaphore is exact, and it bounds the dials, the tunnels and their sockets. */
  lemma Bounds(s: State)
    requires Reachable(s)
    ensures s.shared.used == |Holders(s)| <= SLOTS
    ensures |s.shared.pending| <= SLOTS
    ensures |s.shared.active| <= 2 * SLOTS
    ensures |s.shared.open| <= 2 * SLOTS
  {
    ReachableInv(s);
    InjectiveImageSize(s.shared.pending, Holders(s));
    SocketsSize(s.shared.active, Holders(s));
    SocketsSize(s.shared.open, Holders(s));
  }

  /** Once every handler has returned, nothing is left in any table and no socket is open. */
  lemma QuiescentIsClean(s: State)
    requires Reachable(s)
    requires forall h :: h in s.handlers ==> s.handlers[h].Returned?
    ensures s.shared.pending == map[] && s.shared.active == {} && s.shared.open == {}
    ensures s.shared.used == 0
  {
    ReachableInv(s);
    assert Holders(s) == {};
    assert s.shared.pending.Keys == {};
  }

  /** A closed proxy never opens again, admits nobody and registers nobody. */
  lemma ClosedStaysClosed(s: State, l: Label)
    requires s.shared.closed && Can(s, l)
    ensures Apply(s, l).shared.closed
    ensures Apply(s, l).shared.active <= s.shared.active
    ensures Apply(s, l).shared.pending.Keys <= s.shared.pending.Keys
    ensures l.Arrive? ==> Apply(s, l).handlers[l.h].Returned?
  {
  }

  /** The same along any run, and no handler that has no tunnel by then gets one. */
  lemma {:induction false} ClosedForGood(s: State, labels: seq<Label>)
    requires s.shared.closed && Run(s, labels).Some?
    ensures var t := Run(s, labels).value;
      && t.shared.closed
      && t.shared.active <= s.shared.active && t.shared.pending.Keys <= s.shared.pending.Keys
      && s.handlers.Keys <= t.handlers.Keys
      && (forall h :: h in t.handlers && h !in s.handlers ==> t.handlers[h].Returned?)
      && (forall h :: h in s.handlers && !s.handlers[h].Tunnel? ==> !t.handlers[h].Tunnel?)
  {
    hide Apply, Can;
    if labels != [] {
      var front, last := labels[..|labels| - 1], labels[|labels| - 1];
      ClosedForGood(s, front);
      var u := Run(s, front).value;
      ClosedStaysClosed(u, last);
      ClosedStepOfHandlers(u, last);
    }
  }

  lemma ClosedStepOfHandlers(s: State, l: Label)
    requires s.shared.closed && Can(s, l)
    ensures var t := Apply(s, l);
      && s.handlers.Keys <= t.handlers.Keys
      && (forall h :: h in t.handlers && h !in s.handlers ==> t.handlers[h].Returned?)
      && (forall h :: h in s.handlers && s.handlers[h].Returned? ==> t.handlers[h].Returned?)
      && (forall h :: h in s.handlers && !s.handlers[h].Tunnel? ==> !t.handlers[h].Tunnel?)
  {
  }

  /** A handler without a tunnel whose epoch, if it still has one, an invalidation has passed. */
  ghost predicate Passed(s: State, h: nat, seen: nat) {
    && h in s.handlers && seen < s.bumps && !s.handlers[h].Tunnel?
    && (s.handlers[h].HasEpoch() ==> s.handlers[h].seen == seen)
  }

  lemma WithinAWord(m: nat, n: nat)
    requires n < m && m - n < WORD
    ensures m % WORD != n % WORD
  {
    assert m - n == (m / WORD - n / WORD) * WORD + (m % WORD - n % WORD);
  }

  lemma BumpsGrow(s: State, l: Label)
    requires Can(s, l)
    ensures Apply(s, l).bumps >= s.bumps
  {
  }

  lemma StepStaysPassed(s: State, l: Label, h: nat, seen: nat)
    requires Inv(s) && Can(s, l) && Passed(s, h, seen) && s.bumps - seen < WORD
    ensures Passed(Apply(s, l), h, seen)
  {
    hide SlotsInv, PendingInv, DialInv, OwnEntryInv, ActiveInv, OpenInv, ListProblem, Peers;
    WithinAWord(s.bumps, seen);
  }

  /**
   A handler that an invalidation overtook before its tunnel was registered gets no tunnel in
   any run, as long as the generation has not wrapped under it.
   */
  lemma {:induction false} OvertakenGetsNoTunnel(s: State, labels: seq<Label>, h: nat)
    requires Reachable(s) && Run(s, labels).Some?
    requires h in s.handlers && s.handlers[h].HasEpoch() && !s.handlers[h].Tunnel?
    requires s.handlers[h].seen < s.bumps && Run(s, labels).value.bumps - s.handlers[h].seen < WORD
    ensures h in Run(s, labels).value.handlers && !Run(s, labels).value.handlers[h].Tunnel?
  {
    hide Reachable, Inv, Run;
    ReachableInv(s);
    RunStaysPassed(s, labels, h, s.handlers[h].seen);
  }

  lemma {:induction false} RunStaysPassed(s: State, labels: seq<Label>, h: nat, seen: nat)
    requires Inv(s) && Passed(s, h, seen) && Run(s, labels).Some?
    requires Run(s, labels).value.bumps - seen < WORD
    ensures Passed(Run(s, labels).value, h, seen)
  {
    hide Inv, Passed, Apply, Can;
    if labels != [] {
      var front, last := labels[..|labels| - 1], labels[|labels| - 1];
      var u := Run(s, front).value;
      BumpsGrow(u, last);
      RunStaysPassed(s, front, h, seen);
      RunKeepsInv(s, front);
      StepStaysPassed(u, last, h, seen);
    }
  }

  // ----- Nothing gets stuck ---------------------------------------------------

  /** Steps a handler may still take before it returns. */
  function Rank(p: Handler): nat {
    match p
    case Admitted(_, _, _) => 8
    case Slotted(_, _, _) => 7
    case Dialing(_, _, _, _, _) => 6
    case Answered(_, _, _, _, _, _) => 5
    case Dialed(_, _, _) => 4
    case Hijacked(_, _, _) => 3
    case Tunnel(_, _, _) => 3
    case Draining => 2
    case Closed => 1
    case Returned => 0
  }

  /** The next step of a handler that has not returned. */
  function NextOf(h: nat, p: Handler): Label
    requires !p.Returned?
  {
    match p
    case Admitted(_, _, _) => Acquire(h)
    case Slotted(_, _, _) => BeginDial(h)
    case Dialing(_, _, _, _, _) => DialReturns(h, false)
    case Answered(_, _, _, _, _, _) => EndDial(h)
    case Dialed(_, _, _) => Hijack(h, false)
    case Hijacked(_, _, _) => Register(h)
    case Tunnel(_, _, _) => Unregister(h)
    case Draining => CloseSockets(h)
    case Closed => Release(h)
  }

  /** `t` is `s` after steps of handler `h` alone, which has returned. */
  ghost predicate OnlyReturned(s: State, t: State, h: nat) {
    && t.handlers == s.handlers[h := Returned]
    && t.shared.targets == s.shared.targets && t.shared.closed == s.shared.closed
    && t.bumps == s.bumps
  }

  /** The next step of a handler moves it on, and touches no other handler. */
  lemma NextIsPossible(s: State, h: nat)
    requires h in s.handlers && !s.handlers[h].Returned?
    ensures Can(s, NextOf(h, s.handlers[h]))
    ensures var t := Apply(s, NextOf(h, s.handlers[h]));
      && h in t.handlers && t.handlers == s.handlers[h := t.handlers[h]]
      && (Rank(t.handlers[h]) < Rank(s.handlers[h])
          || (Rank(t.handlers[h]) == Rank(s.handlers[h]) && s.handlers[h].Hijacked? && !t.handlers[h].Hijacked?))
      && t.shared.targets == s.shared.targets && t.shared.closed == s.shared.closed && t.bumps == s.bumps
  {
  }

  lemma {:induction false} FinishHandler(s: State, h: nat) returns (labels: seq<Label>)
    requires h in s.handlers
    ensures Run(s, labels).Some? && OnlyReturned(s, Run(s, labels).value, h)
    decreases Rank(s.handlers[h]), s.handlers[h].Hijacked?
  {
    if s.handlers[h].Returned? {
      assert s.handlers[h := Returned] == s.handlers;
      labels := [];
    } else {
      hide Apply, Can, NextOf, Rank;
      var l := NextOf(h, s.handlers[h]);
      NextIsPossible(s, h);
      var rest := FinishHandler(Apply(s, l), h);
      assert [l][..0] == [];
      assert Run(s, [l]) == Some(Apply(s, l));
      RunConcat(s, [l], rest);
      labels := [l] + rest;
    }
  }

  /** From any state the proxy can drain: a run in which every handler returns. */
  lemma {:induction false} CanDrain(s: State, left: set<nat>) returns (labels: seq<Label>)
    requires forall h :: h in s.handlers && !s.handlers[h].Returned? ==> h in left
    ensures Run(s, labels).Some?
    ensures var t := Run(s, labels).value;
      && t.handlers.Keys == s.handlers.Keys && t.shared.targets == s.shared.targets
      && t.shared.closed == s.shared.closed
      && (forall h :: h in t.handlers ==> t.handlers[h].Returned?)
    decreases |left|
  {
    if left == {} {
      labels := [];
    } else {
      var h :| h in left;
      if h !in s.handlers {
        labels := CanDrain(s, left - {h});
      } else {
        var first := FinishHandler(s, h);
        var rest := CanDrain(Run(s, first).value, left - {h});
        RunConcat(s, first, rest);
        labels := first + rest;
      }
    }
  }

  // ----- The last look at the allowlist ---------------------------------------

  /**
   Before the generation has wrapped under it, a handler whose epoch still stands has a
   target that is still allowed, so registering on the epoch alone would be the same.
   */
  lemma EpochImpliesTarget(s: State, h: nat)
    requires Reachable(s) && h in s.handlers && s.handlers[h].Hijacked?
    requires s.bumps - s.handlers[h].seen < WORD
    ensures MayRegister(s.shared, s.handlers[h].epoch, s.handlers[h].peer)
       <==> s.shared.generation == s.handlers[h].epoch
  {
    ReachableInv(s);
    var seen := s.handlers[h].seen;
    if s.bumps % WORD == seen % WORD {
      assert s.bumps == seen + (s.bumps / WORD - seen / WORD) * WORD;
    }
  }

  function Empties(n: nat): seq<Label> {
    if n == 0 then [] else Empties(n - 1) + [SetTargets([])]
  }

  lemma {:induction false} RunConcat(s: State, first: seq<Label>, then_: seq<Label>)
    ensures Run(s, first + then_) ==
      if Run(s, first).Some? then Run(Run(s, first).value, then_) else None
  {
    if then_ == [] {
      assert first + then_ == first;
    } else {
      var front := then_[..|then_| - 1];
      RunConcat(s, first, front);
      assert (first + then_)[..|first + then_| - 1] == first + front;
    }
  }

  lemma {:induction false} EmptyingKeepsHandlers(s: State, n: nat)
    requires !s.shared.closed
    ensures Run(s, Empties(n)).Some?
    ensures var t := Run(s, Empties(n)).value;
      && t.handlers == s.handlers && !t.shared.closed && t.bumps == s.bumps + n
      && (n > 0 ==> t.shared.targets == {})
  {
    hide Apply, Can;
    if n > 0 {
      EmptyingKeepsHandlers(s, n - 1);
      assert Empties(n)[..|Empties(n)| - 1] == Empties(n - 1);
      EmptyOnce(Run(s, Empties(n - 1)).value);
    }
  }

  lemma EmptyOnce(s: State)
    requires !s.shared.closed
    ensures Can(s, SetTargets([]))
    ensures var t := Apply(s, SetTargets([]));
      t.handlers == s.handlers && !t.shared.closed && t.bumps == s.bumps + 1 && t.shared.targets == {}
  {
  }

  /**
   After exactly a word of allowlist changes the epoch check passes for a target that was
   taken away: the look at `targets` is what refuses that handler.
   */
  lemma EpochAloneWouldWrap(peer: Peer) returns (s: State)
    requires peer.address !in SERVICE_ADDRESSES
    ensures Reachable(s) && 0 in s.handlers && s.handlers[0].Hijacked?
    ensures s.bumps - s.handlers[0].seen == WORD
    ensures !s.shared.closed && s.shared.generation == s.handlers[0].epoch
    ensures s.handlers[0].peer !in s.shared.targets
    ensures !MayRegister(s.shared, s.handlers[0].epoch, s.handlers[0].peer)
  {
    hide HistoryInv, SlotsInv, PendingInv, DialInv, OwnEntryInv, ActiveInv, OpenInv, Apply, Can;
    var before, mid := ToHijacked(peer);
    EmptyingKeepsHandlers(mid, WORD);
    RunConcat(Init, before, Empties(WORD));
    s := Run(mid, Empties(WORD)).value;
    ReachableInv(s);
    GenerationOf(s);
    assert (1 + WORD) % WORD == 1;
  }

  lemma GenerationOf(s: State)
    requires Inv(s)
    ensures s.shared.generation == s.bumps % WORD
  {
  }

  lemma Follow(labels: seq<Label>, s: State, l: Label) returns (longer: seq<Label>, s': State)
    requires Run(Init, labels) == Some(s) && Can(s, l)
    ensures longer == labels + [l] && s' == Apply(s, l) && Run(Init, longer) == Some(s')
  {
    longer, s' := labels + [l], Apply(s, l);
    assert longer[..|longer| - 1] == labels;
  }

  /** An open proxy whose one handler is `p`, and whose one target is its peer. */
  ghost predicate OneHandler(s: State, p: Handler, peer: Peer) {
    && s.handlers == map[0 := p] && s.bumps == 1
    && s.shared.generation == 1 && s.shared.targets == {peer} && !s.shared.closed
  }

  /** The first allowlist of a new proxy. */
  lemma FirstTarget(peer: Peer)
    requires peer.address !in SERVICE_ADDRESSES
    ensures var s := Apply(Init, SetTargets([Some(peer)]));
      && s.handlers == map[] && s.bumps == 1 && s.shared.used == 0
      && s.shared.generation == 1 && s.shared.targets == {peer} && !s.shared.closed
  {
    assert FirstProblem([Some(peer)][1..]).None?;
    assert forall p :: p in Peers([Some(peer)]) <==> p == peer;
  }

  lemma ToSlotted(peer: Peer) returns (labels: seq<Label>, s: State)
    requires peer.address !in SERVICE_ADDRESSES
    ensures Run(Init, labels) == Some(s)
    ensures OneHandler(s, Slotted(1, peer, 1), peer) && s.shared.used == 1
  {
    assert Run(Init, []) == Some(Init);
    hide Run, Install;
    FirstTarget(peer);
    labels, s := Follow([], Init, SetTargets([Some(peer)]));
    labels, s := Follow(labels, s, Arrive(0, Request(true, true, Some(peer))));
    assert OneHandler(s, Admitted(1, peer, 1), peer) && s.shared.used == 0;
    labels, s := Follow(labels, s, Acquire(0));
  }

  lemma ToHijacked(peer: Peer) returns (labels: seq<Label>, s: State)
    requires peer.address !in SERVICE_ADDRESSES
    ensures Run(Init, labels) == Some(s)
    ensures 0 in s.handlers && s.handlers[0] == Hijacked(1, peer, 1)
    ensures s.bumps == 1 && !s.shared.closed
  {
    hide Run;
    labels, s := ToSlotted(peer);
    labels, s := Follow(labels, s, BeginDial(0));
    var id, nth := s.handlers[0].id, s.handlers[0].nth;
    assert OneHandler(s, Dialing(1, peer, 1, id, nth), peer);
    labels, s := Follow(labels, s, DialReturns(0, true));
    assert OneHandler(s, Answered(1, peer, 1, id, nth, true), peer);
    labels, s := Follow(labels, s, EndDial(0));
    assert OneHandler(s, Dialed(1, peer, 1), peer);
    labels, s := Follow(labels, s, Hijack(0, true));
  }
}
