/**
 Controllers, other processes, crashes, power cuts and reused pids around one storage lock
 (matter-server/src/storageLock.ts): a labelled transition system in which looking at the lock
 and unlinking it is one step, and so is creating it together with its pid file. Live pids,
 tokens and boot ids are unique, and a live controller's command line looks like one.
 */
module StorageLockProtocol {
  import opened Results
  import opened StorageLock

  // ----- Worlds and steps -----------------------------------------------------

  /** Before the reclaim step, before matter.js takes the lock, and with the store open. */
  datatype Phase = Starting | Opening | Holding

  datatype Process = Other(command: string) | Controller(command: string, token: string, phase: Phase)

  /** `tokens` and `boots` are those used so far. */
  datatype World = World(
    files: Files, boot: string, procs: map<int, Process>, tokens: set<string>, boots: set<string>, path: string)

  datatype Label =
    | Spawn(pid: int, command: string)
    | Start(pid: int, command: string, token: string)
    | Inspecting(pid: int, bootSeen: bool, commandSeen: bool, removes: nat)
    | Take(pid: int)
    | Record(pid: int, bootSeen: bool)
    | Exit(pid: int)
    | Die(pid: int, halfTaken: bool)
    | PowerCut(boot: string)

  predicate IsController(w: World, pid: int, phase: Phase) {
    pid in w.procs && w.procs[pid].Controller? && w.procs[pid].phase == phase
  }

  function SightOf(w: World, l: Label): Sight
    requires l.Inspecting?
  {
    Sight(l.pid, w.procs.Keys,
          if l.commandSeen then map pid | pid in w.procs :: w.procs[pid].command else map[],
          if l.bootSeen then Some(w.boot) else None, w.path)
  }

  /** matter.js honours a lock while its owner's pid lives, unless that is its own from an earlier life. */
  predicate Honoured(w: World, pid: int, token: string) {
    && w.files.lock && w.files.owner.Some?
    && w.files.owner.value.pid in w.procs
    && !(w.files.owner.value.pid == pid && w.files.owner.value.token != Some(token))
  }

  predicate Can(w: World, l: Label) {
    match l
    case Spawn(pid, _) => pid !in w.procs
    case Start(pid, command, token) => pid !in w.procs && token !in w.tokens && MayBeController(command, w.path)
    case Inspecting(pid, _, _, _) => IsController(w, pid, Starting)
    case Take(pid) => IsController(w, pid, Opening) && !Honoured(w, pid, w.procs[pid].token)
    case Record(pid, _) => IsController(w, pid, Holding)
    case Exit(pid) => IsController(w, pid, Holding)
    case Die(pid, halfTaken) =>
      pid in w.procs && (halfTaken ==> IsController(w, pid, Opening) && !Honoured(w, pid, w.procs[pid].token))
    case PowerCut(boot) => boot !in w.boots
  }

  function Become(w: World, pid: int, phase: Phase): World
    requires pid in w.procs && w.procs[pid].Controller?
  {
    w.(procs := w.procs[pid := w.procs[pid].(phase := phase)])
  }

  function Apply(w: World, l: Label): World
    requires Can(w, l)
  {
    match l
    case Spawn(pid, command) => w.(procs := w.procs[pid := Other(command)])
    case Start(pid, command, token) =>
      w.(procs := w.procs[pid := Controller(command, token, Starting)], tokens := w.tokens + {token})
    case Inspecting(pid, _, _, removes) =>
      Become(w, pid, Opening).(files := AfterReclaim(w.files, SightOf(w, l), removes))
    case Take(pid) =>
      Become(w, pid, Holding).(files := w.files.(
        lock := true, owner := Some(LockOwner(pid, Some(w.procs[pid].token)))))
    case Record(pid, bootSeen) =>
      w.(files := AfterRecord(w.files, pid, if bootSeen then Some(w.boot) else None))
    case Exit(pid) => w.(procs := w.procs - {pid}, files := w.files.(lock := false, owner := None))
    case Die(pid, halfTaken) =>
      w.(procs := w.procs - {pid}, files := if halfTaken then w.files.(lock := true, owner := None) else w.files)
    case PowerCut(boot) => w.(procs := map[], boot := boot, boots := w.boots + {boot})
  }

  predicate Runs(w: World, ls: seq<Label>)
    decreases |ls|
  {
    ls == [] || (Can(w, ls[0]) && Runs(Apply(w, ls[0]), ls[1..]))
  }

  function End(w: World, ls: seq<Label>): World
    requires Runs(w, ls)
    decreases |ls|
  {
    if ls == [] then w else End(Apply(w, ls[0]), ls[1..])
  }

  // ----- What every step keeps ------------------------------------------------

  /**
   A live controller's token is its own, a record with that token was written by it in this
   boot, and when it holds the store the lock is there and names it.
   */
  predicate Sound(w: World, pid: int)
    requires pid in w.procs && w.procs[pid].Controller?
  {
    var c := w.procs[pid];
    && MayBeController(c.command, w.path)
    && c.token in w.tokens
    && (w.files.record.Some? && w.files.record.value.token == c.token ==>
        c.phase.Holding? && w.files.record.value.bootId == w.boot)
    && (c.phase.Holding? ==> w.files.lock && w.files.owner == Some(LockOwner(pid, Some(c.token))))
  }

  predicate SoundFiles(w: World) {
    && w.boot in w.boots
    && (w.files.record.Some? ==> w.files.record.value.token in w.tokens && w.files.record.value.bootId in w.boots)
  }

  ghost predicate OwnTokens(w: World) {
    forall p, q :: p in w.procs && q in w.procs && p != q && w.procs[p].Controller? && w.procs[q].Controller? ==>
      w.procs[p].token != w.procs[q].token
  }

  ghost predicate Inv(w: World) {
    && SoundFiles(w)
    && (forall pid :: pid in w.procs && w.procs[pid].Controller? ==> Sound(w, pid))
    && OwnTokens(w)
  }

  /** Reclaiming is right: no live controller has the store open when the lock is removed. */
  lemma ReclaimsOnlyStaleLocks(w: World, l: Label, pid: int)
    requires Inv(w) && Can(w, l) && l.Inspecting? && IsController(w, pid, Holding)
    ensures !Decide(Inspect(w.files, SightOf(w, l))).Reclaim?
    ensures Apply(w, l).files == w.files
  {
    hide MayBeController;
    assert Sound(w, pid);
    assert pid in SightOf(w, l).alive && pid != l.pid;
  }

  /** At most one live controller has the store open. */
  lemma OneHolder(w: World, p: int, q: int)
    requires Inv(w) && IsController(w, p, Holding) && IsController(w, q, Holding)
    ensures p == q
  {
    assert Sound(w, p) && Sound(w, q);
  }

  /** While one has, matter.js honours its lock, so no other can take it. */
  lemma HolderIsHonoured(w: World, p: int, q: int)
    requires Inv(w) && IsController(w, p, Holding) && q in w.procs && q != p && w.procs[q].Controller?
    ensures Honoured(w, q, w.procs[q].token)
  {
    assert Sound(w, p);
  }

  lemma TakersAreAlone(w: World, l: Label, p: int)
    requires Inv(w) && IsController(w, p, Holding)
    requires l.Take? || (l.Die? && l.halfTaken)
    ensures !Can(w, l)
  {
    if IsController(w, l.pid, Opening) {
      HolderIsHonoured(w, p, l.pid);
    }
  }

  lemma StepKeepsTokens(w: World, l: Label)
    requires Inv(w) && Can(w, l)
    ensures OwnTokens(Apply(w, l))
  {
    hide MayBeController, AfterReclaim, AfterRecord, Honoured;
  }

  lemma StepKeepsFilesSound(w: World, l: Label)
    requires Inv(w) && Can(w, l)
    ensures SoundFiles(Apply(w, l))
  {
    hide MayBeController, Decide, Inspect, Honoured, OwnTokens;
    if l.Record? {
      assert Sound(w, l.pid);
    }
  }

  lemma StepKeepsSound(w: World, l: Label, pid: int)
    requires Inv(w) && Can(w, l)
    requires pid in Apply(w, l).procs && Apply(w, l).procs[pid].Controller?
    ensures Sound(Apply(w, l), pid)
  {
    hide MayBeController, Decide, Inspect;
    var w' := Apply(w, l);
    if l.Start? && pid == l.pid {
      assert w'.procs[pid].token !in w.tokens;
    } else {
      assert pid in w.procs && w.procs[pid].Controller? && Sound(w, pid);
      assert w'.procs[pid].token == w.procs[pid].token;
      if IsController(w, pid, Holding) {
        HoldersStay(w, l, pid);
      } else if l.Record? {
        assert Sound(w, l.pid) && w.procs[l.pid].token != w.procs[pid].token;
      }
    }
  }

  lemma HoldersStay(w: World, l: Label, pid: int)
    requires Inv(w) && Can(w, l) && IsController(w, pid, Holding)
    requires pid in Apply(w, l).procs && Apply(w, l).procs[pid].Controller?
    ensures Sound(Apply(w, l), pid)
  {
    hide MayBeController, Decide, Inspect, Honoured, AfterReclaim, OwnTokens;
    assert Sound(w, pid);
    if l.Inspecting? {
      ReclaimsOnlyStaleLocks(w, l, pid);
    } else if l.Take? || (l.Die? && l.halfTaken) {
      TakersAreAlone(w, l, pid);
    } else if l.Exit? || l.Record? {
      OneHolder(w, pid, l.pid);
    }
  }

  lemma StepKeepsInv(w: World, l: Label)
    requires Inv(w) && Can(w, l)
    ensures Inv(Apply(w, l))
  {
    hide Can, Apply, Sound, SoundFiles, OwnTokens;
    StepKeepsTokens(w, l);
    StepKeepsFilesSound(w, l);
    forall pid | pid in Apply(w, l).procs && Apply(w, l).procs[pid].Controller? ensures Sound(Apply(w, l), pid) {
      StepKeepsSound(w, l, pid);
    }
  }

  lemma {:induction false} RunKeepsInv(w: World, ls: seq<Label>)
    requires Inv(w) && Runs(w, ls)
    ensures Inv(End(w, ls))
    decreases |ls|
  {
    hide Can, Apply, Inv;
    if ls != [] {
      StepKeepsInv(w, ls[0]);
      RunKeepsInv(Apply(w, ls[0]), ls[1..]);
    }
  }

  /** Any files at all, with nothing running and a boot no record names yet. */
  predicate Fresh(w: World) {
    && w.procs == map[] && w.boot in w.boots
    && (w.files.record.Some? ==> w.files.record.value.token in w.tokens && w.files.record.value.bootId in w.boots)
  }

  /** In any run from any files, at most one live controller has the store open. */
  lemma NeverTwoControllers(w: World, ls: seq<Label>, p: int, q: int)
    requires Fresh(w) && Runs(w, ls) && IsController(End(w, ls), p, Holding) && IsController(End(w, ls), q, Holding)
    ensures p == q
  {
    hide Runs, End, Sound;
    RunKeepsInv(w, ls);
    OneHolder(End(w, ls), p, q);
  }

  // ----- After a power cut ----------------------------------------------------

  /** The lock is there, and the record is of exactly the process that took it. */
  predicate Recorded(w: World) {
    && w.files.lock && w.files.record.Some?
    && w.files.owner == Some(LockOwner(w.files.record.value.pid, Some(w.files.record.value.token)))
  }

  lemma RecordingRecords(w: World, pid: int)
    requires Inv(w) && IsController(w, pid, Holding)
    ensures Can(w, Record(pid, true)) && Recorded(Apply(w, Record(pid, true)))
    ensures IsController(Apply(w, Record(pid, true)), pid, Holding)
  {
    hide MayBeController;
    assert Sound(w, pid);
  }

  /** Not a power cut, nor the end of process `pid`. */
  predicate Spares(l: Label, pid: int) {
    !l.PowerCut? && !(l.Exit? && l.pid == pid) && !(l.Die? && l.pid == pid)
  }

  /** A record lasts as long as the process that wrote it has the store open. */
  lemma StepKeepsRecord(w: World, l: Label, pid: int)
    requires Inv(w) && Recorded(w) && IsController(w, pid, Holding) && Can(w, l) && Spares(l, pid)
    ensures Recorded(Apply(w, l)) && IsController(Apply(w, l), pid, Holding)
  {
    hide MayBeController, Honoured, Inspect, Decide, AfterReclaim, OwnTokens;
    assert Sound(w, pid);
    if l.Inspecting? {
      ReclaimsOnlyStaleLocks(w, l, pid);
    } else if l.Take? || (l.Die? && l.halfTaken) {
      TakersAreAlone(w, l, pid);
    } else if l.Exit? || l.Record? {
      OneHolder(w, pid, l.pid);
    }
  }

  lemma {:induction false} RunKeepsRecord(w: World, ls: seq<Label>, pid: int)
    requires Inv(w) && Recorded(w) && IsController(w, pid, Holding) && Runs(w, ls)
    requires forall i :: 0 <= i < |ls| ==> Spares(ls[i], pid)
    ensures Recorded(End(w, ls)) && IsController(End(w, ls), pid, Holding)
    decreases |ls|
  {
    hide Inv, Recorded, IsController, Spares, Can, Apply;
    if ls != [] {
      StepKeepsRecord(w, ls[0], pid);
      StepKeepsInv(w, ls[0]);
      RunKeepsRecord(Apply(w, ls[0]), ls[1..], pid);
    }
  }

  /** Dying leaves the record and the lock where they are. */
  lemma DeathKeepsRecord(w: World, pid: int)
    requires Inv(w) && Recorded(w) && Can(w, Die(pid, false))
    ensures Recorded(Apply(w, Die(pid, false)))
  {
  }

  /** A recorded lock of an earlier boot, that nobody has looked at in this one. */
  ghost predicate LeftOver(w: World) {
    && Recorded(w) && w.boot in w.boots
    && w.files.record.value.bootId != w.boot && w.files.record.value.bootId in w.boots
    && forall pid :: pid in w.procs && w.procs[pid].Controller? ==> w.procs[pid].phase.Starting?
  }

  lemma PowerCutLeavesIt(w: World, boot: string)
    requires Inv(w) && Recorded(w) && Can(w, PowerCut(boot))
    ensures LeftOver(Apply(w, PowerCut(boot)))
  {
  }

  lemma StepLeavesIt(w: World, l: Label)
    requires LeftOver(w) && Can(w, l) && !l.Inspecting?
    ensures LeftOver(Apply(w, l))
  {
    hide MayBeController, Honoured, AfterReclaim, AfterRecord;
  }

  lemma {:induction false} RunLeavesIt(w: World, ls: seq<Label>)
    requires LeftOver(w) && Runs(w, ls) && forall i :: 0 <= i < |ls| ==> !ls[i].Inspecting?
    ensures LeftOver(End(w, ls))
    decreases |ls|
  {
    hide LeftOver, Can, Apply;
    if ls != [] {
      StepLeavesIt(w, ls[0]);
      RunLeavesIt(Apply(w, ls[0]), ls[1..]);
    }
  }

  lemma {:induction false} RunsInTwo(w: World, a: seq<Label>, b: seq<Label>)
    ensures Runs(w, a + b) <==> Runs(w, a) && Runs(End(w, a), b)
    ensures Runs(w, a + b) ==> End(w, a + b) == End(End(w, a), b)
    decreases |a|
  {
    hide Can, Apply;
    if a == [] {
      assert a + b == b;
    } else {
      assert (a + b)[0] == a[0] && (a + b)[1..] == a[1..] + b;
      if Can(w, a[0]) {
        RunsInTwo(Apply(w, a[0]), a[1..], b);
      }
    }
  }

  lemma RunsOne(w: World, l: Label)
    ensures Runs(w, [l]) <==> Can(w, l)
    ensures Runs(w, [l]) ==> End(w, [l]) == Apply(w, l)
  {
    hide Can, Apply;
    assert [l][1..] == [];
  }

  /**
   A lock recorded when the power fails is reclaimed, whatever starts, dies, loses power again
   or is given the recorded pid: by the first controller that looks, and once that one has
   removed it matter.js lets it in.
   */
  lemma RecordedLockIsReclaimed(w: World, boot: string, ls: seq<Label>, l: Label)
    requires Inv(w) && Recorded(w) && Runs(w, [PowerCut(boot)] + ls)
    requires forall i :: 0 <= i < |ls| ==> !ls[i].Inspecting?
    requires l.Inspecting? && l.bootSeen && Can(End(w, [PowerCut(boot)] + ls), l)
    ensures var later := End(w, [PowerCut(boot)] + ls);
      && Decide(Inspect(later.files, SightOf(later, l))) == Reclaim(PreviousBoot)
      && (l.removes > 1 ==> !Apply(later, l).files.lock && Can(Apply(later, l), Take(l.pid)))
  {
    hide Inv, Recorded, Apply, Can, LeftOver, Inspect, Decide;
    RunsInTwo(w, [PowerCut(boot)], ls);
    RunsOne(w, PowerCut(boot));
    PowerCutLeavesIt(w, boot);
    RunLeavesIt(Apply(w, PowerCut(boot)), ls);
    LeftOverIsReclaimed(End(w, [PowerCut(boot)] + ls), l);
  }

  /** The steps of a controller that records, of others, perhaps of its death, and of a power cut. */
  function UntilPower(pid: int, mid: seq<Label>, dies: bool, boot: string): seq<Label> {
    [Record(pid, true)] + (mid + ((if dies then [Die(pid, false)] else []) + [PowerCut(boot)]))
  }

  /**
   After a power cut that comes any time after a controller recorded its boot, with the store
   still open or just after it died: the first controller that looks reclaims the lock.
   */
  lemma PowerCutIsSurvived(
    w: World, pid: int, mid: seq<Label>, dies: bool, boot: string, ls: seq<Label>, l: Label)
    requires Inv(w) && IsController(w, pid, Holding)
    requires forall i :: 0 <= i < |mid| ==> Spares(mid[i], pid)
    requires forall i :: 0 <= i < |ls| ==> !ls[i].Inspecting?
    requires Runs(w, UntilPower(pid, mid, dies, boot) + ls)
    requires l.Inspecting? && l.bootSeen && Can(End(w, UntilPower(pid, mid, dies, boot) + ls), l)
    ensures var later := End(w, UntilPower(pid, mid, dies, boot) + ls);
      && Decide(Inspect(later.files, SightOf(later, l))) == Reclaim(PreviousBoot)
      && (l.removes > 1 ==> !Apply(later, l).files.lock && Can(Apply(later, l), Take(l.pid)))
  {
    hide Inv, Recorded, IsController, Spares, Can, Apply, Runs, End, Inspect, Decide, Honoured;
    var death := if dies then [Die(pid, false)] else [];
    var tail := [PowerCut(boot)] + ls;
    assert UntilPower(pid, mid, dies, boot) + ls == [Record(pid, true)] + (mid + (death + tail));
    RunsInTwo(w, [Record(pid, true)], mid + (death + tail));
    RunsOne(w, Record(pid, true));
    RecordingRecords(w, pid);
    StepKeepsInv(w, Record(pid, true));
    var w1 := Apply(w, Record(pid, true));
    RunsInTwo(w1, mid, death + tail);
    RunKeepsRecord(w1, mid, pid);
    RunKeepsInv(w1, mid);
    var w2 := End(w1, mid);
    RunsInTwo(w2, death, tail);
    if dies {
      RunsOne(w2, Die(pid, false));
      DeathKeepsRecord(w2, pid);
      StepKeepsInv(w2, Die(pid, false));
    } else {
      RunsNone(w2);
    }
    RecordedLockIsReclaimed(End(w2, death), boot, ls, l);
  }

  lemma RunsNone(w: World)
    ensures Runs(w, []) && End(w, []) == w
  {
  }

  lemma LeftOverIsReclaimed(w: World, l: Label)
    requires LeftOver(w) && l.Inspecting? && l.bootSeen && Can(w, l)
    ensures Decide(Inspect(w.files, SightOf(w, l))) == Reclaim(PreviousBoot)
    ensures l.removes > 1 ==> !Apply(w, l).files.lock && Can(Apply(w, l), Take(l.pid))
  {
    hide MayBeController;
  }

  /** A respected lock is one matter.js honours too, so respecting it never lets a second one in. */
  lemma RespectedMeansHonoured(w: World, l: Label)
    requires Can(w, l) && l.Inspecting? && Decide(Inspect(w.files, SightOf(w, l))).Respect?
    ensures Honoured(Apply(w, l), l.pid, w.procs[l.pid].token)
  {
    hide MayBeController;
  }

  /**
   A lock is left standing exactly when its pid belongs to another live process that is not seen
   to be anything but a possible controller, and no record is seen to be of an earlier boot.
   */
  lemma LockStands(w: World, l: Label)
    requires Can(w, l) && l.Inspecting? && w.files.lock
    ensures Decide(Inspect(w.files, SightOf(w, l))).Respect? <==>
      && w.files.owner.Some? && w.files.owner.value.pid in w.procs && w.files.owner.value.pid != l.pid
      && (l.commandSeen ==> MayBeController(w.procs[w.files.owner.value.pid].command, w.path))
      && !(l.bootSeen && Recorded(w) && w.files.record.value.bootId != w.boot)
  {
    hide MayBeController;
  }
}
