/**
 Any number of Opens, writes and process crashes around one identity directory
 (native/pondnet/node.go:161-182, native/pondnet/identity_store.go): a labelled transition
 system in which every file operation that others can see is one step. The marker is looked at
 before the lock is taken, as in the source, so an Open may act on a stale look.
 */
module OpenProtocol {
  import opened Results
  import opened IdentityStore

  // ----- States and steps -----------------------------------------------------

  /** Why a process is saving: to open the store, or for a write to one holding `before`. */
  datatype Goal = Opening(unmarked: bool) | Serving(before: Values)

  datatype Phase =
    | Looked(unmarked: bool)
    | Holding(unmarked: bool)
    | Saving(next: Values, goal: Goal)
    | Saved(next: Values, goal: Goal)
    | Ready(values: Values)
    | Running(values: Values)
    | Halted(values: Values)
  {
    /** Still to open the store, on the word of a look at the marker. */
    predicate Before() { Looked? || Holding? }
  }

  datatype Process = Process(control: string, phase: Phase)

  /** The state file, the marker, who has the lock, and the processes, numbered as they start. */
  datatype State = State(
    file: Option<Contents>, marker: bool, lock: Option<nat>, procs: map<nat, Process>, next: nat)

  datatype Label =
    | Look(control: string)
    | Take(p: nat)
    | Busy(p: nat)
    | Load(p: nat, key: string)
    | Rename(p: nat)
    | Sync(p: nat)
    | SaveFails(p: nat)
    | Mark(p: nat)
    | MarkFails(p: nat, created: bool)
    | Request(p: nat, id: string, value: Option<string>)
    | Gone(p: nat)
    | Lose

  predicate Can(s: State, l: Label, codec: Codec) {
    match l
    case Look(_) => true
    case Take(p) => p in s.procs && s.procs[p].phase.Looked? && s.lock == None
    case Busy(p) => p in s.procs && s.procs[p].phase.Looked? && s.lock != None
    case Load(p, key) => p in s.procs && s.procs[p].phase.Holding? && codec.machine(key)
    case Rename(p) => p in s.procs && s.procs[p].phase.Saving? && codec.Fits(s.procs[p].phase.next)
    case Sync(p) => p in s.procs && s.procs[p].phase.Saved?
    case SaveFails(p) => p in s.procs && (s.procs[p].phase.Saving? || s.procs[p].phase.Saved?)
    case Mark(p) => p in s.procs && s.procs[p].phase.Ready?
    case MarkFails(p, created) => p in s.procs && s.procs[p].phase.Ready? && !s.marker
    case Request(p, id, value) => p in s.procs && s.procs[p].phase.Running?
    case Gone(p) => p in s.procs
    case Lose => true
  }

  /** The process ends, by returning, closing or crashing, and the lock goes with it. */
  function Leave(s: State, p: nat): State {
    s.(procs := s.procs - {p}, lock := if s.lock == Some(p) then None else s.lock)
  }

  function Become(s: State, p: nat, phase: Phase): State
    requires p in s.procs
  {
    s.(procs := s.procs[p := s.procs[p].(phase := phase)])
  }

  function Loaded(values: Values, unmarked: bool): Phase {
    if unmarked then Ready(values) else Running(values)
  }

  function Apply(s: State, l: Label, codec: Codec): State
    requires Can(s, l, codec)
  {
    match l
    case Look(control) =>
      s.(procs := s.procs[s.next := Process(control, Looked(!s.marker))], next := s.next + 1)
    case Take(p) => Become(s, p, Holding(s.procs[p].phase.unmarked)).(lock := Some(p))
    case Busy(p) => Leave(s, p)
    case Load(p, key) =>
      var unmarked := s.procs[p].phase.unmarked;
      (match Open(s.file, s.procs[p].control, unmarked, key, codec)
       case Refuse => Leave(s, p)
       case Mint(values) => Become(s, p, Saving(values, Opening(unmarked)))
       case Adopt(values) => Become(s, p, Saving(values, Opening(unmarked)))
       case Use(values) => Become(s, p, Loaded(values, unmarked)))
    case Rename(p) =>
      var phase := s.procs[p].phase;
      Become(s, p, Saved(phase.next, phase.goal)).(file := Some(Whole(phase.next)))
    case Sync(p) =>
      var phase := s.procs[p].phase;
      Become(s, p, if phase.goal.Opening? then Loaded(phase.next, phase.goal.unmarked) else Running(phase.next))
    case SaveFails(p) =>
      var goal := s.procs[p].phase.goal;
      if goal.Opening? then Leave(s, p) else Become(s, p, Halted(goal.before))
    case Mark(p) => Become(s, p, Running(s.procs[p].phase.values)).(marker := true)
    case MarkFails(p, created) => Leave(s, p).(marker := s.marker || created)
    case Request(p, id, value) =>
      var values := s.procs[p].phase.values;
      (match Decide(values, id, value)
       case Same => s
       case Forbidden => Become(s, p, Halted(values))
       case Save(next) => Become(s, p, Saving(next, Serving(values))))
    case Gone(p) => Leave(s, p)
    case Lose => s.(file := None)
  }

  predicate Runs(s: State, ls: seq<Label>, codec: Codec)
    decreases |ls|
  {
    ls == [] || (Can(s, ls[0], codec) && Runs(Apply(s, ls[0], codec), ls[1..], codec))
  }

  function End(s: State, ls: seq<Label>, codec: Codec): State
    requires Runs(s, ls, codec)
    decreases |ls|
  {
    if ls == [] then s else End(Apply(s, ls[0], codec), ls[1..], codec)
  }

  /** No one but the program touches the directory. */
  predicate Undisturbed(ls: seq<Label>) {
    Lose !in ls
  }

  // ----- What every step keeps ------------------------------------------------

  /** `b` has the machine key of `a`, and its coordinator if it records one. */
  predicate Keeps(a: Values, b: Values) {
    Get(b, MACHINE) == Get(a, MACHINE) && (CONTROL in a ==> CONTROL in b && b[CONTROL] == a[CONTROL])
  }

  /** The file is still there, unreadable as it was, or with the same key and coordinator. */
  predicate FileKept(a: Option<Contents>, b: Option<Contents>) {
    match a
    case None => true
    case Some(Unreadable) => b == a
    case Some(Whole(values)) => b.Some? && b.value.Whole? && Keeps(values, b.value.values)
  }

  predicate Owned(values: Values, control: string) {
    CONTROL in values && values[CONTROL] == control
  }

  /** The file is `values`, unless someone deleted it. */
  predicate Holds(file: Option<Contents>, values: Values) {
    file.None? || file == Some(Whole(values))
  }

  /** The file, unless someone deleted it, is of this coordinator. */
  predicate OwnedFile(file: Option<Contents>, control: string) {
    file.None? || (file.value.Whole? && Owned(file.value.values, control))
  }

  predicate Sound(s: State, proc: Process) {
    match proc.phase
    case Looked(unmarked) => unmarked || s.marker
    case Holding(unmarked) => unmarked || s.marker
    case Saving(next, goal) =>
      && Owned(next, proc.control) && FileKept(s.file, Some(Whole(next)))
      && (match goal
          case Opening(unmarked) => unmarked || s.marker
          case Serving(before) => s.marker && Holds(s.file, before) && Owned(before, proc.control))
    case Saved(next, goal) =>
      && Owned(next, proc.control) && Holds(s.file, next)
      && (match goal
          case Opening(unmarked) => unmarked || s.marker
          case Serving(before) => s.marker && Owned(before, proc.control))
    case Ready(values) => Owned(values, proc.control) && Holds(s.file, values)
    case Running(values) => Owned(values, proc.control) && Holds(s.file, values) && s.marker
    case Halted(values) => Owned(values, proc.control) && OwnedFile(s.file, proc.control) && s.marker
  }

  /** The lock is held by exactly the one process that is past taking it. */
  ghost predicate Inv(s: State) {
    && (forall p :: p in s.procs ==> p < s.next)
    && (forall p :: s.lock == Some(p) <==> p in s.procs && !s.procs[p].phase.Looked?)
    && forall p :: p in s.procs ==> Sound(s, s.procs[p])
  }

  lemma DecideKeeps(values: Values, id: string, value: Option<string>)
    requires Decide(values, id, value).Save?
    ensures Keeps(values, Decide(values, id, value).next)
  {
  }

  lemma OpenKeeps(file: Option<Contents>, control: string, unmarked: bool, key: string, codec: Codec)
    requires codec.machine(key) && !Open(file, control, unmarked, key, codec).Refuse?
    ensures var r := Open(file, control, unmarked, key, codec);
      && Owned(r.values, control) && FileKept(file, Some(Whole(r.values)))
      && (r.Use? ==> file == Some(Whole(r.values)))
      && (r.Mint? <==> file.None?) && (r.Mint? ==> unmarked)
  {
    hide IsIdentity;
    OpenedIsAnIdentity(file, control, unmarked, key, codec);
    DistinctKeys();
    if file.Some? {
      RecordedIsOwn(file.value.values, control, codec);
    }
  }

  /** The process a step belongs to. */
  function Actor(s: State, l: Label): nat {
    match l
    case Look(_) => s.next
    case Lose => s.next
    case _ => l.p
  }

  /** A step touches nobody but its own process, and no file unless that process has the lock. */
  lemma StepIsLocal(s: State, l: Label, codec: Codec)
    requires Inv(s) && Can(s, l, codec)
    ensures var s', p := Apply(s, l, codec), Actor(s, l);
      && (forall q :: q != p ==> (q in s'.procs <==> q in s.procs) && (q in s.procs ==> s'.procs[q] == s.procs[q]))
      && (s.marker ==> s'.marker)
      && (s'.file != s.file ==> l.Lose? || s.lock == Some(p))
      && (l.Lose? ==> s' == s.(file := None))
      && s'.next >= s.next
  {
    hide Open, Decide, IsIdentity;
  }

  /** What a step leaves of its own process, of the lock and of the file. */
  ghost predicate ActorIsSound(s: State, s': State, p: nat) {
    && (p in s'.procs ==> Sound(s', s'.procs[p]) && p < s'.next)
    && (forall q :: s'.lock == Some(q) <==> q in s'.procs && !s'.procs[q].phase.Looked?)
    && FileKept(s.file, s'.file)
  }

  lemma StepActor(s: State, l: Label, codec: Codec)
    requires Inv(s) && Can(s, l, codec) && !l.Lose?
    ensures ActorIsSound(s, Apply(s, l, codec), Actor(s, l))
  {
    hide Open, Decide, IsIdentity, Keeps, Owned;
    FileKeptSame(s.file);
    match l
    case Load(p, key) => LoadActor(s, p, key, codec);
    case Request(p, id, value) => RequestActor(s, p, id, value, codec);
    case _ =>
  }

  lemma LoadActor(s: State, p: nat, key: string, codec: Codec)
    requires Inv(s) && Can(s, Load(p, key), codec)
    ensures ActorIsSound(s, Apply(s, Load(p, key), codec), p)
  {
    hide Open, IsIdentity, Keeps, Owned;
    FileKeptSame(s.file);
    if !Open(s.file, s.procs[p].control, s.procs[p].phase.unmarked, key, codec).Refuse? {
      OpenKeeps(s.file, s.procs[p].control, s.procs[p].phase.unmarked, key, codec);
    }
  }

  lemma RequestActor(s: State, p: nat, id: string, value: Option<string>, codec: Codec)
    requires Inv(s) && Can(s, Request(p, id, value), codec)
    ensures ActorIsSound(s, Apply(s, Request(p, id, value), codec), p)
  {
    hide Decide, Keeps, Owned;
    FileKeptSame(s.file);
    var values := s.procs[p].phase.values;
    if Decide(values, id, value).Save? {
      DecideKeeps(values, id, value);
      StillOwned(values, Decide(values, id, value).next, s.procs[p].control);
    }
  }

  lemma StillOwned(a: Values, b: Values, control: string)
    requires Keeps(a, b) && Owned(a, control)
    ensures Owned(b, control)
  {
  }

  lemma StepKeepsInv(s: State, l: Label, codec: Codec)
    requires Inv(s) && Can(s, l, codec)
    ensures Inv(Apply(s, l, codec))
  {
    hide Can, Apply, Open, Decide, IsIdentity, Keeps, Owned, Sound;
    StepIsLocal(s, l, codec);
    var s', p := Apply(s, l, codec), Actor(s, l);
    if !l.Lose? {
      StepActor(s, l, codec);
    }
    forall q | q in s'.procs && (q != p || l.Lose?) ensures Sound(s', s'.procs[q]) && q < s'.next {
      StaysSound(s, s', s.procs[q]);
    }
  }

  lemma StaysSound(s: State, s': State, proc: Process)
    requires Sound(s, proc)
    requires s.marker ==> s'.marker
    requires s'.file == s.file || s'.file.None? || proc.phase.Looked?
    ensures Sound(s', proc)
  {
    hide Keeps, Owned;
  }

  lemma {:induction false} RunKeepsInv(s: State, ls: seq<Label>, codec: Codec)
    requires Inv(s) && Runs(s, ls, codec)
    ensures Inv(End(s, ls, codec))
    decreases |ls|
  {
    hide Inv, Apply, Can;
    if ls != [] {
      StepKeepsInv(s, ls[0], codec);
      RunKeepsInv(Apply(s, ls[0], codec), ls[1..], codec);
    }
  }

  // ----- The machine key and the coordinator ----------------------------------

  lemma FileKeptOn(a: Option<Contents>, b: Option<Contents>, c: Option<Contents>)
    requires FileKept(a, b) && FileKept(b, c)
    ensures FileKept(a, c)
  {
  }

  /**
   Whatever Opens, writes and crashes follow, in any interleaving, a state file keeps its
   machine key and its coordinator from the moment it exists, and a file that cannot be read is
   never replaced.
   */
  lemma {:induction false} MachineKeyNeverChanges(s: State, ls: seq<Label>, codec: Codec)
    requires Inv(s) && Runs(s, ls, codec) && Undisturbed(ls)
    ensures FileKept(s.file, End(s, ls, codec).file)
    decreases |ls|
  {
    hide Inv, Apply, Can, FileKept;
    if ls == [] {
      FileKeptSame(s.file);
    } else {
      var s' := Apply(s, ls[0], codec);
      assert !ls[0].Lose?;
      StepKeepsInv(s, ls[0], codec);
      StepActor(s, ls[0], codec);
      MachineKeyNeverChanges(s', ls[1..], codec);
      FileKeptOn(s.file, s'.file, End(s', ls[1..], codec).file);
    }
  }

  lemma FileKeptSame(file: Option<Contents>)
    ensures FileKept(file, file)
  {
  }

  /** No process is past the look at the file, now or later, under another coordinator than it records. */
  lemma OneCoordinator(s: State, ls: seq<Label>, p: nat, codec: Codec)
    requires Inv(s) && Runs(s, ls, codec) && Undisturbed(ls)
    requires s.file.Some? && s.file.value.Whole? && CONTROL in s.file.value.values
    requires p in End(s, ls, codec).procs
    ensures var proc := End(s, ls, codec).procs[p];
      proc.phase.Before() || proc.control == s.file.value.values[CONTROL]
  {
    hide Runs, End, Apply, Can;
    RunKeepsInv(s, ls, codec);
    MachineKeyNeverChanges(s, ls, codec);
    var s' := End(s, ls, codec);
    assert Sound(s', s'.procs[p]);
  }

  /** Any directory at all, with nobody at work on it. */
  predicate Idle(s: State) {
    s.procs == map[] && s.lock == None
  }

  /**
   In any run from any directory, disturbed or not, two processes never have the store open, or
   being opened, at once.
   */
  lemma OneHolder(s: State, ls: seq<Label>, p: nat, q: nat, codec: Codec)
    requires Idle(s) && Runs(s, ls, codec)
    requires p in End(s, ls, codec).procs && !End(s, ls, codec).procs[p].phase.Looked?
    requires q in End(s, ls, codec).procs && !End(s, ls, codec).procs[q].phase.Looked?
    ensures p == q && End(s, ls, codec).lock == Some(p)
  {
    hide Runs, End, Sound;
    RunKeepsInv(s, ls, codec);
    assert End(s, ls, codec).lock == Some(p) && End(s, ls, codec).lock == Some(q);
  }

  /** The marker is there, everyone still to open has seen it, and all that is held or filed keeps `v`. */
  ghost predicate KeyIsSafe(s: State, v: Values) {
    && s.marker
    && (CONTROL in v ==>
        forall p :: p in s.procs && !s.procs[p].phase.Before() ==> s.procs[p].control == v[CONTROL])
    && (s.file.Some? ==> s.file.value.Whole? && Keeps(v, s.file.value.values))
    && forall p :: p in s.procs ==>
      match s.procs[p].phase
      case Looked(unmarked) => !unmarked
      case Holding(unmarked) => !unmarked
      case Saving(next, _) => Keeps(v, next)
      case Saved(next, _) => Keeps(v, next)
      case Ready(values) => Keeps(v, values)
      case Running(values) => Keeps(v, values)
      case Halted(_) => true
  }

  lemma KeepsOn(a: Values, b: Values, c: Values)
    requires Keeps(a, b) && Keeps(b, c)
    ensures Keeps(a, c)
  {
  }

  lemma KeepsControl(a: Values, b: Values, control: string)
    requires Keeps(a, b) && Owned(b, control)
    ensures CONTROL in a ==> control == a[CONTROL]
  {
  }

  lemma StepKeepsKeySafe(s: State, l: Label, v: Values, codec: Codec)
    requires Inv(s) && KeyIsSafe(s, v) && Can(s, l, codec)
    ensures KeyIsSafe(Apply(s, l, codec), v)
  {
    hide Inv, Open, Decide, IsIdentity, Keeps;
    match l
    case Load(p, key) => LoadKeepsKeySafe(s, p, key, v, codec);
    case Request(p, id, value) => RequestKeepsKeySafe(s, p, id, value, v, codec);
    case _ =>
  }

  lemma LoadKeepsKeySafe(s: State, p: nat, key: string, v: Values, codec: Codec)
    requires KeyIsSafe(s, v) && Can(s, Load(p, key), codec)
    ensures KeyIsSafe(Apply(s, Load(p, key), codec), v)
  {
    hide Open, IsIdentity, Keeps, Owned;
    var r := Open(s.file, s.procs[p].control, s.procs[p].phase.unmarked, key, codec);
    if !r.Refuse? {
      OpenKeeps(s.file, s.procs[p].control, s.procs[p].phase.unmarked, key, codec);
      KeepsOn(v, s.file.value.values, r.values);
      KeepsControl(v, r.values, s.procs[p].control);
    }
  }

  lemma RequestKeepsKeySafe(s: State, p: nat, id: string, value: Option<string>, v: Values, codec: Codec)
    requires KeyIsSafe(s, v) && Can(s, Request(p, id, value), codec)
    ensures KeyIsSafe(Apply(s, Request(p, id, value), codec), v)
  {
    hide Decide, Keeps;
    var values := s.procs[p].phase.values;
    if Decide(values, id, value).Save? {
      DecideKeeps(values, id, value);
      KeepsOn(v, values, Decide(values, id, value).next);
    }
  }

  lemma {:induction false} RunKeepsKeySafe(s: State, ls: seq<Label>, v: Values, codec: Codec)
    requires Inv(s) && KeyIsSafe(s, v) && Runs(s, ls, codec)
    ensures KeyIsSafe(End(s, ls, codec), v)
    decreases |ls|
  {
    hide Inv, KeyIsSafe, Apply, Can;
    if ls != [] {
      StepKeepsKeySafe(s, ls[0], v, codec);
      StepKeepsInv(s, ls[0], codec);
      RunKeepsKeySafe(Apply(s, ls[0], codec), ls[1..], v, codec);
    }
  }

  /**
   Once a directory is marked and holds an identity, and no Open is left that looked before the
   marker, whatever file is there after any run has the same machine key and coordinator,
   deletions included: who rewrites a deleted file is who had it open.
   */
  lemma MachineKeySurvivesDeletion(s: State, ls: seq<Label>, codec: Codec)
    requires Inv(s) && Runs(s, ls, codec)
    requires s.marker && s.file.Some? && s.file.value.Whole?
    requires forall p :: p in s.procs && s.procs[p].phase.Before() ==> !s.procs[p].phase.unmarked
    ensures End(s, ls, codec).file.Some? ==> FileKept(s.file, End(s, ls, codec).file)
  {
    hide Runs, End;
    KeyIsSafeNow(s);
    RunKeepsKeySafe(s, ls, s.file.value.values, codec);
  }

  lemma KeyIsSafeNow(s: State)
    requires Inv(s) && s.marker && s.file.Some? && s.file.value.Whole?
    requires forall p :: p in s.procs && s.procs[p].phase.Before() ==> !s.procs[p].phase.unmarked
    ensures KeyIsSafe(s, s.file.value.values)
  {
    assert forall p :: p in s.procs ==> Sound(s, s.procs[p]);
  }

  /** From there on no process loads or holds an identity under another coordinator, deletions included. */
  lemma OneCoordinatorWhenMarked(s: State, ls: seq<Label>, p: nat, codec: Codec)
    requires Inv(s) && Runs(s, ls, codec)
    requires s.marker && s.file.Some? && s.file.value.Whole? && CONTROL in s.file.value.values
    requires forall q :: q in s.procs && s.procs[q].phase.Before() ==> !s.procs[q].phase.unmarked
    requires p in End(s, ls, codec).procs
    ensures var proc := End(s, ls, codec).procs[p];
      proc.phase.Before() || proc.control == s.file.value.values[CONTROL]
  {
    hide Runs, End, Inv;
    KeyIsSafeNow(s);
    RunKeepsKeySafe(s, ls, s.file.value.values, codec);
  }

  // ----- A lost identity is never a new installation --------------------------

  /** The step makes a new machine key. */
  predicate Mints(s: State, l: Label, codec: Codec)
    requires Can(s, l, codec)
  {
    l.Load? && Open(s.file, s.procs[l.p].control, s.procs[l.p].phase.unmarked, l.key, codec).Mint?
  }

  /** Every process numbered `n` or later looked at the marker when it was there. */
  ghost predicate LateOnesSawIt(s: State, n: nat) {
    s.marker && n <= s.next
    && forall p :: p in s.procs && p >= n && s.procs[p].phase.Before() ==> !s.procs[p].phase.unmarked
  }

  lemma StepLateOnesSawIt(s: State, l: Label, n: nat, codec: Codec)
    requires Inv(s) && LateOnesSawIt(s, n) && Can(s, l, codec)
    ensures LateOnesSawIt(Apply(s, l, codec), n)
    ensures Mints(s, l, codec) ==> l.p < n
  {
    hide Inv, Decide, IsIdentity, Minted;
  }

  lemma {:induction false} MintersAreEarly(s: State, ls: seq<Label>, i: nat, n: nat, codec: Codec)
    requires Inv(s) && LateOnesSawIt(s, n) && Runs(s, ls, codec) && i < |ls|
    ensures Runs(s, ls[..i], codec) && Can(End(s, ls[..i], codec), ls[i], codec)
    ensures Mints(End(s, ls[..i], codec), ls[i], codec) ==> ls[i].p < n
    decreases i
  {
    hide Inv, LateOnesSawIt, Mints, Apply, Can;
    StepLateOnesSawIt(s, ls[0], n, codec);
    StepKeepsInv(s, ls[0], codec);
    if i > 0 {
      var s' := Apply(s, ls[0], codec);
      MintersAreEarly(s', ls[1..], i - 1, n, codec);
      assert ls[..i][0] == ls[0] && ls[..i][1..] == ls[1..][..i - 1];
    }
  }

  /**
   An Open that starts once the marker exists never makes a machine key, even if the state
   file has been deleted: a step that does belongs to an Open from before.
   */
  lemma NoKeyAfterTheMarker(s: State, ls: seq<Label>, i: nat, codec: Codec)
    requires Inv(s) && s.marker && Runs(s, ls, codec) && i < |ls|
    ensures Runs(s, ls[..i], codec) && Can(End(s, ls[..i], codec), ls[i], codec)
    ensures Mints(End(s, ls[..i], codec), ls[i], codec) ==> ls[i].p < s.next
  {
    hide Mints, Runs, End, Can;
    assert LateOnesSawIt(s, s.next);
    MintersAreEarly(s, ls, i, s.next, codec);
  }

  /** The marker without a file, and no Open that has not seen it. */
  ghost predicate LostForGood(s: State) {
    s.marker && s.file.None?
    && forall p :: p in s.procs ==> s.procs[p].phase.Before() && !s.procs[p].phase.unmarked
  }

  lemma StepStaysLost(s: State, l: Label, codec: Codec)
    requires Inv(s) && LostForGood(s) && Can(s, l, codec)
    ensures LostForGood(Apply(s, l, codec))
  {
    hide Inv, Decide, IsIdentity, Minted;
  }

  /** Once an initialized identity is lost, no later Open replaces it or comes up without it. */
  lemma {:induction false} LossIsNoNewInstallation(s: State, ls: seq<Label>, codec: Codec)
    requires Inv(s) && LostForGood(s) && Runs(s, ls, codec)
    ensures LostForGood(End(s, ls, codec))
    decreases |ls|
  {
    hide Inv, LostForGood, Apply, Can;
    if ls != [] {
      StepStaysLost(s, ls[0], codec);
      StepKeepsInv(s, ls[0], codec);
      LossIsNoNewInstallation(Apply(s, ls[0], codec), ls[1..], codec);
    }
  }

  // ----- A crash never strands a new installation -----------------------------

  const EMPTY := State(None, false, None, map[], 0)

  /** A map made by minting, and nothing written to it since. */
  ghost predicate Untouched(values: Values, codec: Codec) {
    exists key, control :: codec.machine(key) && values == Minted(key, control)
  }

  /** Up to the marker, the file is missing or newly minted, whoever is at work; after, it is there. */
  ghost predicate Young(s: State, codec: Codec) {
    && (s.marker ==> s.file.Some?)
    && (!s.marker ==>
        && (s.file.Some? ==> s.file.value.Whole? && Untouched(s.file.value.values, codec))
        && forall p :: p in s.procs && s.procs[p].phase.Saving? ==> Untouched(s.procs[p].phase.next, codec))
    && forall p :: p in s.procs ==>
      && (s.procs[p].phase.Ready? || s.procs[p].phase.Saved? ==> s.file.Some?)
  }

  lemma StepStaysYoung(s: State, l: Label, codec: Codec)
    requires Inv(s) && Young(s, codec) && Can(s, l, codec) && !l.Lose?
    ensures Young(Apply(s, l, codec), codec)
  {
    hide Decide, IsIdentity, Keeps, Owned;
    if l.Load? {
      var proc := s.procs[l.p];
      var r := Open(s.file, proc.control, proc.phase.unmarked, l.key, codec);
      if r.Mint? {
        assert Untouched(Minted(l.key, proc.control), codec);
      } else if r.Adopt? {
        assert s.marker;
      }
    }
  }

  lemma {:induction false} RunStaysYoung(s: State, ls: seq<Label>, codec: Codec)
    requires Inv(s) && Young(s, codec) && Runs(s, ls, codec) && Undisturbed(ls)
    ensures Young(End(s, ls, codec), codec)
    decreases |ls|
  {
    hide Inv, Young, Apply, Can;
    if ls != [] {
      assert !ls[0].Lose?;
      StepStaysYoung(s, ls[0], codec);
      StepKeepsInv(s, ls[0], codec);
      RunStaysYoung(Apply(s, ls[0], codec), ls[1..], codec);
    }
  }

  /** What is left of an Open that nothing interrupts, once it has the lock as process `p`. */
  function FromLoad(file: Option<Contents>, p: nat, key: string): seq<Label> {
    if file.None? then [Load(p, key)] + ([Rename(p)] + ([Sync(p)] + ([Mark(p)] + [])))
    else [Load(p, key)] + ([Mark(p)] + [])
  }

  function OpenAlone(s: State, control: string, key: string): seq<Label> {
    [Look(control)] + ([Take(s.next)] + FromLoad(s.file, s.next, key))
  }

  /** The state once a new Open has the lock. */
  function Taken(s: State, control: string): State {
    s.(procs := s.procs[s.next := Process(control, Holding(!s.marker))], lock := Some(s.next), next := s.next + 1)
  }

  lemma OneStep(s: State, l: Label, ls: seq<Label>, codec: Codec)
    requires Can(s, l, codec)
    ensures Runs(s, [l] + ls, codec) <==> Runs(Apply(s, l, codec), ls, codec)
    ensures Runs(s, [l] + ls, codec) ==> End(s, [l] + ls, codec) == End(Apply(s, l, codec), ls, codec)
  {
    hide Can, Apply;
    assert ([l] + ls)[1..] == ls;
  }

  lemma LookAndTake(s: State, control: string, ls: seq<Label>, codec: Codec)
    requires s.lock == None
    ensures var all := [Look(control)] + ([Take(s.next)] + ls);
      && (Runs(s, all, codec) <==> Runs(Taken(s, control), ls, codec))
      && (Runs(s, all, codec) ==> End(s, all, codec) == End(Taken(s, control), ls, codec))
  {
    hide Runs, End;
    var looked := Apply(s, Look(control), codec);
    OneStep(looked, Take(s.next), ls, codec);
    OneStep(s, Look(control), [Take(s.next)] + ls, codec);
    assert Apply(looked, Take(s.next), codec).procs == Taken(s, control).procs;
  }

  lemma AnOpenAlone(s: State, control: string, key: string, codec: Codec)
    requires s.lock == None && !s.marker && codec.machine(key)
    requires s.file.Some? ==> Open(s.file, control, true, key, codec).Use?
    requires s.file.None? ==> codec.Fits(Minted(key, control))
    ensures var ls := OpenAlone(s, control, key);
      Runs(s, ls, codec) && IsRunning(End(s, ls, codec), s.next, control)
  {
    hide Runs, End, IsIdentity, Decide;
    var p := s.next;
    LookAndTake(s, control, FromLoad(s.file, p, key), codec);
    var s2 := Taken(s, control);
    var s3 := Apply(s2, Load(p, key), codec);
    if s.file.None? {
      var s4 := Apply(s3, Rename(p), codec);
      var s5 := Apply(s4, Sync(p), codec);
      OneStep(s2, Load(p, key), [Rename(p)] + ([Sync(p)] + ([Mark(p)] + [])), codec);
      OneStep(s3, Rename(p), [Sync(p)] + ([Mark(p)] + []), codec);
      OneStep(s4, Sync(p), [Mark(p)] + [], codec);
      OneStep(s5, Mark(p), [], codec);
      NoStep(Apply(s5, Mark(p), codec), codec);
    } else {
      OneStep(s2, Load(p, key), [Mark(p)] + [], codec);
      OneStep(s3, Mark(p), [], codec);
      NoStep(Apply(s3, Mark(p), codec), codec);
    }
  }

  lemma NoStep(s: State, codec: Codec)
    ensures Runs(s, [], codec) && End(s, [], codec) == s
  {
  }

  lemma ATooLargeIdentity(s: State, control: string, key: string, codec: Codec)
    requires s.lock == None && !s.marker && codec.machine(key)
    requires s.file.None? && !codec.Fits(Minted(key, control))
    ensures !Runs(s, OpenAlone(s, control, key), codec)
  {
    hide End, IsIdentity, Decide, Minted;
    var p := s.next;
    LookAndTake(s, control, FromLoad(s.file, p, key), codec);
    var rest := [Rename(p)] + ([Sync(p)] + ([Mark(p)] + []));
    OneStep(Taken(s, control), Load(p, key), rest, codec);
    assert rest[0] == Rename(p) && !Can(Apply(Taken(s, control), Load(p, key), codec), Rename(p), codec);
  }

  lemma ARefusedOpen(s: State, control: string, key: string, codec: Codec)
    requires s.lock == None && !s.marker && codec.machine(key)
    requires s.file.Some? && Open(s.file, control, true, key, codec).Refuse?
    ensures !Runs(s, OpenAlone(s, control, key), codec)
  {
    hide End, IsIdentity, Decide, Open;
    var p := s.next;
    LookAndTake(s, control, FromLoad(s.file, p, key), codec);
    OneStep(Taken(s, control), Load(p, key), [Mark(p)] + [], codec);
    assert p !in Apply(Taken(s, control), Load(p, key), codec).procs;
  }

  /**
   From an empty directory, wherever Opens crashed before the marker was there: with the lock
   free, an Open that nothing interrupts comes up exactly when no identity was made and a new
   one fits, or the one that was made is its coordinator's.
   */
  lemma CrashesNeverStrandANewNode(ls: seq<Label>, control: string, key: string, codec: Codec)
    requires Runs(EMPTY, ls, codec) && Undisturbed(ls) && codec.machine(key)
    requires End(EMPTY, ls, codec).lock == None && !End(EMPTY, ls, codec).marker
    ensures var s := End(EMPTY, ls, codec);
      && (s.file.Some? ==> s.file.value.Whole? && CONTROL in s.file.value.values)
      && (Runs(s, OpenAlone(s, control, key), codec)
          <==> if s.file.None? then codec.Fits(Minted(key, control))
               else s.file.value.values[CONTROL] == control)
      && (Runs(s, OpenAlone(s, control, key), codec) ==>
          IsRunning(End(s, OpenAlone(s, control, key), codec), s.next, control))
  {
    hide Runs, End, Apply, Can, IsIdentity, OpenAlone;
    RunStaysYoung(EMPTY, ls, codec);
    var s := End(EMPTY, ls, codec);
    if s.file.None? && !codec.Fits(Minted(key, control)) {
      ATooLargeIdentity(s, control, key, codec);
      return;
    }
    if s.file.Some? {
      var k, c :| codec.machine(k) && s.file.value.values == Minted(k, c);
      MintedIsAnIdentity(k, c, codec);
      DistinctKeys();
      if c != control {
        RecordedIsOwnOnly(s.file.value.values, control, codec);
        ARefusedOpen(s, control, key, codec);
        return;
      }
    }
    AnOpenAlone(s, control, key, codec);
  }

  /** The file is an identity that no coordinator has been recorded in, as earlier helpers left it. */
  predicate Unrecorded(file: Option<Contents>) {
    file.Some? && file.value.Whole? && CONTROL !in file.value.values
  }

  /** The steps of an Open that nothing interrupts, on a marked directory. */
  function OpenMarked(s: State, control: string, key: string): seq<Label> {
    var saving := if Unrecorded(s.file) then [Rename(s.next)] + ([Sync(s.next)] + []) else [];
    [Look(control)] + ([Take(s.next)] + ([Load(s.next, key)] + saving))
  }

  /**
   After the marker, with the lock free: an Open that nothing interrupts comes up exactly when
   the file is a valid identity of its coordinator, and one that does not record it yet still
   fits once it does.
   */
  lemma MarkedReopensExactly(s: State, control: string, key: string, codec: Codec)
    requires s.lock == None && s.marker && codec.machine(key)
    ensures
      (Runs(s, OpenMarked(s, control, key), codec)
       && IsRunning(End(s, OpenMarked(s, control, key), codec), s.next, control))
      <==>
      (s.file.Some? && s.file.value.Whole? && IsIdentity(s.file.value.values, control, codec)
       && (CONTROL in s.file.value.values || codec.Fits(s.file.value.values[CONTROL := control])))
  {
    hide Runs, End, IsIdentity, Decide;
    var p := s.next;
    var taken := Taken(s, control);
    var loaded := Apply(taken, Load(p, key), codec);
    if Unrecorded(s.file) {
      LookAndTake(s, control, [Load(p, key)] + ([Rename(p)] + ([Sync(p)] + [])), codec);
      OneStep(taken, Load(p, key), [Rename(p)] + ([Sync(p)] + []), codec);
      AdoptsOrNot(loaded, p, codec);
    } else {
      LookAndTake(s, control, [Load(p, key)] + [], codec);
      OneStep(taken, Load(p, key), [], codec);
      NoStep(loaded, codec);
    }
  }

  /** Saving runs when there is something to save and it fits. */
  lemma AdoptsOrNot(s: State, p: nat, codec: Codec)
    ensures var saving := [Rename(p)] + ([Sync(p)] + []);
      && (Runs(s, saving, codec) <==> Can(s, Rename(p), codec))
      && (Runs(s, saving, codec) ==> End(s, saving, codec) == Apply(Apply(s, Rename(p), codec), Sync(p), codec))
  {
    hide End;
    var rest := [Sync(p)] + [];
    if Can(s, Rename(p), codec) {
      var renamed := Apply(s, Rename(p), codec);
      OneStep(s, Rename(p), rest, codec);
      OneStep(renamed, Sync(p), [], codec);
      NoStep(Apply(renamed, Sync(p), codec), codec);
    } else {
      assert ([Rename(p)] + rest)[0] == Rename(p);
    }
  }

  lemma RecordedIsOwnOnly(values: Values, control: string, codec: Codec)
    requires CONTROL in values && values[CONTROL] != control
    ensures !IsIdentity(values, control, codec)
  {
  }

  /** Process `p` has the store open, under `control`, in an initialized directory. */
  predicate IsRunning(s: State, p: nat, control: string) {
    s.marker && p in s.procs && s.procs[p].phase.Running? && s.procs[p].control == control
  }

  /** While no one deletes it, an initialized node's file is there. */
  lemma MarkedMeansSaved(ls: seq<Label>, codec: Codec)
    requires Runs(EMPTY, ls, codec) && Undisturbed(ls)
    ensures End(EMPTY, ls, codec).marker ==> End(EMPTY, ls, codec).file.Some?
  {
    hide Runs, End, Apply, Can;
    RunStaysYoung(EMPTY, ls, codec);
  }
}
