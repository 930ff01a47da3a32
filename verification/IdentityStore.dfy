/**
 The crash-safe identity store (native/pondnet/identity_store.go): what a stored identity must
 look like, one file replaced by write-then-rename, and a key/value store that stops for good
 at the first failure. The JSON, key and preference formats are parameters.
 */
module IdentityStore {
  import opened Results

  type Values = map<string, string>

  const STATE := "tailscaled.state"
  const MARKER := "initialized"
  const TEMP_PREFIX := ".node-state-"
  const CONTROL := "_pond-control"
  const MACHINE := "_machinekey"
  const PROFILES := "_profiles"
  const CURRENT_PROFILE := "_current-profile"
  const SERVER_MODE_START := "server-mode-start-key"
  const LEGACY_DAEMON := "_daemon"
  const MAX_IDENTITY_BYTES := 4194304

  datatype Profile = Profile(id: string, entry: string, control: string)

  /**
   `size` is the length of the encoded map; `machine` accepts a key that parses and is not
   zero; `profiles` is None unless the bytes decode to a map; `prefs` is the coordinator of
   preferences that parse and hold a node key.
   */
  datatype Codec = Codec(
    size: Values -> nat,
    machine: string -> bool,
    profiles: string -> Option<map<string, Profile>>,
    prefs: string -> Option<string>)
  {
    predicate Fits(values: Values) { size(values) <= MAX_IDENTITY_BYTES }
  }

  /** A key that is absent reads as no bytes. */
  function Get(values: Values, id: string): string {
    if id in values then values[id] else ""
  }

  // ----- A valid identity -----------------------------------------------------

  predicate IsPrefix(prefix: string, s: string) { prefix <= s }

  predicate HoldsPrefs(id: string) {
    IsPrefix("profile-", id) || id == LEGACY_DAEMON
  }

  function KnownProfiles(values: Values, codec: Codec): Option<map<string, Profile>> {
    if PROFILES in values then codec.profiles(values[PROFILES]) else Some(map[])
  }

  predicate ProfileFits(id: string, profile: Profile, values: Values, control: string) {
    profile.id == id && profile.entry != "" && Get(values, profile.entry) != "" && profile.control == control
  }

  predicate Selects(selector: string, values: Values, profiles: map<string, Profile>) {
    Get(values, selector) == "" || exists id :: id in profiles && profiles[id].entry == Get(values, selector)
  }

  /** An identity of the coordinator `control`, complete in itself. */
  predicate IsIdentity(values: Values, control: string, codec: Codec) {
    && MACHINE in values && codec.machine(values[MACHINE])
    && (CONTROL in values ==> values[CONTROL] == control)
    && var profiles := KnownProfiles(values, codec);
    && profiles.Some?
    && (forall id :: id in profiles.value ==> ProfileFits(id, profiles.value[id], values, control))
    && Selects(CURRENT_PROFILE, values, profiles.value)
    && Selects(SERVER_MODE_START, values, profiles.value)
    && forall id :: id in values && HoldsPrefs(id) ==> codec.prefs(values[id]) == Some(control)
  }

  method FindSelected(selected: string, profiles: map<string, Profile>) returns (found: bool)
    ensures found <==> exists id :: id in profiles && profiles[id].entry == selected
  {
    found := false;
    var left := profiles.Keys;
    while left != {}
      invariant left <= profiles.Keys
      invariant found ==> exists id :: id in profiles && profiles[id].entry == selected
      invariant !found ==> forall id :: id in profiles && id !in left ==> profiles[id].entry != selected
      decreases |left|
    {
      var id :| id in left;
      if profiles[id].entry == selected {
        found := true;
      }
      left := left - {id};
    }
  }

  method ProfilesFit(profiles: map<string, Profile>, values: Values, control: string) returns (ok: bool)
    ensures ok <==> forall id :: id in profiles ==> ProfileFits(id, profiles[id], values, control)
  {
    hide ProfileFits;
    var left := profiles.Keys;
    while left != {}
      invariant left <= profiles.Keys
      invariant forall id :: id in profiles && id !in left ==> ProfileFits(id, profiles[id], values, control)
      decreases |left|
    {
      var id :| id in left;
      if !ProfileFits(id, profiles[id], values, control) {
        return false;
      }
      left := left - {id};
    }
    ok := true;
  }

  method PrefsFit(values: Values, control: string, codec: Codec) returns (ok: bool)
    ensures ok <==> forall id :: id in values && HoldsPrefs(id) ==> codec.prefs(values[id]) == Some(control)
  {
    hide HoldsPrefs;
    var left := values.Keys;
    while left != {}
      invariant left <= values.Keys
      invariant forall id :: id in values && id !in left && HoldsPrefs(id) ==> codec.prefs(values[id]) == Some(control)
      decreases |left|
    {
      var id :| id in left;
      if HoldsPrefs(id) && codec.prefs(values[id]) != Some(control) {
        return false;
      }
      left := left - {id};
    }
    ok := true;
  }

  /** The profile table read: none when there is no entry for it. */
  ghost predicate Lists(values: Values, codec: Codec, profiles: map<string, Profile>) {
    if "_profiles" in values then codec.profiles(values["_profiles"]) == Some(profiles) else profiles == map[]
  }

  /** An entry that is there and holds bytes. */
  predicate HasBytes(values: Values, id: string) {
    id in values && values[id] != ""
  }

  /** Each profile is under its own id, with bytes, of this coordinator; what is selected is one. */
  ghost predicate AllStandBehind(profiles: map<string, Profile>, values: Values, control: string) {
    && (forall id :: id in profiles ==>
         (&& profiles[id].id == id && profiles[id].control == control
          && profiles[id].entry != "" && HasBytes(values, profiles[id].entry)))
    && IsListed(profiles, values, "_current-profile") && IsListed(profiles, values, "server-mode-start-key")
  }

  ghost predicate IsListed(profiles: map<string, Profile>, values: Values, selector: string) {
    HasBytes(values, selector) ==> exists id :: id in profiles && profiles[id].entry == values[selector]
  }

  /**
   Written out: a key; the coordinator if one is recorded; a readable table of profiles that
   stands; and preferences of this coordinator in every entry that is to hold some.
   */
  ghost predicate IsComplete(values: Values, control: string, codec: Codec) {
    && "_machinekey" in values && codec.machine(values["_machinekey"])
    && ("_pond-control" in values ==> values["_pond-control"] == control)
    && (exists profiles :: Lists(values, codec, profiles) && AllStandBehind(profiles, values, control))
    && forall id :: id in values && ("profile-" <= id || id == "_daemon") ==> codec.prefs(values[id]) == Some(control)
  }

  lemma IdentityIsComplete(values: Values, control: string, codec: Codec)
    ensures IsIdentity(values, control, codec) <==> IsComplete(values, control, codec)
  {
    var known := KnownProfiles(values, codec);
    forall profiles ensures Lists(values, codec, profiles) <==> known == Some(profiles) {
    }
    if known.Some? {
      FitsWhenComplete(values, control, known.value);
      SelectsWhenComplete(values, known.value);
    }
  }

  lemma FitsWhenComplete(values: Values, control: string, profiles: map<string, Profile>)
    ensures forall id :: id in profiles ==>
      (ProfileFits(id, profiles[id], values, control) <==>
        (profiles[id].id == id && profiles[id].control == control
         && profiles[id].entry != "" && HasBytes(values, profiles[id].entry)))
  {
  }

  lemma SelectsWhenComplete(values: Values, profiles: map<string, Profile>)
    ensures forall selector :: Selects(selector, values, profiles) <==> IsListed(profiles, values, selector)
  {
  }

  method ValidateIdentity(values: Values, control: string, codec: Codec) returns (ok: bool)
    ensures ok <==> IsIdentity(values, control, codec)
    ensures ok <==> IsComplete(values, control, codec)
  {
    hide ProfileFits, HoldsPrefs, IsComplete;
    IdentityIsComplete(values, control, codec);
    if MACHINE !in values || !codec.machine(values[MACHINE]) {
      return false;
    }
    if CONTROL in values && values[CONTROL] != control {
      return false;
    }
    var profiles: map<string, Profile> := map[];
    if PROFILES in values {
      var decoded := codec.profiles(values[PROFILES]);
      if decoded.None? {
        return false;
      }
      profiles := decoded.value;
    }
    var fit := ProfilesFit(profiles, values, control);
    if !fit {
      return false;
    }
    for i := 0 to 2
      invariant i > 0 ==> Selects(CURRENT_PROFILE, values, profiles)
      invariant i > 1 ==> Selects(SERVER_MODE_START, values, profiles)
    {
      var selected := Get(values, [CURRENT_PROFILE, SERVER_MODE_START][i]);
      if selected != "" {
        var found := FindSelected(selected, profiles);
        if !found {
          return false;
        }
      }
    }
    ok := PrefsFit(values, control, codec);
  }

  /**
   Only an identity that names no coordinator at all, in no entry, passes for two of them; so
   adopting one without a recorded coordinator cannot move its profiles to another.
   */
  lemma TwoCoordinators(values: Values, c1: string, c2: string, codec: Codec)
    requires c1 != c2 && IsIdentity(values, c1, codec)
    ensures IsIdentity(values, c2, codec) <==>
      CONTROL !in values && KnownProfiles(values, codec) == Some(map[])
      && forall id :: id in values ==> !HoldsPrefs(id)
  {
    var profiles := KnownProfiles(values, codec).value;
    if profiles != map[] {
      assert profiles.Keys != {};
      var id :| id in profiles;
      assert ProfileFits(id, profiles[id], values, c1);
    }
  }

  // ----- Replacing the file ---------------------------------------------------

  /** A file holds a whole encoded map, or something that does not read as one. */
  datatype Contents = Whole(values: Values) | Unreadable

  type Files = map<string, Contents>

  function StateOf(files: Files): Option<Contents> {
    if STATE in files then Some(files[STATE]) else None
  }

  /** Which of the operations of one save, or of writing the marker, work. */
  datatype Faults = Faults(
    create: bool, write: bool, sync: bool, close: bool, rename: bool, openDir: bool, syncDir: bool, remove: bool)
  {
    predicate Renames() { create && write && sync && close && rename }
    predicate Saves() { Renames() && openDir && syncDir }

    predicate Marks() { create && sync && close && openDir && syncDir }
  }

  function TempName(suffix: string): string { TEMP_PREFIX + suffix }

  lemma TempIsNoOtherFile(suffix: string)
    ensures TempName(suffix) != STATE && TempName(suffix) != MARKER
  {
    assert TempName(suffix)[0] == '.' && STATE[0] == 't' && MARKER[0] == 'i';
  }

  /** The directory, with what a crash after each operation so far would have left. */
  class Directory {
    var files: Files
    ghost var crashes: seq<Files>

    constructor (files: Files)
      ensures this.files == files && crashes == []
    {
      this.files, crashes := files, [];
    }

    method Put(name: string, contents: Contents)
      modifies this
      ensures files == old(files)[name := contents] && crashes == old(crashes) + [files]
    {
      files := files[name := contents];
      crashes := crashes + [files];
    }

    method Remove(name: string)
      modifies this
      ensures files == old(files) - {name} && crashes == old(crashes) + [files]
    {
      files := files - {name};
      crashes := crashes + [files];
    }

    method Rename(from: string, to: string)
      requires from in files && from != to
      modifies this
      ensures files == old(files)[to := old(files)[from]] - {from} && crashes == old(crashes) + [files]
    {
      files := files[to := files[from]] - {from};
      crashes := crashes + [files];
    }
  }

  /** `after` has the state file `state`, and besides it only `temp` came or went. */
  ghost predicate Replaces(before: Files, state: Option<Contents>, temp: string, after: Files) {
    && StateOf(after) == state
    && forall name :: name != STATE && name != temp ==>
      (name in after <==> name in before) && (name in after ==> after[name] == before[name])
  }

  ghost predicate AllReplace(before: Files, state: Option<Contents>, temp: string, crashes: seq<Files>) {
    forall i :: 0 <= i < |crashes| ==> Replaces(before, state, temp, crashes[i])
  }

  /** The old file in every crash up to some operation, and exactly `values` in every later one. */
  ghost predicate SwitchesOnce(before: Files, values: Values, temp: string, crashes: seq<Files>) {
    exists k :: 0 <= k <= |crashes|
      && AllReplace(before, StateOf(before), temp, crashes[..k])
      && AllReplace(before, Some(Whole(values)), temp, crashes[k..])
  }

  /** The temporary file up to its closing. */
  method WriteTemp(directory: Directory, temp: string, values: Values, io: Faults) returns (ok: bool)
    requires temp != STATE && io.create
    modifies directory
    ensures ok == (io.write && io.sync && io.close)
    ensures ok ==> temp in directory.files && directory.files[temp] == Whole(values)
    ensures Replaces(old(directory.files), StateOf(old(directory.files)), temp, directory.files)
    ensures old(directory.crashes) <= directory.crashes
    ensures AllReplace(old(directory.files), StateOf(old(directory.files)), temp,
                       directory.crashes[|old(directory.crashes)|..])
  {
    directory.Put(temp, Unreadable);
    ok := io.write;
    if ok {
      directory.Put(temp, Whole(values));
      ok := io.sync;
    }
    if !io.close {
      ok := false;
    }
  }

  lemma SameReplaces(files: Files, temp: string)
    ensures Replaces(files, StateOf(files), temp, files)
  {
  }

  lemma ReplacesIsState(before: Files, state: Option<Contents>, temp: string, after: Files)
    requires Replaces(before, state, temp, after)
    ensures StateOf(after) == state
  {
  }

  lemma RenameReplaces(before: Files, state: Option<Contents>, temp: string, after: Files)
    requires Replaces(before, state, temp, after) && temp != STATE && temp in after
    ensures var renamed := after[STATE := after[temp]] - {temp};
      Replaces(before, Some(after[temp]), temp, renamed) && StateOf(renamed) == Some(after[temp])
  {
  }

  lemma RemoveReplaces(before: Files, state: Option<Contents>, temp: string, after: Files)
    requires Replaces(before, state, temp, after) && temp != STATE
    ensures Replaces(before, state, temp, after - {temp}) && StateOf(after - {temp}) == state
  {
  }

  method Persist(directory: Directory, values: Values, codec: Codec, suffix: string, io: Faults) returns (ok: bool)
    modifies directory
    ensures ok == (codec.Fits(values) && io.Saves())
    ensures ok <==>
      && codec.size(values) <= 4194304
      && io.create && io.write && io.sync && io.close && io.rename && io.openDir && io.syncDir
    ensures Replaces(old(directory.files),
                     if codec.Fits(values) && io.Renames() then Some(Whole(values)) else StateOf(old(directory.files)),
                     TempName(suffix), directory.files)
    ensures old(directory.crashes) <= directory.crashes
    ensures SwitchesOnce(old(directory.files), values, TempName(suffix), directory.crashes[|old(directory.crashes)|..])
  {
    hide AllReplace, Replaces, StateOf, SwitchesOnce;
    var temp := TempName(suffix);
    TempIsNoOtherFile(suffix);
    ghost var before, start := directory.files, |directory.crashes|;
    SameReplaces(before, temp);
    if !codec.Fits(values) || !io.create {
      NothingHappened(before, values, temp, directory.crashes);
      return false;
    }
    ok := WriteTemp(directory, temp, values, io);
    ghost var written, cut := directory.crashes, |directory.crashes|;
    assert written[start..][..cut - start] == written[start..];
    ReplacesIsState(before, StateOf(before), temp, directory.files);
    if ok && io.rename {
      RenameReplaces(before, StateOf(before), temp, directory.files);
      directory.Rename(temp, STATE);
      ok := io.openDir && io.syncDir;
    } else {
      ok := false;
    }
    ghost var moved := directory.files;
    if io.remove {
      RemoveReplaces(before, StateOf(moved), temp, moved);
      directory.Remove(temp);
    }
    CrashesOfPersist(before, values, temp, written, directory.crashes, start, moved, directory.files);
  }

  lemma NothingHappened(before: Files, values: Values, temp: string, crashes: seq<Files>)
    ensures SwitchesOnce(before, values, temp, crashes[|crashes|..])
  {
    assert crashes[|crashes|..] == [];
    assert AllReplace(before, StateOf(before), temp, [][..0]);
    assert AllReplace(before, Some(Whole(values)), temp, [][0..]);
  }

  lemma CrashesOfPersist(
    before: Files, values: Values, temp: string, written: seq<Files>, crashes: seq<Files>, start: nat,
    moved: Files, last: Files)
    requires start <= |written| <= |crashes| && written == crashes[..|written|]
    requires AllReplace(before, StateOf(before), temp, written[start..])
    requires forall i :: |written| <= i < |crashes| ==> crashes[i] == moved || crashes[i] == last
    requires StateOf(moved) == StateOf(last)
    requires Replaces(before, StateOf(moved), temp, moved) && Replaces(before, StateOf(moved), temp, last)
    requires StateOf(moved) == StateOf(before) || StateOf(moved) == Some(Whole(values))
    ensures SwitchesOnce(before, values, temp, crashes[start..])
  {
    var added := crashes[start..];
    var k := if StateOf(moved) == Some(Whole(values)) then |written| - start else |added|;
    assert forall i :: 0 <= i < |written| - start ==> added[i] == written[start..][i];
    assert AllReplace(before, StateOf(before), temp, added[..k]);
    assert AllReplace(before, Some(Whole(values)), temp, added[k..]);
  }

  /** A crash at any point leaves the old file or the new one, whole. */
  lemma OldOrNew(before: Files, values: Values, temp: string, crashes: seq<Files>, start: nat)
    requires start <= |crashes| && SwitchesOnce(before, values, temp, crashes[start..])
    ensures forall i :: start <= i < |crashes| ==>
      StateOf(crashes[i]) == StateOf(before) || StateOf(crashes[i]) == Some(Whole(values))
    ensures forall i, name :: start <= i < |crashes| && name != STATE && name != temp ==>
      (name in crashes[i] <==> name in before)
  {
    var added := crashes[start..];
    var k :| 0 <= k <= |added|
      && AllReplace(before, StateOf(before), temp, added[..k])
      && AllReplace(before, Some(Whole(values)), temp, added[k..]);
    forall i | start <= i < |crashes|
      ensures
        || Replaces(before, StateOf(before), temp, crashes[i])
        || Replaces(before, Some(Whole(values)), temp, crashes[i])
    {
      if i - start < k {
        assert added[..k][i - start] == crashes[i];
      } else {
        assert added[k..][i - start - k] == crashes[i];
      }
    }
  }

  // ----- The store ------------------------------------------------------------

  datatype Opening = Refuse | Mint(values: Values) | Adopt(values: Values) | Use(values: Values)

  function Minted(key: string, control: string): Values {
    map[MACHINE := key, CONTROL := control]
  }

  /**
   What opening makes of the state file. `unmarked` says that the caller saw no marker; `key` is
   the new machine key, should one be made.
   */
  function Open(file: Option<Contents>, control: string, unmarked: bool, key: string, codec: Codec): Opening {
    match file
    case None => if unmarked then Mint(Minted(key, control)) else Refuse
    case Some(Unreadable) => Refuse
    case Some(Whole(values)) =>
      if !IsIdentity(values, control, codec) then Refuse
      else if CONTROL !in values then Adopt(values[CONTROL := control])
      else Use(values)
  }

  /** What is opened is an identity under the caller's coordinator, with the key the file had. */
  lemma OpenedIsAnIdentity(file: Option<Contents>, control: string, unmarked: bool, key: string, codec: Codec)
    requires codec.machine(key)
    requires !Open(file, control, unmarked, key, codec).Refuse?
    ensures var r := Open(file, control, unmarked, key, codec);
      && IsIdentity(r.values, control, codec) && CONTROL in r.values && r.values[CONTROL] == control
      && (r.Mint? <==> file.None?)
      && (r.Mint? || forall id :: id != CONTROL ==> Get(r.values, id) == Get(file.value.values, id))
  {
    hide IsIdentity;
    DistinctKeys();
    var r := Open(file, control, unmarked, key, codec);
    if r.Mint? {
      MintedIsAnIdentity(key, control, codec);
    } else if r.Adopt? {
      AdoptedIsAnIdentity(file.value.values, control, codec);
    } else {
      RecordedIsOwn(file.value.values, control, codec);
    }
  }

  lemma RecordedIsOwn(values: Values, control: string, codec: Codec)
    requires IsIdentity(values, control, codec)
    ensures CONTROL in values ==> values[CONTROL] == control
  {
  }

  lemma DistinctKeys()
    ensures CONTROL[1] == 'p' && MACHINE[1] == 'm' && CONTROL != MACHINE
    ensures PROFILES !in {MACHINE, CONTROL} && CURRENT_PROFILE !in {MACHINE, CONTROL}
    ensures SERVER_MODE_START !in {MACHINE, CONTROL}
    ensures !HoldsPrefs(MACHINE) && !HoldsPrefs(CONTROL)
  {
    assert MACHINE[0] == '_' && CONTROL[0] == '_' && "profile-"[0] == 'p' && LEGACY_DAEMON[1] == 'd';
    assert PROFILES[2] == 'r' && CONTROL[2] == 'o' && CURRENT_PROFILE[1] == 'c' && SERVER_MODE_START[0] == 's';
  }

  lemma MintedIsAnIdentity(key: string, control: string, codec: Codec)
    requires codec.machine(key)
    ensures IsIdentity(Minted(key, control), control, codec)
  {
    hide HoldsPrefs;
    DistinctKeys();
  }

  lemma AdoptedIsAnIdentity(values: Values, control: string, codec: Codec)
    requires IsIdentity(values, control, codec) && CONTROL !in values
    ensures IsIdentity(values[CONTROL := control], control, codec)
  {
    hide HoldsPrefs;
    DistinctKeys();
    var adopted := values[CONTROL := control];
    var profiles := KnownProfiles(values, codec).value;
    assert KnownProfiles(adopted, codec) == KnownProfiles(values, codec);
    assert forall id :: Get(values, id) != "" ==> Get(adopted, id) == Get(values, id);
    assert Selects(CURRENT_PROFILE, adopted, profiles) && Selects(SERVER_MODE_START, adopted, profiles);
  }

  datatype Decision = Same | Forbidden | Save(next: Values)

  /** What a write of `value` (None is Go's nil) asks for. */
  function Decide(values: Values, id: string, value: Option<string>): Decision {
    if Get(values, id) == value.GetOr("") then Same
    else if id == MACHINE || id == CONTROL then Forbidden
    else Save(if value.None? then values - {id} else values[id := value.value])
  }

  datatype ReadResult = Failed | NotExist | Found(value: string)

  /** The store and its file, as values. */
  datatype Store = Store(values: Values, failed: bool, file: Option<Contents>)

  function Reading(st: Store, id: string): ReadResult {
    if st.failed then Failed
    else if id !in st.values then NotExist
    else Found(st.values[id])
  }

  datatype Write = Write(id: string, value: Option<string>, suffix: string, io: Faults)

  /** The store after a write, and whether the write succeeded. */
  function Written(st: Store, w: Write, codec: Codec): (Store, bool) {
    if st.failed then (st, false)
    else
      match Decide(st.values, w.id, w.value)
      case Same => (st, true)
      case Forbidden => (st.(failed := true), false)
      case Save(next) =>
        var file := if codec.Fits(next) && w.io.Renames() then Some(Whole(next)) else st.file;
        if codec.Fits(next) && w.io.Saves() then (Store(next, false, file), true)
        else (st.(failed := true, file := file), false)
  }

  class IdentityStore {
    const directory: Directory
    const codec: Codec
    var values: Values
    var failure: bool

    /** While the store has not failed, its map is the file. */
    ghost predicate Valid()
      reads this, directory
    {
      !failure ==> StateOf(directory.files) == Some(Whole(values))
    }

    ghost function View(): Store
      reads this, directory
    {
      Store(values, failure, StateOf(directory.files))
    }

    constructor (directory: Directory, values: Values, codec: Codec)
      requires StateOf(directory.files) == Some(Whole(values))
      ensures Valid() && this.directory == directory && this.codec == codec && this.values == values && !failure
    {
      this.directory, this.values, this.codec, failure := directory, values, codec, false;
    }

    method ReadState(id: string) returns (r: ReadResult)
      ensures r == Reading(View(), id)
    {
      if failure {
        return Failed;
      }
      if id !in values {
        return NotExist;
      }
      return Found(values[id]);
    }

    method WriteState(w: Write) returns (ok: bool)
      requires Valid()
      modifies this, directory
      ensures Valid()
      ensures (View(), ok) == Written(old(View()), w, codec)
      ensures var value := w.value.GetOr("");
        var next := if w.value.None? then old(values) - {w.id} else old(values)[w.id := w.value.value];
        var same := if w.id in old(values) then old(values)[w.id] == value else value == "";
        var saved := w.id !in {"_machinekey", "_pond-control"} && codec.Fits(next) && w.io.Saves();
        && (ok <==> !old(failure) && (same || saved)) && failure == !ok
        && values == if ok && !same then next else old(values)
      ensures var decision := Decide(old(values), w.id, w.value);
        if old(failure) || !decision.Save? then directory.crashes == old(directory.crashes)
        else
          && old(directory.crashes) <= directory.crashes
          && SwitchesOnce(old(directory.files), decision.next, TempName(w.suffix),
                          directory.crashes[|old(directory.crashes)|..])
    {
      hide SwitchesOnce, TempName;
      if failure {
        return false;
      }
      if Get(values, w.id) == w.value.GetOr("") {
        return true;
      }
      if w.id == MACHINE || w.id == CONTROL {
        failure := true;
        return false;
      }
      var next := if w.value.None? then values - {w.id} else values[w.id := w.value.value];
      ok := Persist(directory, next, codec, w.suffix, w.io);
      if !ok {
        failure := true;
        return false;
      }
      values := next;
    }
  }

  method OpenIdentityStore(
      directory: Directory, control: string, unmarked: bool, key: string, codec: Codec, suffix: string, io: Faults)
    returns (r: Option<IdentityStore>)
    modifies directory
    ensures var file := StateOf(old(directory.files));
      match file
      case None =>
        var values := map[MACHINE := key, CONTROL := control];
        && (r.Some? <==> unmarked && codec.Fits(values) && io.Saves())
        && (r.Some? ==> r.value.values == values && StateOf(directory.files) == Some(Whole(values)))
      case Some(Unreadable) => r.None?
      case Some(Whole(found)) =>
        var values := found[CONTROL := control];
        && (r.Some? <==>
            && IsIdentity(found, control, codec)
            && (CONTROL in found || (codec.Fits(values) && io.Saves())))
        && (r.Some? ==> r.value.values == values && StateOf(directory.files) == Some(Whole(values)))
    ensures var opening := Open(StateOf(old(directory.files)), control, unmarked, key, codec);
      && (r.Some? <==> opening.Use? || (!opening.Refuse? && codec.Fits(opening.values) && io.Saves()))
      && (StateOf(directory.files) == StateOf(old(directory.files))
          || ((opening.Mint? || opening.Adopt?) && StateOf(directory.files) == Some(Whole(opening.values))))
    ensures r.Some? ==>
      && r.value.Valid() && r.value.directory == directory && !r.value.failure
      && r.value.values == Open(StateOf(old(directory.files)), control, unmarked, key, codec).values
    ensures MARKER in directory.files <==> MARKER in old(directory.files)
    ensures old(directory.crashes) <= directory.crashes
    ensures forall i :: |old(directory.crashes)| <= i < |directory.crashes| ==>
      (MARKER in directory.crashes[i] <==> MARKER in old(directory.files))
    ensures var opening := Open(StateOf(old(directory.files)), control, unmarked, key, codec);
      forall i :: |old(directory.crashes)| <= i < |directory.crashes| ==>
        || StateOf(directory.crashes[i]) == StateOf(old(directory.files))
        || (!opening.Refuse? && StateOf(directory.crashes[i]) == Some(Whole(opening.values)))
  {
    hide IsIdentity, IsComplete, SwitchesOnce, TempName;
    TempIsNoOtherFile(suffix);
    assert MARKER[0] == 'i' && STATE[0] == 't';
    if STATE !in directory.files {
      if !unmarked {
        return None;
      }
      var values := Minted(key, control);
      var ok := Persist(directory, values, codec, suffix, io);
      OldOrNew(old(directory.files), values, TempName(suffix), directory.crashes, |old(directory.crashes)|);
      if !ok {
        return None;
      }
      var store := new IdentityStore(directory, values, codec);
      return Some(store);
    }
    if directory.files[STATE].Unreadable? {
      return None;
    }
    var values := directory.files[STATE].values;
    var valid := ValidateIdentity(values, control, codec);
    if !valid {
      return None;
    }
    RecordedIsOwn(values, control, codec);
    if CONTROL !in values {
      values := values[CONTROL := control];
      var ok := Persist(directory, values, codec, suffix, io);
      OldOrNew(old(directory.files), values, TempName(suffix), directory.crashes, |old(directory.crashes)|);
      if !ok {
        return None;
      }
    }
    var store := new IdentityStore(directory, values, codec);
    return Some(store);
  }
}
