/**
 Stale storage locks (matter-server/src/storageLock.ts): what is known about a lock, the
 decision, and what reclaiming and recording do to the files.
 */
module StorageLock {
  import opened Results

  /** Who the pid file names. */
  datatype LockOwner = LockOwner(pid: int, token: Option<string>)

  /** The owner of a lock, and the boot it was taken in. */
  datatype BootRecord = BootRecord(pid: int, token: string, bootId: string)

  datatype LockFacts = LockFacts(
    lockExists: bool,
    owner: Option<LockOwner>,
    selfPid: int,
    ownerAlive: bool,
    ownerCommand: Option<string>,
    record: Option<BootRecord>,
    bootId: Option<string>,
    storagePath: string)

  datatype StaleReason = NoOwnerRecorded | PreviousBoot | OwnerGone | PidIsSelf | PidReused

  datatype HeldReason = LiveController | OwnerUnidentified

  datatype Verdict = Nothing | Reclaim(why: StaleReason) | Respect(because: HeldReason)

  // ----- Command lines --------------------------------------------------------

  /** JavaScript's white space, up to U+FFFF. */
  predicate IsSpace(c: char) {
    || '\t' <= c <= '\r' || c == ' ' || c == '\U{A0}' || c == '\U{1680}' || '\U{2000}' <= c <= '\U{200A}'
    || c == '\U{2028}' || c == '\U{2029}' || c == '\U{202F}' || c == '\U{205F}' || c == '\U{3000}' || c == '\U{FEFF}'
  }

  /** Those code points, one by one. */
  const WHITE_SPACE: seq<int> := [
    9, 10, 11, 12, 13, 32, 160, 5760,
    8192, 8193, 8194, 8195, 8196, 8197, 8198, 8199, 8200, 8201, 8202,
    8232, 8233, 8239, 8287, 12288, 65279]

  lemma SpacesAreListed(c: char)
    ensures IsSpace(c) <==> c as int in WHITE_SPACE
  {
    var n := c as int;
    if IsSpace(c) {
      var i :=
        if n <= 13 then n - 9 else if n == 32 then 5 else if n == 160 then 6 else if n == 5760 then 7
        else if n <= 8202 then 8 + n - 8192 else if n <= 8233 then 19 + n - 8232
        else if n == 8239 then 21 else if n == 8287 then 22 else if n == 12288 then 23 else 24;
      assert WHITE_SPACE[i] == n;
    }
  }

  function SkipSpace(s: string): string {
    if s != "" && IsSpace(s[0]) then SkipSpace(s[1..]) else s
  }

  function UpToSpace(s: string): string {
    if s == "" || IsSpace(s[0]) then "" else [s[0]] + UpToSpace(s[1..])
  }

  function DropSlashes(s: string): string {
    if s != "" && s[|s| - 1] == '/' then DropSlashes(s[..|s| - 1]) else s
  }

  function AfterSlash(s: string): string {
    if s == "" || s[|s| - 1] == '/' then "" else AfterSlash(s[..|s| - 1]) + [s[|s| - 1]]
  }

  /** The last component of a path, whatever slashes end it. */
  function BaseName(path: string): string {
    AfterSlash(DropSlashes(path))
  }

  function ExecutableOf(command: string): string {
    BaseName(UpToSpace(SkipSpace(command)))
  }

  predicate IsVersion(s: string) {
    forall i :: 0 <= i < |s| ==> '0' <= s[i] <= '9' || s[i] == '.'
  }

  /** `node` or `nodejs`, and digits and dots. */
  predicate IsNodeName(name: string) {
    "node" <= name && (IsVersion(name[4..]) || ("js" <= name[4..] && IsVersion(name[6..])))
  }

  predicate Contains(s: string, t: string) {
    exists i :: 0 <= i <= |s| && t <= s[i..]
  }

  predicate MayBeController(command: string, storagePath: string) {
    IsNodeName(ExecutableOf(command)) || (storagePath != "" && Contains(command, storagePath))
  }

  // ----- The decision ---------------------------------------------------------

  function Decide(f: LockFacts): Verdict {
    if !f.lockExists then Nothing
    else if f.owner.None? then Reclaim(NoOwnerRecorded)
    else
      var owner := f.owner.value;
      if f.record.Some? && f.bootId.Some? && f.record.value.pid == owner.pid
         && Some(f.record.value.token) == owner.token && f.record.value.bootId != f.bootId.value
      then Reclaim(PreviousBoot)
      else if !f.ownerAlive then Reclaim(OwnerGone)
      else if owner.pid == f.selfPid then Reclaim(PidIsSelf)
      else if f.ownerCommand.None? then Respect(OwnerUnidentified)
      else if MayBeController(f.ownerCommand.value, f.storagePath) then Respect(LiveController)
      else Reclaim(PidReused)
  }

  // ----- The files ------------------------------------------------------------

  /** The lock, the owner its pid file names (None for none or a malformed one), the boot record. */
  datatype Files = Files(lock: bool, owner: Option<LockOwner>, record: Option<BootRecord>)

  /** What a process sees: itself, the command lines of the living, and the boot. */
  datatype Sight = Sight(
    selfPid: int, alive: set<int>, commands: map<int, string>, bootId: Option<string>, storagePath: string)

  function Inspect(files: Files, sight: Sight): LockFacts {
    var owner := if files.lock then files.owner else None;
    var ownerAlive := owner.Some? && owner.value.pid in sight.alive;
    LockFacts(
      files.lock, owner, sight.selfPid, ownerAlive,
      if ownerAlive && owner.value.pid != sight.selfPid && owner.value.pid in sight.commands
      then Some(sight.commands[owner.value.pid]) else None,
      if owner.None? then None else files.record,
      if owner.None? then None else sight.bootId,
      sight.storagePath)
  }

  /** `removes` is how many of the two unlinks work: the pid file goes first. */
  function AfterReclaim(files: Files, sight: Sight, removes: nat): Files {
    if !Decide(Inspect(files, sight)).Reclaim? || removes == 0 then files
    else if removes == 1 then files.(owner := None)
    else files.(owner := None, lock := false)
  }

  function AfterRecord(files: Files, selfPid: int, bootId: Option<string>): Files {
    if files.owner.None? || files.owner.value.pid != selfPid || files.owner.value.token.None? || bootId.None?
    then files
    else files.(record := Some(BootRecord(selfPid, files.owner.value.token.value, bootId.value)))
  }

  class StorageDirectory {
    var lock: bool
    var owner: Option<LockOwner>
    var record: Option<BootRecord>

    ghost function View(): Files
      reads this
    {
      Files(lock, owner, record)
    }

    constructor (files: Files)
      ensures View() == files
    {
      lock, owner, record := files.lock, files.owner, files.record;
    }

    method ReclaimStaleStorageLock(sight: Sight, removes: nat)
      modifies this
      ensures View() == AfterReclaim(old(View()), sight, removes)
      ensures !old(lock) ==> View() == old(View())
      ensures var reclaims := Decide(Inspect(old(View()), sight)).Reclaim?;
        && owner == (if reclaims && removes >= 1 then None else old(owner))
        && lock == (old(lock) && !(reclaims && removes >= 2))
        && record == old(record)
    {
      var verdict := Decide(Inspect(Files(lock, owner, record), sight));
      if !verdict.Reclaim? {
        return;
      }
      if removes == 0 {
        return;
      }
      owner := None;
      if removes > 1 {
        lock := false;
      }
    }

    method RecordStorageLockBoot(selfPid: int, bootId: Option<string>)
      modifies this`record
      ensures View() == AfterRecord(old(View()), selfPid, bootId)
      ensures record ==
        if bootId.Some? && owner.Some? && owner.value.pid == selfPid && owner.value.token.Some?
        then Some(BootRecord(selfPid, owner.value.token.value, bootId.value)) else old(record)
    {
      if owner.None? || owner.value.pid != selfPid || owner.value.token.None? || bootId.None? {
        return;
      }
      record := Some(BootRecord(owner.value.pid, owner.value.token.value, bootId.value));
    }
  }

  // ----- Who is taken for a controller ----------------------------------------

  lemma {:induction false} UpToSpaceOf(word: string, rest: string)
    requires forall i :: 0 <= i < |word| ==> !IsSpace(word[i])
    requires rest == "" || IsSpace(rest[0])
    ensures UpToSpace(word + rest) == word
  {
    if word == "" {
      assert word + rest == rest;
    } else {
      assert (word + rest)[1..] == word[1..] + rest;
      UpToSpaceOf(word[1..], rest);
    }
  }

  lemma {:induction false} AfterSlashOf(directory: string, name: string)
    requires '/' !in name && (directory == "" || directory[|directory| - 1] == '/')
    ensures AfterSlash(directory + name) == name
  {
    if name == "" {
      assert directory + name == directory;
    } else {
      var front, last := name[..|name| - 1], name[|name| - 1];
      var whole := directory + name;
      assert whole[..|whole| - 1] == directory + front && whole[|whole| - 1] == last;
      AfterSlashOf(directory, front);
      assert front + [last] == name;
    }
  }

  /**
   Node run from any directory, under any of its versioned names and with any arguments, is
   always taken for a possible controller, whatever the store's path.
   */
  lemma EveryNodeIsRespected(directory: string, name: string, arguments: string, storagePath: string)
    requires directory == "" || directory[|directory| - 1] == '/'
    requires forall i :: 0 <= i < |directory| ==> !IsSpace(directory[i])
    requires IsNodeName(name)
    requires arguments == "" || IsSpace(arguments[0])
    ensures ExecutableOf(directory + name + arguments) == name
    ensures MayBeController(directory + name + arguments, storagePath)
  {
    NodeNameIsPlain(name);
    var word := directory + name;
    assert !IsSpace((word + arguments)[0]);
    UpToSpaceOf(word, arguments);
    assert word[|word| - 1] == name[|name| - 1];
    AfterSlashOf(directory, name);
  }

  lemma NodeNameIsPlain(name: string)
    requires IsNodeName(name)
    ensures '/' !in name && |name| >= 4 && forall i :: 0 <= i < |name| ==> !IsSpace(name[i])
  {
    forall i | 0 <= i < |name| ensures name[i] != '/' && !IsSpace(name[i]) {
      if i < 4 {
        assert name[i] == "node"[i];
      } else if IsVersion(name[4..]) {
        assert name[i] == name[4..][i - 4];
      } else if i < 6 {
        assert name[i] == name[4..][i - 4] == "js"[i - 4];
      } else {
        var version := name[6..];
        assert IsVersion(version) && version[i - 6] == name[i];
      }
    }
  }

  /** Digits and dots, written out. */
  predicate DigitsAndDots(version: string) {
    forall i :: 0 <= i < |version| ==> version[i] in "0123456789."
  }

  /** Written out: the name is `node` or `nodejs` with a version behind it. */
  ghost predicate NamesNode(name: string) {
    exists version: string :: DigitsAndDots(version) && (name == "node" + version || name == "nodejs" + version)
  }

  /** Written out: the store's path stands somewhere in the command line. */
  ghost predicate NamesStore(command: string, storagePath: string) {
    storagePath != "" && exists front: string, back: string :: command == front + storagePath + back
  }

  predicate IsWord(s: string) {
    s != "" && forall i :: 0 <= i < |s| ==> s[i] != '/' && !IsSpace(s[i])
  }

  lemma VersionChar(c: char)
    ensures c in "0123456789." <==> '0' <= c <= '9' || c == '.'
  {
    if '0' <= c <= '9' {
      assert "0123456789."[c as int - '0' as int] == c;
    } else if c == '.' {
      assert "0123456789."[10] == c;
    }
  }

  lemma Versions(s: string)
    ensures IsVersion(s) <==> DigitsAndDots(s)
  {
    forall i | 0 <= i < |s| ensures s[i] in "0123456789." <==> '0' <= s[i] <= '9' || s[i] == '.' {
      VersionChar(s[i]);
    }
  }

  lemma NodeNames(name: string)
    ensures IsNodeName(name) <==> NamesNode(name)
  {
    hide IsVersion, DigitsAndDots;
    if IsNodeName(name) {
      Versions(name[4..]);
      assert name == "node" + name[4..];
      if !IsVersion(name[4..]) {
        Versions(name[6..]);
        assert name == "nodejs" + name[6..];
      }
    }
    if NamesNode(name) {
      var version: string :| DigitsAndDots(version) && (name == "node" + version || name == "nodejs" + version);
      Versions(version);
      if name == "nodejs" + version {
        assert name[4..] == "js" + version && name[6..] == version;
      } else {
        assert name[4..] == version;
      }
    }
  }

  lemma PathsNamed(command: string, storagePath: string)
    ensures (storagePath != "" && Contains(command, storagePath)) <==> NamesStore(command, storagePath)
  {
    if storagePath != "" && Contains(command, storagePath) {
      var i :| 0 <= i <= |command| && storagePath <= command[i..];
      assert command == command[..i] + storagePath + command[i..][|storagePath|..];
    }
    if NamesStore(command, storagePath) {
      var front: string, back: string :| command == front + storagePath + back;
      assert command[|front|..] == storagePath + back;
    }
  }

  lemma {:induction false} SkipSpaceOf(lead: string, rest: string)
    requires forall i :: 0 <= i < |lead| ==> IsSpace(lead[i])
    requires rest != "" && !IsSpace(rest[0])
    ensures SkipSpace(lead + rest) == rest
  {
    if lead == "" {
      assert lead + rest == rest;
    } else {
      assert (lead + rest)[1..] == lead[1..] + rest;
      SkipSpaceOf(lead[1..], rest);
    }
  }

  lemma {:induction false} DropSlashesOf(s: string, slashes: string)
    requires s != "" && s[|s| - 1] != '/' && forall i :: 0 <= i < |slashes| ==> slashes[i] == '/'
    ensures DropSlashes(s + slashes) == s
  {
    if slashes == "" {
      assert s + slashes == s;
    } else {
      var fewer := slashes[..|slashes| - 1];
      assert (s + slashes)[..|s + slashes| - 1] == s + fewer;
      DropSlashesOf(s, fewer);
    }
  }

  /** The executable is the last component of the first word, however the line and the path are spaced out. */
  lemma ExecutableIsTheName(lead: string, directory: string, name: string, slashes: string, arguments: string)
    requires forall i :: 0 <= i < |lead| ==> IsSpace(lead[i])
    requires directory == "" || directory[|directory| - 1] == '/'
    requires forall i :: 0 <= i < |directory| ==> !IsSpace(directory[i])
    requires IsWord(name) && forall i :: 0 <= i < |slashes| ==> slashes[i] == '/'
    requires arguments == "" || IsSpace(arguments[0])
    ensures ExecutableOf(lead + directory + name + slashes + arguments) == name
  {
    var word := directory + name + slashes;
    assert lead + directory + name + slashes + arguments == lead + (word + arguments);
    assert !IsSpace((word + arguments)[0]);
    SkipSpaceOf(lead, word + arguments);
    UpToSpaceOf(word, arguments);
    DropSlashesOf(directory + name, slashes);
    AfterSlashOf(directory, name);
  }

  /**
   The living owner of a lock that no record speaks against is respected exactly when its
   executable is Node under one of its names or its command line names the store; running
   anything else, its pid has been given to another process and the lock is reclaimed.
   */
  lemma LiveOwnerIsRespectedExactly(
    files: Files, sight: Sight, lead: string, directory: string, name: string, slashes: string, arguments: string)
    requires files.lock && files.owner.Some? && files.record.None?
    requires files.owner.value.pid in sight.alive && files.owner.value.pid != sight.selfPid
    requires files.owner.value.pid in sight.commands
    requires sight.commands[files.owner.value.pid] == lead + directory + name + slashes + arguments
    requires forall i :: 0 <= i < |lead| ==> IsSpace(lead[i])
    requires directory == "" || directory[|directory| - 1] == '/'
    requires forall i :: 0 <= i < |directory| ==> !IsSpace(directory[i])
    requires IsWord(name) && forall i :: 0 <= i < |slashes| ==> slashes[i] == '/'
    requires arguments == "" || IsSpace(arguments[0])
    ensures Decide(Inspect(files, sight)) ==
      if NamesNode(name) || NamesStore(sight.commands[files.owner.value.pid], sight.storagePath)
      then Respect(LiveController) else Reclaim(PidReused)
  {
    hide ExecutableOf, IsNodeName, Contains, NamesNode, NamesStore, IsSpace;
    ExecutableIsTheName(lead, directory, name, slashes, arguments);
    NodeNames(name);
    PathsNamed(sight.commands[files.owner.value.pid], sight.storagePath);
  }
}
