/**
 Opening a node's identity (native/pondnet/node.go, `Open` and `markInitialized`) as one
 process's file operations, with a crash after any of them.
 */
module NodeOpening {
  import opened Results
  import opened IdentityStore

  method MarkInitialized(directory: Directory, io: Faults) returns (ok: bool)
    modifies directory
    ensures ok <==>
      MARKER in old(directory.files) || (io.create && io.sync && io.close && io.openDir && io.syncDir)
    ensures MARKER in directory.files <==> MARKER in old(directory.files) || io.create
    ensures StateOf(directory.files) == StateOf(old(directory.files))
    ensures old(directory.crashes) <= directory.crashes
    ensures forall i :: |old(directory.crashes)| <= i < |directory.crashes| ==>
      StateOf(directory.crashes[i]) == StateOf(old(directory.files))
  {
    assert MARKER[0] == 'i' && STATE[0] == 't';
    if MARKER in directory.files {
      return true;
    }
    if !io.create {
      return false;
    }
    directory.Put(MARKER, Unreadable);
    ok := io.Marks();
  }

  /** A directory an Open under `control` makes something of: empty and unmarked, or its own. */
  predicate Reopens(files: Files, control: string, codec: Codec) {
    match StateOf(files)
    case None => MARKER !in files
    case Some(Unreadable) => false
    case Some(Whole(values)) => IsIdentity(values, control, codec)
  }

  /**
   An Open with its lock free. A crash after any of its operations leaves a directory that the
   next Open under the same coordinator can use, if this one could.
   */
  method OpenNode(
      directory: Directory, control: string, key: string, codec: Codec, suffix: string, io: Faults, markIo: Faults)
    returns (r: Option<IdentityStore>)
    requires codec.machine(key)
    modifies directory
    ensures var opening := Open(StateOf(old(directory.files)), control, MARKER !in old(directory.files), key, codec);
      && (r.Some? <==>
          && (opening.Use? || (!opening.Refuse? && codec.Fits(opening.values) && io.Saves()))
          && (MARKER in old(directory.files) || markIo.Marks()))
      && (r.Some? ==> r.value.values == opening.values)
    ensures var file, marked := StateOf(old(directory.files)), MARKER in old(directory.files);
      match file
      case None =>
        var values := map[MACHINE := key, CONTROL := control];
        && (r.Some? <==> !marked && codec.Fits(values) && io.Saves() && markIo.Marks())
        && (r.Some? ==> r.value.values == values)
      case Some(Unreadable) => r.None?
      case Some(Whole(found)) =>
        var values := found[CONTROL := control];
        && (r.Some? <==>
            && IsIdentity(found, control, codec)
            && (CONTROL in found || (codec.Fits(values) && io.Saves()))
            && (marked || markIo.Marks()))
        && (r.Some? ==> r.value.values == values)
    ensures r.Some? ==> r.value.Valid() && !r.value.failure && MARKER in directory.files
    ensures Reopens(old(directory.files), control, codec) ==>
      && Reopens(directory.files, control, codec)
      && forall i :: |old(directory.crashes)| <= i < |directory.crashes| ==>
        Reopens(directory.crashes[i], control, codec)
  {
    hide IsIdentity, Reopens, Open, StateOf, Minted;
    var unmarked := MARKER !in directory.files;
    ghost var before := directory.files;
    r := OpenIdentityStore(directory, control, unmarked, key, codec, suffix, io);
    if r.Some? && unmarked {
      var ok := MarkInitialized(directory, markIo);
      if !ok {
        r := None;
      }
    }
    if Reopens(before, control, codec) {
      StillReopens(before, directory.files, control, unmarked, key, codec);
      forall i | |old(directory.crashes)| <= i < |directory.crashes|
        ensures Reopens(directory.crashes[i], control, codec)
      {
        StillReopens(before, directory.crashes[i], control, unmarked, key, codec);
      }
    }
  }

  /** The file as it was or as it was to become, and no marker without a file. */
  lemma StillReopens(
    before: Files, after: Files, control: string, unmarked: bool, key: string, codec: Codec)
    requires codec.machine(key) && unmarked == (MARKER !in before) && Reopens(before, control, codec)
    requires var opening := Open(StateOf(before), control, unmarked, key, codec);
      || (StateOf(after) == StateOf(before) && (MARKER in after <==> MARKER in before))
      || (StateOf(after) == StateOf(before) && StateOf(after).Some?)
      || (!opening.Refuse? && StateOf(after) == Some(Whole(opening.values)))
    ensures Reopens(after, control, codec)
  {
    hide IsIdentity;
    if !Open(StateOf(before), control, unmarked, key, codec).Refuse? {
      OpenedIsAnIdentity(StateOf(before), control, unmarked, key, codec);
    }
  }
}
