/**
 Raising the sound server's levels for a test and putting them back
 (crates/pond-adapters-audio-devices/src/sound_server.rs): which node a device means, what is
 raised, and the log of changes that is replayed backwards. Any command may fail without
 effect; what `pactl` prints is taken as parsed, with one volume a node.
 */
module SoundLevels {
  import opened Results

  /** The server's 100%, in raw volume units. */
  const FULL: nat := 65536

  datatype Side = Speaker | Mic

  datatype Node = Node(
    name: string,
    description: string,
    card: Option<nat>,
    monitor: bool,
    muted: bool,
    volume: Option<nat>,
    baseVolume: Option<nat>,
    hardwareVolume: bool)
  {
    /** The natural level, but never beyond 100%. */
    function Target(): nat {
      if baseVolume.GetOr(FULL) < FULL then baseVolume.GetOr(FULL) else FULL
    }
  }

  /** The device the pond chose: one of the server's own routes, or the card its id names. */
  datatype Device = Device(throughServer: bool, card: Option<nat>)

  datatype Server = Server(
    sinks: seq<Node>, sources: seq<Node>, defaultSink: Option<string>, defaultSource: Option<string>)
  {
    function List(side: Side): seq<Node> { if side.Speaker? then sinks else sources }

    function Default(side: Side): Option<string> { if side.Speaker? then defaultSink else defaultSource }
  }

  datatype Command = SetMute(side: Side, name: string, muted: bool) | SetVolume(side: Side, name: string, volume: nat)

  datatype Shown = On | Off | Percent(value: nat)

  datatype LevelChange = LevelChange(device: string, from: Shown, to: Shown, undo: Command)

  function PercentOf(raw: nat): Shown {
    Percent((raw * 100 + FULL / 2) / FULL)
  }

  // ----- Commands -------------------------------------------------------------

  function Changed(node: Node, c: Command): Node {
    if node.name != c.name then node
    else if c.SetMute? then node.(muted := c.muted)
    else node.(volume := Some(c.volume))
  }

  function ChangedAll(nodes: seq<Node>, c: Command): (r: seq<Node>)
    ensures |r| == |nodes| && forall i :: 0 <= i < |nodes| ==> r[i] == Changed(nodes[i], c)
  {
    seq(|nodes|, i requires 0 <= i < |nodes| => Changed(nodes[i], c))
  }

  function Apply(sv: Server, c: Command): Server {
    if c.side.Speaker? then sv.(sinks := ChangedAll(sv.sinks, c)) else sv.(sources := ChangedAll(sv.sources, c))
  }

  // ----- The node a device means ----------------------------------------------

  predicate Means(node: Node, device: Device, default: Option<string>) {
    !node.monitor && if device.throughServer then Some(node.name) == default else node.card == device.card
  }

  predicate IsFirstMeant(nodes: seq<Node>, i: int, device: Device, default: Option<string>) {
    0 <= i < |nodes| && Means(nodes[i], device, default) && forall j :: 0 <= j < i ==> !Means(nodes[j], device, default)
  }

  function FirstMeant(nodes: seq<Node>, device: Device, default: Option<string>): (r: Option<Node>)
    ensures r.Some? ==> exists i :: IsFirstMeant(nodes, i, device, default) && nodes[i] == r.value
    ensures r.None? ==> forall node :: node in nodes ==> !Means(node, device, default)
  {
    if nodes == [] then None
    else if Means(nodes[0], device, default) then
      assert IsFirstMeant(nodes, 0, device, default);
      Some(nodes[0])
    else
      var r := FirstMeant(nodes[1..], device, default);
      assert forall i :: IsFirstMeant(nodes[1..], i, device, default) ==> IsFirstMeant(nodes, i + 1, device, default);
      r
  }

  /** `listed` says that the server answered; a device that is not a card means no node. */
  function NodeFor(sv: Server, device: Device, side: Side, listed: bool): Result<Option<Node>, string> {
    if !listed then Err("not listed")
    else if device.throughServer then Ok(FirstMeant(sv.List(side), device, sv.Default(side)))
    else if device.card.None? then Ok(None)
    else
      var found := FirstMeant(sv.List(side), device, sv.Default(side));
      if found.None? then Err("no such card") else Ok(found)
  }

  // ----- Raising --------------------------------------------------------------

  /** Which of the commands for one side work. */
  datatype Works = Works(lists: bool, mutes: bool, volumes: bool)

  /** The node of one side that is to be raised, if any. */
  function Chosen(sv: Server, device: Device, side: Side, works: Works): Option<Node> {
    var found := NodeFor(sv, device, side, works.lists);
    if found.Ok? && found.value.Some? && (found.value.value.hardwareVolume || device.throughServer)
    then found.value else None
  }

  /** What raising `node` runs, each with the change it logs if it works. */
  function MuteChange(node: Node, side: Side): LevelChange {
    LevelChange(node.description, On, Off, SetMute(side, node.name, true))
  }

  function VolumeChange(node: Node, side: Side, volume: nat): LevelChange {
    LevelChange(node.description, PercentOf(volume), PercentOf(node.Target()), SetVolume(side, node.name, volume))
  }

  predicate Unmutes(node: Node, works: Works) { node.muted && works.mutes }

  predicate TurnsUp(node: Node, works: Works) {
    node.volume.Some? && node.volume.value < node.Target() && works.volumes
  }

  function RaisedNode(sv: Server, node: Node, side: Side, works: Works): (Server, seq<LevelChange>) {
    var (sv1, log1) :=
      if Unmutes(node, works) then (Apply(sv, SetMute(side, node.name, false)), [MuteChange(node, side)]) else (sv, []);
    if TurnsUp(node, works) then
      (Apply(sv1, SetVolume(side, node.name, node.Target())), log1 + [VolumeChange(node, side, node.volume.value)])
    else (sv1, log1)
  }

  function RaisedSide(sv: Server, device: Device, side: Side, works: Works): (Server, seq<LevelChange>) {
    var node := Chosen(sv, device, side, works);
    if node.None? then (sv, []) else RaisedNode(sv, node.value, side, works)
  }

  function Raised(sv: Server, answers: bool, speaker: Device, mic: Device, works: Works, works': Works)
    : (Server, seq<LevelChange>)
  {
    if !answers then (sv, [])
    else
      var (sv1, log1) := RaisedSide(sv, speaker, Speaker, works);
      var (sv2, log2) := RaisedSide(sv1, mic, Mic, works');
      (sv2, log1 + log2)
  }

  /** The log replayed backwards; `works(i)` says whether the undo of change `i` works. */
  function Restored(sv: Server, log: seq<LevelChange>, works: nat -> bool): Server
    decreases |log|
  {
    if log == [] then sv
    else
      var last := |log| - 1;
      Restored(if works(last) then Apply(sv, log[last].undo) else sv, log[..last], works)
  }

  class SoundServer {
    var server: Server

    constructor (server: Server)
      ensures this.server == server
    {
      this.server := server;
    }

    method Run(c: Command, works: bool) returns (ok: bool)
      modifies this
      ensures ok == works && server == if works then Apply(old(server), c) else old(server)
    {
      ok := works;
      if works {
        server := Apply(server, c);
      }
    }

    method RaiseSide(device: Device, side: Side, works: Works) returns (changes: seq<LevelChange>)
      modifies this
      ensures (server, changes) == RaisedSide(old(server), device, side, works)
    {
      hide Chosen, Apply, PercentOf, Node.Target;
      changes := [];
      var chosen := Chosen(server, device, side, works);
      if chosen.None? {
        return;
      }
      var node := chosen.value;
      if node.muted {
        var ok := Run(SetMute(side, node.name, false), works.mutes);
        if ok {
          changes := [MuteChange(node, side)];
        }
      }
      if node.volume.Some? && node.volume.value < node.Target() {
        var ok := Run(SetVolume(side, node.name, node.Target()), works.volumes);
        if ok {
          changes := changes + [VolumeChange(node, side, node.volume.value)];
        }
      }
    }

    method RaiseLevels(answers: bool, speaker: Device, mic: Device, works: Works, works': Works)
      returns (changes: seq<LevelChange>)
      modifies this
      ensures (server, changes) == Raised(old(server), answers, speaker, mic, works, works')
    {
      hide RaisedSide;
      if !answers {
        return [];
      }
      changes := RaiseSide(speaker, Speaker, works);
      var more := RaiseSide(mic, Mic, works');
      changes := changes + more;
    }

    method RestoreLevels(changes: seq<LevelChange>, works: nat -> bool)
      modifies this
      ensures server == Restored(old(server), changes, works)
    {
      var i := |changes|;
      assert changes[..i] == changes;
      while i > 0
        invariant i <= |changes|
        invariant Restored(server, changes[..i], works) == Restored(old(server), changes, works)
      {
        i := i - 1;
        assert changes[..i + 1][..i] == changes[..i];
        var _ := Run(changes[i].undo, works(i));
      }
    }
  }

  // ----- What raising and restoring promise -----------------------------------

  predicate Distinct(nodes: seq<Node>) {
    forall i, j :: 0 <= i < j < |nodes| ==> nodes[i].name != nodes[j].name
  }

  /** The server names the nodes of a side apart. */
  predicate Named(sv: Server) {
    Distinct(sv.sinks) && Distinct(sv.sources)
  }

  /** The same nodes, at whatever levels. */
  predicate SameNodes(a: Server, b: Server) {
    && |a.sinks| == |b.sinks| && |a.sources| == |b.sources|
    && (forall i :: 0 <= i < |a.sinks| ==> a.sinks[i].name == b.sinks[i].name)
    && (forall i :: 0 <= i < |a.sources| ==> a.sources[i].name == b.sources[i].name)
  }

  lemma ApplyKeepsNames(sv: Server, c: Command)
    ensures SameNodes(sv, Apply(sv, c))
    ensures Named(sv) ==> Named(Apply(sv, c))
  {
  }

  /** What the nodes of this name on this side are set to, of the kind the command sets. */
  predicate IsAt(sv: Server, c: Command) {
    AllAt(sv.List(c.side), c)
  }

  predicate AllAt(nodes: seq<Node>, c: Command) {
    forall i :: 0 <= i < |nodes| && nodes[i].name == c.name ==>
      if c.SetMute? then nodes[i].muted == c.muted else nodes[i].volume == Some(c.volume)
  }

  predicate SameTarget(c: Command, d: Command) {
    c.side == d.side && c.name == d.name && c.SetMute? == d.SetMute?
  }

  /** A command undone by the one that sets what was there before. */
  lemma UndoOne(sv: Server, c: Command, undo: Command)
    requires SameTarget(c, undo) && IsAt(sv, undo)
    ensures Apply(Apply(sv, c), undo) == sv
  {
    UndoAll(sv.List(c.side), c, undo);
  }

  lemma UndoAll(nodes: seq<Node>, c: Command, undo: Command)
    requires SameTarget(c, undo) && AllAt(nodes, undo)
    ensures ChangedAll(ChangedAll(nodes, c), undo) == nodes
  {
    var back := ChangedAll(ChangedAll(nodes, c), undo);
    assert forall i :: 0 <= i < |nodes| ==> back[i] == nodes[i];
  }

  const ALL: nat -> bool := (i: nat) => true

  /** The log undoes exactly what led from `sv` to `now`, each change on a target of its own. */
  ghost predicate Unwinds(sv: Server, now: Server, log: seq<LevelChange>) {
    && Restored(now, log, ALL) == sv
    && (forall i, j :: 0 <= i < j < |log| ==> !SameTarget(log[i].undo, log[j].undo))
    && forall i :: 0 <= i < |log| ==> IsAt(sv, log[i].undo)
  }

  lemma {:induction false} IsAtElsewhere(sv: Server, now: Server, log: seq<LevelChange>, undo: Command)
    requires Restored(now, log, ALL) == sv && IsAt(now, undo)
    requires forall i :: 0 <= i < |log| ==> !SameTarget(log[i].undo, undo)
    ensures IsAt(sv, undo)
    decreases |log|
  {
    hide IsAt;
    if log != [] {
      var last := log[|log| - 1].undo;
      OtherTarget(now, last, undo);
      IsAtElsewhere(sv, Apply(now, last), log[..|log| - 1], undo);
    }
  }

  lemma OtherTarget(sv: Server, c: Command, d: Command)
    requires !SameTarget(c, d)
    ensures IsAt(Apply(sv, c), d) <==> IsAt(sv, d)
  {
  }

  lemma LogOne(sv: Server, now: Server, log: seq<LevelChange>, c: Command, change: LevelChange)
    requires Unwinds(sv, now, log) && SameTarget(c, change.undo) && IsAt(now, change.undo)
    requires forall i :: 0 <= i < |log| ==> !SameTarget(log[i].undo, change.undo)
    ensures Unwinds(sv, Apply(now, c), log + [change])
  {
    hide Apply, IsAt;
    UndoOne(now, c, change.undo);
    assert (log + [change])[..|log|] == log;
    IsAtElsewhere(sv, now, log, change.undo);
  }

  /** The chosen node's own levels are the ones on its side under its name. */
  lemma ChosenIsAt(sv: Server, device: Device, side: Side, works: Works)
    requires Named(sv) && Chosen(sv, device, side, works).Some?
    ensures var node := Chosen(sv, device, side, works).value;
      && node in sv.List(side) && Means(node, device, sv.Default(side))
      && (node.hardwareVolume || device.throughServer) && works.lists
      && (node.muted ==> IsAt(sv, SetMute(side, node.name, true)))
      && (node.volume.Some? ==> IsAt(sv, SetVolume(side, node.name, node.volume.value)))
  {
  }

  lemma RaisedSideUnwinds(
    sv: Server, now: Server, log: seq<LevelChange>, device: Device, side: Side, works: Works)
    requires Unwinds(sv, now, log) && Named(now)
    requires forall i :: 0 <= i < |log| ==> log[i].undo.side != side
    ensures var (now', more) := RaisedSide(now, device, side, works);
      && Unwinds(sv, now', log + more) && Named(now')
      && forall i :: 0 <= i < |more| ==> more[i].undo.side == side
  {
    hide Apply, IsAt, Unwinds, Named, Restored, Chosen, Node.Target, PercentOf;
    assert log + [] == log;
    var chosen := Chosen(now, device, side, works);
    if chosen.Some? {
      var node := chosen.value;
      ChosenIsAt(now, device, side, works);
      var now1, log1 := now, log;
      if Unmutes(node, works) {
        var c := SetMute(side, node.name, false);
        LogOne(sv, now, log, c, MuteChange(node, side));
        ApplyKeepsNames(now, c);
        now1, log1 := Apply(now, c), log + [MuteChange(node, side)];
      }
      if TurnsUp(node, works) {
        var c, change := SetVolume(side, node.name, node.Target()), VolumeChange(node, side, node.volume.value);
        OtherTarget(now, SetMute(side, node.name, false), change.undo);
        LogOne(sv, now1, log1, c, change);
        ApplyKeepsNames(now1, c);
        assert log + ([MuteChange(node, side)] + [change]) == log + [MuteChange(node, side)] + [change];
        assert [] + [change] == [change];
      }
    }
  }

  lemma RaisedUnwinds(sv: Server, answers: bool, speaker: Device, mic: Device, works: Works, works': Works)
    requires Named(sv)
    ensures var (now, log) := Raised(sv, answers, speaker, mic, works, works'); Unwinds(sv, now, log)
  {
    hide RaisedSide, Named, Apply;
    assert Unwinds(sv, sv, []);
    RaisedSideUnwinds(sv, sv, [], speaker, Speaker, works);
    var (sv1, log1) := RaisedSide(sv, speaker, Speaker, works);
    assert [] + log1 == log1;
    RaisedSideUnwinds(sv, sv1, log1, mic, Mic, works');
  }

  /** Whatever commands failed while raising, a restore that works puts every level back. */
  lemma RestoreUndoesRaise(sv: Server, answers: bool, speaker: Device, mic: Device, works: Works, works': Works)
    requires Named(sv)
    ensures var (now, log) := Raised(sv, answers, speaker, mic, works, works'); Restored(now, log, ALL) == sv
  {
    hide Raised, Restored;
    RaisedUnwinds(sv, answers, speaker, mic, works, works');
  }

  lemma SetByCommand(sv: Server, c: Command)
    ensures IsAt(Apply(sv, c), c)
  {
  }

  /** A level whose undo works is at the value that undo records, whatever the others do. */
  lemma {:induction false} RestoreSets(now: Server, log: seq<LevelChange>, works: nat -> bool, k: nat)
    requires k < |log| && works(k)
    requires forall i, j :: 0 <= i < j < |log| ==> !SameTarget(log[i].undo, log[j].undo)
    ensures IsAt(Restored(now, log, works), log[k].undo)
    decreases |log|
  {
    hide IsAt, SameTarget;
    var last := |log| - 1;
    var next := if works(last) then Apply(now, log[last].undo) else now;
    if k < last {
      RestoreSets(next, log[..last], works, k);
    } else {
      SetByCommand(now, log[last].undo);
      RestoreLeaves(next, log[..last], works, log[last].undo);
    }
  }

  /** A level no working undo names stays as it was. */
  lemma {:induction false} RestoreLeaves(now: Server, log: seq<LevelChange>, works: nat -> bool, d: Command)
    requires forall k :: 0 <= k < |log| && works(k) ==> !SameTarget(log[k].undo, d)
    ensures IsAt(Restored(now, log, works), d) <==> IsAt(now, d)
    decreases |log|
  {
    hide IsAt, SameTarget, Apply;
    if log != [] {
      var last := |log| - 1;
      if works(last) {
        OtherTarget(now, log[last].undo, d);
      }
      RestoreLeaves(if works(last) then Apply(now, log[last].undo) else now, log[..last], works, d);
    }
  }

  /**
   When some undo commands fail, each level whose undo worked is back at what it was before
   raising, and every other level is what raising left.
   */
  lemma EachUndoStandsAlone(
    sv: Server, answers: bool, speaker: Device, mic: Device, works: Works, works': Works, undone: nat -> bool)
    requires Named(sv)
    ensures var (now, log) := Raised(sv, answers, speaker, mic, works, works');
      var last := Restored(now, log, undone);
      && (forall k: nat :: k < |log| && undone(k) ==> IsAt(last, log[k].undo) && IsAt(sv, log[k].undo))
      && forall d :: (forall k: nat :: k < |log| && undone(k) ==> !SameTarget(log[k].undo, d)) ==>
        (IsAt(last, d) <==> IsAt(now, d))
  {
    hide Raised, Restored, IsAt, SameTarget;
    RaisedUnwinds(sv, answers, speaker, mic, works, works');
    var (now, log) := Raised(sv, answers, speaker, mic, works, works');
    forall k: nat | k < |log| && undone(k) ensures IsAt(Restored(now, log, undone), log[k].undo) {
      RestoreSets(now, log, undone, k);
    }
    forall d | forall k: nat :: k < |log| && undone(k) ==> !SameTarget(log[k].undo, d)
      ensures IsAt(Restored(now, log, undone), d) <==> IsAt(now, d)
    {
      RestoreLeaves(now, log, undone, d);
    }
  }

  /** `b` is `a`, perhaps unmuted, perhaps turned up to its natural level and not beyond 100%. */
  predicate OnlyRaised(a: Node, b: Node) {
    && b == a.(muted := b.muted, volume := b.volume)
    && (b.muted ==> a.muted)
    && (b.volume == a.volume
        || (a.volume.Some? && b.volume.Some?
            && a.volume.value < b.volume.value <= FULL && b.volume.value == a.baseVolume.GetOr(FULL))
        || (a.volume.Some? && b.volume == Some(FULL) && a.volume.value < FULL <= a.baseVolume.GetOr(FULL)))
  }

  /** The pond's sound takes this node: no monitor, but the default or the card of the device. */
  predicate OnRoute(node: Node, device: Device, default: Option<string>) {
    && !node.monitor
    && (device.throughServer ==> default == Some(node.name))
    && (!device.throughServer ==> device.card.Some? && node.card == device.card)
  }

  /** Node `i` of a side is the first on the device's route, and its level is one the sound passes. */
  predicate IsMeant(sv: Server, device: Device, side: Side, i: nat)
    requires i < |sv.List(side)|
  {
    && OnRoute(sv.List(side)[i], device, sv.Default(side))
    && (forall j :: 0 <= j < i ==> !OnRoute(sv.List(side)[j], device, sv.Default(side)))
    && (sv.List(side)[i].hardwareVolume || device.throughServer)
  }

  /** What is chosen is exactly what is meant, if the server lists its nodes at all. */
  lemma MeantIsChosen(sv: Server, device: Device, side: Side, works: Works, i: nat)
    requires Named(sv) && i < |sv.List(side)|
    ensures works.lists && IsMeant(sv, device, side, i) <==> Chosen(sv, device, side, works) == Some(sv.List(side)[i])
  {
    hide Named;
    var nodes, default := sv.List(side), sv.Default(side);
    NamedIsDistinct(sv, side);
    assert nodes[i] in nodes;
    var found := FirstMeant(nodes, device, default);
    if found.Some? {
      var k :| IsFirstMeant(nodes, k, device, default) && nodes[k] == found.value;
      assert nodes[k] == nodes[i] ==> k == i;
    }
  }

  lemma NamedIsDistinct(sv: Server, side: Side)
    requires Named(sv)
    ensures Distinct(sv.List(side))
  {
  }

  lemma RaisedNodeOnlyRaises(sv: Server, node: Node, side: Side, works: Works, i: nat)
    requires Named(sv) && node in sv.List(side) && i < |sv.List(side)|
    ensures var now := RaisedNode(sv, node, side, works).0;
      && |now.List(side)| == |sv.List(side)|
      && OnlyRaised(sv.List(side)[i], now.List(side)[i])
      && (now.List(side)[i] != sv.List(side)[i] ==> sv.List(side)[i] == node)
  {
    hide PercentOf;
    var k :| 0 <= k < |sv.List(side)| && sv.List(side)[k] == node;
    assert sv.List(side)[i].name == node.name ==> i == k;
  }

  lemma OtherSideUntouched(sv: Server, device: Device, side: Side, works: Works)
    ensures var now := RaisedSide(sv, device, side, works).0;
      && (side.Speaker? ==> now.sources == sv.sources) && (side.Mic? ==> now.sinks == sv.sinks)
      && now.defaultSink == sv.defaultSink && now.defaultSource == sv.defaultSource
  {
    hide Chosen, ChangedAll, PercentOf;
  }

  /** Each side is raised as if alone: only its own device and commands matter to it. */
  lemma SidesAreApart(sv: Server, speaker: Device, mic: Device, works: Works, works': Works)
    requires Named(sv)
    ensures var (now, log) := Raised(sv, true, speaker, mic, works, works');
      var (one, log1), (two, log2) := RaisedSide(sv, speaker, Speaker, works), RaisedSide(sv, mic, Mic, works');
      now.sinks == one.sinks && now.sources == two.sources && log == log1 + log2
  {
    hide Chosen, ChangedAll, PercentOf, Node.Target;
    var sv1 := RaisedSide(sv, speaker, Speaker, works).0;
    OtherSideUntouched(sv, speaker, Speaker, works);
    OtherSideUntouched(sv1, mic, Mic, works');
    ChosenLooksAtItsSide(sv, sv1, mic, works');
  }

  lemma ChosenLooksAtItsSide(a: Server, b: Server, mic: Device, works: Works)
    requires a.sources == b.sources && a.defaultSource == b.defaultSource
    ensures Chosen(a, mic, Mic, works) == Chosen(b, mic, Mic, works)
  {
  }

  /**
   Raising only unmutes and only turns up, each volume to its node's natural level at most and
   never beyond 100%, and it touches no node but the two the devices mean, so never a monitor.
   */
  lemma RaisingOnlyRaises(
    sv: Server, answers: bool, speaker: Device, mic: Device, works: Works, works': Works, side: Side, i: nat)
    requires Named(sv) && i < |sv.List(side)|
    ensures var now := Raised(sv, answers, speaker, mic, works, works').0;
      && |now.List(side)| == |sv.List(side)|
      && OnlyRaised(sv.List(side)[i], now.List(side)[i])
      && (now.List(side)[i] != sv.List(side)[i] ==>
          answers && (if side.Speaker? then works else works').lists && !sv.List(side)[i].monitor
          && IsMeant(sv, if side.Speaker? then speaker else mic, side, i))
  {
    hide RaisedNode, Chosen, Raised, OnlyRaised, Named;
    if answers {
      var device, own := if side.Speaker? then speaker else mic, if side.Speaker? then works else works';
      SidesAreApart(sv, speaker, mic, works, works');
      var chosen := Chosen(sv, device, side, own);
      MeantIsChosen(sv, device, side, own, i);
      if chosen.Some? {
        ChosenIsAt(sv, device, side, own);
        RaisedNodeOnlyRaises(sv, chosen.value, side, own, i);
      } else {
        UntouchedIsRaised(sv.List(side)[i]);
      }
    } else {
      UnansweredIsUntouched(sv, speaker, mic, works, works');
      UntouchedIsRaised(sv.List(side)[i]);
    }
  }

  lemma UntouchedIsRaised(node: Node)
    ensures OnlyRaised(node, node)
  {
  }

  lemma UnansweredIsUntouched(sv: Server, speaker: Device, mic: Device, works: Works, works': Works)
    ensures Raised(sv, false, speaker, mic, works, works') == (sv, [])
  {
  }

  lemma RaisedNodeIsRaised(sv: Server, node: Node, side: Side, works: Works, i: nat)
    requires Named(sv) && i < |sv.List(side)| && sv.List(side)[i] == node
    ensures var now := RaisedNode(sv, node, side, works).0;
      && |now.List(side)| == |sv.List(side)| && now.List(side)[i] == AtNaturalLevel(node, works)
  {
    hide PercentOf;
  }

  /**
   Unmuted, and no quieter than its base volume or, where that is more or not known, 65536; each
   of the two only if its command works, and whether or not the other does.
   */
  function AtNaturalLevel(node: Node, works: Works): Node {
    var natural := if node.baseVolume.Some? && node.baseVolume.value < 65536 then node.baseVolume.value else 65536;
    node.(muted := node.muted && !works.mutes,
          volume :=
            if node.volume.Some? && node.volume.value < natural && works.volumes then Some(natural)
            else node.volume)
  }

  /** Where the server answers, the node each device means is unmuted and at its natural level or above. */
  lemma MeantNodesAreRaised(
    sv: Server, speaker: Device, mic: Device, works: Works, works': Works, side: Side, i: nat)
    requires Named(sv) && i < |sv.List(side)|
    requires IsMeant(sv, if side.Speaker? then speaker else mic, side, i)
    requires (if side.Speaker? then works else works').lists
    ensures var now := Raised(sv, true, speaker, mic, works, works').0;
      && |now.List(side)| == |sv.List(side)|
      && now.List(side)[i] == AtNaturalLevel(sv.List(side)[i], if side.Speaker? then works else works')
  {
    hide RaisedNode, Chosen, AtNaturalLevel, Raised, IsMeant, Named;
    var device, own := if side.Speaker? then speaker else mic, if side.Speaker? then works else works';
    SidesAreApart(sv, speaker, mic, works, works');
    MeantIsChosen(sv, device, side, own, i);
    RaisedNodeIsRaised(sv, sv.List(side)[i], side, own, i);
  }

  // ----- What the log shows ---------------------------------------------------

  /** The percentage nearest to a raw volume, halves rounded up. */
  predicate Shows(shown: Shown, raw: nat) {
    shown.Percent? && -32768 <= 100 * raw - 65536 * shown.value < 32768
  }

  /** The entry shows a level of this node as it was and as it is, and its undo sets what was. */
  predicate Tells(entry: LevelChange, side: Side, before: Node, after: Node) {
    && entry.device == before.description && entry.undo.side == side && entry.undo.name == before.name
    && match entry.undo
       case SetMute(_, _, muted) => muted && before.muted && !after.muted && entry.from == On && entry.to == Off
       case SetVolume(_, _, volume) =>
         && before.volume == Some(volume) && after.volume.Some? && volume < after.volume.value
         && Shows(entry.from, volume) && Shows(entry.to, after.volume.value)
  }

  /** Every entry tells of a level of this node, and every level that changed has its entry. */
  ghost predicate TellsAll(log: seq<LevelChange>, side: Side, before: Node, after: Node) {
    && (forall k :: 0 <= k < |log| ==> Tells(log[k], side, before, after))
    && (before.muted != after.muted ==> exists k :: 0 <= k < |log| && log[k].undo.SetMute?)
    && (before.volume != after.volume ==> exists k :: 0 <= k < |log| && log[k].undo.SetVolume?)
  }

  lemma PercentIsNearest(raw: nat)
    ensures Shows(PercentOf(raw), raw)
  {
  }

  lemma RaisedNodeTellsAll(sv: Server, node: Node, side: Side, works: Works, i: nat)
    requires Named(sv) && i < |sv.List(side)| && sv.List(side)[i] == node
    ensures var (now, log) := RaisedNode(sv, node, side, works);
      |now.List(side)| == |sv.List(side)| && TellsAll(log, side, node, now.List(side)[i])
  {
    hide PercentOf, Shows;
    PercentIsNearest(node.volume.GetOr(0));
    PercentIsNearest(node.Target());
    var (now, log) := RaisedNode(sv, node, side, works);
    if Unmutes(node, works) {
      assert log[0] == MuteChange(node, side);
    }
    if TurnsUp(node, works) {
      assert log[|log| - 1] == VolumeChange(node, side, node.volume.value);
    }
  }

  /**
   The log of a side is empty, and nothing there changed, unless its device means a node; then it
   tells of exactly what changed on that node, each level as it was and as it became.
   */
  lemma LogTellsTheChanges(
    sv: Server, speaker: Device, mic: Device, works: Works, works': Works, side: Side, i: nat)
    requires Named(sv) && i < |sv.List(side)|
    ensures var (now, log) := Raised(sv, true, speaker, mic, works, works');
      var device, own := if side.Speaker? then speaker else mic, if side.Speaker? then works else works';
      var (_, log1), (_, log2) := RaisedSide(sv, speaker, Speaker, works), RaisedSide(sv, mic, Mic, works');
      && log == log1 + log2 && |now.List(side)| == |sv.List(side)|
      && (own.lists && IsMeant(sv, device, side, i) ==>
          TellsAll(if side.Speaker? then log1 else log2, side, sv.List(side)[i], now.List(side)[i]))
      && ((forall j: nat :: j < |sv.List(side)| ==> !(own.lists && IsMeant(sv, device, side, j))) ==>
          (if side.Speaker? then log1 else log2) == [])
  {
    hide RaisedNode, Chosen, Raised, IsMeant, Named, TellsAll;
    var device, own := if side.Speaker? then speaker else mic, if side.Speaker? then works else works';
    SidesAreApart(sv, speaker, mic, works, works');
    MeantIsChosen(sv, device, side, own, i);
    var chosen := Chosen(sv, device, side, own);
    if chosen.Some? {
      ChosenIsAt(sv, device, side, own);
      var k :| 0 <= k < |sv.List(side)| && sv.List(side)[k] == chosen.value;
      MeantIsChosen(sv, device, side, own, k);
      RaisedNodeTellsAll(sv, chosen.value, side, own, k);
      if chosen.value == sv.List(side)[i] {
        RaisedNodeTellsAll(sv, chosen.value, side, own, i);
      }
    }
  }
}
