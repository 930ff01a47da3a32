/**
 What the identity store promises over any sequence of writes (native/pondnet/identity_store.go):
 it is a plain map as long as it has not failed, its file is that map, its machine key and
 coordinator never change, and the first failure is final.
 */
module IdentityProperties {
  import opened Results
  import opened IdentityStore

  /** The entries that hold bytes: an empty entry and an absent one are the same thing. */
  function Entries(values: Values): map<string, string> {
    map id | id in values && values[id] != "" :: values[id]
  }

  /** A plain map, written to. */
  function Put(m: map<string, string>, id: string, value: string): map<string, string> {
    if value == "" then m - {id} else m[id := value]
  }

  function Puts(m: map<string, string>, ws: seq<Write>): map<string, string>
    decreases |ws|
  {
    if ws == [] then m else Puts(Put(m, ws[0].id, ws[0].value.GetOr("")), ws[1..])
  }

  function AfterWrites(st: Store, ws: seq<Write>, codec: Codec): Store
    decreases |ws|
  {
    if ws == [] then st else AfterWrites(Written(st, ws[0], codec).0, ws[1..], codec)
  }

  /** The file is the map, as it is in every store that has not failed. */
  predicate Sound(st: Store) {
    !st.failed ==> st.file == Some(Whole(st.values))
  }

  lemma WriteStaysSound(st: Store, w: Write, codec: Codec)
    requires Sound(st)
    ensures Sound(Written(st, w, codec).0)
  {
  }

  /** A successful write is one put on the plain map, on disk as in memory. */
  lemma WriteIsAPut(st: Store, w: Write, codec: Codec)
    requires Sound(st) && Written(st, w, codec).1
    ensures var next := Written(st, w, codec).0;
      && !next.failed && next.file == Some(Whole(next.values))
      && Entries(next.values) == Put(Entries(st.values), w.id, w.value.GetOr(""))
      && Get(next.values, MACHINE) == Get(st.values, MACHINE)
      && Get(next.values, CONTROL) == Get(st.values, CONTROL)
  {
    var next := Written(st, w, codec).0;
    var plain := Put(Entries(st.values), w.id, w.value.GetOr(""));
    assert Entries(next.values) == plain;
  }

  lemma FailureIsFinalOnce(st: Store, w: Write, codec: Codec)
    requires st.failed
    ensures Written(st, w, codec) == (st, false)
  {
  }

  /** A failed store answers no read, takes no write and leaves its file alone, for good. */
  lemma {:induction false} FailureIsFinal(st: Store, ws: seq<Write>, id: string, codec: Codec)
    requires st.failed
    ensures AfterWrites(st, ws, codec) == st && Reading(st, id) == Failed
    decreases |ws|
  {
    hide Written;
    if ws != [] {
      FailureIsFinalOnce(st, ws[0], codec);
      FailureIsFinal(st, ws[1..], id, codec);
    }
  }

  lemma WriteFailsOrSucceeds(st: Store, w: Write, codec: Codec)
    requires !st.failed
    ensures Written(st, w, codec).0.failed <==> !Written(st, w, codec).1
  {
  }

  /**
   After any writes, a store that has not failed holds what a plain map would, in memory and
   in its file, and has the machine key and the coordinator it began with.
   */
  lemma {:induction false} WritesRefineAMap(st: Store, ws: seq<Write>, codec: Codec)
    requires Sound(st) && !AfterWrites(st, ws, codec).failed
    ensures var end := AfterWrites(st, ws, codec);
      && !st.failed
      && end.file == Some(Whole(end.values))
      && Entries(end.values) == Puts(Entries(st.values), ws)
      && Get(end.values, MACHINE) == Get(st.values, MACHINE)
      && Get(end.values, CONTROL) == Get(st.values, CONTROL)
    decreases |ws|
  {
    hide Written, Entries, Put, Get;
    if st.failed {
      FailureIsFinal(st, ws, "", codec);
    } else if ws != [] {
      var next := Written(st, ws[0], codec).0;
      WriteStaysSound(st, ws[0], codec);
      WritesRefineAMap(next, ws[1..], codec);
      WriteFailsOrSucceeds(st, ws[0], codec);
      WriteIsAPut(st, ws[0], codec);
    }
  }

  /** A read sees the plain map: the bytes written last, nothing when those were empty. */
  lemma ReadsSeeTheMap(st: Store, ws: seq<Write>, id: string, codec: Codec)
    requires Sound(st) && !AfterWrites(st, ws, codec).failed
    ensures var plain := Puts(Entries(st.values), ws);
      match Reading(AfterWrites(st, ws, codec), id)
      case Failed => false
      case NotExist => id !in plain
      case Found(value) => if value == "" then id !in plain else id in plain && plain[id] == value
  {
    hide AfterWrites, Puts;
    WritesRefineAMap(st, ws, codec);
  }

  /**
   When a store fails, everything written before the failing write is in the file, together
   with that one write or without it: nothing else is lost and nothing is half written.
   */
  lemma {:induction false} OneWriteInDoubt(st: Store, ws: seq<Write>, codec: Codec) returns (k: nat)
    requires Sound(st) && !st.failed && AfterWrites(st, ws, codec).failed
    ensures k < |ws|
    ensures var mid := AfterWrites(st, ws[..k], codec);
      && !mid.failed && !Written(mid, ws[k], codec).1
      && var file := AfterWrites(st, ws, codec).file;
      && (file == Some(Whole(mid.values))
          || (Decide(mid.values, ws[k].id, ws[k].value).Save?
              && file == Some(Whole(Decide(mid.values, ws[k].id, ws[k].value).next))))
    decreases |ws|
  {
    hide Written, Decide;
    var next := Written(st, ws[0], codec).0;
    WriteFailsOrSucceeds(st, ws[0], codec);
    WriteStaysSound(st, ws[0], codec);
    if next.failed {
      k := 0;
      FailureIsFinal(next, ws[1..], "", codec);
      FileAfterFailure(st, ws[0], codec);
      assert ws[..0] == [];
    } else {
      k := OneWriteInDoubt(next, ws[1..], codec);
      assert ws[..k + 1][0] == ws[0] && ws[..k + 1][1..] == ws[1..][..k];
      k := k + 1;
    }
  }

  lemma FileAfterFailure(st: Store, w: Write, codec: Codec)
    requires Sound(st) && !st.failed && !Written(st, w, codec).1
    ensures var file := Written(st, w, codec).0.file;
      || file == Some(Whole(st.values))
      || (Decide(st.values, w.id, w.value).Save? && file == Some(Whole(Decide(st.values, w.id, w.value).next)))
  {
  }

  // ----- Which writes the next start accepts ----------------------------------

  /**
   A write to any key but the profile table leaves an identity exactly when it does not empty a
   profile's entry, selects a known profile if it is a selection, and holds this coordinator's
   preferences if it is preferences.
   */
  lemma WriteKeepsIdentity(values: Values, id: string, value: Option<string>, control: string, codec: Codec)
    requires IsIdentity(values, control, codec) && Decide(values, id, value).Save? && id != PROFILES
    ensures var next, profiles := Decide(values, id, value).next, KnownProfiles(values, codec).value;
      IsIdentity(next, control, codec) <==>
        && (Get(next, id) == "" ==> forall p :: p in profiles ==> profiles[p].entry != id)
        && (id == CURRENT_PROFILE || id == SERVER_MODE_START ==> Selects(id, next, profiles))
        && (HoldsPrefs(id) && id in next ==> codec.prefs(next[id]) == Some(control))
  {
    hide HoldsPrefs;
    var next, profiles := Decide(values, id, value).next, KnownProfiles(values, codec).value;
    assert KnownProfiles(next, codec) == KnownProfiles(values, codec);
    assert forall k :: k != id ==> Get(next, k) == Get(values, k);
    forall p | p in profiles
      ensures ProfileFits(p, profiles[p], next, control) <==> (Get(next, id) == "" ==> profiles[p].entry != id)
    {
      assert ProfileFits(p, profiles[p], values, control);
    }
    if id != CURRENT_PROFILE {
      assert Selects(CURRENT_PROFILE, next, profiles) == Selects(CURRENT_PROFILE, values, profiles);
    }
    if id != SERVER_MODE_START {
      assert Selects(SERVER_MODE_START, next, profiles) == Selects(SERVER_MODE_START, values, profiles);
    }
  }

  /** A write to the profile table leaves an identity exactly when the new table fits all the rest. */
  lemma ProfilesWriteKeepsIdentity(values: Values, value: Option<string>, control: string, codec: Codec)
    requires IsIdentity(values, control, codec) && Decide(values, PROFILES, value).Save?
    ensures var next := Decide(values, PROFILES, value).next;
      var profiles := KnownProfiles(next, codec);
      IsIdentity(next, control, codec) <==>
        && profiles.Some?
        && (forall p :: p in profiles.value ==> ProfileFits(p, profiles.value[p], next, control))
        && Selects(CURRENT_PROFILE, values, profiles.value) && Selects(SERVER_MODE_START, values, profiles.value)
  {
    hide ProfileFits;
    assert PROFILES[1] == 'p' && CURRENT_PROFILE[1] == 'c' && SERVER_MODE_START[0] == 's';
    assert !HoldsPrefs(PROFILES) by {
      assert "profile-"[0] == 'p' && LEGACY_DAEMON[1] == 'd';
    }
    DistinctKeys();
  }

  const ALL_WORK := Faults(true, true, true, true, true, true, true, true)

  /**
   The store takes any bytes, and the next start does not: one successful write to a new identity
   leaves a file that no Open accepts, under any coordinator.
   */
  lemma AWriteCanStrand(key: string, control: string, codec: Codec)
    requires codec.Fits(Minted(key, control)[CURRENT_PROFILE := "nobody"])
    ensures var minted := Minted(key, control);
      var (st, ok) := Written(Store(minted, false, Some(Whole(minted))),
                              Write(CURRENT_PROFILE, Some("nobody"), "", ALL_WORK), codec);
      && ok && !st.failed
      && forall c, unmarked, key' :: Open(st.file, c, unmarked, key', codec).Refuse?
  {
    hide HoldsPrefs, ProfileFits;
    DistinctKeys();
    var next := Minted(key, control)[CURRENT_PROFILE := "nobody"];
    assert PROFILES[1] == 'p' && CURRENT_PROFILE[1] == 'c';
    assert KnownProfiles(next, codec) == Some(map[]);
    assert !Selects(CURRENT_PROFILE, next, map[]);
    forall c ensures !IsIdentity(next, c, codec) {
    }
  }

  /** A write that would replace the machine key or the coordinator fails the store, file untouched. */
  lemma ReplacementIsRefused(st: Store, w: Write, codec: Codec)
    requires Sound(st) && !st.failed && (w.id == MACHINE || w.id == CONTROL)
    ensures Written(st, w, codec).0.file == st.file
    ensures Written(st, w, codec).1 <==> Get(st.values, w.id) == w.value.GetOr("")
  {
  }
}
