/**
 Versioned handle pools for sound and music sources. Each pool has a fixed
 number of slots; a handle is (slot index, version) and is honoured only while
 the slot's version still equals the handle's and the slot is in use, so a
 handle kept past its slot's release and reuse is refused.

 OpenAL source and buffer ids are opaque non-zero numbers passed in by the
 caller; whether a source has stopped playing is passed in as one flag per
 slot; an open file stream is a non-zero number, 0 standing for a null stream.
 */
module Audio {
  import opened Bitsets

  const SoundSrcLimit := 128
  const MusicSrcLimit := 16
  const MusicBufCnt := 4

  datatype SoundSrcID = SoundSrcID(index: int, version: int)
  datatype MusicSrcID = MusicSrcID(index: int, version: int)

  /** Per slot, whether it is in use (non-zero id). */
  function IdsInUse(ids: seq<int>): (r: seq<bool>)
    ensures |r| == |ids| && forall i :: 0 <= i < |ids| ==> r[i] == (ids[i] != 0)
  {
    seq(|ids|, i requires 0 <= i < |ids| => ids[i] != 0)
  }

  // ---------------------------------------------------------------------------
  // Sound sources

  datatype SoundSrcs = SoundSrcs(alIDs: seq<int>, versions: seq<int>, autoReleases: seq<bool>)

  ghost predicate SoundShaped(st: SoundSrcs)
  {
    |st.alIDs| == SoundSrcLimit && |st.versions| == SoundSrcLimit && |st.autoReleases| == SoundSrcLimit
  }

  /** Versions never go below 0 and a slot in use has been handed out at
      least once. */
  ghost predicate SoundInv(st: SoundSrcs)
  {
    && SoundShaped(st)
    && (forall i :: 0 <= i < SoundSrcLimit ==> st.versions[i] >= 0)
    && (forall i :: 0 <= i < SoundSrcLimit ==> st.alIDs[i] != 0 ==> st.versions[i] >= 1)
  }

  /** The zeroed collection (`srcs = {}`). */
  function EmptySoundSrcs(): (st: SoundSrcs)
  {
    SoundSrcs(seq(SoundSrcLimit, _ => 0), seq(SoundSrcLimit, _ => 0), seq(SoundSrcLimit, _ => false))
  }

  /** The checks of `release_sound_src` and `play_sound_src`. */
  ghost predicate SoundHandleValid(st: SoundSrcs, id: SoundSrcID)
    requires SoundShaped(st)
  {
    0 <= id.index < SoundSrcLimit && st.versions[id.index] == id.version && st.alIDs[id.index] != 0
  }

  ghost predicate HasFreeSound(st: SoundSrcs)
    requires SoundShaped(st)
  {
    exists i :: 0 <= i < SoundSrcLimit && st.alIDs[i] == 0
  }

  /** `create_sound_src`: the lowest slot whose id is 0 gets the new OpenAL id
      and a bumped version; the handle names both. */
  function CreateSound(st: SoundSrcs, alID: int): (r: (SoundSrcs, SoundSrcID))
    requires SoundShaped(st) && HasFreeSound(st)
    ensures var i := r.1.index;
      && 0 <= i < SoundSrcLimit && st.alIDs[i] == 0
      && (forall j :: 0 <= j < i ==> st.alIDs[j] != 0)
      && r.1.version == st.versions[i] + 1
  {
    var i := FirstInactive(IdsInUse(st.alIDs));
    (st.(alIDs := st.alIDs[i := alID], versions := st.versions[i := st.versions[i] + 1]),
     SoundSrcID(i, st.versions[i] + 1))
  }

  /** `release_sound_src_by_index`: the slot's id goes back to 0; the version
      is kept so the next use of the slot gets a newer one. */
  function ReleaseSoundByIndex(st: SoundSrcs, index: int): SoundSrcs
    requires SoundShaped(st) && 0 <= index < SoundSrcLimit && st.alIDs[index] != 0
  {
    st.(alIDs := st.alIDs[index := 0])
  }

  /** `create_and_play_sound_src`: create, then mark the slot for automatic
      release (playing changes nothing in the collection). Ids and versions
      are those `create_sound_src` leaves; only the new slot's mark changes. */
  function CreateAndPlaySound(st: SoundSrcs, alID: int): (r: SoundSrcs)
    requires SoundShaped(st) && HasFreeSound(st)
    ensures SoundShaped(r)
    ensures r.alIDs == CreateSound(st, alID).0.alIDs && r.versions == CreateSound(st, alID).0.versions
    ensures r.autoReleases[CreateSound(st, alID).1.index]
    ensures forall j :: 0 <= j < SoundSrcLimit && j != CreateSound(st, alID).1.index ==>
              r.autoReleases[j] == st.autoReleases[j]
  {
    var (st', id) := CreateSound(st, alID);
    st'.(autoReleases := st'.autoReleases[id.index := true])
  }

  /** One slot of `handle_auto_release_sound_srcs`: slots not marked are
      skipped; a marked slot already released loses its mark; a marked slot
      whose source stopped is released and keeps its mark until a later pass. */
  function AutoReleaseSlot(alID: int, marked: bool, stopped: bool): (int, bool)
  {
    if !marked then (alID, marked)
    else if alID == 0 then (alID, false)
    else if stopped then (0, marked)
    else (alID, marked)
  }

  function AutoRelease(st: SoundSrcs, stopped: seq<bool>): (r: SoundSrcs)
    requires SoundShaped(st) && |stopped| == SoundSrcLimit
    ensures SoundShaped(r) && r.versions == st.versions
  {
    SoundSrcs(
      seq(SoundSrcLimit, i requires 0 <= i < SoundSrcLimit =>
        AutoReleaseSlot(st.alIDs[i], st.autoReleases[i], stopped[i]).0),
      st.versions,
      seq(SoundSrcLimit, i requires 0 <= i < SoundSrcLimit =>
        AutoReleaseSlot(st.alIDs[i], st.autoReleases[i], stopped[i]).1))
  }

  lemma EmptySoundInv()
    ensures SoundInv(EmptySoundSrcs())
    ensures forall i :: 0 <= i < SoundSrcLimit ==> !EmptySoundSrcs().autoReleases[i]
  {
  }

  /** A handle issued by `create_sound_src` is valid in the new state, the
      new slot holds the new id, every other slot's id and version is
      unchanged, and no auto-release mark changes: `create_sound_src` leaves
      the mark of the slot it reuses as it was. */
  lemma CreateSoundIssuesValidHandle(st: SoundSrcs, alID: int)
    requires SoundInv(st) && HasFreeSound(st) && alID != 0
    ensures SoundInv(CreateSound(st, alID).0)
    ensures SoundHandleValid(CreateSound(st, alID).0, CreateSound(st, alID).1)
    ensures CreateSound(st, alID).0.alIDs[CreateSound(st, alID).1.index] == alID
    ensures forall j :: 0 <= j < SoundSrcLimit && j != CreateSound(st, alID).1.index ==>
              CreateSound(st, alID).0.alIDs[j] == st.alIDs[j] && CreateSound(st, alID).0.versions[j] == st.versions[j]
    ensures CreateSound(st, alID).0.autoReleases == st.autoReleases
  {
  }

  /** `create_and_play_sound_src` keeps the invariant and marks exactly the
      slot of a handle that is valid in the new state. */
  lemma CreateAndPlayMarksNewSlot(st: SoundSrcs, alID: int)
    requires SoundInv(st) && HasFreeSound(st) && alID != 0
    ensures SoundInv(CreateAndPlaySound(st, alID))
    ensures SoundHandleValid(CreateAndPlaySound(st, alID), CreateSound(st, alID).1)
    ensures CreateAndPlaySound(st, alID).autoReleases[CreateSound(st, alID).1.index]
  {
    CreateSoundIssuesValidHandle(st, alID);
  }

  /** A marked source that stopped is released by one auto-release pass but
      keeps its mark until the next pass. When a plain `create_sound_src`
      reuses the slot in between, the new source inherits the stale mark:
      it is released as soon as it stops, and the handle the caller holds
      goes stale although the caller never asked for automatic release. */
  lemma StaleMarkReleasesPlainSound(st: SoundSrcs, stopped1: seq<bool>, alID: int, stopped2: seq<bool>, i: int)
    requires SoundInv(st) && |stopped1| == SoundSrcLimit && |stopped2| == SoundSrcLimit && alID != 0
    requires 0 <= i < SoundSrcLimit && st.autoReleases[i] && st.alIDs[i] != 0 && stopped1[i] && stopped2[i]
    requires forall j :: 0 <= j < i ==> st.alIDs[j] != 0 && !(st.autoReleases[j] && stopped1[j])
    ensures HasFreeSound(AutoRelease(st, stopped1))
    ensures var st1 := AutoRelease(st, stopped1);
      var (st2, h) := CreateSound(st1, alID);
      && h.index == i && SoundHandleValid(st2, h) && st2.autoReleases[i]
      && !SoundHandleValid(AutoRelease(st2, stopped2), h)
  {
    var st1 := AutoRelease(st, stopped1);
    assert st1.alIDs[i] == 0 && st1.autoReleases[i];
    assert forall j :: 0 <= j < i ==> st1.alIDs[j] != 0;
    AutoReleasePreservesInv(st, stopped1);
    CreateSoundIssuesValidHandle(st1, alID);
  }

  /** A default-initialised handle (index 0, version 0) is never honoured. */
  lemma ZeroHandleNeverValid(st: SoundSrcs)
    requires SoundInv(st)
    ensures !SoundHandleValid(st, SoundSrcID(0, 0))
  {
  }

  /** After a handle's slot is released, the handle is refused, and it stays
      refused when the next creation reuses the slot. */
  lemma StaleSoundHandleRejected(st: SoundSrcs, h: SoundSrcID, alID: int)
    requires SoundInv(st) && SoundHandleValid(st, h) && alID != 0
    ensures !SoundHandleValid(ReleaseSoundByIndex(st, h.index), h)
    ensures HasFreeSound(ReleaseSoundByIndex(st, h.index))
    ensures !SoundHandleValid(CreateSound(ReleaseSoundByIndex(st, h.index), alID).0, h)
  {
    var st1 := ReleaseSoundByIndex(st, h.index);
    assert st1.alIDs[h.index] == 0;
  }

  /** Auto-release keeps the invariant, never touches unmarked slots and
      never changes versions. */
  lemma AutoReleasePreservesInv(st: SoundSrcs, stopped: seq<bool>)
    requires SoundInv(st) && |stopped| == SoundSrcLimit
    ensures SoundInv(AutoRelease(st, stopped))
    ensures forall i :: 0 <= i < SoundSrcLimit && !st.autoReleases[i] ==>
              AutoRelease(st, stopped).alIDs[i] == st.alIDs[i] && !AutoRelease(st, stopped).autoReleases[i]
  {
  }

  /** A marked source that stopped is released on one pass and unmarked on
      the next; a marked source still playing is left alone. */
  lemma AutoReleaseTwoPasses(st: SoundSrcs, stopped1: seq<bool>, stopped2: seq<bool>, i: nat)
    requires SoundShaped(st) && |stopped1| == SoundSrcLimit && |stopped2| == SoundSrcLimit
    requires i < SoundSrcLimit && st.autoReleases[i] && st.alIDs[i] != 0
    ensures !stopped1[i] ==> AutoRelease(st, stopped1).alIDs[i] == st.alIDs[i] && AutoRelease(st, stopped1).autoReleases[i]
    ensures stopped1[i] ==> AutoRelease(st, stopped1).alIDs[i] == 0 && AutoRelease(st, stopped1).autoReleases[i]
    ensures stopped1[i] ==> !AutoRelease(AutoRelease(st, stopped1), stopped2).autoReleases[i]
  {
  }

  class SoundSrcCollection {
    const alIDs: array<int>
    const versions: array<int>
    const autoReleases: array<bool>

    ghost predicate Valid()
      reads this
    {
      && alIDs.Length == SoundSrcLimit && versions.Length == SoundSrcLimit
      && autoReleases.Length == SoundSrcLimit && alIDs != versions
    }

    ghost function State(): SoundSrcs
      reads this, alIDs, versions, autoReleases
    {
      SoundSrcs(alIDs[..], versions[..], autoReleases[..])
    }

    constructor ()
      ensures Valid() && State() == EmptySoundSrcs()
    {
      alIDs := new int[SoundSrcLimit](_ => 0);
      versions := new int[SoundSrcLimit](_ => 0);
      autoReleases := new bool[SoundSrcLimit](_ => false);
    }

    /** `clean_sound_srcs`: every source is deleted (outside the model), then
        the whole collection is zeroed. */
    method CleanSoundSrcs()
      requires Valid()
      modifies alIDs, versions, autoReleases
      ensures State() == EmptySoundSrcs()
    {
      forall i | 0 <= i < SoundSrcLimit {
        alIDs[i] := 0;
      }
      forall i | 0 <= i < SoundSrcLimit {
        versions[i] := 0;
      }
      forall i | 0 <= i < SoundSrcLimit {
        autoReleases[i] := false;
      }
    }

    /** `create_sound_src`; `alID` is the id the OpenAL source generation
        yields. `create_sound_src` asserts that a slot is free. */
    method CreateSoundSrc(alID: int) returns (id: SoundSrcID)
      requires Valid() && HasFreeSound(State())
      modifies alIDs, versions
      ensures (State(), id) == CreateSound(old(State()), alID)
    {
      ghost var st := State();
      var i := 0;
      while i < SoundSrcLimit
        invariant 0 <= i <= SoundSrcLimit
        invariant forall j :: 0 <= j < i ==> alIDs[j] != 0
      {
        if alIDs[i] == 0 {
          alIDs[i] := alID;
          versions[i] := versions[i] + 1;
          assert i == FirstInactive(IdsInUse(st.alIDs));
          return SoundSrcID(i, versions[i]);
        }
        i := i + 1;
      }
      assert false;
    }

    /** `release_sound_src_by_index`. */
    method ReleaseSoundSrcByIndex(index: int)
      requires Valid() && 0 <= index < SoundSrcLimit && alIDs[index] != 0
      modifies alIDs
      ensures State() == ReleaseSoundByIndex(old(State()), index)
    {
      alIDs[index] := 0;
    }

    /** `release_sound_src`: the handle must be valid. */
    method ReleaseSoundSrc(id: SoundSrcID)
      requires Valid() && SoundHandleValid(State(), id)
      modifies alIDs
      ensures State() == ReleaseSoundByIndex(old(State()), id.index)
    {
      ReleaseSoundSrcByIndex(id.index);
    }

    /** `create_and_play_sound_src`. */
    method CreateAndPlaySoundSrc(alID: int)
      requires Valid() && HasFreeSound(State())
      modifies alIDs, versions, autoReleases
      ensures State() == CreateAndPlaySound(old(State()), alID)
    {
      var id := CreateSoundSrc(alID);
      autoReleases[id.index] := true;
    }

    /** `handle_auto_release_sound_srcs`; `stopped[i]` is whether slot `i`'s
        source reports that it has stopped. */
    method HandleAutoReleaseSoundSrcs(stopped: seq<bool>)
      requires Valid() && |stopped| == SoundSrcLimit
      modifies alIDs, autoReleases
      ensures State() == AutoRelease(old(State()), stopped)
    {
      ghost var st := State();
      var i := 0;
      while i < SoundSrcLimit
        invariant 0 <= i <= SoundSrcLimit
        invariant versions[..] == st.versions
        invariant forall j :: 0 <= j < i ==>
                    (alIDs[j], autoReleases[j]) == AutoReleaseSlot(st.alIDs[j], st.autoReleases[j], stopped[j])
        invariant forall j :: i <= j < SoundSrcLimit ==> alIDs[j] == st.alIDs[j] && autoReleases[j] == st.autoReleases[j]
      {
        if !autoReleases[i] {
          i := i + 1;
          continue;
        }
        if alIDs[i] == 0 {
          autoReleases[i] := false;
          i := i + 1;
          continue;
        }
        if stopped[i] {
          ReleaseSoundSrcByIndex(i);
        }
        i := i + 1;
      }
    }
  }

  // ---------------------------------------------------------------------------
  // Music sources

  /** One music source: the music asset, the OpenAL source, its stream
      buffers and the open file stream (0 for none). */
  datatype MusicSrc = MusicSrc(musicIndex: int, alID: int, bufALIDs: seq<int>, fs: int)

  /** A zeroed source; it has `MusicBufCnt` buffer ids. */
  const DefaultMusicSrc := MusicSrc(0, 0, [0, 0, 0, 0], 0)

  datatype MusicSrcs = MusicSrcs(srcs: seq<MusicSrc>, activity: seq<bool>, versions: seq<int>)

  ghost predicate MusicShaped(st: MusicSrcs)
  {
    |st.srcs| == MusicSrcLimit && |st.activity| == MusicSrcLimit && |st.versions| == MusicSrcLimit
  }

  /** An inactive slot holds the default source, and an active slot has
      been handed out at least once. */
  ghost predicate MusicInv(st: MusicSrcs)
  {
    && MusicShaped(st)
    && (forall i :: 0 <= i < MusicSrcLimit ==> |st.srcs[i].bufALIDs| == MusicBufCnt)
    && (forall i :: 0 <= i < MusicSrcLimit ==> !st.activity[i] ==> st.srcs[i] == DefaultMusicSrc)
    && (forall i :: 0 <= i < MusicSrcLimit ==> st.versions[i] >= 0)
    && (forall i :: 0 <= i < MusicSrcLimit ==> st.activity[i] ==> st.versions[i] >= 1)
  }

  function EmptyMusicSrcs(): MusicSrcs
  {
    MusicSrcs(seq(MusicSrcLimit, _ => DefaultMusicSrc), seq(MusicSrcLimit, _ => false), seq(MusicSrcLimit, _ => 0))
  }

  ghost predicate MusicHandleValid(st: MusicSrcs, id: MusicSrcID)
    requires MusicShaped(st)
  {
    0 <= id.index < MusicSrcLimit && st.versions[id.index] == id.version && st.activity[id.index]
  }

  ghost predicate HasFreeMusic(st: MusicSrcs)
    requires MusicShaped(st)
  {
    exists i :: 0 <= i < MusicSrcLimit && !st.activity[i]
  }

  /** `add_music_src`: the lowest inactive slot records the music index and
      the new OpenAL ids, becomes active and gets a bumped version. */
  function AddMusic(st: MusicSrcs, musicIndex: int, alID: int, bufALIDs: seq<int>): (r: (MusicSrcs, MusicSrcID))
    requires MusicShaped(st) && HasFreeMusic(st) && |bufALIDs| == MusicBufCnt
    ensures var i := r.1.index;
      && 0 <= i < MusicSrcLimit && !st.activity[i]
      && (forall j :: 0 <= j < i ==> st.activity[j])
      && r.1.version == st.versions[i] + 1
  {
    var i := FirstInactive(st.activity);
    (MusicSrcs(st.srcs[i := st.srcs[i].(musicIndex := musicIndex, alID := alID, bufALIDs := bufALIDs)],
               st.activity[i := true], st.versions[i := st.versions[i] + 1]),
     MusicSrcID(i, st.versions[i] + 1))
  }

  /** The part of `play_music_src` that changes the collection: the opened
      stream (0 when opening failed) is stored in the slot. */
  function OpenMusicStream(st: MusicSrcs, id: MusicSrcID, fs: int): MusicSrcs
    requires MusicShaped(st) && MusicHandleValid(st, id)
  {
    st.(srcs := st.srcs[id.index := st.srcs[id.index].(fs := fs)])
  }

  /** `release_music_src`: the slot returns to the default source and becomes
      inactive; the version is kept. */
  function ReleaseMusic(st: MusicSrcs, id: MusicSrcID): MusicSrcs
    requires MusicShaped(st) && MusicHandleValid(st, id)
  {
    st.(srcs := st.srcs[id.index := DefaultMusicSrc], activity := st.activity[id.index := false])
  }

  /** The streams `release_music_src` passes to `fclose`, as written: the
      slot's stream, null or not. */
  function ReleaseMusicClosesAsWritten(st: MusicSrcs, id: MusicSrcID): seq<int>
    requires MusicShaped(st) && MusicHandleValid(st, id)
  {
    [st.srcs[id.index].fs]
  }

  /** The streams `release_music_src` should pass to `fclose`: the slot's
      stream only when it is open, as `clean_music_srcs` does. */
  function ReleaseMusicCloses(st: MusicSrcs, id: MusicSrcID): (r: seq<int>)
    requires MusicShaped(st) && MusicHandleValid(st, id)
    ensures 0 !in r
  {
    if st.srcs[id.index].fs != 0 then [st.srcs[id.index].fs] else []
  }

  /** The streams `clean_music_srcs` closes, slot by slot up to `n`: the open
      streams of the active slots. */
  function CleanMusicCloses(st: MusicSrcs, n: nat): (r: seq<int>)
    requires MusicShaped(st) && n <= MusicSrcLimit
    ensures 0 !in r
    ensures forall fs :: fs in r ==> exists i :: 0 <= i < n && st.activity[i] && st.srcs[i].fs == fs
    ensures forall i :: 0 <= i < n && st.activity[i] && st.srcs[i].fs != 0 ==> st.srcs[i].fs in r
  {
    if n == 0 then []
    else
      var i := n - 1;
      CleanMusicCloses(st, i) + (if st.activity[i] && st.srcs[i].fs != 0 then [st.srcs[i].fs] else [])
  }

  lemma EmptyMusicInv()
    ensures MusicInv(EmptyMusicSrcs())
  {
  }

  /** Adding keeps the invariant and issues a valid handle; the new slot
      has no stream yet. */
  lemma AddMusicIssuesValidHandle(st: MusicSrcs, musicIndex: int, alID: int, bufALIDs: seq<int>)
    requires MusicInv(st) && HasFreeMusic(st) && |bufALIDs| == MusicBufCnt
    ensures MusicInv(AddMusic(st, musicIndex, alID, bufALIDs).0)
    ensures MusicHandleValid(AddMusic(st, musicIndex, alID, bufALIDs).0, AddMusic(st, musicIndex, alID, bufALIDs).1)
    ensures AddMusic(st, musicIndex, alID, bufALIDs).0.srcs[AddMusic(st, musicIndex, alID, bufALIDs).1.index].fs == 0
  {
    var (st', id) := AddMusic(st, musicIndex, alID, bufALIDs);
    assert st.srcs[id.index] == DefaultMusicSrc;
  }

  /** Releasing keeps the invariant; releasing right after adding restores
      the collection except for the slot's bumped version. */
  lemma ReleaseMusicUndoesAdd(st: MusicSrcs, musicIndex: int, alID: int, bufALIDs: seq<int>)
    requires MusicInv(st) && HasFreeMusic(st) && |bufALIDs| == MusicBufCnt
    ensures var (st', id) := AddMusic(st, musicIndex, alID, bufALIDs);
      && MusicHandleValid(st', id)
      && MusicInv(ReleaseMusic(st', id))
      && ReleaseMusic(st', id) == st.(versions := st.versions[id.index := id.version])
  {
    var (st', id) := AddMusic(st, musicIndex, alID, bufALIDs);
    AddMusicIssuesValidHandle(st, musicIndex, alID, bufALIDs);
    assert st.srcs[id.index] == DefaultMusicSrc;
    assert ReleaseMusic(st', id).srcs == st.srcs;
    assert ReleaseMusic(st', id).activity == st.activity;
  }

  /** A released music handle is refused, also after its slot is reused. */
  lemma StaleMusicHandleRejected(st: MusicSrcs, h: MusicSrcID, musicIndex: int, alID: int, bufALIDs: seq<int>)
    requires MusicInv(st) && MusicHandleValid(st, h) && |bufALIDs| == MusicBufCnt
    ensures !MusicHandleValid(ReleaseMusic(st, h), h)
    ensures HasFreeMusic(ReleaseMusic(st, h))
    ensures !MusicHandleValid(AddMusic(ReleaseMusic(st, h), musicIndex, alID, bufALIDs).0, h)
  {
    assert !ReleaseMusic(st, h).activity[h.index];
  }

  /** Releasing a music source that was never played (or whose file failed
      to open) passes a null stream to `fclose` as written; the corrected
      release closes nothing. */
  lemma ReleaseUnplayedMusicClosesNull(st: MusicSrcs, musicIndex: int, alID: int, bufALIDs: seq<int>)
    requires MusicInv(st) && HasFreeMusic(st) && |bufALIDs| == MusicBufCnt
    ensures var (st', id) := AddMusic(st, musicIndex, alID, bufALIDs);
      && MusicHandleValid(st', id)
      && ReleaseMusicClosesAsWritten(st', id) == [0]
      && ReleaseMusicCloses(st', id) == []
  {
    AddMusicIssuesValidHandle(st, musicIndex, alID, bufALIDs);
  }

  /** The corrected release closes exactly the stream that play stored when
      opening succeeded. */
  lemma ReleaseClosesOpenedStream(st: MusicSrcs, id: MusicSrcID, fs: int)
    requires MusicInv(st) && MusicHandleValid(st, id)
    ensures ReleaseMusicCloses(OpenMusicStream(st, id, fs), id) == (if fs != 0 then [fs] else [])
  {
  }

  class MusicSrcCollection {
    const srcs: array<MusicSrc>
    const activity: array<bool>
    const versions: array<int>

    ghost predicate Valid()
      reads this
    {
      srcs.Length == MusicSrcLimit && activity.Length == MusicSrcLimit && versions.Length == MusicSrcLimit
    }

    ghost function State(): MusicSrcs
      reads this, srcs, activity, versions
    {
      MusicSrcs(srcs[..], activity[..], versions[..])
    }

    constructor ()
      ensures Valid() && State() == EmptyMusicSrcs()
    {
      srcs := new MusicSrc[MusicSrcLimit](_ => DefaultMusicSrc);
      activity := new bool[MusicSrcLimit](_ => false);
      versions := new int[MusicSrcLimit](_ => 0);
    }

    /** `clean_music_srcs`: closes the open streams of the active slots (the
        result, in slot order), then resets the whole collection. */
    method CleanMusicSrcs() returns (closed: seq<int>)
      requires Valid()
      modifies srcs, activity, versions
      ensures closed == CleanMusicCloses(old(State()), MusicSrcLimit)
      ensures State() == EmptyMusicSrcs()
    {
      closed := [];
      var i := 0;
      while i < MusicSrcLimit
        invariant 0 <= i <= MusicSrcLimit
        invariant closed == CleanMusicCloses(State(), i)
      {
        if activity[i] {
          if srcs[i].fs != 0 {
            closed := closed + [srcs[i].fs];
          }
        }
        i := i + 1;
      }
      forall j | 0 <= j < MusicSrcLimit {
        srcs[j] := DefaultMusicSrc;
      }
      forall j | 0 <= j < MusicSrcLimit {
        activity[j] := false;
      }
      forall j | 0 <= j < MusicSrcLimit {
        versions[j] := 0;
      }
    }

    /** `add_music_src`; `alID` and `bufALIDs` are the ids the OpenAL source
        and buffer generation yields. `add_music_src` asserts that a slot is
        inactive. */
    method AddMusicSrc(musicIndex: int, alID: int, bufALIDs: seq<int>) returns (id: MusicSrcID)
      requires Valid() && HasFreeMusic(State()) && |bufALIDs| == MusicBufCnt
      modifies srcs, activity, versions
      ensures (State(), id) == AddMusic(old(State()), musicIndex, alID, bufALIDs)
    {
      ghost var st := State();
      var i := 0;
      while i < MusicSrcLimit
        invariant 0 <= i <= MusicSrcLimit
        invariant forall j :: 0 <= j < i ==> activity[j]
      {
        if !activity[i] {
          srcs[i] := srcs[i].(musicIndex := musicIndex, alID := alID, bufALIDs := bufALIDs);
          activity[i] := true;
          versions[i] := versions[i] + 1;
          assert i == FirstInactive(st.activity);
          return MusicSrcID(i, versions[i]);
        }
        i := i + 1;
      }
      assert false;
    }

    /** `play_music_src`: the stream that opening the music file yields
        (`fs`, 0 when opening failed) is stored in the slot, and the result
        says whether it opened. Queueing the stream buffers and starting
        playback happen outside the collection. */
    method PlayMusicSrc(id: MusicSrcID, fs: int) returns (ok: bool)
      requires Valid() && MusicHandleValid(State(), id)
      modifies srcs
      ensures ok <==> fs != 0
      ensures State() == OpenMusicStream(old(State()), id, fs)
    {
      srcs[id.index] := srcs[id.index].(fs := fs);
      ok := fs != 0;
    }

    /** `release_music_src` with the null check of `clean_music_srcs`:
        returns the streams it closes. */
    method ReleaseMusicSrc(id: MusicSrcID) returns (closed: seq<int>)
      requires Valid() && MusicHandleValid(State(), id)
      modifies srcs, activity
      ensures closed == ReleaseMusicCloses(old(State()), id)
      ensures State() == ReleaseMusic(old(State()), id)
    {
      closed := if srcs[id.index].fs != 0 then [srcs[id.index].fs] else [];
      srcs[id.index] := DefaultMusicSrc;
      activity[id.index] := false;
    }
  }
}
