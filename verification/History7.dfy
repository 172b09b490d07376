/** Whole runs: requests that complete, are abandoned or are cut off, restarts included. */
module History7 {
  import opened Format7
  import opened Volume7
  import opened Image7
  import opened Canonical7
  import opened Device
  import opened Publication7

  /** A mounted volume over its device; `slot` is the generation its head is in. */
  datatype World = World(disk: Disk, volume: Volume, slot: U8)

  /** One exchange with the owner; `w` is the volume a published request proposes. */
  datatype Turn =
    | Declined(op: Op)                                     // refused, or answered from a retained record
    | Completed(op: Op, w: Volume)                         // every device event succeeded
    | Abandoned(op: Op, w: Volume, cut: nat)               // given up before the header; the owner carries on
    | Interrupted(op: Op, w: Volume, cut: nat, img: Image) // the device stopped before event `cut`; then a restart
    | Halted(img: Image)                                   // the device stopped while idle; then a restart
    | Remounted                                            // a flush and a fresh mount

  ghost predicate WorldOk(crc: Checksum, a: World)
  {
    VolumeOk(crc, a.volume) && DiskHolds(crc, a.disk, a.volume, a.slot)
  }

  /** The world continues from this view of its image. */
  ghost predicate From(b: World, view: View)
  {
    b.volume == view.volume && b.slot == view.header.generation
  }

  /**
   * A restart on `img`: the owner continues from what the reader shows it. Nothing is assumed about an image the
   * reader refuses; any world at all may follow it.
   */
  ghost predicate Restarted(crc: Checksum, img: Image, b: World)
  {
    b.disk == Disk(img, []) && forall view :: Reads(crc, img, view) ==> From(b, view)
  }

  /** The reader accepts `img` and the owner continues from it. */
  ghost predicate Mounted(crc: Checksum, img: Image, b: World)
  {
    b.disk == Disk(img, []) && exists view :: Reads(crc, img, view) && From(b, view)
  }

  ghost predicate Turned(crc: Checksum, a: World, turn: Turn, b: World)
  {
    match turn
    case Declined(op) => |a.volume.blocks| == DATA_SECTORS && !Attempt(crc, a.volume, op).Publish? && b == a
    case Completed(op, w) =>
      && Publishing(crc, a.volume, op, a.slot, w)
      && Performs(crc, a, op, w, EventCount(op), b.disk)
      && b.volume == w && b.slot == Other(a.slot)
    case Abandoned(op, w, cut) =>
      && Publishing(crc, a.volume, op, a.slot, w)
      && cut <= EventCount(op) - 2
      && Performs(crc, a, op, w, cut, b.disk)
      && b.volume == a.volume && b.slot == a.slot
    case Interrupted(op, w, cut, img) =>
      && Publishing(crc, a.volume, op, a.slot, w)
      && (exists d :: Performs(crc, a, op, w, cut, d) && Stops(crc, d, img))
      && Restarted(crc, img, b)
    case Halted(img) => Stops(crc, a.disk, img) && Restarted(crc, img, b)
    case Remounted => DiskOk(a.disk) && Restarted(crc, Cached(a.disk), b)
  }

  /** `d` is the device after the first `cut` events of publishing `w` completed. */
  ghost predicate Performs(crc: Checksum, a: World, op: Op, w: Volume, cut: nat, d: Disk)
    requires Publishing(crc, a.volume, op, a.slot, w)
  {
    var events := PublicationEvents(crc, op, w.gen, Other(a.slot));
    && cut <= |events|
    && DiskOk(a.disk) && EventsFit(events[..cut], |a.disk.durable|)
    && d == Perform(a.disk, events[..cut])
  }

  // ---- Mounting ---------------------------------------------------------------

  /** The reader has at most one answer. */
  lemma ReadsUnique(crc: Checksum, img: Image, x: View, y: View)
    requires Reads(crc, img, x) && Reads(crc, img, y)
    ensures x == y
  {
  }

  lemma HoldsSame(crc: Checksum, img: Image, v: Volume, w: Volume, slot: U8)
    requires Holds(crc, img, v, slot) && SameView(v, w)
    ensures Holds(crc, img, w, slot)
  {
  }

  /** Restarting on an image that holds `v`: the reader accepts it and the owner continues from `v`. */
  lemma MountHolds(crc: Checksum, img: Image, v: Volume, slot: U8, b: World)
    requires VolumeOk(crc, v) && Holds(crc, img, v, slot) && Restarted(crc, img, b)
    ensures Mounted(crc, img, b) && WorldOk(crc, b) && SameView(v, b.volume) && b.slot == slot
  {
    HoldsReads(crc, img, v, slot);
    var view := View(HeadFor(crc, v.gen, slot), SelectHeader(crc, img).recovered, Volume(v.gen, PayloadRegion(img)));
    assert Reads(crc, img, view);
    assert From(b, view);
    HoldsSame(crc, img, v, b.volume, slot);
  }

  /** The world a restart leads to when the reader shows `view`. */
  lemma RestartReads(crc: Checksum, img: Image, view: View) returns (b: World)
    requires Reads(crc, img, view)
    ensures Restarted(crc, img, b) && Mounted(crc, img, b) && From(b, view)
  {
    b := World(Disk(img, []), view.volume, view.header.generation);
    forall other | Reads(crc, img, other) ensures From(b, other) {
      ReadsUnique(crc, img, view, other);
    }
  }

  lemma RestartHolds(crc: Checksum, img: Image, v: Volume, slot: U8) returns (b: World)
    requires VolumeOk(crc, v) && Holds(crc, img, v, slot)
    ensures Restarted(crc, img, b) && Mounted(crc, img, b)
  {
    HoldsReads(crc, img, v, slot);
    b := RestartReads(crc, img, View(HeadFor(crc, v.gen, slot), SelectHeader(crc, img).recovered,
                                     Volume(v.gen, PayloadRegion(img))));
  }

  /** Whatever image the reader accepts, an owner can continue from it. */
  lemma MountOk(crc: Checksum, img: Image, b: World)
    requires Mounted(crc, img, b)
    ensures WorldOk(crc, b)
  {
    var view :| Reads(crc, img, view) && From(b, view);
    ReadsHolds(crc, img, view);
  }

  // ---- One turn ---------------------------------------------------------------

  /** The logical volume is `v`, its head in `slot`. */
  ghost predicate Shows(b: World, v: Volume, slot: U8)
  {
    SameView(v, b.volume) && b.slot == slot
  }

  /** The old volume until the header is issued, the new one once the last flush completed, one of them between. */
  ghost predicate CutOutcome(v: Volume, w: Volume, slot: U8, cut: nat, events: nat, b: World)
  {
    && (Shows(b, v, slot) || Shows(b, w, Other(slot)))
    && (cut <= events - 2 ==> Shows(b, v, slot))
    && (cut == events ==> Shows(b, w, Other(slot)))
  }

  /** What each kind of turn may do to the logical volume. */
  ghost predicate TurnOutcome(crc: Checksum, a: World, turn: Turn, b: World)
    requires Turned(crc, a, turn, b)
  {
    match turn
    case Declined(op) => Shows(b, a.volume, a.slot)
    case Completed(op, w) => Shows(b, w, Other(a.slot))
    case Abandoned(op, w, cut) => Shows(b, a.volume, a.slot)
    case Interrupted(op, w, cut, img) =>
      Mounted(crc, img, b) && CutOutcome(a.volume, w, a.slot, cut, EventCount(op), b)
    case Halted(img) => Mounted(crc, img, b) && Shows(b, a.volume, a.slot)
    case Remounted => Mounted(crc, Cached(a.disk), b) && Shows(b, a.volume, a.slot)
  }

  /** After a stop the reader accepts, and the restart continues from the old volume or the new one, as the outcome says. */
  lemma OutcomeMounted(crc: Checksum, v: Volume, w: Volume, slot: U8, cut: nat, events: nat, img: Image, b: World)
    requires slot < GENERATIONS && cut <= events && VolumeOk(crc, v) && VolumeOk(crc, w)
    requires StopOutcome(crc, v, w, slot, cut, events, img) && Restarted(crc, img, b)
    ensures Mounted(crc, img, b) && WorldOk(crc, b) && CutOutcome(v, w, slot, cut, events, b)
  {
    if cut == events {
      MountHolds(crc, img, w, Other(slot), b);
    } else if Holds(crc, img, v, slot) {
      MountHolds(crc, img, v, slot, b);
    } else {
      MountHolds(crc, img, w, Other(slot), b);
    }
    if cut <= events - 2 {
      MountHolds(crc, img, v, slot, b);
    }
  }

  lemma StoppedThenRestarted(crc: Checksum, d: Disk, v: Volume, op: Op, slot: U8, w: Volume, cut: nat, img: Image, b: World)
    requires Publishing(crc, v, op, slot, w) && DiskHolds(crc, d, v, slot) && DiskOk(d)
    requires cut <= EventCount(op)
    requires EventsFit(PublicationEvents(crc, op, w.gen, Other(slot))[..cut], |d.durable|)
    requires Stops(crc, Perform(d, PublicationEvents(crc, op, w.gen, Other(slot))[..cut]), img) && Restarted(crc, img, b)
    ensures Mounted(crc, img, b) && WorldOk(crc, b)
    ensures CutOutcome(v, w, slot, cut, EventCount(op), b)
  {
    CrashAtomic(crc, d, v, op, slot, w, cut, img);
    OutcomeMounted(crc, v, w, slot, cut, EventCount(op), img, b);
  }

  lemma WholeSlice<T>(s: seq<T>)
    ensures s[..|s|] == s
  {
  }

  lemma CompletedSafe(crc: Checksum, a: World, op: Op, w: Volume, b: World)
    requires Publishing(crc, a.volume, op, a.slot, w) && DiskHolds(crc, a.disk, a.volume, a.slot)
    requires Performs(crc, a, op, w, EventCount(op), b.disk)
    requires b.volume == w && b.slot == Other(a.slot)
    ensures WorldOk(crc, b)
  {
    WholeSlice(PublicationEvents(crc, op, w.gen, Other(a.slot)));
    PublishCompletes(crc, a.disk, a.volume, op, a.slot, w);
  }

  lemma AbandonedSafe(crc: Checksum, a: World, op: Op, w: Volume, cut: nat, b: World)
    requires Publishing(crc, a.volume, op, a.slot, w) && DiskHolds(crc, a.disk, a.volume, a.slot)
    requires cut <= EventCount(op) - 2
    requires Performs(crc, a, op, w, cut, b.disk)
    requires b.volume == a.volume && b.slot == a.slot
    ensures WorldOk(crc, b)
  {
    PublishAbandoned(crc, a.disk, a.volume, op, a.slot, w, cut);
  }

  lemma InterruptedSafe(crc: Checksum, a: World, op: Op, w: Volume, cut: nat, img: Image, d: Disk, b: World)
    requires Publishing(crc, a.volume, op, a.slot, w) && DiskHolds(crc, a.disk, a.volume, a.slot)
    requires Performs(crc, a, op, w, cut, d) && Stops(crc, d, img) && Restarted(crc, img, b)
    ensures Mounted(crc, img, b) && WorldOk(crc, b)
    ensures CutOutcome(a.volume, w, a.slot, cut, EventCount(op), b)
  {
    StoppedThenRestarted(crc, a.disk, a.volume, op, a.slot, w, cut, img, b);
  }

  lemma HaltedSafe(crc: Checksum, a: World, img: Image, b: World)
    requires WorldOk(crc, a) && Stops(crc, a.disk, img) && Restarted(crc, img, b)
    ensures Mounted(crc, img, b) && WorldOk(crc, b) && Shows(b, a.volume, a.slot)
  {
    StopKeepsHead(crc, a.disk, a.volume, a.slot, img);
    MountHolds(crc, img, a.volume, a.slot, b);
  }

  lemma RemountedSafe(crc: Checksum, a: World, b: World)
    requires WorldOk(crc, a) && DiskOk(a.disk) && Restarted(crc, Cached(a.disk), b)
    ensures Mounted(crc, Cached(a.disk), b) && WorldOk(crc, b) && Shows(b, a.volume, a.slot)
  {
    HarmlessApply(crc, a.disk.durable, a.volume, a.slot, a.disk.pending);
    MountHolds(crc, Cached(a.disk), a.volume, a.slot, b);
  }

  /**
   * Every turn keeps the world sound and does to the logical volume only what its kind allows; after a stop the
   * reader accepts whatever the medium holds.
   */
  lemma TurnSafe(crc: Checksum, a: World, turn: Turn, b: World)
    requires EmptyIsZero(crc) && WorldOk(crc, a) && Turned(crc, a, turn, b)
    ensures WorldOk(crc, b) && TurnOutcome(crc, a, turn, b)
  {
    match turn
    case Declined(op) =>
    case Completed(op, w) => CompletedSafe(crc, a, op, w, b);
    case Abandoned(op, w, cut) => AbandonedSafe(crc, a, op, w, cut, b);
    case Interrupted(op, w, cut, img) =>
      var d :| Performs(crc, a, op, w, cut, d) && Stops(crc, d, img);
      InterruptedSafe(crc, a, op, w, cut, img, d, b);
    case Halted(img) => HaltedSafe(crc, a, img, b);
    case Remounted => RemountedSafe(crc, a, b);
  }

  // ---- Whole runs -------------------------------------------------------------

  ghost predicate TurnAt(crc: Checksum, worlds: seq<World>, turns: seq<Turn>, i: int)
  {
    0 <= i < |turns| && i + 1 < |worlds| && Turned(crc, worlds[i], turns[i], worlds[i + 1])
  }

  ghost predicate IsRun(crc: Checksum, worlds: seq<World>, turns: seq<Turn>)
  {
    && |worlds| == |turns| + 1
    && forall i :: 0 <= i < |turns| ==> TurnAt(crc, worlds, turns, i)
  }

  lemma TurnKeepsWorld(crc: Checksum, worlds: seq<World>, turns: seq<Turn>, i: nat, a: World, b: World)
    requires EmptyIsZero(crc) && IsRun(crc, worlds, turns) && i < |turns|
    requires a == worlds[i] && b == worlds[i + 1] && WorldOk(crc, a)
    ensures WorldOk(crc, b)
  {
    assert TurnAt(crc, worlds, turns, i);
    TurnSafe(crc, a, turns[i], b);
  }

  /** What holds of one world holds of the next. */
  ghost predicate Passes(holds: World -> bool, worlds: seq<World>, i: int)
  {
    0 <= i && i + 1 < |worlds| && holds(worlds[i]) ==> holds(worlds[i + 1])
  }

  lemma {:induction false} Along(holds: World -> bool, worlds: seq<World>, i: nat, k: nat)
    requires i <= k < |worlds| && holds(worlds[i])
    requires forall m :: i <= m < k ==> Passes(holds, worlds, m)
    ensures holds(worlds[k])
    decreases k
  {
    if i < k {
      Along(holds, worlds, i, k - 1);
      assert Passes(holds, worlds, k - 1);
    }
  }

  /** From a sound world, every world of every run is sound. */
  lemma RunSafe(crc: Checksum, worlds: seq<World>, turns: seq<Turn>, k: nat)
    requires EmptyIsZero(crc) && IsRun(crc, worlds, turns) && WorldOk(crc, worlds[0])
    requires k <= |turns|
    ensures WorldOk(crc, worlds[k])
  {
    var sound := (a: World) => WorldOk(crc, a);
    forall m | 0 <= m < k ensures Passes(sound, worlds, m) {
      if sound(worlds[m]) {
        TurnKeepsWorld(crc, worlds, turns, m, worlds[m], worlds[m + 1]);
      }
    }
    Along(sound, worlds, 0, k);
  }

  // ---- Every stop -------------------------------------------------------------

  /** Wherever a run has got to, every image its idle device may be left with is accepted and shows that very volume. */
  lemma EveryStopAccepted(crc: Checksum, worlds: seq<World>, turns: seq<Turn>, k: nat, img: Image) returns (b: World)
    requires EmptyIsZero(crc) && IsRun(crc, worlds, turns) && WorldOk(crc, worlds[0])
    requires k <= |turns| && Stops(crc, worlds[k].disk, img)
    ensures Turned(crc, worlds[k], Halted(img), b) && Mounted(crc, img, b) && WorldOk(crc, b)
    ensures Shows(b, worlds[k].volume, worlds[k].slot)
  {
    RunSafe(crc, worlds, turns, k);
    var a := worlds[k];
    StopKeepsHead(crc, a.disk, a.volume, a.slot, img);
    b := RestartHolds(crc, img, a.volume, a.slot);
    HaltedSafe(crc, a, img, b);
  }

  /** A stop outcome always leaves something to restart from. */
  lemma OutcomeRestarts(crc: Checksum, v: Volume, w: Volume, slot: U8, cut: nat, events: nat, img: Image) returns (b: World)
    requires slot < GENERATIONS && cut <= events && VolumeOk(crc, v) && VolumeOk(crc, w)
    requires StopOutcome(crc, v, w, slot, cut, events, img)
    ensures Restarted(crc, img, b)
  {
    if Holds(crc, img, v, slot) {
      b := RestartHolds(crc, img, v, slot);
    } else {
      b := RestartHolds(crc, img, w, Other(slot));
    }
  }

  /**
   * Wherever a run has got to, whatever request is then published and at whatever event the device stops, the
   * reader accepts whatever the medium holds, torn sectors included, and shows the old volume or the proposed one.
   */
  lemma EveryCutAccepted(crc: Checksum, worlds: seq<World>, turns: seq<Turn>, k: nat,
                         op: Op, w: Volume, cut: nat, d: Disk, img: Image) returns (b: World)
    requires EmptyIsZero(crc) && IsRun(crc, worlds, turns) && WorldOk(crc, worlds[0]) && k <= |turns|
    requires Publishing(crc, worlds[k].volume, op, worlds[k].slot, w)
    requires Performs(crc, worlds[k], op, w, cut, d) && Stops(crc, d, img)
    ensures Turned(crc, worlds[k], Interrupted(op, w, cut, img), b) && Mounted(crc, img, b) && WorldOk(crc, b)
    ensures CutOutcome(worlds[k].volume, w, worlds[k].slot, cut, EventCount(op), b)
  {
    RunSafe(crc, worlds, turns, k);
    b := CutRestarts(crc, worlds[k], op, w, cut, d, img);
  }

  lemma CutRestarts(crc: Checksum, a: World, op: Op, w: Volume, cut: nat, d: Disk, img: Image) returns (b: World)
    requires WorldOk(crc, a) && Publishing(crc, a.volume, op, a.slot, w)
    requires Performs(crc, a, op, w, cut, d) && Stops(crc, d, img)
    ensures Turned(crc, a, Interrupted(op, w, cut, img), b) && Mounted(crc, img, b) && WorldOk(crc, b)
    ensures CutOutcome(a.volume, w, a.slot, cut, EventCount(op), b)
  {
    CrashAtomic(crc, a.disk, a.volume, op, a.slot, w, cut, img);
    b := OutcomeRestarts(crc, a.volume, w, a.slot, cut, EventCount(op), img);
    InterruptedSafe(crc, a, op, w, cut, img, d, b);
  }

  /** A way for the power to go: while the owner is idle, or before event `cut` of a publication. */
  datatype Stop = Idle | During(op: Op, w: Volume, cut: nat, d: Disk)

  /** `img` is something the medium may hold after such a stop in world `a`. */
  ghost predicate Left(crc: Checksum, a: World, stop: Stop, img: Image)
  {
    match stop
    case Idle => Stops(crc, a.disk, img)
    case During(op, w, cut, d) =>
      Publishing(crc, a.volume, op, a.slot, w) && Performs(crc, a, op, w, cut, d) && Stops(crc, d, img)
  }

  /** The restart after such a stop continues from the volume before it or, from the header write on, the proposed one. */
  ghost predicate Recovered(crc: Checksum, a: World, stop: Stop, img: Image, b: World)
    requires Left(crc, a, stop, img)
  {
    && Mounted(crc, img, b) && WorldOk(crc, b)
    && match stop
       case Idle => Shows(b, a.volume, a.slot)
       case During(op, w, cut, d) =>
         CutOutcome(a.volume, w, a.slot, cut, EventCount(op), b)
  }

  /** From a sound world, every stop in every run is survived. */
  lemma EveryStopRecovers(crc: Checksum, worlds: seq<World>, turns: seq<Turn>, k: nat, stop: Stop, img: Image)
    returns (b: World)
    requires EmptyIsZero(crc) && IsRun(crc, worlds, turns) && WorldOk(crc, worlds[0]) && k <= |turns|
    requires Left(crc, worlds[k], stop, img)
    ensures Recovered(crc, worlds[k], stop, img, b)
  {
    match stop
    case Idle => b := EveryStopAccepted(crc, worlds, turns, k, img);
    case During(op, w, cut, d) => b := EveryCutAccepted(crc, worlds, turns, k, op, w, cut, d, img);
  }
}
