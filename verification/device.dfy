/**
 One tracked camera (src/usbdevice.h, src/usbdevice.cpp): a fixed identity,
 a lifecycle state with its payload, and the inventory of listed files.

 The device is a value; every mutator returns the new device together with
 the `stateChanged` notifications it emitted.
 */
module UsbDevice {
  import opened Wrappers

  /** The nine lifecycle states, in declaration order. */
  datatype State = Init | Idle | VerifyCopy | StartCopy | Copy | Done | Error | Cancel | Removed

  /** The integer value Q_ENUM gives each state. */
  function Ordinal(s: State): (n: nat)
    ensures n < 9
  {
    match s
    case Init => 0
    case Idle => 1
    case VerifyCopy => 2
    case StartCopy => 3
    case Copy => 4
    case Done => 5
    case Error => 6
    case Cancel => 7
    case Removed => 8
  }

  /** The state with enum value `n`, if any. */
  function StateOf(n: nat): (r: Option<State>)
    ensures r.Some? <==> n < 9
    ensures r.Some? ==> Ordinal(r.value) == n
  {
    if n == 0 then Some(Init)
    else if n == 1 then Some(Idle)
    else if n == 2 then Some(VerifyCopy)
    else if n == 3 then Some(StartCopy)
    else if n == 4 then Some(Copy)
    else if n == 5 then Some(Done)
    else if n == 6 then Some(Error)
    else if n == 7 then Some(Cancel)
    else if n == 8 then Some(Removed)
    else None
  }

  /** The enum values are exactly 0..8, one per state, in declaration order. */
  lemma OrdinalBijective(s: State, t: State)
    ensures StateOf(Ordinal(s)) == Some(s)
    ensures Ordinal(s) == Ordinal(t) ==> s == t
    ensures Ordinal(Init) < Ordinal(Idle) < Ordinal(VerifyCopy) < Ordinal(StartCopy) < Ordinal(Copy)
    ensures Ordinal(Copy) < Ordinal(Done) < Ordinal(Error) < Ordinal(Cancel) < Ordinal(Removed)
  {
  }

  /** Progress of a running transfer (CopyStats of src/usbmanager.h). */
  datatype CopyStats = CopyStats(
    removeOriginals: bool,
    totalKbs: nat,
    copiedKbs: nat,
    totalFiles: nat,
    copiedFiles: nat,
    kbps: nat)

  /** What accompanies a state: a status text or a progress record. */
  datatype Payload = Text(text: string) | Progress(stats: CopyStats)

  /** The payload `setState` uses when the caller gives none (an empty string). */
  const NoParm: Payload := Text("")

  /** One listed file: its path on the camera and its size in kilobytes. */
  datatype UsbFile = UsbFile(path: string, kbSize: nat)

  datatype Device = Device(
    name: string,
    bus: nat,
    port: nat,
    settingsKey: string,
    state: State,
    parm: Payload,
    files: seq<UsbFile>)

  /** The `stateChanged(state, parm)` signal. */
  datatype Notification = StateChanged(state: State, parm: Payload)

  /** A device after a mutation, with the notifications the mutation emitted, in order. */
  datatype Transition = Transition(dev: Device, emitted: seq<Notification>)

  /** The same camera: the identity and settings key agree. */
  predicate SameIdentity(a: Device, b: Device) {
    a.name == b.name && a.bus == b.bus && a.port == b.port && a.settingsKey == b.settingsKey
  }

  /** A freshly constructed device: idle, no payload, no files, settings keyed by name. */
  function NewDevice(name: string, bus: nat, port: nat): (d: Device)
    ensures d.name == name && d.bus == bus && d.port == port
    ensures d.settingsKey == name
    ensures d.state == Idle && d.parm == NoParm && d.files == []
  {
    Device(name, bus, port, name, Idle, NoParm, [])
  }

  /** Store the pair and always notify. */
  function ForceState(d: Device, s: State, p: Payload): (r: Transition)
    ensures r.dev.state == s && r.dev.parm == p
    ensures SameIdentity(r.dev, d) && r.dev.files == d.files
    ensures r.emitted == [StateChanged(s, p)]
  {
    Transition(d.(state := s, parm := p), [StateChanged(s, p)])
  }

  /** Store the pair and notify, unless the device already holds exactly that pair. */
  function SetState(d: Device, s: State, p: Payload): (r: Transition)
    ensures r.dev.state == s && r.dev.parm == p
    ensures SameIdentity(r.dev, d) && r.dev.files == d.files
    ensures d.state == s && d.parm == p ==> r.dev == d && r.emitted == []
    ensures d.state != s || d.parm != p ==> r.emitted == [StateChanged(s, p)]
  {
    if d.state == s && d.parm == p then Transition(d, []) else ForceState(d, s, p)
  }

  /** Re-publish the current pair unconditionally. */
  function ResetState(d: Device): (r: Transition)
    ensures r.dev == d
    ensures r.emitted == [StateChanged(d.state, d.parm)]
  {
    ForceState(d, d.state, d.parm)
  }

  /** Replace the whole inventory. */
  function SetFiles(d: Device, files: seq<UsbFile>): (r: Device)
    ensures r.files == files
    ensures SameIdentity(r, d) && r.state == d.state && r.parm == d.parm
  {
    d.(files := files)
  }

  function FileCount(d: Device): nat {
    |d.files|
  }

  /** Setting the same pair twice in a row notifies once at most: the second call is silent. */
  lemma SetStateTwice(d: Device, s: State, p: Payload)
    ensures var first := SetState(d, s, p);
            var second := SetState(first.dev, s, p);
            second.dev == first.dev && second.emitted == []
            && |first.emitted + second.emitted| == (if d.state == s && d.parm == p then 0 else 1)
  {
  }

  /** A reset changes nothing and still notifies, even right after an identical setState. */
  lemma ResetAfterSetNotifies(d: Device, s: State, p: Payload)
    ensures var first := SetState(d, s, p);
            var reset := ResetState(first.dev);
            reset.dev == first.dev && reset.emitted == [StateChanged(s, p)]
  {
  }

  /** The inventory count is the length of the replacing sequence, whatever was listed before. */
  lemma SetFilesCount(d: Device, files: seq<UsbFile>)
    ensures FileCount(SetFiles(d, files)) == |files|
    ensures SetFiles(SetFiles(d, files), files) == SetFiles(d, files)
  {
  }

  /** A state request, as the transfer and listing jobs issue them. */
  datatype Update = Update(state: State, parm: Payload)

  /**
   Apply a sequence of `setState` requests in order. The device ends holding
   the last requested pair, its identity and files untouched, and every
   request that changed the pair emitted exactly its own notification.
   */
  function ApplyUpdates(d: Device, ups: seq<Update>): (r: Transition)
    ensures SameIdentity(r.dev, d) && r.dev.files == d.files
    ensures |ups| == 0 ==> r.dev == d
    ensures |ups| > 0 ==> r.dev.state == ups[|ups| - 1].state && r.dev.parm == ups[|ups| - 1].parm
    ensures |r.emitted| <= |ups|
    decreases |ups|
  {
    if |ups| == 0 then Transition(d, [])
    else
      var first := SetState(d, ups[0].state, ups[0].parm);
      var rest := ApplyUpdates(first.dev, ups[1..]);
      Transition(rest.dev, first.emitted + rest.emitted)
  }

  /** Every notification a sequence of requests emits is one of the requested pairs. */
  lemma {:induction false} ApplyEmitsRequested(d: Device, ups: seq<Update>, r: Transition)
    requires r == ApplyUpdates(d, ups)
    ensures forall i :: 0 <= i < |r.emitted| ==>
              exists j :: 0 <= j < |ups| && r.emitted[i] == StateChanged(ups[j].state, ups[j].parm)
    decreases |ups|
  {
    if |ups| > 0 {
      var first := SetState(d, ups[0].state, ups[0].parm);
      var rest := ups[1..];
      var inner := ApplyUpdates(first.dev, rest);
      ApplyEmitsRequested(first.dev, rest, inner);
      assert r.emitted == first.emitted + inner.emitted;
      forall i | 0 <= i < |r.emitted|
        ensures exists j :: 0 <= j < |ups| && r.emitted[i] == StateChanged(ups[j].state, ups[j].parm)
      {
        if i < |first.emitted| {
          assert r.emitted[i] == StateChanged(ups[0].state, ups[0].parm);
        } else {
          var k := i - |first.emitted|;
          assert k < |inner.emitted| && r.emitted[i] == inner.emitted[k];
          var j' :| 0 <= j' < |rest| && inner.emitted[k] == StateChanged(rest[j'].state, rest[j'].parm);
          assert rest[j'] == ups[j' + 1];
        }
      }
    }
  }

  /** Requests that all differ from their predecessor each emit their own notification, in order. */
  lemma {:induction false} ApplyDistinctUpdates(d: Device, ups: seq<Update>)
    requires |ups| > 0 ==> (d.state != ups[0].state || d.parm != ups[0].parm)
    requires forall i :: 0 < i < |ups| ==> ups[i] != ups[i - 1]
    ensures |ApplyUpdates(d, ups).emitted| == |ups|
    ensures forall i :: 0 <= i < |ups| ==>
              ApplyUpdates(d, ups).emitted[i] == StateChanged(ups[i].state, ups[i].parm)
    decreases |ups|
  {
    if |ups| > 0 {
      var first := SetState(d, ups[0].state, ups[0].parm);
      var rest := ups[1..];
      assert |rest| > 0 ==> rest[0] == ups[1] && ups[1] != ups[0];
      if |rest| > 0 {
        assert first.dev.state != rest[0].state || first.dev.parm != rest[0].parm;
      }
      assert forall i :: 0 < i < |rest| ==> rest[i] != rest[i - 1] by {
        assert forall i :: 0 <= i < |rest| ==> rest[i] == ups[i + 1];
      }
      ApplyDistinctUpdates(first.dev, rest);
      var r, inner := ApplyUpdates(d, ups), ApplyUpdates(first.dev, rest);
      assert first.emitted == [StateChanged(ups[0].state, ups[0].parm)];
      assert r.emitted == first.emitted + inner.emitted;
      forall i | 0 < i < |ups| ensures r.emitted[i] == StateChanged(ups[i].state, ups[i].parm) {
        assert r.emitted[i] == inner.emitted[i - 1] && rest[i - 1] == ups[i];
      }
    }
  }
}
