/**
 `refreshDevices` of src/usbmanager.cpp: reconcile the tracked devices with
 one run of the detection tool. Devices named by the output that are not yet
 tracked are appended and their listing is started; tracked devices the
 output no longer names are removed, scanning from the back.
 */
module Refresh {
  import opened Utils
  import opened UsbDevice
  import opened Registry
  import opened Enumeration
  import opened Listing

  /** The manager's signals, and the start of a listing job. */
  datatype Event =
    | DeviceAdded(dev: Device)
    | DeviceChanged(bus: nat, port: nat, change: Notification)
    | ListingRequested(bus: nat, port: nat)
    | DeviceAboutToBeRemoved(dev: Device)
    | DeviceRemoved(remaining: nat)   // the device count once the device is gone

  /** The devices after a phase, with the events it produced in order. */
  datatype Phase = Phase(devices: seq<Device>, events: seq<Event>)

  /** A failing detection run aborts the program; otherwise the registry is reconciled. */
  datatype Outcome = Aborted | Refreshed(devices: seq<Device>, events: seq<Event>)

  predicate IsRemoval(e: Event) {
    e.DeviceAboutToBeRemoved? || e.DeviceRemoved?
  }

  /** A device as the add phase leaves it: constructed, then put into the listing state. */
  predicate FreshlyListed(d: Device) {
    d == BeginListing(NewDevice(d.name, d.bus, d.port)).dev
  }

  /** The events announcing one added device: the addition, its change to Init, the listing job. */
  function Announce(d: Device): seq<Event> {
    [DeviceAdded(NewDevice(d.name, d.bus, d.port)),
     DeviceChanged(d.bus, d.port, StateChanged(Init, Text(ListingText))),
     ListingRequested(d.bus, d.port)]
  }

  function AnnounceAll(ds: seq<Device>): seq<Event>
    decreases |ds|
  {
    if |ds| == 0 then [] else Announce(ds[0]) + AnnounceAll(ds[1..])
  }

  /** Each notification of a device, relayed as a change of that device. */
  function Relay(bus: nat, port: nat, ns: seq<Notification>): (r: seq<Event>)
    ensures |r| == |ns|
    ensures forall i :: 0 <= i < |ns| ==> r[i] == DeviceChanged(bus, port, ns[i])
    decreases |ns|
  {
    if |ns| == 0 then [] else [DeviceChanged(bus, port, ns[0])] + Relay(bus, port, ns[1..])
  }

  /**
   The devices of `all` after the first |devs| are new: each holds a pair
   `devs` does not, is freshly listed, and was detected under its name.
   */
  predicate NewDevicesFrom(devs: seq<Device>, all: seq<Device>, dets: seq<Detected>) {
    && |all| >= |devs|
    && forall k :: |devs| <= k < |all| ==>
         && Pair(all[k]) !in Pairs(devs)
         && FreshlyListed(all[k])
         && Detected(all[k].name, all[k].bus, all[k].port) in dets
  }

  /**
   What the add phase promises: the old devices stay in front untouched, the
   tracked pairs grow by exactly the detected ones, pairs stay unique, the
   appended devices are new, freshly listed and of distinct pairs, and the
   events announce the appended devices in order.
   */
  predicate AddPhaseSpec(devs: seq<Device>, dets: seq<Detected>, r: Phase) {
    && |r.devices| >= |devs| && r.devices[..|devs|] == devs
    && Pairs(r.devices) == Pairs(devs) + DetectedPairs(dets)
    && (UniquePairs(devs) ==> UniquePairs(r.devices))
    && NewDevicesFrom(devs, r.devices, dets)
    && UniquePairs(r.devices[|devs|..])
    && r.events == AnnounceAll(r.devices[|devs|..])
  }

  /**
   The add phase, one detected device at a time in output order: a pair that
   is not tracked yet (including one added earlier in the same pass) gets a
   new device at the end of the registry, whose listing is started at once.
   */
  function AddPhase(devs: seq<Device>, dets: seq<Detected>): (r: Phase)
    ensures AddPhaseSpec(devs, dets, r)
    decreases |dets|
  {
    if |dets| == 0 then
      Phase(devs, [])
    else
      var x := dets[0];
      if Find(devs, x.bus, x.port).Some? then
        var rest := AddPhase(devs, dets[1..]);
        AddKnownStep(devs, dets, rest);
        rest
      else
        var created := NewDevice(x.name, x.bus, x.port);
        var start := BeginListing(created);
        var rest := AddPhase(devs + [start.dev], dets[1..]);
        var first := [DeviceAdded(created)] + Relay(x.bus, x.port, start.emitted) + [ListingRequested(x.bus, x.port)];
        AnnounceStart(x);
        AddNewStep(devs, dets, start.dev, first, rest);
        Phase(rest.devices, first + rest.events)
  }

  /** A detection whose pair is already tracked adds nothing. */
  lemma AddKnownStep(devs: seq<Device>, dets: seq<Detected>, rest: Phase)
    requires |dets| > 0 && Find(devs, dets[0].bus, dets[0].port).Some?
    requires AddPhaseSpec(devs, dets[1..], rest)
    ensures AddPhaseSpec(devs, dets, rest)
  {
    DetectedPairsCons(dets);
    NewDevicesWider(devs, rest.devices, dets);
  }

  /** What the add phase emits for a new detection is the announcement of the device it appends. */
  lemma AnnounceStart(x: Detected)
    ensures var created := NewDevice(x.name, x.bus, x.port);
            var start := BeginListing(created);
            [DeviceAdded(created)] + Relay(x.bus, x.port, start.emitted) + [ListingRequested(x.bus, x.port)]
            == Announce(start.dev)
  {
    var created := NewDevice(x.name, x.bus, x.port);
    var start := BeginListing(created);
    assert start.emitted == [StateChanged(Init, Text(ListingText))];
  }

  /** A detection with a new pair appends a freshly listed device and announces it. */
  lemma AddNewStep(devs: seq<Device>, dets: seq<Detected>, d: Device, first: seq<Event>, rest: Phase)
    requires |dets| > 0 && Find(devs, dets[0].bus, dets[0].port).None?
    requires d == BeginListing(NewDevice(dets[0].name, dets[0].bus, dets[0].port)).dev
    requires first == Announce(d)
    requires AddPhaseSpec(devs + [d], dets[1..], rest)
    ensures AddPhaseSpec(devs, dets, Phase(rest.devices, first + rest.events))
  {
    var all := rest.devices;
    assert Pair(d) !in Pairs(devs);
    AddNewPrefix(devs, d, all);
    AddNewPairs(devs, dets, d, all);
    NewDevicesStep(devs, d, dets, all);
    AddNewEvents(devs, d, first, all, rest.events);
    AddNewUnique(devs, d, all);
  }

  /** The new device's pair differs from those appended after it, so the appended pairs stay distinct. */
  lemma AddNewUnique(devs: seq<Device>, d: Device, all: seq<Device>)
    requires |all| >= |devs| + 1 && all[|devs|] == d
    requires forall k :: |devs| + 1 <= k < |all| ==> Pair(all[k]) !in Pairs(devs + [d])
    requires UniquePairs(all[|devs| + 1..])
    ensures UniquePairs(all[|devs|..])
  {
    var news, later := all[|devs|..], all[|devs| + 1..];
    PairsAppend(devs, d);
    forall i, j | 0 <= i < j < |news| ensures Pair(news[i]) != Pair(news[j]) {
      assert news[j] == all[|devs| + j];
      if i > 0 {
        assert news[i] == later[i - 1] && news[j] == later[j - 1];
      }
    }
  }

  /** The registry after the step starts with the old devices, then the new one. */
  lemma AddNewPrefix(devs: seq<Device>, d: Device, all: seq<Device>)
    requires |all| >= |devs| + 1 && all[..|devs| + 1] == devs + [d]
    ensures all[..|devs|] == devs && all[|devs|] == d
  {
    assert all[..|devs|] == all[..|devs| + 1][..|devs|];
    assert all[|devs|] == all[..|devs| + 1][|devs|];
  }

  /** The pairs and their uniqueness across the step. */
  lemma AddNewPairs(devs: seq<Device>, dets: seq<Detected>, d: Device, all: seq<Device>)
    requires |dets| > 0 && Pair(d) == (dets[0].bus, dets[0].port) && Pair(d) !in Pairs(devs)
    requires Pairs(all) == Pairs(devs + [d]) + DetectedPairs(dets[1..])
    requires UniquePairs(devs + [d]) ==> UniquePairs(all)
    ensures Pairs(all) == Pairs(devs) + DetectedPairs(dets)
    ensures UniquePairs(devs) ==> UniquePairs(all)
  {
    DetectedPairsCons(dets);
    PairsAppend(devs, d);
  }

  /** The announcements across the step: the new device's first, then the rest's. */
  lemma AddNewEvents(devs: seq<Device>, d: Device, first: seq<Event>, all: seq<Device>, later: seq<Event>)
    requires |all| >= |devs| + 1 && all[|devs|] == d
    requires first == Announce(d)
    requires later == AnnounceAll(all[|devs| + 1..])
    ensures first + later == AnnounceAll(all[|devs|..])
  {
    var tail := all[|devs|..];
    assert tail[0] == d && tail[1..] == all[|devs| + 1..];
  }

  lemma DetectedPairsCons(dets: seq<Detected>)
    requires |dets| > 0
    ensures DetectedPairs(dets) == {(dets[0].bus, dets[0].port)} + DetectedPairs(dets[1..])
  {
    assert forall y :: y in dets <==> y == dets[0] || y in dets[1..] by {
      assert dets == [dets[0]] + dets[1..];
    }
  }

  /** Skipping a detection keeps the new devices new with respect to the whole output. */
  lemma NewDevicesWider(devs: seq<Device>, all: seq<Device>, dets: seq<Detected>)
    requires |dets| > 0 && NewDevicesFrom(devs, all, dets[1..])
    ensures NewDevicesFrom(devs, all, dets)
  {
    forall y | y in dets[1..] ensures y in dets { }
  }

  /** A device appended for the first detection, followed by the tail's new devices. */
  lemma NewDevicesStep(devs: seq<Device>, d: Device, dets: seq<Detected>, all: seq<Device>)
    requires |dets| > 0
    requires d == BeginListing(NewDevice(dets[0].name, dets[0].bus, dets[0].port)).dev
    requires Pair(d) !in Pairs(devs)
    requires |all| > |devs| && all[..|devs| + 1] == devs + [d]
    requires NewDevicesFrom(devs + [d], all, dets[1..])
    ensures NewDevicesFrom(devs, all, dets)
  {
    PairsAppend(devs, d);
    assert all[|devs|] == (devs + [d])[|devs|] == d;
    assert dets[0] == Detected(d.name, d.bus, d.port);
    NewDevicesWider(devs + [d], all, dets);
  }

  /**
   `n` consecutive (about-to-be-removed, removed) pairs and nothing else; the
   count each removal reports goes down by one and ends at `final`.
   */
  predicate RemovalPairs(events: seq<Event>, n: nat, final: nat)
    decreases n
  {
    if n == 0 then |events| == 0
    else
      && |events| >= 2
      && events[0].DeviceAboutToBeRemoved?
      && events[1] == DeviceRemoved(final + n - 1)
      && RemovalPairs(events[2..], n - 1, final)
  }

  /** The devices whose pair is in `connected`, in registry order. */
  function Keep(devs: seq<Device>, connected: set<(nat, nat)>): (r: seq<Device>)
    ensures |r| <= |devs|
    decreases |devs|
  {
    if |devs| == 0 then []
    else
      var n := |devs| - 1;
      var kept := Keep(devs[..n], connected);
      if Pair(devs[n]) in connected then kept + [devs[n]] else kept
  }

  /** Exactly the connected devices are kept. */
  lemma {:induction false} KeepMembers(devs: seq<Device>, connected: set<(nat, nat)>)
    ensures forall d :: d in Keep(devs, connected) <==> d in devs && Pair(d) in connected
    decreases |devs|
  {
    if |devs| > 0 {
      var n := |devs| - 1;
      KeepMembers(devs[..n], connected);
      assert forall e :: e in devs <==> e in devs[..n] || e == devs[n] by {
        assert devs == devs[..n] + [devs[n]];
      }
    }
  }

  /** The kept pairs are the tracked pairs that are connected. */
  lemma KeepPairs(devs: seq<Device>, connected: set<(nat, nat)>)
    ensures Pairs(Keep(devs, connected)) == Pairs(devs) * connected
  {
    var r := Keep(devs, connected);
    KeepMembers(devs, connected);
    forall p | p in Pairs(devs) * connected ensures p in Pairs(r) {
      var d :| d in devs && Pair(d) == p;
      assert d in r;
    }
  }

  /** Keeping a subsequence keeps pairs unique. */
  lemma {:induction false} KeepUnique(devs: seq<Device>, connected: set<(nat, nat)>)
    requires UniquePairs(devs)
    ensures UniquePairs(Keep(devs, connected))
    decreases |devs|
  {
    if |devs| > 0 {
      var n := |devs| - 1;
      var init, last := devs[..n], devs[n];
      UniqueInit(devs);
      KeepUnique(init, connected);
      var kept := Keep(init, connected);
      if Pair(last) in connected {
        KeepPairs(init, connected);
        PairsAppend(kept, last);
        assert Keep(devs, connected) == kept + [last];
      } else {
        assert Keep(devs, connected) == kept;
      }
    }
  }

  /**
   The removal sweep from the back: `devs` is the part still to scan, `kept`
   what survived of the part after it. A device whose pair is not connected
   is announced, erased, and followed by the count of devices left.
   */
  function SweepFrom(devs: seq<Device>, connected: set<(nat, nat)>, kept: seq<Device>): (r: Phase)
    ensures r.devices == Keep(devs, connected) + kept
    decreases |devs|
  {
    if |devs| == 0 then Phase(kept, [])
    else
      var i := |devs| - 1;
      var d := devs[i];
      if Pair(d) in connected then
        var r := SweepFrom(devs[..i], connected, [d] + kept);
        assert Keep(devs, connected) == Keep(devs[..i], connected) + [d];
        Phase(r.devices, r.events)
      else
        var r := SweepFrom(devs[..i], connected, kept);
        assert Keep(devs, connected) == Keep(devs[..i], connected);
        Phase(r.devices, [DeviceAboutToBeRemoved(d), DeviceRemoved(i + |kept|)] + r.events)
  }

  /**
   The sweep signals one (about-to-be-removed, removed) pair per dropped
   device, each removal reporting the number of devices then left.
   */
  lemma {:induction false} SweepSignals(devs: seq<Device>, connected: set<(nat, nat)>, kept: seq<Device>, r: Phase)
    requires r == SweepFrom(devs, connected, kept)
    ensures |r.devices| == |Keep(devs, connected)| + |kept|
    ensures RemovalPairs(r.events, |devs| - |Keep(devs, connected)|, |r.devices|)
    decreases |devs|
  {
    if |devs| > 0 {
      var i := |devs| - 1;
      var d, init := devs[i], devs[..i];
      if Pair(d) in connected {
        SweepStepKept(devs, connected, kept);
        SweepSignals(init, connected, [d] + kept, r);
        SignalsKept(devs, connected, kept, r);
      } else {
        var inner := SweepFrom(init, connected, kept);
        SweepSignals(init, connected, kept, inner);
        SweepStepDropped(devs, connected, kept);
        SignalsDropped(devs, connected, kept, r, inner);
      }
    }
  }

  /** The step of SweepSignals for a kept last device: the same pairs, one device more kept. */
  lemma SignalsKept(devs: seq<Device>, connected: set<(nat, nat)>, kept: seq<Device>, r: Phase)
    requires |devs| > 0 && Pair(devs[|devs| - 1]) in connected
    requires var init := devs[..|devs| - 1];
             && |r.devices| == |Keep(init, connected)| + |[devs[|devs| - 1]] + kept|
             && RemovalPairs(r.events, |init| - |Keep(init, connected)|, |r.devices|)
    ensures |r.devices| == |Keep(devs, connected)| + |kept|
    ensures RemovalPairs(r.events, |devs| - |Keep(devs, connected)|, |r.devices|)
  {
    var init := devs[..|devs| - 1];
    assert Keep(devs, connected) == Keep(init, connected) + [devs[|devs| - 1]];
    assert |devs| - |Keep(devs, connected)| == |init| - |Keep(init, connected)|;
  }

  /** The step of SweepSignals for a dropped last device: one more pair in front. */
  lemma SignalsDropped(devs: seq<Device>, connected: set<(nat, nat)>, kept: seq<Device>, r: Phase, inner: Phase)
    requires |devs| > 0 && Pair(devs[|devs| - 1]) !in connected
    requires r == Phase(inner.devices, [DeviceAboutToBeRemoved(devs[|devs| - 1]), DeviceRemoved(|devs| - 1 + |kept|)]
                                       + inner.events)
    requires var init := devs[..|devs| - 1];
             && |inner.devices| == |Keep(init, connected)| + |kept|
             && RemovalPairs(inner.events, |init| - |Keep(init, connected)|, |inner.devices|)
    ensures |r.devices| == |Keep(devs, connected)| + |kept|
    ensures RemovalPairs(r.events, |devs| - |Keep(devs, connected)|, |r.devices|)
  {
    var i := |devs| - 1;
    var d, init := devs[i], devs[..i];
    var m := |Keep(init, connected)|;
    assert Keep(devs, connected) == Keep(init, connected);
    RemovalPairsCons(inner.events, i - m, |inner.devices|, d, i + |kept|);
    assert |devs| - |Keep(devs, connected)| == i - m + 1;
  }

  /** One more removal pair in front, reporting one device more than the pairs after it leave. */
  lemma RemovalPairsCons(events: seq<Event>, n: nat, final: nat, d: Device, count: nat)
    requires RemovalPairs(events, n, final) && count == final + n
    ensures RemovalPairs([DeviceAboutToBeRemoved(d), DeviceRemoved(count)] + events, n + 1, final)
  {
    var all := [DeviceAboutToBeRemoved(d), DeviceRemoved(count)] + events;
    assert all[2..] == events;
  }

  /** A connected last device is kept, silently. */
  lemma SweepStepKept(devs: seq<Device>, connected: set<(nat, nat)>, kept: seq<Device>)
    requires |devs| > 0 && Pair(devs[|devs| - 1]) in connected
    ensures var i := |devs| - 1;
            SweepFrom(devs, connected, kept) == SweepFrom(devs[..i], connected, [devs[i]] + kept)
  {
  }

  /** A disconnected last device is dropped and its removal signalled before the earlier devices'. */
  lemma SweepStepDropped(devs: seq<Device>, connected: set<(nat, nat)>, kept: seq<Device>)
    requires |devs| > 0 && Pair(devs[|devs| - 1]) !in connected
    ensures var i := |devs| - 1;
            var inner := SweepFrom(devs[..i], connected, kept);
            SweepFrom(devs, connected, kept)
            == Phase(inner.devices, [DeviceAboutToBeRemoved(devs[i]), DeviceRemoved(i + |kept|)] + inner.events)
  {
  }

  /** A removal announced by the sweep is of a scanned device whose pair is not connected. */
  lemma {:induction false} SweepAnnouncesOnly(devs: seq<Device>, connected: set<(nat, nat)>, kept: seq<Device>)
    ensures forall e :: (e in SweepFrom(devs, connected, kept).events && e.DeviceAboutToBeRemoved?)
                          ==> e.dev in devs && Pair(e.dev) !in connected
    decreases |devs|
  {
    if |devs| > 0 {
      var i := |devs| - 1;
      var d, init := devs[i], devs[..i];
      var events := SweepFrom(devs, connected, kept).events;
      if Pair(d) in connected {
        SweepStepKept(devs, connected, kept);
        SweepAnnouncesOnly(init, connected, [d] + kept);
        forall e | e in events && e.DeviceAboutToBeRemoved? ensures e.dev in devs && Pair(e.dev) !in connected {
          assert e.dev in init;
        }
      } else {
        SweepStepDropped(devs, connected, kept);
        SweepAnnouncesOnly(init, connected, kept);
        var inner := SweepFrom(init, connected, kept).events;
        forall e | e in events && e.DeviceAboutToBeRemoved? ensures e.dev in devs && Pair(e.dev) !in connected {
          if e in inner {
            assert e.dev in init;
          } else {
            assert e == DeviceAboutToBeRemoved(d);
          }
        }
      }
    }
  }

  /** The sweep announces every scanned device whose pair is not connected. */
  lemma {:induction false} SweepAnnouncesAll(devs: seq<Device>, connected: set<(nat, nat)>, kept: seq<Device>)
    ensures forall d :: (d in devs && Pair(d) !in connected)
                        ==> DeviceAboutToBeRemoved(d) in SweepFrom(devs, connected, kept).events
    decreases |devs|
  {
    if |devs| > 0 {
      var i := |devs| - 1;
      var d, init := devs[i], devs[..i];
      var events := SweepFrom(devs, connected, kept).events;
      assert forall x :: x in devs && x != d ==> x in init by {
        assert devs == init + [d];
      }
      if Pair(d) in connected {
        SweepStepKept(devs, connected, kept);
        SweepAnnouncesAll(init, connected, [d] + kept);
      } else {
        SweepStepDropped(devs, connected, kept);
        SweepAnnouncesAll(init, connected, kept);
        assert events[0] == DeviceAboutToBeRemoved(d);
      }
    }
  }

  function Sweep(devs: seq<Device>, connected: set<(nat, nat)>): (r: Phase)
    ensures r.devices == Keep(devs, connected)
  {
    SweepFrom(devs, connected, [])
  }

  /** With every tracked pair connected, the sweep keeps everything and signals nothing. */
  lemma SweepSilent(devs: seq<Device>, connected: set<(nat, nat)>)
    requires Pairs(devs) <= connected
    ensures Sweep(devs, connected) == Phase(devs, [])
  {
    var r := Sweep(devs, connected);
    KeepAll(devs, connected);
    SweepSignals(devs, connected, [], r);
  }

  /** The sweep signals one removal pair per device it drops. */
  lemma SweepRemovals(devs: seq<Device>, connected: set<(nat, nat)>, r: Phase)
    requires r == Sweep(devs, connected)
    ensures RemovalPairs(r.events, |devs| - |Keep(devs, connected)|, |r.devices|)
  {
    SweepSignals(devs, connected, [], r);
  }

  /** The sweep signals removals only. */
  lemma SweepOnlyRemoves(devs: seq<Device>, connected: set<(nat, nat)>, r: Phase)
    requires r == Sweep(devs, connected)
    ensures forall e :: e in r.events ==> IsRemoval(e)
  {
    SweepSignals(devs, connected, [], r);
    RemovalPairsAreRemovals(r.events, |devs| - |Keep(devs, connected)|, |r.devices|);
  }

  /** Every event of a removal sequence is a removal. */
  lemma {:induction false} RemovalPairsAreRemovals(events: seq<Event>, n: nat, final: nat)
    requires RemovalPairs(events, n, final)
    ensures forall e :: e in events ==> IsRemoval(e)
    decreases n
  {
    if n > 0 {
      RemovalPairsAreRemovals(events[2..], n - 1, final);
      assert forall e :: e in events ==> e == events[0] || e == events[1] || e in events[2..] by {
        assert events == [events[0], events[1]] + events[2..];
      }
    }
  }

  /** Announcements hold no removal, and they announce exactly the pairs of the announced devices. */
  lemma {:induction false} AnnounceAllEvents(ds: seq<Device>)
    ensures forall e :: e in AnnounceAll(ds) ==> !IsRemoval(e)
    ensures forall e :: e in AnnounceAll(ds) && e.DeviceAdded? ==> Pair(e.dev) in Pairs(ds)
    ensures forall d :: d in ds ==> DeviceAdded(NewDevice(d.name, d.bus, d.port)) in AnnounceAll(ds)
    decreases |ds|
  {
    if |ds| > 0 {
      AnnounceAllEvents(ds[1..]);
      assert forall d :: d in ds <==> d == ds[0] || d in ds[1..] by {
        assert ds == [ds[0]] + ds[1..];
      }
      forall e | e in AnnounceAll(ds[1..]) && e.DeviceAdded? ensures Pair(e.dev) in Pairs(ds) {
        var d :| d in ds[1..] && Pair(d) == Pair(e.dev);
        assert d in ds;
      }
    }
  }

  /**
   What one reconciliation promises, for the tracked devices `devs` and the
   connected pairs: the registry tracks exactly the connected pairs, keeps
   them unique, keeps every still-connected device as it was and adds only
   freshly listed ones; additions are signalled before any removal; a
   device-added signal goes out exactly for the pairs that were not tracked,
   once per pair, and an about-to-be-removed signal exactly for the devices no
   longer connected. The signals end with one (about-to-be-removed, removed)
   pair per dropped device, each removal reporting the count then left, and
   nothing before them is a removal; the devices kept plus those signalled
   as removed are the devices tracked plus those signalled as added.
   */
  ghost predicate ReconcileSpec(devs: seq<Device>, connected: set<(nat, nat)>, after: seq<Device>, events: seq<Event>) {
    ReconcileSets(devs, connected, after, events) && ReconcileCounts(devs, connected, after, events)
  }

  /** The part of ReconcileSpec about which devices and pairs are kept, added and signalled. */
  ghost predicate ReconcileSets(devs: seq<Device>, connected: set<(nat, nat)>, after: seq<Device>, events: seq<Event>) {
    && Pairs(after) == connected
    && (UniquePairs(devs) ==> UniquePairs(after))
    && (forall d :: d in devs && Pair(d) in connected ==> d in after)
    && (forall d :: d in after ==> d in devs || FreshlyListed(d))
    && (forall i, j :: 0 <= i < j < |events| && IsRemoval(events[i]) ==> IsRemoval(events[j]))
    && AddedPairs(events) == connected - Pairs(devs)
    && RemovedDevices(events) == (set d | d in devs && Pair(d) !in connected)
  }

  /** The part of ReconcileSpec about how many signals go out, and where the removals sit. */
  predicate ReconcileCounts(devs: seq<Device>, connected: set<(nat, nat)>, after: seq<Device>, events: seq<Event>) {
    && AddedOnce(events, connected - Pairs(devs))
    && |after| + WarnedCount(events) == |devs| + AddedTotal(events)
    && RemovalTail(events, WarnedCount(events), |after|)
  }

  /** Each pair of `untracked` is announced as added exactly once. */
  predicate AddedOnce(events: seq<Event>, untracked: set<(nat, nat)>) {
    forall p :: p in untracked ==> AddedCount(events, p) == 1
  }

  /**
   The signals end with `n` removal pairs, the last reporting `final`
   devices left, and nothing before those pairs is a removal.
   */
  predicate RemovalTail(events: seq<Event>, n: nat, final: nat) {
    && 2 * n <= |events|
    && (forall i :: 0 <= i < |events| - 2 * n ==> !IsRemoval(events[i]))
    && RemovalPairs(events[|events| - 2 * n..], n, final)
  }

  /** The pairs of the devices announced as added. */
  function AddedPairs(events: seq<Event>): set<(nat, nat)> {
    set e | e in events && e.DeviceAdded? :: Pair(e.dev)
  }

  /** The devices announced as about to be removed. */
  function RemovedDevices(events: seq<Event>): set<Device> {
    set e | e in events && e.DeviceAboutToBeRemoved? :: e.dev
  }

  /** How many device-added signals name the pair `p`. */
  function AddedCount(events: seq<Event>, p: (nat, nat)): nat
    decreases |events|
  {
    if |events| == 0 then 0
    else (if events[0].DeviceAdded? && Pair(events[0].dev) == p then 1 else 0) + AddedCount(events[1..], p)
  }

  /** How many device-added signals there are. */
  function AddedTotal(events: seq<Event>): nat
    decreases |events|
  {
    if |events| == 0 then 0
    else (if events[0].DeviceAdded? then 1 else 0) + AddedTotal(events[1..])
  }

  /** How many about-to-be-removed signals there are. */
  function WarnedCount(events: seq<Event>): nat
    decreases |events|
  {
    if |events| == 0 then 0
    else (if events[0].DeviceAboutToBeRemoved? then 1 else 0) + WarnedCount(events[1..])
  }

  /** The counts add up over a concatenation. */
  lemma {:induction false} CountsAppend(a: seq<Event>, b: seq<Event>, p: (nat, nat))
    ensures AddedCount(a + b, p) == AddedCount(a, p) + AddedCount(b, p)
    ensures AddedTotal(a + b) == AddedTotal(a) + AddedTotal(b)
    ensures WarnedCount(a + b) == WarnedCount(a) + WarnedCount(b)
    decreases |a|
  {
    if |a| == 0 {
      assert a + b == b;
    } else {
      assert (a + b)[1..] == a[1..] + b;
      CountsAppend(a[1..], b, p);
    }
  }

  /** Announcing devices of distinct pairs signals each of their pairs as added once, and no removal. */
  lemma {:induction false} AnnounceAllCounts(ds: seq<Device>, p: (nat, nat))
    requires UniquePairs(ds)
    ensures AddedCount(AnnounceAll(ds), p) == if p in Pairs(ds) then 1 else 0
    ensures AddedTotal(AnnounceAll(ds)) == |ds| && WarnedCount(AnnounceAll(ds)) == 0
    decreases |ds|
  {
    if |ds| > 0 {
      var d, rest := ds[0], ds[1..];
      assert UniquePairs(rest) by {
        forall i, j | 0 <= i < j < |rest| ensures Pair(rest[i]) != Pair(rest[j]) {
          assert rest[i] == ds[i + 1] && rest[j] == ds[j + 1];
        }
      }
      assert Pair(d) !in Pairs(rest) by {
        forall k | 0 <= k < |rest| ensures Pair(rest[k]) != Pair(d) {
          assert rest[k] == ds[k + 1];
        }
      }
      assert Pairs(ds) == {Pair(d)} + Pairs(rest) by {
        assert forall x :: x in ds <==> x == d || x in rest by {
          assert ds == [d] + rest;
        }
      }
      AnnounceAllCounts(rest, p);
      AnnounceCounts(d, p);
      CountsAppend(Announce(d), AnnounceAll(rest), p);
    }
  }

  /** One announcement adds the device's pair once and removes nothing. */
  lemma AnnounceCounts(d: Device, p: (nat, nat))
    ensures AddedCount(Announce(d), p) == if Pair(d) == p then 1 else 0
    ensures AddedTotal(Announce(d)) == 1 && WarnedCount(Announce(d)) == 0
  {
    var a := Announce(d);
    var t := a[1..];
    assert t[1..][1..] == [];
    assert AddedCount(t[1..], p) == 0 && AddedTotal(t[1..]) == 0 && WarnedCount(t[1..]) == 0;
    assert AddedCount(t, p) == 0 && AddedTotal(t) == 0 && WarnedCount(t) == 0;
  }

  /** `n` removal pairs are 2n signals, n of them about-to-be-removed, none an addition. */
  lemma {:induction false} RemovalPairsCounts(events: seq<Event>, n: nat, final: nat, p: (nat, nat))
    requires RemovalPairs(events, n, final)
    ensures |events| == 2 * n && WarnedCount(events) == n
    ensures AddedCount(events, p) == 0 && AddedTotal(events) == 0
    decreases n
  {
    if n > 0 {
      RemovalPairsCounts(events[2..], n - 1, final, p);
      assert events[1..][1..] == events[2..];
    }
  }

  /**
   One `refreshDevices` pass over the detection tool's output: additions in
   output order first, then the removal sweep.
   */
  function RefreshDevices(devs: seq<Device>, out: ProcOutput): (r: Outcome)
    ensures r.Aborted? <==> HasError(out)
    ensures r.Refreshed? ==> ReconcileSpec(devs, SnapshotPairs(out.lines), r.devices, r.events)
  {
    if HasError(out) then Aborted
    else
      var dets := Snapshot(out.lines);
      var added := AddPhase(devs, dets);
      var swept := Sweep(added.devices, DetectedPairs(dets));
      Reconciled(devs, dets, added, swept);
      var news := added.devices[|devs|..];
      AddedNews(devs, dets, added);
      ReconciledTail(devs, news, DetectedPairs(dets), added.events, swept);
      Refreshed(swept.devices, added.events + swept.events)
  }

  /** The add phase followed by the sweep over the detected pairs keeps, adds and signals the right devices. */
  lemma Reconciled(devs: seq<Device>, dets: seq<Detected>, added: Phase, swept: Phase)
    requires AddPhaseSpec(devs, dets, added)
    requires swept == Sweep(added.devices, DetectedPairs(dets))
    ensures ReconcileSets(devs, DetectedPairs(dets), swept.devices, added.events + swept.events)
  {
    var connected := DetectedPairs(dets);
    var news := added.devices[|devs|..];
    var after, events := swept.devices, added.events + swept.events;
    assert added.devices == devs + news;
    NewsAreFresh(devs, dets, added);
    assert && Pairs(after) == connected
           && (UniquePairs(devs) ==> UniquePairs(after))
           && (forall d :: d in devs && Pair(d) in connected ==> d in after)
           && (forall d :: d in after ==> d in devs || FreshlyListed(d)) by {
      ReconciledDevices(devs, news, connected, added.devices, after);
    }
    SweepOnlyRemoves(added.devices, connected, swept);
    assert forall i, j :: 0 <= i < j < |events| && IsRemoval(events[i]) ==> IsRemoval(events[j]) by {
      ReconciledOrder(added.events, swept.events, news);
    }
    assert AddedPairs(events) == connected - Pairs(devs) by {
      ReconciledAdded(devs, news, connected, added, swept.events);
    }
    assert RemovedDevices(events) == (set d | d in devs && Pair(d) !in connected) by {
      ReconciledRemoved(devs, news, connected, swept.events, added.events);
    }
  }

  /** Announcing the appended devices and then sweeping signals each new pair once and ends with the removals. */
  lemma ReconciledTail(devs: seq<Device>, news: seq<Device>, connected: set<(nat, nat)>,
                       adds: seq<Event>, swept: Phase)
    requires AppendedNews(devs, news, connected) && adds == AnnounceAll(news)
    requires swept == Sweep(devs + news, connected)
    ensures ReconcileCounts(devs, connected, swept.devices, adds + swept.events)
  {
    var all := devs + news;
    SweepRemovals(all, connected, swept);
    ReconciledCounts(devs, news, connected, adds, swept.events, |all| - |Keep(all, connected)|, swept.devices);
  }

  /**
   The devices appended after `devs` hold distinct pairs, none tracked
   before and all connected, and with `devs` they track `devs`'s pairs and
   the connected ones.
   */
  predicate AppendedNews(devs: seq<Device>, news: seq<Device>, connected: set<(nat, nat)>) {
    && Pairs(devs + news) == Pairs(devs) + connected
    && UniquePairs(news)
    && forall d :: d in news ==> Pair(d) !in Pairs(devs) && Pair(d) in connected
  }

  /** What the add phase leaves behind its old devices, and what it signals about them. */
  lemma AddedNews(devs: seq<Device>, dets: seq<Detected>, added: Phase)
    requires AddPhaseSpec(devs, dets, added)
    ensures var news := added.devices[|devs|..];
            && added.devices == devs + news
            && AppendedNews(devs, news, DetectedPairs(dets))
            && added.events == AnnounceAll(news)
  {
    assert added.devices == devs + added.devices[|devs|..];
    NewsAreFresh(devs, dets, added);
  }

  /** The counting half of Reconciled: each new pair added once, the removal pairs at the end. */
  lemma ReconciledCounts(devs: seq<Device>, news: seq<Device>, connected: set<(nat, nat)>,
                         adds: seq<Event>, removals: seq<Event>, n: nat, after: seq<Device>)
    requires AppendedNews(devs, news, connected) && adds == AnnounceAll(news)
    requires RemovalPairs(removals, n, |after|) && |after| + n == |devs| + |news|
    ensures ReconcileCounts(devs, connected, after, adds + removals)
  {
    NewsPairs(devs, news, connected);
    ReconciledSignals(news, connected - Pairs(devs), adds, removals, n, |after|);
  }

  /** The appended devices hold exactly the connected pairs that were not tracked, one device each. */
  lemma NewsPairs(devs: seq<Device>, news: seq<Device>, connected: set<(nat, nat)>)
    requires AppendedNews(devs, news, connected)
    ensures Pairs(news) == connected - Pairs(devs)
  {
    assert forall d :: d in devs + news <==> d in devs || d in news;
    forall p | p in connected - Pairs(devs) ensures p in Pairs(news) {
      var d :| d in devs + news && Pair(d) == p;
    }
  }

  /**
   The signals of a pass, announcements then `n` removal pairs: each new
   pair is added once, and the removals form the tail.
   */
  lemma ReconciledSignals(news: seq<Device>, untracked: set<(nat, nat)>,
                          adds: seq<Event>, removals: seq<Event>, n: nat, final: nat)
    requires adds == AnnounceAll(news) && UniquePairs(news) && Pairs(news) == untracked
    requires RemovalPairs(removals, n, final)
    ensures AddedOnce(adds + removals, untracked)
    ensures WarnedCount(adds + removals) == n && AddedTotal(adds + removals) == |news|
    ensures RemovalTail(adds + removals, n, final)
  {
    AddedOncePerPair(news, untracked, adds, removals, n, final);
    AnnounceAllCounts(news, (0, 0));
    RemovalPairsCounts(removals, n, final, (0, 0));
    CountsAppend(adds, removals, (0, 0));
    RemovalsLast(news, adds, removals, n, final);
  }

  /** Announcements followed by removal pairs end with exactly those pairs. */
  lemma RemovalsLast(news: seq<Device>, adds: seq<Event>, removals: seq<Event>, n: nat, final: nat)
    requires adds == AnnounceAll(news)
    requires RemovalPairs(removals, n, final) && |removals| == 2 * n
    ensures RemovalTail(adds + removals, n, final)
  {
    var events := adds + removals;
    AnnounceAllEvents(news);
    assert |events| - 2 * n == |adds|;
    assert events[|adds|..] == removals;
    forall i | 0 <= i < |adds| ensures !IsRemoval(events[i]) {
      assert events[i] == adds[i];
    }
  }

  /** Announcing devices of distinct pairs, then removals, adds each of their pairs once. */
  lemma AddedOncePerPair(news: seq<Device>, untracked: set<(nat, nat)>,
                         adds: seq<Event>, removals: seq<Event>, n: nat, final: nat)
    requires adds == AnnounceAll(news) && UniquePairs(news) && Pairs(news) == untracked
    requires RemovalPairs(removals, n, final)
    ensures AddedOnce(adds + removals, untracked)
  {
    forall p | p in untracked ensures AddedCount(adds + removals, p) == 1 {
      AnnounceAllCounts(news, p);
      RemovalPairsCounts(removals, n, final, p);
      CountsAppend(adds, removals, p);
    }
  }

  /** The appended devices are freshly listed and hold pairs that were not tracked but are connected. */
  lemma NewsAreFresh(devs: seq<Device>, dets: seq<Detected>, added: Phase)
    requires AddPhaseSpec(devs, dets, added)
    ensures forall d :: d in added.devices[|devs|..] ==>
              FreshlyListed(d) && Pair(d) !in Pairs(devs) && Pair(d) in DetectedPairs(dets)
  {
    var news := added.devices[|devs|..];
    forall d | d in news ensures FreshlyListed(d) && Pair(d) !in Pairs(devs) && Pair(d) in DetectedPairs(dets) {
      var k :| 0 <= k < |news| && news[k] == d;
      assert added.devices[|devs| + k] == d;
      assert Detected(d.name, d.bus, d.port) in dets;
    }
  }

  /** The registry after the sweep: the connected pairs, the persisting devices, the fresh ones. */
  lemma ReconciledDevices(devs: seq<Device>, news: seq<Device>, connected: set<(nat, nat)>,
                          all: seq<Device>, after: seq<Device>)
    requires all == devs + news && after == Keep(all, connected)
    requires Pairs(all) == Pairs(devs) + connected
    requires UniquePairs(devs) ==> UniquePairs(all)
    requires forall d :: d in news ==> FreshlyListed(d)
    ensures Pairs(after) == connected
    ensures UniquePairs(devs) ==> UniquePairs(after)
    ensures forall d :: d in devs && Pair(d) in connected ==> d in after
    ensures forall d :: d in after ==> d in devs || FreshlyListed(d)
  {
    assert forall d :: d in all <==> d in devs || d in news;
    KeepMembers(all, connected);
    KeepPairs(all, connected);
    if UniquePairs(devs) {
      KeepUnique(all, connected);
    }
  }

  /** Announcements come first and removals after. */
  lemma ReconciledOrder(adds: seq<Event>, removals: seq<Event>, news: seq<Device>)
    requires adds == AnnounceAll(news)
    requires forall e :: e in removals ==> IsRemoval(e)
    ensures var events := adds + removals;
            forall i, j :: 0 <= i < j < |events| && IsRemoval(events[i]) ==> IsRemoval(events[j])
  {
    AnnounceAllEvents(news);
    var events := adds + removals;
    forall k | 0 <= k < |events| ensures IsRemoval(events[k]) <==> k >= |adds| {
      if k < |adds| {
        assert events[k] == adds[k];
      } else {
        assert events[k] == removals[k - |adds|];
      }
    }
  }

  /** A device-added signal goes out exactly for the pairs that were not tracked. */
  lemma ReconciledAdded(devs: seq<Device>, news: seq<Device>, connected: set<(nat, nat)>, added: Phase,
                        removals: seq<Event>)
    requires added.devices == devs + news && added.events == AnnounceAll(news)
    requires Pairs(added.devices) == Pairs(devs) + connected
    requires forall d :: d in news ==> Pair(d) !in Pairs(devs)
    requires forall e :: e in removals ==> IsRemoval(e)
    ensures AddedPairs(added.events + removals) == connected - Pairs(devs)
  {
    AnnounceAllEvents(news);
    assert forall e :: e in added.events + removals <==> e in added.events || e in removals;
    forall p | p in connected && p !in Pairs(devs)
      ensures p in AddedPairs(added.events + removals)
    {
      var d :| d in added.devices && Pair(d) == p;
      assert d in news;
      var e := DeviceAdded(NewDevice(d.name, d.bus, d.port));
      assert e in added.events + removals && Pair(e.dev) == p;
    }
    forall e | e in added.events && e.DeviceAdded? ensures Pair(e.dev) in connected && Pair(e.dev) !in Pairs(devs) {
      var d :| d in news && Pair(d) == Pair(e.dev);
      assert d in added.devices;
      assert Pair(d) in Pairs(added.devices);
    }
  }

  /** An about-to-be-removed signal goes out exactly for the tracked devices no longer connected. */
  lemma ReconciledRemoved(devs: seq<Device>, news: seq<Device>, connected: set<(nat, nat)>,
                          removals: seq<Event>, adds: seq<Event>)
    requires removals == Sweep(devs + news, connected).events
    requires adds == AnnounceAll(news)
    requires forall d :: d in news ==> Pair(d) in connected
    ensures RemovedDevices(adds + removals) == (set d | d in devs && Pair(d) !in connected)
  {
    var all := devs + news;
    AnnounceAllEvents(news);
    SweepAnnouncesOnly(all, connected, []);
    SweepAnnouncesAll(all, connected, []);
    assert forall e :: e in adds + removals <==> e in adds || e in removals;
    forall d | d in devs && Pair(d) !in connected ensures d in RemovedDevices(adds + removals) {
      assert d in all;
      assert DeviceAboutToBeRemoved(d) in adds + removals;
    }
    forall d | d in RemovedDevices(adds + removals) ensures d in devs && Pair(d) !in connected {
      var e :| e in adds + removals && e.DeviceAboutToBeRemoved? && e.dev == d;
      assert e in removals;
      assert d in all;
    }
  }

  /** With unique pairs to begin with, the registry ends with one device per connected pair. */
  lemma RefreshCount(devs: seq<Device>, out: ProcOutput)
    requires UniquePairs(devs) && !HasError(out)
    ensures DeviceCount(RefreshDevices(devs, out).devices) == |SnapshotPairs(out.lines)|
  {
    UniqueCount(RefreshDevices(devs, out).devices);
  }

  /** Nothing to add when every detected pair is already tracked. */
  lemma {:induction false} AddPhaseNoop(devs: seq<Device>, dets: seq<Detected>)
    requires DetectedPairs(dets) <= Pairs(devs)
    ensures AddPhase(devs, dets) == Phase(devs, [])
    decreases |dets|
  {
    if |dets| > 0 {
      var x := dets[0];
      assert (x.bus, x.port) in DetectedPairs(dets);
      assert DetectedPairs(dets[1..]) <= DetectedPairs(dets) by {
        forall y | y in dets[1..] ensures y in dets { }
      }
      AddPhaseNoop(devs, dets[1..]);
    }
  }

  /** Nothing to remove when every tracked pair is connected. */
  lemma {:induction false} KeepAll(devs: seq<Device>, connected: set<(nat, nat)>)
    requires Pairs(devs) <= connected
    ensures Keep(devs, connected) == devs
    decreases |devs|
  {
    if |devs| > 0 {
      var n := |devs| - 1;
      assert devs == devs[..n] + [devs[n]];
      assert Pairs(devs[..n]) <= Pairs(devs) by {
        forall d | d in devs[..n] ensures d in devs { }
      }
      KeepAll(devs[..n], connected);
    }
  }

  /** A registry that already tracks exactly the detected pairs is left alone, silently. */
  lemma RefreshInSync(devs: seq<Device>, out: ProcOutput)
    requires !HasError(out) && Pairs(devs) == SnapshotPairs(out.lines)
    ensures RefreshDevices(devs, out) == Refreshed(devs, [])
  {
    var dets := Snapshot(out.lines);
    var connected := DetectedPairs(dets);
    AddPhaseNoop(devs, dets);
    SweepSilent(devs, connected);
  }

  /** A second pass over the same output changes nothing and signals nothing. */
  lemma RefreshIdempotent(devs: seq<Device>, out: ProcOutput)
    requires !HasError(out)
    ensures var first := RefreshDevices(devs, out);
            RefreshDevices(first.devices, out) == Refreshed(first.devices, [])
  {
    RefreshInSync(RefreshDevices(devs, out).devices, out);
  }
}
