/**
 The collection of tracked devices owned by the manager (src/usbmanager.cpp),
 keyed by (bus, port), and the lookups on it.
 */
module Registry {
  import opened Wrappers
  import opened UsbDevice

  /** The key a device is tracked under. */
  function Pair(d: Device): (nat, nat) {
    (d.bus, d.port)
  }

  function Pairs(devs: seq<Device>): set<(nat, nat)> {
    set d | d in devs :: Pair(d)
  }

  /** No two tracked devices share a (bus, port) pair. */
  predicate UniquePairs(devs: seq<Device>) {
    forall i, j :: 0 <= i < j < |devs| ==> Pair(devs[i]) != Pair(devs[j])
  }

  /** The position of the first device at or after `from` with the given pair. */
  function FindFrom(devs: seq<Device>, bus: nat, port: nat, from: nat): (r: Option<nat>)
    requires from <= |devs|
    ensures r.Some? ==> from <= r.value < |devs| && Pair(devs[r.value]) == (bus, port)
                        && forall j :: from <= j < r.value ==> Pair(devs[j]) != (bus, port)
    ensures r.None? ==> forall j :: from <= j < |devs| ==> Pair(devs[j]) != (bus, port)
    decreases |devs| - from
  {
    if from == |devs| then None
    else if Pair(devs[from]) == (bus, port) then Some(from)
    else FindFrom(devs, bus, port, from + 1)
  }

  /**
   `device(bus, port)`: the position of the first tracked device with that
   pair, or an explicit absence when no device has it.
   */
  function Find(devs: seq<Device>, bus: nat, port: nat): (r: Option<nat>)
    ensures r.Some? ==> r.value < |devs| && Pair(devs[r.value]) == (bus, port)
                        && forall j :: 0 <= j < r.value ==> Pair(devs[j]) != (bus, port)
    ensures r.None? <==> (bus, port) !in Pairs(devs)
  {
    var r := FindFrom(devs, bus, port, 0);
    if r.Some? then
      assert Pair(devs[r.value]) in Pairs(devs);
      r
    else r
  }

  /** The tracked device with that pair, if any. */
  function Lookup(devs: seq<Device>, bus: nat, port: nat): (r: Option<Device>)
    ensures r.Some? <==> (bus, port) in Pairs(devs)
    ensures r.Some? ==> r.value in devs && r.value.bus == bus && r.value.port == port
    ensures r.Some? && UniquePairs(devs) ==> forall d :: d in devs && Pair(d) == (bus, port) ==> d == r.value
  {
    match Find(devs, bus, port)
    case None => None
    case Some(i) => Some(devs[i])
  }

  /** `deviceCount`: with unique pairs, the number of distinct pairs tracked. */
  function DeviceCount(devs: seq<Device>): (n: nat)
    ensures UniquePairs(devs) ==> n == |Pairs(devs)|
  {
    UniqueCountIf(devs);
    |devs|
  }

  lemma UniqueCountIf(devs: seq<Device>)
    ensures UniquePairs(devs) ==> |Pairs(devs)| == |devs|
  {
    if UniquePairs(devs) {
      UniqueCount(devs);
    }
  }

  /** Overwriting one device keeps every pair when the identity is kept. */
  lemma ReplaceKeepsPairs(devs: seq<Device>, i: nat, d: Device)
    requires i < |devs| && Pair(d) == Pair(devs[i])
    ensures Pairs(devs[i := d]) == Pairs(devs)
    ensures UniquePairs(devs) ==> UniquePairs(devs[i := d])
  {
    var r := devs[i := d];
    forall p | p in Pairs(devs) ensures p in Pairs(r) {
      var e :| e in devs && Pair(e) == p;
      var j :| 0 <= j < |devs| && devs[j] == e;
      assert Pair(r[j]) == p;
    }
    forall p | p in Pairs(r) ensures p in Pairs(devs) {
      var e :| e in r && Pair(e) == p;
      var j :| 0 <= j < |r| && r[j] == e;
      assert Pair(devs[j]) == p;
    }
  }

  /** Appending a device adds exactly its pair; it keeps pairs unique when the pair is new. */
  lemma PairsAppend(devs: seq<Device>, d: Device)
    ensures Pairs(devs + [d]) == Pairs(devs) + {Pair(d)}
    ensures UniquePairs(devs) && Pair(d) !in Pairs(devs) ==> UniquePairs(devs + [d])
  {
    var r := devs + [d];
    assert r[|devs|] == d;
    forall p | p in Pairs(devs) ensures p in Pairs(r) {
      var e :| e in devs && Pair(e) == p;
      assert e in r;
    }
    if UniquePairs(devs) && Pair(d) !in Pairs(devs) {
      forall i, j | 0 <= i < j < |r| ensures Pair(r[i]) != Pair(r[j]) {
        if j == |devs| {
          assert r[i] == devs[i] && devs[i] in devs;
        } else {
          assert r[i] == devs[i] && r[j] == devs[j];
        }
      }
    }
  }

  /** Unique pairs stay unique without the last device, whose pair is then not among the others'. */
  lemma UniqueInit(devs: seq<Device>)
    requires |devs| > 0 && UniquePairs(devs)
    ensures UniquePairs(devs[..|devs| - 1])
    ensures Pair(devs[|devs| - 1]) !in Pairs(devs[..|devs| - 1])
  {
    var n := |devs| - 1;
    var init := devs[..n];
    forall i, j | 0 <= i < j < |init| ensures Pair(init[i]) != Pair(init[j]) {
      assert init[i] == devs[i] && init[j] == devs[j];
    }
    forall e | e in init ensures Pair(e) != Pair(devs[n]) {
      var i :| 0 <= i < n && init[i] == e;
      assert devs[i] == e;
    }
  }

  /** A device with a new pair adds one pair. */
  lemma CountAppend(devs: seq<Device>, d: Device)
    requires Pair(d) !in Pairs(devs)
    ensures |Pairs(devs + [d])| == |Pairs(devs)| + 1
  {
    PairsAppend(devs, d);
  }

  /** With unique pairs there are as many pairs as devices. */
  lemma {:induction false} UniqueCount(devs: seq<Device>)
    requires UniquePairs(devs)
    ensures |Pairs(devs)| == |devs|
    decreases |devs|
  {
    if |devs| > 0 {
      var n := |devs| - 1;
      var init, last := devs[..n], devs[n];
      UniqueInit(devs);
      UniqueCount(init);
      CountAppend(init, last);
      assert devs == init + [last];
    }
  }
}
