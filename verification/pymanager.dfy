/**
 The device manager of the Python revision (usb.py `_UsbManager` and
 `connectedDevices`): the detection matcher, `refresh` with its add loop and
 its removal loop, `_addDevice`, and the listing callback.

 Python lists hold the device objects themselves, so a state change made
 after a device was appended shows in the list. Here the list holds values,
 and a device is appended with the state it has once `_addDevice` returns.
 */
module PyManager {
  import opened Wrappers
  import opened Text
  import opened Enumeration
  import opened PyUsb

  // ------------------------------------------------------------ detection

  /** `usb:(\d+),(\d+)` at index `k` of `line`. */
  predicate PortAt(line: string, k: nat) {
    UsbAt(line, k) && NumbersAt(line, k + 4)
  }

  /** The literal "usb:" at index `k`. */
  predicate UsbAt(line: string, k: nat) {
    k + 4 <= |line| && line[k] == 'u' && line[k + 1] == 's' && line[k + 2] == 'b' && line[k + 3] == ':'
  }

  /**
   `(\d+),(\d+)` at index `i`: a digit run, which a comma must end since a
   comma is no digit, then at least one digit.
   */
  predicate NumbersAt(line: string, i: nat) {
    && i <= |line|
    && var a := RunEnd(line, i, Digit);
       i < a && a + 1 < |line| && line[a] == ',' && IsDigit(line[a + 1])
  }

  /** The two numbers of a `usb:(\d+),(\d+)` match at `k`, read as unbounded integers like `int()`. */
  function PortNumbers(line: string, k: nat): (nat, nat)
    requires PortAt(line, k)
  {
    (PortBus(line, k), PortDev(line, k))
  }

  /** The bus number: the digit run after "usb:". */
  function PortBus(line: string, k: nat): nat
    requires PortAt(line, k)
  {
    DigitsValue(DigitRun(line, k + 4, RunEnd(line, k + 4, Digit)))
  }

  /** The device number: the digit run after the comma. */
  function PortDev(line: string, k: nat): nat
    requires PortAt(line, k)
  {
    var a := RunEnd(line, k + 4, Digit);
    DigitsValue(DigitRun(line, a + 1, RunEnd(line, a + 1, Digit)))
  }

  /** The digits of `line` from `i` up to the end `e` of their run. */
  function DigitRun(line: string, i: nat, e: nat): (r: string)
    requires i <= e <= |line| && forall j :: i <= j < e ==> InClass(line[j], Digit)
    ensures AllDigits(r) && r == line[i..e]
  {
    var r := line[i..e];
    assert forall j :: 0 <= j < |r| ==> r[j] == line[i + j];
    r
  }

  /** Where `usb:(\d+),(\d+)` occurs, index by index. */
  function PortFlags(line: string): (f: seq<bool>)
    ensures |f| == |line| + 1
    ensures forall k :: 0 <= k <= |line| ==> f[k] == PortAt(line, k)
  {
    seq(|line| + 1, k requires 0 <= k <= |line| => PortAt(line, k))
  }

  /**
   `re.match(r'(.+)usb:(\d+),(\d+)', line)`: anchored at the start, with the
   greedy `(.+)` ending at the LAST place where the rest matches and never
   crossing a line feed. The name is stripped as `str.strip` does; text after the port is ignored.
   */
  function MatchConnected(line: string): (r: Option<Detected>)
    ensures r.None? <==> forall k :: 1 <= k <= RunEnd(line, 0, NotNewline) ==> !PortAt(line, k)
  {
    var hi := RunEnd(line, 0, NotNewline);
    match LastSet(PortFlags(line), hi)
    case None => None
    case Some(k) =>
      var (bus, port) := PortNumbers(line, k);
      Some(Detected(PyStrip(line[..k]), bus, port))
  }

  /** No `usb:` can start inside the text that follows its own "u". */
  lemma PortTextHasOneStart(db: string, dp: string)
    requires AllDigits(db) && AllDigits(dp)
    ensures var t := "usb:" + db + "," + dp;
            forall j :: 1 <= j < |t| ==> t[j] != 'u'
  {
    var t := "usb:" + db + "," + dp;
    forall j | 1 <= j < |t| ensures t[j] != 'u' {
      if 4 <= j < 4 + |db| {
        assert t[j] == db[j - 4] && InClass(db[j - 4], Digit);
      } else if j > 4 + |db| {
        assert t[j] == dp[j - 5 - |db|] && InClass(dp[j - 5 - |db|], Digit);
      }
    }
  }

  /**
   A line made of a non-empty name without line feeds, "usb:", digits, a
   comma and digits reads back as the stripped name and the two numbers.
   */
  lemma MatchConnectedOfLine(name: string, db: string, dp: string)
    requires |name| >= 1 && AllIn(name, NotNewline)
    requires |db| >= 1 && AllDigits(db) && |dp| >= 1 && AllDigits(dp)
    ensures MatchConnected(name + ("usb:" + db + "," + dp))
            == Some(Detected(PyStrip(name), DigitsValue(db), DigitsValue(dp)))
  {
    var line := name + ("usb:" + db + "," + dp);
    OneLine(name, db, dp);
    PortOfLine(name, db, dp);
    NoLaterPort(name, db, dp);
    MatchAt(line, |name|);
    assert line[..|name|] == name;
  }

  /** The match ends its name at the last port pattern within the first line. */
  lemma MatchAt(line: string, k: nat)
    requires 1 <= k <= RunEnd(line, 0, NotNewline) && PortAt(line, k)
    requires forall j :: k < j <= RunEnd(line, 0, NotNewline) ==> !PortAt(line, j)
    ensures MatchConnected(line) == Some(Detected(PyStrip(line[..k]), PortNumbers(line, k).0, PortNumbers(line, k).1))
  {
    var f := PortFlags(line);
    var hi := RunEnd(line, 0, NotNewline);
    assert f[k];
    assert forall j :: k < j <= hi ==> !f[j];
    assert LastSet(f, hi) == Some(k);
  }

  /** The line holds no line feed, so the name may run up to the port. */
  lemma OneLine(name: string, db: string, dp: string)
    requires AllIn(name, NotNewline) && AllDigits(db) && AllDigits(dp)
    ensures var line := name + ("usb:" + db + "," + dp);
            RunEnd(line, 0, NotNewline) == |line|
  {
    var line := name + ("usb:" + db + "," + dp);
    var k := |name|;
    assert AllIn(line, NotNewline) by {
      forall i | 0 <= i < |line| ensures InClass(line[i], NotNewline) {
        if i < k {
          assert line[i] == name[i];
        } else if 4 <= i - k < 4 + |db| {
          assert line[i] == db[i - k - 4] && InClass(db[i - k - 4], Digit);
        } else if i - k > 4 + |db| {
          assert line[i] == dp[i - k - 5 - |db|] && InClass(dp[i - k - 5 - |db|], Digit);
        }
      }
    }
    RunEndIs(line, 0, NotNewline, |line|);
  }

  /** The port pattern sits right after the name and reads back as the two numbers. */
  lemma PortOfLine(name: string, db: string, dp: string)
    requires |db| >= 1 && AllDigits(db) && |dp| >= 1 && AllDigits(dp)
    ensures var line := name + ("usb:" + db + "," + dp);
            PortAt(line, |name|) && PortNumbers(line, |name|) == (DigitsValue(db), DigitsValue(dp))
  {
    var line := name + ("usb:" + db + "," + dp);
    var k := |name|;
    var a := k + 4 + |db|;
    UsbOfLine(name, db, dp);
    BusRunOfLine(name, db, dp);
    DevRunOfLine(name, db, dp);
    SlicesOfLine(name, db, dp);
    PortOfRuns(line, k, a, db, dp);
  }

  /** A port pattern whose two digit runs are known reads back as their values. */
  lemma PortOfRuns(line: string, k: nat, a: nat, db: string, dp: string)
    requires UsbAt(line, k) && k + 4 < a && a + 1 < |line| && line[a] == ',' && IsDigit(line[a + 1])
    requires RunEnd(line, k + 4, Digit) == a && RunEnd(line, a + 1, Digit) == |line|
    requires line[k + 4..a] == db && line[a + 1..] == dp
    ensures PortAt(line, k) && PortNumbers(line, k) == (DigitsValue(db), DigitsValue(dp))
  {
    assert PortAt(line, k);
    assert DigitRun(line, k + 4, a) == db;
    assert PortBus(line, k) == DigitsValue(db);
    assert DigitRun(line, a + 1, |line|) == dp;
    assert PortDev(line, k) == DigitsValue(dp);
  }

  /** The two digit strings sit where the pattern reads them. */
  lemma SlicesOfLine(name: string, db: string, dp: string)
    ensures var line := name + ("usb:" + db + "," + dp);
            var a := |name| + 4 + |db|;
            line[|name| + 4..a] == db && line[a + 1..] == dp
  {
    var t := "usb:" + db + "," + dp;
    var line := name + t;
    var a := |name| + 4 + |db|;
    assert line[|name|..] == t;
    assert t[4..4 + |db|] == db && t[5 + |db|..] == dp;
  }

  lemma UsbOfLine(name: string, db: string, dp: string)
    ensures var line := name + ("usb:" + db + "," + dp);
            UsbAt(line, |name|) && line[|name| + 4 + |db|] == ','
  {
    var line := name + ("usb:" + db + "," + dp);
    var t := "usb:" + db + "," + dp;
    var k := |name|;
    assert line[k] == t[0] && line[k + 1] == t[1] && line[k + 2] == t[2] && line[k + 3] == t[3];
    assert line[k + 4 + |db|] == t[4 + |db|];
  }

  /** The bus digits run from after "usb:" up to the comma. */
  lemma BusRunOfLine(name: string, db: string, dp: string)
    requires AllDigits(db)
    ensures var line := name + ("usb:" + db + "," + dp);
            RunEnd(line, |name| + 4, Digit) == |name| + 4 + |db|
  {
    var line := name + ("usb:" + db + "," + dp);
    var a := |name| + 4 + |db|;
    SlicesOfLine(name, db, dp);
    UsbOfLine(name, db, dp);
    assert !InClass(line[a], Digit) by {
      assert line[a] == ',';
    }
    RunOfSlice(line, |name| + 4, a, db, Digit);
  }

  /** The device digits run from after the comma to the end of the line. */
  lemma DevRunOfLine(name: string, db: string, dp: string)
    requires |dp| >= 1 && AllDigits(dp)
    ensures var line := name + ("usb:" + db + "," + dp);
            RunEnd(line, |name| + 5 + |db|, Digit) == |line| && IsDigit(line[|name| + 5 + |db|])
  {
    var line := name + ("usb:" + db + "," + dp);
    var a := |name| + 4 + |db|;
    SlicesOfLine(name, db, dp);
    assert line[a + 1] == line[a + 1..][0];
    assert InClass(dp[0], Digit);
    RunOfSlice(line, a + 1, |line|, dp, Digit);
  }

  /** A slice made of class `k` that the end of the text or another class closes is a whole run. */
  lemma RunOfSlice(line: string, i: nat, e: nat, s: string, k: CharClass)
    requires i <= e <= |line| && line[i..e] == s && AllIn(s, k)
    requires e == |line| || !InClass(line[e], k)
    ensures RunEnd(line, i, k) == e
  {
    assert forall j :: i <= j < e ==> line[j] == s[j - i];
    RunEndIs(line, i, k, e);
  }

  /** No port pattern starts after the name. */
  lemma NoLaterPort(name: string, db: string, dp: string)
    requires AllDigits(db) && AllDigits(dp)
    ensures var line := name + ("usb:" + db + "," + dp);
            forall j :: |name| < j <= |line| ==> !PortAt(line, j)
  {
    var t := "usb:" + db + "," + dp;
    var line := name + t;
    var k := |name|;
    PortTextHasOneStart(db, dp);
    forall j | k < j <= |line| ensures !PortAt(line, j) {
      if j < |line| {
        assert line[j] == t[j - k];
      }
    }
  }

  /** `connectedDevices`: one device per matching line, in line order; other lines are skipped. */
  function Connected(lines: seq<string>): (r: seq<PyDevice>)
    ensures |r| <= |lines|
    ensures forall d :: d in r <==> exists i :: 0 <= i < |lines| && DeviceOf(lines[i]) == [d]
    decreases |lines|
  {
    if |lines| == 0 then []
    else
      var n := |lines| - 1;
      var init := Connected(lines[..n]);
      MembersAppend(lines, lines[..n], DeviceOf, init);
      init + DeviceOf(lines[n])
  }

  /**
   A per-line result of at most one element, appended for the last line:
   the members are those named by some line.
   */
  lemma MembersAppend<T>(lines: seq<string>, pre: seq<string>, f: string -> seq<T>, init: seq<T>)
    requires |lines| > 0 && pre == lines[..|lines| - 1]
    requires forall l :: |f(l)| <= 1
    requires forall d :: d in init <==> exists i :: 0 <= i < |pre| && f(pre[i]) == [d]
    ensures forall d :: d in init + f(lines[|lines| - 1]) <==> exists i :: 0 <= i < |lines| && f(lines[i]) == [d]
  {
    var n := |pre|;
    forall d | (exists i :: 0 <= i < |lines| && f(lines[i]) == [d])
      ensures d in init + f(lines[n])
    {
      var i :| 0 <= i < |lines| && f(lines[i]) == [d];
      if i < n {
        assert lines[i] == pre[i];
      }
    }
    forall d | d in init + f(lines[n])
      ensures exists i :: 0 <= i < |lines| && f(lines[i]) == [d]
    {
      if d in init {
        var i :| 0 <= i < n && f(pre[i]) == [d];
        assert lines[i] == pre[i];
      } else {
        assert |f(lines[n])| <= 1;
        assert f(lines[n]) == [d];
      }
    }
  }

  /** The device one line names, if it matches. */
  function DeviceOf(line: string): (r: seq<PyDevice>)
    ensures |r| <= 1
  {
    match MatchConnected(line)
    case None => []
    case Some(d) => [NewPyDevice(d.name, d.bus, d.port)]
  }

  /** A line added at the end contributes its device, if any, at the end. */
  lemma ConnectedAppend(lines: seq<string>, line: string)
    ensures Connected(lines + [line]) == Connected(lines) + DeviceOf(line)
  {
    var xs := lines + [line];
    assert xs[..|lines|] == lines && xs[|lines|] == line;
  }

  // ------------------------------------------------------------ membership

  /** The place (bus, port) that equality compares. */
  function Place(d: PyDevice): (int, int) {
    (d.bus, d.port)
  }

  function Places(xs: seq<PyDevice>): set<(int, int)> {
    set d | d in xs :: Place(d)
  }

  /**
   The first index holding a device equal to `d`: what `in` and `list.remove`
   look for. They compare with `__eq__`, which is equality of places
   (PyUsb.EqualIffSamePlace).
   */
  function FirstEqual(xs: seq<PyDevice>, d: PyDevice): (r: Option<nat>)
    ensures r.Some? ==> r.value < |xs| && Place(xs[r.value]) == Place(d)
                        && forall j :: 0 <= j < r.value ==> Place(xs[j]) != Place(d)
    ensures r.None? ==> forall j :: 0 <= j < |xs| ==> Place(xs[j]) != Place(d)
    decreases |xs|
  {
    if |xs| == 0 then None
    else if Place(xs[0]) == Place(d) then Some(0)
    else match FirstEqual(xs[1..], d)
      case None => None
      case Some(k) => Some(k + 1)
  }

  /** Python's `d in xs`. */
  predicate IsIn(d: PyDevice, xs: seq<PyDevice>) {
    FirstEqual(xs, d).Some?
  }

  /** `in` is membership of the place. */
  lemma IsInIffPlace(d: PyDevice, xs: seq<PyDevice>)
    ensures IsIn(d, xs) <==> Place(d) in Places(xs)
  {
    if Place(d) in Places(xs) {
      var e :| e in xs && Place(e) == Place(d);
      var j :| 0 <= j < |xs| && xs[j] == e;
      assert Place(xs[j]) == Place(d);
    }
  }

  /** `in` as place membership, for every device and list at once. */
  lemma InIsPlace()
    ensures forall d: PyDevice, xs: seq<PyDevice> {:trigger IsIn(d, xs)} ::
              IsIn(d, xs) <==> Place(d) in Places(xs)
  {
    forall d: PyDevice, xs: seq<PyDevice> ensures IsIn(d, xs) <==> Place(d) in Places(xs) {
      IsInIffPlace(d, xs);
    }
  }

  lemma PlacesAppend(xs: seq<PyDevice>, d: PyDevice)
    ensures Places(xs + [d]) == Places(xs) + {Place(d)}
  {
    var r := xs + [d];
    assert r[|xs|] == d;
    forall p | p in Places(xs) ensures p in Places(r) {
      var e :| e in xs && Place(e) == p;
      assert e in r;
    }
  }

  lemma PlacesCons(xs: seq<PyDevice>)
    requires |xs| > 0
    ensures Places(xs) == {Place(xs[0])} + Places(xs[1..])
  {
    assert xs == [xs[0]] + xs[1..];
    forall p | p in Places(xs[1..]) ensures p in Places(xs) {
      var e :| e in xs[1..] && Place(e) == p;
      assert e in xs;
    }
  }

  // ------------------------------------------------------------ events

  /** What the manager and its devices emit during a refresh and a listing. */
  datatype PyEvent =
    | DeviceAdded(dev: PyDevice)
    | StateChanged(bus: int, port: int, note: PyNote)
    | DeviceUpdated(dev: PyDevice)
    | DeviceRemoved(dev: PyDevice)

  /** The tracked devices and the events a call emitted. */
  datatype PyRegistry = PyRegistry(devices: seq<PyDevice>, events: seq<PyEvent>)

  function Relay(d: PyDevice, notes: seq<PyNote>): (r: seq<PyEvent>)
    ensures |r| == |notes|
    ensures forall i :: 0 <= i < |r| ==> r[i] == StateChanged(d.bus, d.port, notes[i])
  {
    seq(|notes|, i requires 0 <= i < |notes| => StateChanged(d.bus, d.port, notes[i]))
  }

  /** `listFiles`: the device goes to Init with no payload before its listing thread starts. */
  function ListFiles(d: PyDevice): (r: PyStep)
    ensures r.dev.state == Init && r.dev.parm == None && Equal(r.dev, d)
    ensures r.emitted == [PyNote(Init, None)]
  {
    EqualIsSamePlace();
    SetState(d, Init, None)
  }

  /**
   `_addDevice`: the device is appended and announced, told that its files
   are being discovered, and its listing is started.
   */
  function AddDevice(d: PyDevice): (r: PyRegistry)
    ensures |r.devices| == 1 && Equal(r.devices[0], d) && Place(r.devices[0]) == Place(d)
    ensures r.devices[0].filePaths == d.filePaths
    ensures r.devices[0].state == Init && r.devices[0].parm == None
    ensures r.events == [DeviceAdded(d),
                         StateChanged(d.bus, d.port, PyNote(Idle, Some("Discovering files.."))),
                         StateChanged(d.bus, d.port, PyNote(Init, None))]
  {
    var discovering := SetState(d, Idle, Some("Discovering files.."));
    var listing := ListFiles(discovering.dev);
    PyRegistry([listing.dev], [DeviceAdded(d),
                               StateChanged(d.bus, d.port, discovering.emitted[0]),
                               StateChanged(d.bus, d.port, listing.emitted[0])])
  }

  /** `_onFilesRetrieved`: the listing's lines become the file paths and the device goes Idle. */
  function OnFilesRetrieved(d: PyDevice, files: seq<string>): (r: PyRegistry)
    ensures |r.devices| == 1 && Equal(r.devices[0], d)
    ensures r.devices[0].filePaths == files && FileCount(r.devices[0]) == |files|
    ensures r.devices[0].state == Idle
    ensures r.devices[0].parm == Some("Found " + NatToString(|files|) + " files")
    ensures |r.events| == 2 && r.events[1] == DeviceUpdated(r.devices[0])
  {
    var listed := SetFilePaths(d, files);
    var found := SetState(listed, Idle, Some("Found " + NatToString(|files|) + " files"));
    EqualIsSamePlace();
    PyRegistry([found.dev], Relay(d, found.emitted) + [DeviceUpdated(found.dev)])
  }

  /**
   `listFiles_thread`: the listing's lines go to the callback; a failed
   listing is only logged, so the device stays as it was, with no event.
   */
  function ListFilesThread(d: PyDevice, out: string, err: string): (r: PyRegistry)
    ensures |r.devices| == 1 && Equal(r.devices[0], d)
  {
    match RunSync(out, err)
    case Failure(_) => PyRegistry([d], [])
    case Success(lines) => OnFilesRetrieved(d, lines)
  }

  /**
   A device added by a refresh reports "Initializing" until its listing
   returns: then it holds the listing's lines and reports their number; if
   the listing fails it stays in Init for good.
   */
  lemma ListingLifecycle(d: PyDevice, out: string, err: string)
    ensures var added := AddDevice(d).devices[0];
            var done := ListFilesThread(added, out, err);
            && added.state == Init
            && (|err| > 0 ==> done.devices[0] == added && done.events == [])
            && (|err| == 0 ==> && done.devices[0].state == Idle
                               && done.devices[0].filePaths == SplitLines(out)
                               && done.devices[0].parm == Some("Found " + NatToString(|SplitLines(out)|) + " files"))
  {
  }

  // ------------------------------------------------------------ refresh

  /**
   What the first loop of `refresh` promises: the list only grows, at its
   end; afterwards it holds every detected place; and only devices whose
   place was not tracked before are announced.
   */
  predicate AddLoopSpec(devs: seq<PyDevice>, connected: seq<PyDevice>, r: PyRegistry) {
    && |devs| <= |r.devices| && r.devices[..|devs|] == devs
    && Places(r.devices) == Places(devs) + Places(connected)
    && (forall e :: e in r.events && e.DeviceAdded? ==> Place(e.dev) !in Places(devs))
    && (forall e :: e in r.events ==> !e.DeviceRemoved? && !e.DeviceUpdated?)
  }

  /**
   The first loop of `refresh`: every detected device that is not yet in the
   list (compared with `in`, which grows as devices are added) is added.
   */
  function AddLoop(devs: seq<PyDevice>, connected: seq<PyDevice>): (r: PyRegistry)
    ensures AddLoopSpec(devs, connected, r)
    decreases |connected|
  {
    if |connected| == 0 then PyRegistry(devs, [])
    else
      var c := connected[0];
      if IsIn(c, devs) then
        var rest := AddLoop(devs, connected[1..]);
        AddKnownStep(devs, connected, rest);
        rest
      else
        var added := AddDevice(c);
        assert added.devices == [added.devices[0]];
        var rest := AddLoop(devs + added.devices, connected[1..]);
        AddNewStep(devs, connected, added.devices[0], added.events, rest);
        PyRegistry(rest.devices, added.events + rest.events)
  }

  /** A detected device that is tracked already changes nothing. */
  lemma AddKnownStep(devs: seq<PyDevice>, connected: seq<PyDevice>, rest: PyRegistry)
    requires |connected| > 0 && IsIn(connected[0], devs)
    requires AddLoopSpec(devs, connected[1..], rest)
    ensures AddLoopSpec(devs, connected, rest)
  {
    PlacesCons(connected);
    IsInIffPlace(connected[0], devs);
  }

  /** A detected device that is not tracked yet is appended and announced. */
  lemma AddNewStep(devs: seq<PyDevice>, connected: seq<PyDevice>, a: PyDevice, first: seq<PyEvent>, rest: PyRegistry)
    requires |connected| > 0 && !IsIn(connected[0], devs) && Place(a) == Place(connected[0])
    requires var c := connected[0];
             first == [DeviceAdded(c),
                       StateChanged(c.bus, c.port, PyNote(Idle, Some("Discovering files.."))),
                       StateChanged(c.bus, c.port, PyNote(Init, None))]
    requires AddLoopSpec(devs + [a], connected[1..], rest)
    ensures AddLoopSpec(devs, connected, PyRegistry(rest.devices, first + rest.events))
  {
    var grown := devs + [a];
    assert rest.devices[..|devs|] == devs by {
      assert rest.devices[..|grown|][..|devs|] == devs;
    }
    AddNewPlaces(devs, connected, a, rest.devices);
    AddNewEvents(devs, connected[0], a, first, rest.events);
  }

  /** The places after adding a new device are the old ones and every detected one. */
  lemma AddNewPlaces(devs: seq<PyDevice>, connected: seq<PyDevice>, a: PyDevice, after: seq<PyDevice>)
    requires |connected| > 0 && Place(a) == Place(connected[0])
    requires Places(after) == Places(devs + [a]) + Places(connected[1..])
    ensures Places(after) == Places(devs) + Places(connected)
  {
    PlacesCons(connected);
    PlacesAppend(devs, a);
  }

  /** The events of a new device and of the rest of the loop announce only untracked places. */
  lemma AddNewEvents(devs: seq<PyDevice>, c: PyDevice, a: PyDevice, first: seq<PyEvent>, later: seq<PyEvent>)
    requires !IsIn(c, devs) && Place(a) == Place(c)
    requires first == [DeviceAdded(c),
                       StateChanged(c.bus, c.port, PyNote(Idle, Some("Discovering files.."))),
                       StateChanged(c.bus, c.port, PyNote(Init, None))]
    requires forall e :: e in later && e.DeviceAdded? ==> Place(e.dev) !in Places(devs + [a])
    requires forall e :: e in later ==> !e.DeviceRemoved? && !e.DeviceUpdated?
    ensures forall e :: e in first + later && e.DeviceAdded? ==> Place(e.dev) !in Places(devs)
    ensures forall e :: e in first + later ==> !e.DeviceRemoved? && !e.DeviceUpdated?
  {
    IsInIffPlace(c, devs);
    PlacesAppend(devs, a);
  }

  /** `list.remove(d)`: drops the first element equal to `d`. */
  function RemoveFirst(xs: seq<PyDevice>, d: PyDevice): (r: seq<PyDevice>)
    requires IsIn(d, xs)
    ensures |r| == |xs| - 1
    ensures forall e :: e in r ==> e in xs
    ensures forall e :: e in xs && Place(e) != Place(d) ==> e in r
    ensures exists j :: 0 <= j < |xs| && Place(xs[j]) == Place(d)
                        && (forall i :: 0 <= i < j ==> Place(xs[i]) != Place(d))
                        && r == xs[..j] + xs[j + 1..]
  {
    var j := FirstEqual(xs, d).value;
    var r := xs[..j] + xs[j + 1..];
    forall e | e in xs && Place(e) != Place(d) ensures e in r {
      var m :| 0 <= m < |xs| && xs[m] == e;
      if m < j {
        assert r[m] == e;
      } else {
        assert r[m - 1] == e;
      }
    }
    r
  }

  /**
   What `list.remove` takes out: exactly one device, of `d`'s place; putting
   it back gives the original list as a multiset.
   */
  lemma RemoveFirstTakesOne(xs: seq<PyDevice>, d: PyDevice)
    requires IsIn(d, xs)
    ensures exists e :: Place(e) == Place(d) && multiset(RemoveFirst(xs, d)) + multiset{e} == multiset(xs)
    ensures |RemoveFirst(xs, d)| + 1 == |xs|
  {
    var r := RemoveFirst(xs, d);
    var j :| 0 <= j < |xs| && Place(xs[j]) == Place(d)
             && (forall i :: 0 <= i < j ==> Place(xs[i]) != Place(d))
             && r == xs[..j] + xs[j + 1..];
    DropOne(xs, j);
  }

  /** Dropping the element at `j` removes exactly that element from the multiset. */
  lemma DropOne<T>(xs: seq<T>, j: nat)
    requires j < |xs|
    ensures multiset(xs[..j] + xs[j + 1..]) + multiset{xs[j]} == multiset(xs)
  {
    assert xs == xs[..j] + [xs[j]] + xs[j + 1..];
  }

  /**
   The second loop of `refresh` AS WRITTEN: it iterates over the list by
   index while removing from that same list, so the element that moves into
   the freed slot is never looked at.
   */
  function RemoveLoop(devs: seq<PyDevice>, connected: seq<PyDevice>, i: nat): (r: PyRegistry)
    ensures forall d :: d in r.devices ==> d in devs
    ensures forall d :: d in devs && IsIn(d, connected) ==> d in r.devices
    ensures forall e :: e in r.events ==> e.DeviceRemoved? && !IsIn(e.dev, connected)
    decreases |devs| - i
  {
    if i >= |devs| then PyRegistry(devs, [])
    else
      var stale := devs[i];
      if IsIn(stale, connected) then RemoveLoop(devs, connected, i + 1)
      else
        assert Place(devs[i]) == Place(stale);
        var shrunk := RemoveFirst(devs, stale);
        InIsPlace();
        var rest := RemoveLoop(shrunk, connected, i + 1);
        PyRegistry(rest.devices, [DeviceRemoved(stale)] + rest.events)
  }

  /** The removal loop as evidently intended: every device that is not detected any more goes. */
  function RemoveStale(devs: seq<PyDevice>, connected: seq<PyDevice>): (r: PyRegistry)
    ensures forall d :: d in r.devices <==> d in devs && IsIn(d, connected)
    ensures forall e :: e in r.events ==> e.DeviceRemoved? && !IsIn(e.dev, connected)
    ensures |r.events| == |devs| - |r.devices|
    decreases |devs|
  {
    if |devs| == 0 then PyRegistry([], [])
    else
      var rest := RemoveStale(devs[1..], connected);
      assert forall d :: d in devs <==> d == devs[0] || d in devs[1..] by {
        assert devs == [devs[0]] + devs[1..];
      }
      if IsIn(devs[0], connected) then PyRegistry([devs[0]] + rest.devices, rest.events)
      else PyRegistry(rest.devices, [DeviceRemoved(devs[0])] + rest.events)
  }

  /**
   `refresh` AS WRITTEN. A failing detection run raises before anything
   changes. Afterwards every detected device is tracked, a device that was
   tracked already is not announced again, and no detected device is
   removed; stale devices may survive (see StaleDeviceSurvives).
   */
  function RefreshAsWritten(devs: seq<PyDevice>, out: string, err: string): (r: Result<PyRegistry, string>)
    ensures r.Failure? <==> |err| > 0
    ensures r.Success? ==>
              var connected := Connected(SplitLines(out));
              && Places(connected) <= Places(r.value.devices) <= Places(devs) + Places(connected)
              && (forall e :: e in r.value.events && e.DeviceAdded? ==> Place(e.dev) !in Places(devs))
              && (forall e :: e in r.value.events && e.DeviceRemoved? ==> Place(e.dev) !in Places(connected))
  {
    match RunSync(out, err)
    case Failure(e) => Failure(e)
    case Success(lines) =>
      var connected := Connected(lines);
      var added := AddLoop(devs, connected);
      var swept := RemoveLoop(added.devices, connected, 0);
      InIsPlace();
      assert Places(connected) <= Places(swept.devices) by {
        forall p | p in Places(connected) ensures p in Places(swept.devices) {
          var d :| d in added.devices && Place(d) == p;
          assert IsIn(d, connected);
        }
      }
      assert Places(swept.devices) <= Places(added.devices) by {
        forall p | p in Places(swept.devices) ensures p in Places(added.devices) {
          var d :| d in swept.devices && Place(d) == p;
          assert d in added.devices;
        }
      }
      Success(PyRegistry(swept.devices, added.events + swept.events))
  }

  /**
   `refresh` with the removal loop iterating over a copy of the list: the
   tracked places are exactly the detected ones.
   */
  function Refresh(devs: seq<PyDevice>, out: string, err: string): (r: Result<PyRegistry, string>)
    ensures r.Failure? <==> |err| > 0
    ensures r.Success? ==>
              var connected := Connected(SplitLines(out));
              && Places(r.value.devices) == Places(connected)
              && (forall e :: e in r.value.events && e.DeviceAdded? ==> Place(e.dev) !in Places(devs))
              && (forall e :: e in r.value.events && e.DeviceRemoved? ==> Place(e.dev) !in Places(connected))
  {
    match RunSync(out, err)
    case Failure(e) => Failure(e)
    case Success(lines) =>
      var connected := Connected(lines);
      var added := AddLoop(devs, connected);
      var swept := RemoveStale(added.devices, connected);
      InIsPlace();
      assert Places(swept.devices) == Places(connected) by {
        forall p | p in Places(connected) ensures p in Places(swept.devices) {
          var d :| d in added.devices && Place(d) == p;
          assert IsIn(d, connected);
        }
        forall p | p in Places(swept.devices) ensures p in Places(connected) {
          var d :| d in swept.devices && Place(d) == p;
          assert IsIn(d, connected);
        }
      }
      Success(PyRegistry(swept.devices, added.events + swept.events))
  }

  /**
   Two tracked devices that are both gone: the loop removes the first, the
   second moves into its slot, the loop has passed that slot, and the second
   is still tracked. Iterating over a copy removes both.
   */
  lemma StaleDeviceSurvives()
    ensures var a, b := NewPyDevice("A", 1, 1), NewPyDevice("B", 1, 2);
            && RefreshAsWritten([a, b], "", "") == Success(PyRegistry([b], [DeviceRemoved(a)]))
            && Refresh([a, b], "", "").value.devices == []
  {
    var a, b := NewPyDevice("A", 1, 1), NewPyDevice("B", 1, 2);
    assert Connected(SplitLines("")) == [];
    assert AddLoop([a, b], []) == PyRegistry([a, b], []);
    assert FirstEqual([a, b], a) == Some(0);
    assert RemoveFirst([a, b], a) == [b];
    assert !IsIn(a, []);
    assert RemoveLoop([b], [], 1) == PyRegistry([b], []);
    assert RemoveLoop([a, b], [], 0) == PyRegistry([b], [DeviceRemoved(a)]);
    assert RunSync("", "") == Success([]);
    assert RefreshAsWritten([a, b], "", "") == Success(PyRegistry([b], [] + [DeviceRemoved(a)]));
    assert [] + [DeviceRemoved(a)] == [DeviceRemoved(a)];
    assert !IsIn(b, []);
    assert RemoveStale([b], []).devices == [];
    assert RemoveStale([a, b], []).devices == [];
  }
}
