/**
 The device record of the Python revision (usb.py): its states, the port
 path that doubles as its identity, its unconditional state setter, and the
 `runSync` rule that turns a tool run into lines or an error.
 */
module PyUsb {
  import opened Wrappers
  import opened Text

  /** `DevState`: ten members, in declaration order. */
  datatype PyState = Idle | Init | VerifyCopy | VerifyMove | Copy | StartCopy | Move | Done | Error | Removed

  /** The value each member is declared with. */
  function Value(s: PyState): string {
    match s
    case Idle => "Idle"
    case Init => "Initializing"
    case VerifyCopy => "VerifyCopy"
    case VerifyMove => "VerifyMove"
    case Copy => "Copy"
    case StartCopy => "StartCopy"
    case Move => "Moving"
    case Done => "Done"
    case Error => "Error"
    case Removed => "Removed"
  }

  /** `DevState(v)`: the member declared with value `v`. */
  function StateOfValue(v: string): (r: Option<PyState>)
    ensures r.Some? ==> Value(r.value) == v
  {
    if v == "Idle" then Some(Idle)
    else if v == "Initializing" then Some(Init)
    else if v == "VerifyCopy" then Some(VerifyCopy)
    else if v == "VerifyMove" then Some(VerifyMove)
    else if v == "Copy" then Some(Copy)
    else if v == "StartCopy" then Some(StartCopy)
    else if v == "Moving" then Some(Move)
    else if v == "Done" then Some(Done)
    else if v == "Error" then Some(Error)
    else if v == "Removed" then Some(Removed)
    else None
  }

  /** No two members share a value, so none of them is an alias of another. */
  lemma ValuesIdentifyStates(s: PyState)
    ensures StateOfValue(Value(s)) == Some(s)
  {
  }

  datatype PyDevice = PyDevice(
    name: string,
    bus: int,
    port: int,
    filePaths: seq<string>,
    state: PyState,
    parm: Option<string>)

  /** One `stateChanged(state, parm)` emission. */
  datatype PyNote = PyNote(state: PyState, parm: Option<string>)

  /** A device after a call, with what the call emitted. */
  datatype PyStep = PyStep(dev: PyDevice, emitted: seq<PyNote>)

  /** `UsbDevice(name, bus, port)`: Idle, no payload, no files. */
  function NewPyDevice(name: string, bus: int, port: int): (d: PyDevice)
    ensures d.name == name && d.bus == bus && d.port == port
    ensures d.state == Idle && d.parm == None && d.filePaths == []
  {
    PyDevice(name, bus, port, [], Idle, None)
  }

  /** `UsbDevice(name)`: bus and port default to -1. */
  function Unplaced(name: string): (d: PyDevice)
    ensures d.bus == -1 && d.port == -1
  {
    NewPyDevice(name, -1, -1)
  }

  // ------------------------------------------------------------ port path

  /** The digits of `n` zero-padded to at least two. */
  function Pad2(n: nat): (s: string)
    ensures AllDigits(s) && DigitsValue(s) == n && |s| >= 2
  {
    var d := NatToString(n);
    if |d| < 2 then
      LeadingZeros(2 - |d|, d);
      Zeros(2 - |d|) + d
    else d
  }

  /**
   Python's `f'{n:03}'`: width three with zero fill after the sign, so a
   negative number keeps its '-' in front of at least two digits.
   */
  function Format03(n: int): (s: string)
    ensures |s| >= 3 && AllIn(s, Signed)
    ensures n >= 0 ==> s == Pad3(n)
    ensures n < 0 ==> s[0] == '-' && s[1..] == Pad2(-n)
  {
    if n >= 0 then
      assert AllIn(Pad3(n), Signed) by {
        forall i | 0 <= i < |Pad3(n)| ensures InClass(Pad3(n)[i], Signed) {
          assert InClass(Pad3(n)[i], Digit);
        }
      }
      Pad3(n)
    else
      var s := "-" + Pad2(-n);
      assert s[1..] == Pad2(-n);
      assert AllIn(s, Signed) by {
        forall i | 0 <= i < |s| ensures InClass(s[i], Signed) {
          if i > 0 {
            assert s[i] == Pad2(-n)[i - 1];
            assert InClass(Pad2(-n)[i - 1], Digit);
          }
        }
      }
      s
  }

  /** Different numbers are formatted differently. */
  lemma Format03Injective(a: int, b: int)
    ensures Format03(a) == Format03(b) <==> a == b
  {
    var x, y := Format03(a), Format03(b);
    if a >= 0 && b >= 0 {
      assert DigitsValue(x) == a && DigitsValue(y) == b;
    } else if a < 0 && b < 0 {
      assert x == y ==> x[1..] == y[1..];
      assert DigitsValue(x[1..]) == -a && DigitsValue(y[1..]) == -b;
    } else if a >= 0 {
      assert IsDigit(x[0]) && y[0] == '-';
    } else {
      assert x[0] == '-' && IsDigit(y[0]);
    }
  }

  /** `portPath`: "usb:" then bus and port in the `03` format, split by a comma. */
  function PortPath(d: PyDevice): string {
    "usb:" + Format03(d.bus) + "," + Format03(d.port)
  }

  /** `__eq__`: two devices are equal when their port paths are. */
  predicate Equal(a: PyDevice, b: PyDevice) {
    PortPath(a) == PortPath(b)
  }

  /**
   Equality is equality of (bus, port): the name, the state and the files
   play no part.
   */
  lemma EqualIffSamePlace(a: PyDevice, b: PyDevice)
    ensures Equal(a, b) <==> a.bus == b.bus && a.port == b.port
  {
    PortPathInjective(a.bus, a.port, b.bus, b.port);
  }

  /** Port paths of different places differ. */
  lemma PortPathInjective(b1: int, p1: int, b2: int, p2: int)
    ensures "usb:" + Format03(b1) + "," + Format03(p1) == "usb:" + Format03(b2) + "," + Format03(p2)
            <==> b1 == b2 && p1 == p2
  {
    var x1, y1, x2, y2 := Format03(b1), Format03(p1), Format03(b2), Format03(p2);
    assert !InClass(',', Signed);
    PathSplit(x1, y1, x2, y2, Signed);
    Format03Injective(b1, b2);
    Format03Injective(p1, p2);
  }

  /** Equality as (bus, port), for every pair of devices at once. */
  lemma EqualIsSamePlace()
    ensures forall a: PyDevice, b: PyDevice {:trigger Equal(a, b)} ::
              Equal(a, b) <==> a.bus == b.bus && a.port == b.port
  {
    forall a: PyDevice, b: PyDevice ensures Equal(a, b) <==> a.bus == b.bus && a.port == b.port {
      EqualIffSamePlace(a, b);
    }
  }

  /** A device built without a place has port path "usb:-01,-01", so all such devices are equal. */
  lemma UnplacedAllEqual(n1: string, n2: string)
    ensures PortPath(Unplaced(n1)) == "usb:-01,-01"
    ensures Equal(Unplaced(n1), Unplaced(n2))
  {
    var p := Pad2(1);
    assert NatToString(1) == ['1'];
    assert p == "01";
  }

  // ------------------------------------------------------------ state

  /** `setState`: stores the pair and always emits it, even when nothing changed. */
  function SetState(d: PyDevice, s: PyState, parm: Option<string>): (r: PyStep)
    ensures r.dev.state == s && r.dev.parm == parm
    ensures r.dev.name == d.name && r.dev.bus == d.bus && r.dev.port == d.port
    ensures r.dev.filePaths == d.filePaths
    ensures r.emitted == [PyNote(s, parm)]
  {
    PyStep(d.(state := s, parm := parm), [PyNote(s, parm)])
  }

  /** Setting the same state twice emits twice: there is no duplicate suppression. */
  lemma SetStateTwiceEmitsTwice(d: PyDevice, s: PyState, parm: Option<string>)
    ensures var first := SetState(d, s, parm);
            var second := SetState(first.dev, s, parm);
            && second.dev == first.dev
            && first.emitted + second.emitted == [PyNote(s, parm), PyNote(s, parm)]
  {
  }

  /** `setFilePaths` replaces the paths; `fileCount` is their number. */
  function SetFilePaths(d: PyDevice, paths: seq<string>): (r: PyDevice)
    ensures r.filePaths == paths && FileCount(r) == |paths|
    ensures r.state == d.state && r.parm == d.parm && Equal(r, d)
  {
    d.(filePaths := paths)
  }

  function FileCount(d: PyDevice): nat {
    |d.filePaths|
  }

  // ------------------------------------------------------------ running tools

  /**
   `str.splitlines`: the text cut at every line boundary, "\r\n" counting as
   one; a final boundary does not open an empty last line.
   */
  function SplitLines(s: string): (r: seq<string>)
    ensures forall i :: 0 <= i < |r| ==> AllIn(r[i], NotBreak)
    ensures |r| == 0 <==> |s| == 0
    decreases |s|
  {
    if |s| == 0 then []
    else
      var e := RunEnd(s, 0, NotBreak);
      if e == |s| then [s]
      else
        var skip := if s[e] == '\r' && e + 1 < |s| && s[e + 1] == '\n' then 2 else 1;
        [s[..e]] + SplitLines(s[e + skip..])
  }

  /** Every line followed by a line feed. */
  function Terminated(lines: seq<string>): string {
    if |lines| == 0 then "" else lines[0] + "\n" + Terminated(lines[1..])
  }

  /** Splitting text written one line per line feed gives the lines back. */
  lemma {:induction false} SplitTerminated(lines: seq<string>)
    requires forall i :: 0 <= i < |lines| ==> AllIn(lines[i], NotBreak)
    ensures SplitLines(Terminated(lines)) == lines
    decreases |lines|
  {
    if |lines| > 0 {
      var rest := lines[1..];
      assert forall i :: 0 <= i < |rest| ==> AllIn(rest[i], NotBreak) by {
        assert forall i :: 0 <= i < |rest| ==> rest[i] == lines[i + 1];
      }
      var t := Terminated(rest);
      assert Terminated(lines) == lines[0] + "\n" + t;
      SplitTerminated(rest);
      SplitFirstLine(lines[0], t);
      assert lines == [lines[0]] + rest;
    }
  }

  /** A line followed by a line feed is split off the front of the text. */
  lemma SplitFirstLine(line: string, rest: string)
    requires AllIn(line, NotBreak)
    ensures SplitLines(line + "\n" + rest) == [line] + SplitLines(rest)
  {
    var post := "\n" + rest;
    RunPrefix(line, post, NotBreak);
    var s := line + post;
    assert line + "\n" + rest == s;
    assert s[|line|] == '\n';
    assert s[|line| + 1..] == rest;
  }

  /** `runSync`: the output's lines, or the error text when the tool wrote any. */
  function RunSync(out: string, err: string): (r: Result<seq<string>, string>)
    ensures r.Failure? <==> |err| > 0
    ensures r.Failure? ==> r.error == err
    ensures r.Success? ==> r.value == SplitLines(out)
  {
    if |err| > 0 then Failure(err) else Success(SplitLines(out))
  }
}
