/**
 The auto-detect side of src/usbmanager.cpp: the port path a device is
 addressed by, and the matcher that reads (name, bus, port) off one line of
 the detection tool's output.
 */
module Enumeration {
  import opened Wrappers
  import opened Text

  /** "usb:BBB,PPP", bus and port zero-padded to three digits. */
  function CreatePortPath(bus: nat, port: nat): (s: string)
    ensures |s| >= 11 && s[..4] == "usb:"
    ensures |s| == 11 <==> bus < 1000 && port < 1000
  {
    "usb:" + Pad3(bus) + "," + Pad3(port)
  }

  /** The pieces of a port path can be read back: the comma splits bus from port. */
  lemma PortPathInjective(b1: nat, p1: nat, b2: nat, p2: nat)
    ensures CreatePortPath(b1, p1) == CreatePortPath(b2, p2) <==> b1 == b2 && p1 == p2
  {
    PathSplit(Pad3(b1), Pad3(p1), Pad3(b2), Pad3(p2), Digit);
    assert DigitsValue(Pad3(b1)) == b1 && DigitsValue(Pad3(b2)) == b2;
    assert DigitsValue(Pad3(p1)) == p1 && DigitsValue(Pad3(p2)) == p2;
  }

  /** One device as the detection tool reports it. */
  datatype Detected = Detected(name: string, bus: nat, port: nat)

  /** `\W\W\Wusb:(\d\d\d),(\d\d\d)` occurs at index `k` of `line`. */
  predicate TailAt(line: string, k: nat) {
    && k + 14 <= |line|
    && !IsWordChar(line[k]) && !IsWordChar(line[k + 1]) && !IsWordChar(line[k + 2])
    && line[k + 3] == 'u' && line[k + 4] == 's' && line[k + 5] == 'b' && line[k + 6] == ':'
    && ThreeDigitsAt(line, k + 7)
    && line[k + 10] == ','
    && ThreeDigitsAt(line, k + 11)
  }

  predicate ThreeDigitsAt(line: string, i: nat) {
    i + 3 <= |line| && IsDigit(line[i]) && IsDigit(line[i + 1]) && IsDigit(line[i + 2])
  }

  /** The three digits at `i`. */
  function ThreeDigits(line: string, i: nat): (r: string)
    requires ThreeDigitsAt(line, i)
    ensures |r| == 3 && AllDigits(r) && r == line[i..i + 3]
  {
    var r := line[i..i + 3];
    assert r[0] == line[i] && r[1] == line[i + 1] && r[2] == line[i + 2];
    r
  }

  /** Where the tail occurs, index by index. */
  function TailFlags(line: string): (f: seq<bool>)
    ensures |f| == |line| + 1
    ensures forall k :: 0 <= k <= |line| ==> f[k] == TailAt(line, k)
  {
    seq(|line| + 1, k requires 0 <= k <= |line| => TailAt(line, k))
  }

  /** The device a tail at `k` names: the trimmed text before it, and its two numbers. */
  function DetectedAt(line: string, k: nat): (d: Detected)
    requires TailAt(line, k)
    ensures d.bus < 1000 && d.port < 1000 && Contains(line, CreatePortPath(d.bus, d.port))
  {
    var b, p := ThreeDigits(line, k + 7), ThreeDigits(line, k + 11);
    Pad3OfDigits(b);
    Pad3OfDigits(p);
    PortPathAt(line, k);
    Detected(Trim(line[..k]), DigitsValue(b), DigitsValue(p))
  }

  /** The port path of the tail's numbers stands in the line three characters into the tail. */
  lemma PortPathAt(line: string, k: nat)
    requires TailAt(line, k)
    ensures var b, p := ThreeDigits(line, k + 7), ThreeDigits(line, k + 11);
            StartsAt(line, k + 3, "usb:" + b + "," + p)
  {
    var b, p := ThreeDigits(line, k + 7), ThreeDigits(line, k + 11);
    var t := "usb:" + b + "," + p;
    assert |t| == 11;
    forall m | 0 <= m < 11 ensures line[k + 3 + m] == t[m] {
      if 4 <= m < 7 {
        assert t[m] == b[m - 4];
      } else if m >= 8 {
        assert t[m] == p[m - 8];
      }
    }
    assert line[k + 3..k + 14] == t;
  }

  /**
   The `reBus` match of one line, `(.+)\W\W\Wusb:(\d\d\d),(\d\d\d)` searched
   anywhere in the line: the greedy `(.+)` makes the name everything before
   the LAST occurrence of the tail, and it must be non-empty. The name is
   trimmed and both numbers read as decimals. Text after the tail is ignored.
   Lines hold no line breaks, so `.` matches every character of them.
   */
  function MatchBusLine(line: string): (r: Option<Detected>)
    ensures r.Some? <==> exists k: nat | 1 <= k :: TailAt(line, k)
    ensures r.Some? ==> r.value.bus < 1000 && r.value.port < 1000
                        && Contains(line, CreatePortPath(r.value.bus, r.value.port))
  {
    match LastSet(TailFlags(line), |line|)
    case None => None
    case Some(k) => Some(DetectedAt(line, k))
  }

  /**
   A line made of a non-empty name, three non-word separator characters and a
   port path for a bus and port below 1000 reads back as the trimmed name, the
   bus and the port.
   */
  lemma MatchBusLineOfPortPath(name: string, sep: string, bus: nat, port: nat)
    requires |name| >= 1
    requires |sep| == 3 && AllIn(sep, NonWord)
    requires bus < 1000 && port < 1000
    ensures MatchBusLine(name + sep + CreatePortPath(bus, port)) == Some(Detected(Trim(name), bus, port))
  {
    var line := name + sep + CreatePortPath(bus, port);
    var k := |name|;
    TailOfPortPath(name, sep, bus, port);
    BusLineOfTail(line, k, name, bus, port);
  }

  /** A line that ends in a tail holding the padded numbers reads back as its name and the numbers. */
  lemma BusLineOfTail(line: string, k: nat, name: string, bus: nat, port: nat)
    requires 1 <= k && k + 14 == |line| && TailAt(line, k) && line[..k] == name
    requires line[k + 7..k + 10] == Pad3(bus) && line[k + 11..k + 14] == Pad3(port)
    ensures MatchBusLine(line) == Some(Detected(Trim(name), bus, port))
  {
    BusLineAt(line, k);
    DetectedOfTail(line, k, name, bus, port);
  }

  /** The device a tail names, read back from the padded numbers it holds. */
  lemma DetectedOfTail(line: string, k: nat, name: string, bus: nat, port: nat)
    requires TailAt(line, k) && line[..k] == name
    requires line[k + 7..k + 10] == Pad3(bus) && line[k + 11..k + 14] == Pad3(port)
    ensures DetectedAt(line, k) == Detected(Trim(name), bus, port)
  {
    var b, p := ThreeDigits(line, k + 7), ThreeDigits(line, k + 11);
    assert b == Pad3(bus) && p == Pad3(port);
    assert DigitsValue(b) == bus && DigitsValue(p) == port;
  }

  /** A tail that ends the line is the last one, so the match splits there. */
  lemma BusLineAt(line: string, k: nat)
    requires 1 <= k && k + 14 == |line| && TailAt(line, k)
    ensures MatchBusLine(line) == Some(DetectedAt(line, k))
  {
    var f := TailFlags(line);
    assert f[k];
    assert forall j :: k < j <= |line| ==> !f[j];
    assert LastSet(f, |line|) == Some(k);
  }

  /** The pieces of a port path. */
  lemma PortPathParts(bus: nat, port: nat)
    requires bus < 1000 && port < 1000
    ensures var pp := CreatePortPath(bus, port);
            && |pp| == 11 && pp[0..4] == "usb:" && pp[4..7] == Pad3(bus)
            && pp[7] == ',' && pp[8..11] == Pad3(port)
  {
    var pp := CreatePortPath(bus, port);
    var b, p := Pad3(bus), Pad3(port);
    assert pp == "usb:" + b + "," + p;
    assert pp[4..7] == b;
    assert pp[8..11] == p;
  }

  /** The tail pattern, character by character, from its literal and digit pieces. */
  lemma TailOfPieces(line: string, k: nat)
    requires k + 14 <= |line|
    requires !IsWordChar(line[k]) && !IsWordChar(line[k + 1]) && !IsWordChar(line[k + 2])
    requires line[k + 3..k + 7] == "usb:" && line[k + 10] == ','
    requires AllDigits(line[k + 7..k + 10]) && AllDigits(line[k + 11..k + 14])
    ensures TailAt(line, k)
  {
    var u, b, p := line[k + 3..k + 7], line[k + 7..k + 10], line[k + 11..k + 14];
    assert u[0] == line[k + 3] && u[1] == line[k + 4] && u[2] == line[k + 5] && u[3] == line[k + 6];
    assert b[0] == line[k + 7] && b[1] == line[k + 8] && b[2] == line[k + 9];
    assert p[0] == line[k + 11] && p[1] == line[k + 12] && p[2] == line[k + 13];
    assert InClass(b[0], Digit) && InClass(b[1], Digit) && InClass(b[2], Digit);
    assert InClass(p[0], Digit) && InClass(p[1], Digit) && InClass(p[2], Digit);
  }

  /** The tail pattern sits right after the name. */
  lemma TailOfPortPath(name: string, sep: string, bus: nat, port: nat)
    requires |sep| == 3 && AllIn(sep, NonWord)
    requires bus < 1000 && port < 1000
    ensures var line := name + sep + CreatePortPath(bus, port);
            && |line| == |name| + 14 && TailAt(line, |name|) && line[..|name|] == name
            && line[|name| + 7..|name| + 10] == Pad3(bus) && line[|name| + 11..|name| + 14] == Pad3(port)
  {
    var pre := name + sep;
    var pp := CreatePortPath(bus, port);
    var line := pre + pp;
    var k := |name|;
    PortPathParts(bus, port);
    SliceShift(pre, pp, 0, 4);
    SliceShift(pre, pp, 4, 7);
    SliceShift(pre, pp, 8, 11);
    assert line[k + 10] == pp[7];
    assert line[k] == sep[0] && line[k + 1] == sep[1] && line[k + 2] == sep[2];
    assert InClass(sep[0], NonWord) && InClass(sep[1], NonWord) && InClass(sep[2], NonWord);
    TailOfPieces(line, k);
    assert line[..k] == pre[..k] == name;
  }

  /** The device one line names, if it matches. */
  function Found(line: string): (r: seq<Detected>)
    ensures |r| <= 1
  {
    match MatchBusLine(line)
    case None => []
    case Some(d) => [d]
  }

  /** The devices named by the detection output, one per matching line, in line order. */
  function Snapshot(lines: seq<string>): (r: seq<Detected>)
    ensures |r| <= |lines|
    ensures forall d :: d in r <==> exists i :: 0 <= i < |lines| && MatchBusLine(lines[i]) == Some(d)
    decreases |lines|
  {
    if |lines| == 0 then []
    else
      var rest := Snapshot(lines[1..]);
      forall d | (exists i :: 0 <= i < |lines| && MatchBusLine(lines[i]) == Some(d))
        ensures d in Found(lines[0]) + rest
      {
        var i :| 0 <= i < |lines| && MatchBusLine(lines[i]) == Some(d);
        if i > 0 {
          assert lines[1..][i - 1] == lines[i];
        }
      }
      forall d | d in Found(lines[0]) + rest
        ensures exists i :: 0 <= i < |lines| && MatchBusLine(lines[i]) == Some(d)
      {
        if d !in Found(lines[0]) {
          var i :| 0 <= i < |lines| - 1 && MatchBusLine(lines[1..][i]) == Some(d);
          assert lines[1..][i] == lines[i + 1];
        }
      }
      Found(lines[0]) + rest
  }

  /** Lines that do not match contribute nothing, wherever they stand. */
  lemma {:induction false} SnapshotAppend(lines: seq<string>, line: string)
    ensures Snapshot(lines + [line]) == Snapshot(lines) + Found(line)
    decreases |lines|
  {
    if |lines| == 0 {
      assert lines + [line] == [line];
      assert [line][1..] == [];
    } else {
      assert (lines + [line])[1..] == lines[1..] + [line];
      SnapshotAppend(lines[1..], line);
    }
  }

  /** The set of (bus, port) pairs the detection output names. */
  function SnapshotPairs(lines: seq<string>): set<(nat, nat)> {
    DetectedPairs(Snapshot(lines))
  }

  function DetectedPairs(ds: seq<Detected>): set<(nat, nat)> {
    set d | d in ds :: (d.bus, d.port)
  }
}
