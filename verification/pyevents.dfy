/**
 The kernel-log filter of the Python revision (usb.py `_isUsbEvent` and
 `_onMessageReceived`): a log line that reports a new USB device or a USB
 disconnect makes the manager refresh.
 */
module PyEvents {
  import opened Wrappers
  import opened Text

  const EvtRemove: string := "remove"
  const EvtUpdate: string := "update"
  /** A new device is reported with the same tag as an update. */
  const EvtAdded: string := "update"

  const AddText: string := "New USB device found"
  const RemoveText: string := "USB disconnect"

  /** `usb\W(\d+-\d+):\W` followed by `lit`, at the start of `u`. */
  predicate BusAtStart(u: string, lit: string) {
    && StartsAt(u, 0, "usb") && |u| > 3 && !IsWordChar(u[3])
    && BusNumbersAtStart(u[4..], lit)
  }

  /** `\d+-\d+:\W` followed by `lit`, at the start of `v`. */
  predicate BusNumbersAtStart(v: string, lit: string) {
    var a := RunEnd(v, 0, Digit);
    && 0 < a < |v| && v[a] == '-'
    && PortColonAtStart(v[a + 1..], lit)
  }

  /** `\d+:\W` followed by `lit`, at the start of `w`. */
  predicate PortColonAtStart(w: string, lit: string) {
    var b := RunEnd(w, 0, Digit);
    && 0 < b && b + 1 < |w| && w[b] == ':' && !IsWordChar(w[b + 1])
    && StartsAt(w, b + 2, lit)
  }

  /** `re.search`: the pattern matches at some index at or after `i`. */
  predicate SearchFrom(s: string, i: nat, lit: string)
    requires i <= |s|
    decreases |s| - i
  {
    BusAtStart(s[i..], lit) || (i < |s| && SearchFrom(s, i + 1, lit))
  }

  /** A match at index `k` is found by the search from any earlier index. */
  lemma {:induction false} SearchWitness(s: string, i: nat, k: nat, lit: string)
    requires i <= k <= |s| && BusAtStart(s[k..], lit)
    ensures SearchFrom(s, i, lit)
    decreases k - i
  {
    if i < k {
      SearchWitness(s, i + 1, k, lit);
    }
  }

  /** A search that succeeds names the index where the pattern matches. */
  lemma {:induction false} SearchFound(s: string, i: nat, lit: string) returns (k: nat)
    requires i <= |s| && SearchFrom(s, i, lit)
    ensures i <= k <= |s| && BusAtStart(s[k..], lit)
    decreases |s| - i
  {
    if BusAtStart(s[i..], lit) {
      k := i;
    } else {
      k := SearchFound(s, i + 1, lit);
    }
  }

  predicate Search(s: string, lit: string) {
    SearchFrom(s, 0, lit)
  }

  /**
   `_isUsbEvent`: the add pattern is tried first and yields the update tag;
   then the remove pattern; any other line yields nothing.
   */
  function IsUsbEvent(line: string): (r: Option<string>)
    ensures r == Some(EvtAdded) <==> Search(line, AddText)
    ensures r == Some(EvtRemove) <==> !Search(line, AddText) && Search(line, RemoveText)
    ensures r == None <==> !Search(line, AddText) && !Search(line, RemoveText)
  {
    if Search(line, AddText) then Some(EvtAdded)
    else if Search(line, RemoveText) then Some(EvtRemove)
    else None
  }

  /** `_onMessageReceived`: a refresh follows when the tag is truthy, that is present and non-empty. */
  function TriggersRefresh(line: string): (b: bool)
    ensures b <==> Search(line, AddText) || Search(line, RemoveText)
  {
    var tag := IsUsbEvent(line);
    tag.Some? && |tag.value| > 0
  }

  /** A kernel log line: `usb`, a separator, `bus-port`, ':', a separator, the message. */
  function KernelLine(pre: string, sep1: char, bus: string, port: string, sep2: char, message: string): string {
    pre + ("usb" + ([sep1] + (bus + ("-" + (port + (":" + ([sep2] + message)))))))
  }

  /** The message of a kernel line matches right after its prefix. */
  lemma KernelLineMatches(pre: string, sep1: char, bus: string, port: string, sep2: char, message: string)
    requires !IsWordChar(sep1) && !IsWordChar(sep2)
    requires |bus| > 0 && AllDigits(bus) && |port| > 0 && AllDigits(port)
    ensures Search(KernelLine(pre, sep1, bus, port, sep2, message), message)
  {
    var w := port + (":" + ([sep2] + message));
    var v := bus + ("-" + w);
    var u := "usb" + ([sep1] + v);
    var s := pre + u;
    assert KernelLine(pre, sep1, bus, port, sep2, message) == s;
    PortColonOf(port, sep2, message);
    BusNumbersOf(bus, w, message);
    BusOf(sep1, v, message);
    assert s[|pre|..] == u;
    SearchWitness(s, 0, |pre|, message);
  }

  lemma PortColonOf(port: string, sep2: char, message: string)
    requires !IsWordChar(sep2) && |port| > 0 && AllDigits(port)
    ensures PortColonAtStart(port + (":" + ([sep2] + message)), message)
  {
    var w := port + (":" + ([sep2] + message));
    RunPrefix(port, ":" + ([sep2] + message), Digit);
    assert w[|port|] == ':' && w[|port| + 1] == sep2;
    assert w[|port| + 2..] == message;
  }

  lemma BusNumbersOf(bus: string, w: string, message: string)
    requires |bus| > 0 && AllDigits(bus) && PortColonAtStart(w, message)
    ensures BusNumbersAtStart(bus + ("-" + w), message)
  {
    var v := bus + ("-" + w);
    RunPrefix(bus, "-" + w, Digit);
    assert v[|bus|] == '-' && v[|bus| + 1..] == w;
  }

  lemma BusOf(sep1: char, v: string, message: string)
    requires !IsWordChar(sep1) && BusNumbersAtStart(v, message)
    ensures BusAtStart("usb" + ([sep1] + v), message)
  {
    var u := "usb" + ([sep1] + v);
    assert u[..3] == "usb" && u[3] == sep1 && u[4..] == v;
  }

  /** A "New USB device found" line is reported as an update and triggers a refresh. */
  lemma NewDeviceTriggers(pre: string, sep1: char, bus: string, port: string, sep2: char, rest: string)
    requires !IsWordChar(sep1) && !IsWordChar(sep2)
    requires |bus| > 0 && AllDigits(bus) && |port| > 0 && AllDigits(port)
    ensures var line := KernelLine(pre, sep1, bus, port, sep2, AddText + rest);
            IsUsbEvent(line) == Some(EvtUpdate) && TriggersRefresh(line)
  {
    var line := KernelLine(pre, sep1, bus, port, sep2, AddText + rest);
    KernelLineMatches(pre, sep1, bus, port, sep2, AddText + rest);
    PrefixSearch(line, AddText, rest);
  }

  /**
   A "USB disconnect" line triggers a refresh; it is reported as a removal
   unless the same line also reports a new device.
   */
  lemma DisconnectTriggers(pre: string, sep1: char, bus: string, port: string, sep2: char, rest: string)
    requires !IsWordChar(sep1) && !IsWordChar(sep2)
    requires |bus| > 0 && AllDigits(bus) && |port| > 0 && AllDigits(port)
    ensures var line := KernelLine(pre, sep1, bus, port, sep2, RemoveText + rest);
            && TriggersRefresh(line)
            && (IsUsbEvent(line) == Some(EvtRemove) <==> !Search(line, AddText))
  {
    var line := KernelLine(pre, sep1, bus, port, sep2, RemoveText + rest);
    KernelLineMatches(pre, sep1, bus, port, sep2, RemoveText + rest);
    PrefixSearch(line, RemoveText, rest);
  }

  /** A match of `lit + rest` is a match of `lit`. */
  lemma PrefixSearch(s: string, lit: string, rest: string)
    requires Search(s, lit + rest)
    ensures Search(s, lit)
  {
    var k := SearchFound(s, 0, lit + rest);
    PrefixAtStart(s[k..], lit, rest);
    SearchWitness(s, 0, k, lit);
  }

  lemma PrefixAtStart(u: string, lit: string, rest: string)
    requires BusAtStart(u, lit + rest)
    ensures BusAtStart(u, lit)
  {
    var v := u[4..];
    var a := RunEnd(v, 0, Digit);
    var w := v[a + 1..];
    var b := RunEnd(w, 0, Digit);
    assert StartsAt(w, b + 2, lit + rest);
    assert w[b + 2..b + 2 + |lit|] == (lit + rest)[..|lit|] == lit;
  }
}
