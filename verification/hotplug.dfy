/**
 The hotplug filter of src/usbmanager.cpp (`listenForEvents`): the kernel
 monitor's output is cut into lines, each line is matched against the event
 pattern, and every bind or unbind event triggers a refresh of the registry.
 */
module Hotplug {
  import opened Wrappers
  import opened Text
  import opened Utils
  import opened UsbDevice
  import opened Refresh

  /** `split(QRegExp("[\r\n]"), Qt::SkipEmptyParts)`: the non-empty runs between line breaks. */
  function SplitLines(s: string): (parts: seq<string>)
    ensures forall p :: p in parts ==> |p| > 0 && AllIn(p, LineChar)
    decreases |s|
  {
    if |s| == 0 then []
    else
      var e := RunEnd(s, 0, LineChar);
      if e == 0 then SplitLines(s[1..])
      else
        assert AllIn(s[..e], LineChar) by {
          forall j | 0 <= j < e ensures InClass(s[..e][j], LineChar) {
            assert s[..e][j] == s[j];
          }
        }
        [s[..e]] + SplitLines(s[e..])
  }

  /** Lines each closed by a newline. */
  function JoinLines(lines: seq<string>): string
    decreases |lines|
  {
    if |lines| == 0 then "" else lines[0] + "\n" + JoinLines(lines[1..])
  }

  /** Non-empty lines without breaks, joined by newlines, split back into themselves. */
  lemma {:induction false} SplitJoin(lines: seq<string>)
    requires forall p :: p in lines ==> |p| > 0 && AllIn(p, LineChar)
    ensures SplitLines(JoinLines(lines)) == lines
    decreases |lines|
  {
    if |lines| > 0 {
      var rest := JoinLines(lines[1..]);
      var p := lines[0];
      var t := "\n" + rest;
      assert lines[0] in lines;
      assert JoinLines(lines) == p + t;
      RunPrefix(p, t, LineChar);
      assert t[1..] == rest;
      assert forall q :: q in lines[1..] ==> q in lines;
      SplitJoin(lines[1..]);
    }
  }

  /** `\w+\)` at the start of `w`: a word closed by a parenthesis. */
  predicate ClosedWord(w: string) {
    var e := RunEnd(w, 0, Word);
    0 < e < |w| && w[e] == ')'
  }

  /** `\(\w+\)` starts at some index from `q` on. */
  predicate ParenWordFrom(u: string, q: nat)
    decreases |u| - q
  {
    q < |u| && ((u[q] == '(' && ClosedWord(u[q + 1..])) || ParenWordFrom(u, q + 1))
  }

  /** `.+\(\w+\)` at the start of `u`: a parenthesised word after at least one character. */
  predicate ParenWordAfterFirst(u: string) {
    ParenWordFrom(u, 1)
  }

  /** Any opening parenthesis at or after `q` that starts a closed word is found. */
  lemma {:induction false} ParenWordWitness(u: string, q: nat, w: nat)
    requires q <= w < |u| && u[w] == '(' && ClosedWord(u[w + 1..])
    ensures ParenWordFrom(u, q)
    decreases w - q
  {
    if q < w {
      ParenWordWitness(u, q + 1, w);
    }
  }

  /**
   `\W+(/.+)(\(\w+)\)` anchored at the start of `t`: a run of non-word
   characters, a '/' that the run reaches (the '/' is itself non-word), then
   at least one character and a parenthesised word.
   */
  predicate EventTail(t: string) {
    SlashFrom(t, 1, RunEnd(t, 0, NonWord))
  }

  /** Some '/' at an index in [p, e) is followed by `.+\(\w+\)`. */
  predicate SlashFrom(t: string, p: nat, e: nat)
    requires e <= |t|
    decreases e - p
  {
    p < e && ((t[p] == '/' && ParenWordAfterFirst(t[p + 1..])) || SlashFrom(t, p + 1, e))
  }

  /** Any suitable '/' in [p, e) is found. */
  lemma {:induction false} SlashWitness(t: string, p: nat, e: nat, w: nat)
    requires e <= |t| && p <= w < e && t[w] == '/' && ParenWordAfterFirst(t[w + 1..])
    ensures SlashFrom(t, p, e)
    decreases w - p
  {
    if p < w {
      SlashWitness(t, p + 1, e, w);
    }
  }

  /**
   `KERNEL\[[^\]]+\]\W(\w+)\W+(/.+)(\(\w+)\)` anchored at the start of `u`:
   the action word, when the rest of the pattern matches.
   */
  function EventAtStart(u: string): (r: Option<string>)
    ensures r.Some? ==> |r.value| > 0 && AllIn(r.value, Word)
  {
    if !StartsAt(u, 0, "KERNEL[") then None
    else
      var u1 := u[7..];
      var b := RunEnd(u1, 0, NotBracket);
      if b == 0 || b + 1 >= |u1| || IsWordChar(u1[b + 1]) then None
      else
        var u2 := u1[b + 2..];
        var a := RunEnd(u2, 0, Word);
        if a == 0 || !EventTail(u2[a..]) then None
        else
          var action := u2[..a];
          assert AllIn(action, Word) by {
            forall k | 0 <= k < |action| ensures InClass(action[k], Word) {
              assert action[k] == u2[k];
            }
          }
          Some(action)
  }

  /** The pattern anchored at index `i` of `s`. */
  function EventAt(s: string, i: nat): (r: Option<string>)
    requires i <= |s|
    ensures r.Some? ==> |r.value| > 0 && AllIn(r.value, Word)
  {
    EventAtStart(s[i..])
  }

  /** The leftmost match at or after `i`. */
  function EventFrom(s: string, i: nat): (r: Option<string>)
    requires i <= |s|
    ensures r.Some? ==> |r.value| > 0 && AllIn(r.value, Word)
    ensures r.None? ==> forall k :: i <= k <= |s| ==> EventAt(s, k).None?
    decreases |s| - i
  {
    match EventAt(s, i)
    case Some(a) => Some(a)
    case None => if i == |s| then None else EventFrom(s, i + 1)
  }

  /** `reEvent` searched anywhere in one line: the action of its first match. */
  function MatchEvent(line: string): (r: Option<string>)
    ensures r.Some? ==> |r.value| > 0 && AllIn(r.value, Word)
    ensures r.None? ==> forall k :: 0 <= k <= |line| ==> EventAt(line, k).None?
  {
    EventFrom(line, 0)
  }

  /** The actions that make the registry refresh. */
  predicate Interesting(action: string) {
    action == "bind" || action == "unbind"
  }

  predicate Triggers(line: string) {
    match MatchEvent(line)
    case None => false
    case Some(a) => Interesting(a)
  }

  /** The number of refreshes one chunk of monitor output causes: one per bind or unbind line. */
  function TriggeredRefreshes(chunk: string): (n: nat)
    ensures n <= |SplitLines(chunk)|
    ensures n == 0 <==> forall l :: l in SplitLines(chunk) ==> !Triggers(l)
  {
    CountTriggers(SplitLines(chunk))
  }

  function CountTriggers(lines: seq<string>): (n: nat)
    ensures n <= |lines|
    ensures n == 0 <==> forall l :: l in lines ==> !Triggers(l)
    decreases |lines|
  {
    if |lines| == 0 then 0
    else
      assert forall l :: l in lines <==> l == lines[0] || l in lines[1..];
      (if Triggers(lines[0]) then 1 else 0) + CountTriggers(lines[1..])
  }

  /** A monitor line: `KERNEL[<stamp>] <action><gap><path> (<subsystem>)`. */
  function EventLine(stamp: string, action: string, gap: string, path: string, subsystem: string): string {
    "KERNEL[" + (stamp + ("] " + (action + (gap + (path + (" (" + (subsystem + ")")))))))
  }

  /** The action of a well-formed monitor line reads back. */
  lemma EventLineAction(stamp: string, action: string, gap: string, path: string, subsystem: string)
    requires |stamp| > 0 && AllIn(stamp, NotBracket)
    requires |action| > 0 && AllIn(action, Word)
    requires |gap| > 0 && AllIn(gap, NonWord)
    requires |path| > 0 && path[0] == '/'
    requires |subsystem| > 0 && AllIn(subsystem, Word)
    ensures MatchEvent(EventLine(stamp, action, gap, path, subsystem)) == Some(action)
  {
    var s := EventLine(stamp, action, gap, path, subsystem);
    var t := gap + (path + (" (" + (subsystem + ")")));
    assert t[0] == gap[0] && InClass(gap[0], NonWord);
    TailOfEventLine(gap, path, subsystem);
    HeadOfEventLine(stamp, action, t);
    assert s[0..] == s;
  }

  /** A line made of the head of a monitor line and a matching tail yields the action. */
  lemma HeadOfEventLine(stamp: string, action: string, t: string)
    requires |stamp| > 0 && AllIn(stamp, NotBracket)
    requires |action| > 0 && AllIn(action, Word)
    requires |t| > 0 && !IsWordChar(t[0]) && EventTail(t)
    ensures EventAtStart("KERNEL[" + (stamp + ("] " + (action + t)))) == Some(action)
  {
    var t2 := action + t;
    var t1 := "] " + t2;
    var t0 := stamp + t1;
    var u := "KERNEL[" + t0;
    assert u[..7] == "KERNEL[" && u[7..] == t0;
    assert StartsAt(u, 0, "KERNEL[");
    RunPrefix(stamp, t1, NotBracket);
    var b := |stamp|;
    assert RunEnd(t0, 0, NotBracket) == b;
    assert t0[b + 1] == ' ' && !IsWordChar(t0[b + 1]);
    assert t0[b + 2..] == t2;
    RunPrefix(action, t, Word);
    assert RunEnd(t2, 0, Word) == |action| && t2[|action|..] == t && t2[..|action|] == action;
  }

  /** The gap, path and parenthesised subsystem of a monitor line match the end of the pattern. */
  lemma TailOfEventLine(gap: string, path: string, subsystem: string)
    requires |gap| > 0 && AllIn(gap, NonWord)
    requires |path| > 0 && path[0] == '/'
    requires |subsystem| > 0 && AllIn(subsystem, Word)
    ensures EventTail(gap + (path + (" (" + (subsystem + ")"))))
  {
    var w := subsystem + ")";
    var u := path[1..] + (" (" + w);
    var t := gap + (path + (" (" + w));
    var p := |gap|;
    assert t[p] == '/' && t[p + 1..] == u;
    assert forall j :: 0 <= j < p ==> t[j] == gap[j];
    assert RunEnd(t, 0, NonWord) > p;
    var q := |path[1..]| + 1;
    assert u[q] == '(' && u[q + 1..] == w;
    RunPrefix(subsystem, ")", Word);
    assert ClosedWord(w);
    ParenWordWitness(u, 1, q);
    SlashWitness(t, 1, RunEnd(t, 0, NonWord), p);
  }

  /** Only bind and unbind trigger: add, remove and change events of the same device do not. */
  lemma OnlyBindingTriggers(stamp: string, action: string, gap: string, path: string, subsystem: string)
    requires |stamp| > 0 && AllIn(stamp, NotBracket)
    requires |action| > 0 && AllIn(action, Word)
    requires |gap| > 0 && AllIn(gap, NonWord)
    requires |path| > 0 && path[0] == '/'
    requires |subsystem| > 0 && AllIn(subsystem, Word)
    ensures Triggers(EventLine(stamp, action, gap, path, subsystem)) <==> action == "bind" || action == "unbind"
  {
    EventLineAction(stamp, action, gap, path, subsystem);
  }

  /** `n` reconciliations in a row, each applied to the registry the previous one left. */
  function Repeat(step: seq<Device> -> Outcome, devs: seq<Device>, n: nat): (r: Outcome)
    ensures n == 0 ==> r == Refreshed(devs, [])
    decreases n
  {
    if n == 0 then Refreshed(devs, [])
    else
      var first := step(devs);
      if first.Aborted? then Aborted
      else
        var rest := Repeat(step, first.devices, n - 1);
        if rest.Aborted? then Aborted else Refreshed(rest.devices, first.events + rest.events)
  }

  /** The registry refreshed `n` times in a row from the same detection output. */
  function RefreshTimes(devs: seq<Device>, out: ProcOutput, n: nat): Outcome {
    Repeat(d => RefreshDevices(d, out), devs, n)
  }

  /** A step that leaves a registry alone leaves it alone however often it is repeated. */
  lemma {:induction false} SteadyRepeat(step: seq<Device> -> Outcome, devs: seq<Device>, n: nat)
    requires step(devs) == Refreshed(devs, [])
    ensures Repeat(step, devs, n) == Refreshed(devs, [])
    decreases n
  {
    if n > 0 {
      SteadyRepeat(step, devs, n - 1);
      var none: seq<Event> := [];
      assert none + none == none;
    }
  }

  /** A step that settles after its first application gives, repeated, what its first application gives. */
  lemma SettledRepeat(step: seq<Device> -> Outcome, devs: seq<Device>, n: nat)
    requires n > 0 && step(devs).Refreshed?
    requires step(step(devs).devices) == Refreshed(step(devs).devices, [])
    ensures Repeat(step, devs, n) == step(devs)
  {
    var first := step(devs);
    SteadyRepeat(step, first.devices, n - 1);
    var none: seq<Event> := [];
    assert first.events + none == first.events;
  }

  /**
   A burst of bind/unbind events against an unchanged set of cameras costs
   repeated refreshes but has the effect of one: same registry, same signals.
   */
  lemma BurstIsOneRefresh(devs: seq<Device>, out: ProcOutput, n: nat)
    requires n > 0 && !HasError(out)
    ensures RefreshTimes(devs, out, n) == RefreshDevices(devs, out)
  {
    RefreshIdempotent(devs, out);
    SettledRepeat(d => RefreshDevices(d, out), devs, n);
  }
}
