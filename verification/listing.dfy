/**
 File listing (src/usbmanager.cpp `listFiles`): the line-oriented parser of
 the listing tool's output and the two halves of the job, the synchronous
 start and the completion that runs back on the controlling thread.
 */
module Listing {
  import opened Wrappers
  import opened Text
  import opened Utils
  import opened UsbDevice
  import opened Extensions
  import opened Registry

  // ------------------------------------------------------- folder headers

  /** Length of the text before the digits and of the text between digits and path. */
  const HeaderStart: string := "There are "
  const HeaderMiddle: string := " files in folder '"

  /**
   `There are \d+ files in folder '([^']+)'` anchored at the start of `s`:
   the quoted path, which is non-empty and must be closed by a quote.
   */
  function FolderAtStart(s: string): (r: Option<string>)
    ensures r.Some? ==> |r.value| > 0 && AllIn(r.value, NotQuote)
  {
    if !StartsAt(s, 0, HeaderStart) then None
    else
      var s1 := s[|HeaderStart|..];
      var a := RunEnd(s1, 0, Digit);
      if a == 0 then None
      else
        var s2 := s1[a..];
        if !StartsAt(s2, 0, HeaderMiddle) then None
        else
          var s3 := s2[|HeaderMiddle|..];
          var q := RunEnd(s3, 0, NotQuote);
          if q == 0 || q == |s3| then None
          else Some(s3[..q])
  }

  /** The leftmost folder-header match at or after `i`. */
  function MatchFolderFrom(line: string, i: nat): (r: Option<string>)
    requires i <= |line|
    ensures r.Some? ==> |r.value| > 0 && AllIn(r.value, NotQuote)
    decreases |line| - i
  {
    if i == |line| then None
    else match FolderAtStart(line[i..])
      case Some(f) => Some(f)
      case None => MatchFolderFrom(line, i + 1)
  }

  /** `reFolder` searched anywhere in the line. */
  function MatchFolder(line: string): (r: Option<string>)
    ensures r.Some? ==> |r.value| > 0 && AllIn(r.value, NotQuote)
  {
    MatchFolderFrom(line, 0)
  }

  // ---------------------------------------------------------- file lines

  /** The captures of a file line that the parser uses: the name and the size field. */
  datatype FileFields = FileFields(name: string, kbSize: nat)

  /**
   `(\d+)\W+([\w|.]+)\W+(\w+)\W+(\d+)\W+KB\W+(.+)` anchored at the start of
   `s` (the text after a '#'). Each repetition takes its longest run.
   */
  function FileAtStart(s: string): (r: Option<FileFields>)
    ensures r.Some? ==> |r.value.name| > 0 && AllIn(r.value.name, NameChar)
                        && r.value.kbSize <= MaxInt32
  {
    var a := RunEnd(s, 0, Digit);
    if a == 0 then None else
    var s1 := s[a..];
    var b := RunEnd(s1, 0, NonWord);
    if b == 0 then None else
    var s2 := s1[b..];
    var n := RunEnd(s2, 0, NameChar);
    if n == 0 then None else
    var name := s2[..n];
    assert AllIn(name, NameChar) by {
      forall j | 0 <= j < |name| ensures InClass(name[j], NameChar) {
        assert name[j] == s2[j];
      }
    }
    var size := SizeAfterName(s2[n..]);
    if size.None? then None else Some(FileFields(name, size.value))
  }

  /** `\W+(\w+)\W+(\d+)\W+KB\W+(.+)` anchored at the start of `s`: the size field. */
  function SizeAfterName(s: string): (r: Option<nat>)
    ensures r.Some? ==> r.value <= MaxInt32
  {
    var c := RunEnd(s, 0, NonWord);
    if c == 0 then None else
    var s4 := s[c..];
    var f := RunEnd(s4, 0, Word);
    if f == 0 then None else
    var s5 := s4[f..];
    var g := RunEnd(s5, 0, NonWord);
    if g == 0 then None else
    var s6 := s5[g..];
    var z := RunEnd(s6, 0, Digit);
    if z == 0 then None else
    if KbTail(s6[z..]) then Some(ToInt32(s6[..z])) else None
  }

  /** `\W+KB\W+(.+)` anchored at the start of `s`: one non-word character and one more after "KB". */
  predicate KbTail(s: string) {
    var h := RunEnd(s, 0, NonWord);
    h > 0 && StartsAt(s[h..], 0, "KB") && |s[h + 2..]| >= 2 && !IsWordChar(s[h + 2])
  }

  /** The leftmost '#' at or after `i` from which a file line matches. */
  function MatchFileFrom(line: string, i: nat): (r: Option<FileFields>)
    requires i <= |line|
    ensures r.Some? ==> |r.value.name| > 0 && AllIn(r.value.name, NameChar)
    decreases |line| - i
  {
    if i == |line| then None
    else if line[i] == '#' && FileAtStart(line[i + 1..]).Some? then FileAtStart(line[i + 1..])
    else MatchFileFrom(line, i + 1)
  }

  /** `reFile` searched anywhere in the line. */
  function MatchFile(line: string): (r: Option<FileFields>)
    ensures r.Some? ==> |r.value.name| > 0 && AllIn(r.value.name, NameChar)
  {
    MatchFileFrom(line, 0)
  }

  /** A header line as the listing tool prints it, and what it must look like to be read. */
  function HeaderLine(count: string, path: string, rest: string): string {
    HeaderStart + (count + (HeaderMiddle + (path + ("'" + rest))))
  }

  /** A header line reads back as its folder. */
  lemma {:induction false} HeaderLineRoundTrip(count: string, path: string, rest: string)
    requires |count| > 0 && AllDigits(count)
    requires |path| > 0 && AllIn(path, NotQuote)
    ensures MatchFolder(HeaderLine(count, path, rest)) == Some(path)
  {
    var t3 := path + ("'" + rest);
    var t2 := HeaderMiddle + t3;
    var t1 := count + t2;
    var line := HeaderStart + t1;
    assert line[..|HeaderStart|] == HeaderStart && line[|HeaderStart|..] == t1;
    RunPrefix(count, t2, Digit);
    assert t2[..|HeaderMiddle|] == HeaderMiddle && t2[|HeaderMiddle|..] == t3;
    RunPrefix(path, "'" + rest, NotQuote);
    assert line[0..] == line;
    assert FolderAtStart(line) == Some(path);
  }

  /** The fields of a file line, separators included. */
  datatype FileLineParts = FileLineParts(
    index: string, sep1: string, name: string, sep2: string, flags: string,
    sep3: string, size: string, sep4: string, sep5: string, rest: string)

  /** `#<index> <name> <flags> <size> KB <rest>` with the given separators. */
  function FileLine(p: FileLineParts): string {
    "#" + (p.index + (p.sep1 + (p.name + (p.sep2 + (p.flags + (p.sep3 + (p.size + (p.sep4 + ("KB" + (p.sep5 + p.rest))))))))))
  }

  /**
   A file line whose fields are separated by runs of non-word characters:
   the name starts with a word character and the separator after it does not
   start with '|' or '.', so that the name's boundaries are unambiguous.
   */
  predicate WellFormedFileLine(p: FileLineParts) {
    && |p.index| > 0 && AllDigits(p.index)
    && |p.sep1| > 0 && AllIn(p.sep1, NonWord)
    && |p.name| > 0 && AllIn(p.name, NameChar) && IsWordChar(p.name[0])
    && |p.sep2| > 0 && AllIn(p.sep2, NonWord) && p.sep2[0] != '|' && p.sep2[0] != '.'
    && |p.flags| > 0 && AllIn(p.flags, Word)
    && |p.sep3| > 0 && AllIn(p.sep3, NonWord)
    && |p.size| > 0 && AllDigits(p.size)
    && |p.sep4| > 0 && AllIn(p.sep4, NonWord)
    && |p.sep5| > 0 && AllIn(p.sep5, NonWord)
    && |p.rest| > 0
  }

  /** A well-formed file line reads back as its name and its size. */
  lemma FileLineRoundTrip(p: FileLineParts)
    requires WellFormedFileLine(p)
    ensures MatchFile(FileLine(p)) == Some(FileFields(p.name, ToInt32(p.size)))
  {
    var t3 := p.sep2 + (p.flags + (p.sep3 + (p.size + (p.sep4 + ("KB" + (p.sep5 + p.rest))))));
    var t2 := p.name + t3;
    var t1 := p.sep1 + t2;
    var t0 := p.index + t1;
    assert t1[0] == p.sep1[0] && InClass(p.sep1[0], NonWord);
    RunPrefix(p.index, t1, Digit);
    RunPrefix(p.sep1, t2, NonWord);
    assert t3[0] == p.sep2[0] && InClass(p.sep2[0], NonWord);
    RunPrefix(p.name, t3, NameChar);
    SizeAfterNameOfParts(p);
    assert FileAtStart(t0) == Some(FileFields(p.name, ToInt32(p.size)));
    assert FileLine(p)[1..] == t0;
  }

  /** The fields after the name of a well-formed line read back as the size. */
  lemma SizeAfterNameOfParts(p: FileLineParts)
    requires WellFormedFileLine(p)
    ensures SizeAfterName(p.sep2 + (p.flags + (p.sep3 + (p.size + (p.sep4 + ("KB" + (p.sep5 + p.rest)))))))
            == Some(ToInt32(p.size))
  {
    var t7 := p.sep4 + ("KB" + (p.sep5 + p.rest));
    var t6 := p.size + t7;
    var t5 := p.sep3 + t6;
    var t4 := p.flags + t5;
    assert t4[0] == p.flags[0] && InClass(p.flags[0], Word);
    RunPrefix(p.sep2, t4, NonWord);
    assert t5[0] == p.sep3[0] && InClass(p.sep3[0], NonWord);
    RunPrefix(p.flags, t5, Word);
    assert t6[0] == p.size[0] && InClass(p.size[0], Digit);
    RunPrefix(p.sep3, t6, NonWord);
    assert t7[0] == p.sep4[0] && InClass(p.sep4[0], NonWord);
    RunPrefix(p.size, t7, Digit);
    KbTailOfParts(p.sep4, p.sep5, p.rest);
  }

  /** A separator, "KB", a separator and a non-empty rest form the closing part of a file line. */
  lemma KbTailOfParts(sep4: string, sep5: string, rest: string)
    requires |sep4| > 0 && AllIn(sep4, NonWord)
    requires |sep5| > 0 && AllIn(sep5, NonWord) && |rest| > 0
    ensures KbTail(sep4 + ("KB" + (sep5 + rest)))
  {
    var t9 := sep5 + rest;
    var t8 := "KB" + t9;
    RunPrefix(sep4, t8, NonWord);
    assert t8[..2] == "KB" && t8[2..] == t9;
    assert InClass(sep5[0], NonWord);
  }

  /** `QFileInfo(name).suffix()`: the text after the last '.', empty without one. */
  function Suffix(name: string): (r: string)
    ensures (forall j :: 0 <= j < |name| ==> name[j] != '.') ==> r == ""
    ensures forall j :: 0 <= j < |r| ==> r[j] != '.'
    ensures |r| <= |name| && r == name[|name| - |r|..]
    ensures (exists j :: 0 <= j < |name| && name[j] == '.') ==> |r| < |name| && name[|name| - |r| - 1] == '.'
  {
    match AfterLast(name, '.')
    case None => ""
    case Some(k) => name[k..]
  }

  // -------------------------------------------------------------- parsing

  /** The folder in force after `line`: a header line replaces it. */
  function NextFolder(line: string, folder: string): string {
    match MatchFolder(line)
    case Some(f) => f
    case None => folder
  }

  /** The folder in force after `lines`, starting from `folder`. */
  function FolderAfter(lines: seq<string>, folder: string): string
    decreases |lines|
  {
    if |lines| == 0 then folder else FolderAfter(lines[1..], NextFolder(lines[0], folder))
  }

  /** What one line contributes, given the folder in force. */
  function LineEntry(line: string, folder: string): (r: seq<UsbFile>)
    ensures |r| <= 1
    ensures |r| == 1 ==> MatchFolder(line).None? && MatchFile(line).Some?
                         && r[0].path == folder + "/" + MatchFile(line).value.name
                         && r[0].kbSize == MatchFile(line).value.kbSize
                         && Allowed(Suffix(MatchFile(line).value.name))
    ensures MatchFolder(line).None? && MatchFile(line).Some? && Allowed(Suffix(MatchFile(line).value.name))
            ==> |r| == 1
  {
    if MatchFolder(line).Some? then []
    else match MatchFile(line)
      case None => []
      case Some(ff) =>
        if Allowed(Suffix(ff.name)) then [UsbFile(folder + "/" + ff.name, ff.kbSize)] else []
  }

  /**
   The parser loop: a header line sets the current folder, a file line with
   an allowed suffix yields an entry in that folder, every other line is
   skipped.
   */
  function ParseFrom(lines: seq<string>, folder: string): (r: seq<UsbFile>)
    ensures |r| <= |lines|
    decreases |lines|
  {
    if |lines| == 0 then []
    else LineEntry(lines[0], folder) + ParseFrom(lines[1..], NextFolder(lines[0], folder))
  }

  /**
   The listing of a device: the current folder is empty before the first
   header; an entry is listed exactly when some line contributes it.
   */
  function ParseListing(lines: seq<string>): (r: seq<UsbFile>)
    ensures |r| <= |lines|
    ensures forall f :: f in r <==> exists i :: EntryOf(lines, "", i, f)
  {
    ParsedEntriesFromLines(lines, "");
    ParseFrom(lines, "")
  }

  /**
   Parsing streams: the entries of a longer output extend those of its
   prefix, in line order, with what the new line contributes in the folder
   then in force.
   */
  lemma {:induction false} ParseAppend(lines: seq<string>, line: string, folder: string)
    ensures ParseFrom(lines + [line], folder)
            == ParseFrom(lines, folder) + LineEntry(line, FolderAfter(lines, folder))
    ensures FolderAfter(lines + [line], folder) == NextFolder(line, FolderAfter(lines, folder))
    decreases |lines|
  {
    if |lines| == 0 {
      assert lines + [line] == [line];
      assert [line][1..] == [];
    } else {
      assert (lines + [line])[0] == lines[0];
      assert (lines + [line])[1..] == lines[1..] + [line];
      ParseAppend(lines[1..], line, NextFolder(lines[0], folder));
    }
  }

  /** Line `i` of `lines` contributes exactly the entry `f`. */
  predicate EntryOf(lines: seq<string>, folder: string, i: int, f: UsbFile) {
    0 <= i < |lines| && LineEntry(lines[i], FolderAfter(lines[..i], folder)) == [f]
  }

  /** An entry of the tail is an entry of the whole output, one line further on. */
  lemma EntryShift(lines: seq<string>, folder: string, i: int, f: UsbFile)
    requires |lines| > 0
    requires EntryOf(lines[1..], NextFolder(lines[0], folder), i, f)
    ensures EntryOf(lines, folder, i + 1, f)
  {
    var tail := lines[1..];
    assert tail[i] == lines[i + 1];
    assert lines[..i + 1][0] == lines[0] && lines[..i + 1][1..] == tail[..i];
    assert FolderAfter(lines[..i + 1], folder) == FolderAfter(tail[..i], NextFolder(lines[0], folder));
  }

  /** An entry of the whole output past its first line is an entry of the tail. */
  lemma EntryUnshift(lines: seq<string>, folder: string, i: int, f: UsbFile)
    requires EntryOf(lines, folder, i, f) && i > 0
    ensures EntryOf(lines[1..], NextFolder(lines[0], folder), i - 1, f)
  {
    var tail := lines[1..];
    assert tail[i - 1] == lines[i];
    assert lines[..i][0] == lines[0] && lines[..i][1..] == tail[..i - 1];
    assert FolderAfter(lines[..i], folder) == FolderAfter(tail[..i - 1], NextFolder(lines[0], folder));
  }

  /**
   The parsed entries are exactly the contributions of the lines of the
   output: by the contract of LineEntry, each is a file line with an allowed
   suffix, seen in the folder in force at that line.
   */
  lemma {:induction false} ParsedEntriesFromLines(lines: seq<string>, folder: string)
    ensures forall f :: f in ParseFrom(lines, folder) ==> exists i :: EntryOf(lines, folder, i, f)
    ensures forall f, i :: EntryOf(lines, folder, i, f) ==> f in ParseFrom(lines, folder)
    decreases |lines|
  {
    if |lines| > 0 {
      var next := NextFolder(lines[0], folder);
      var tail := lines[1..];
      ParsedEntriesFromLines(tail, next);
      forall f, i | EntryOf(lines, folder, i, f)
        ensures f in ParseFrom(lines, folder)
      {
        if i == 0 {
          assert lines[..0] == [];
          assert LineEntry(lines[0], folder) == [f];
        } else {
          EntryUnshift(lines, folder, i, f);
        }
      }
      forall f | f in ParseFrom(lines, folder)
        ensures exists i :: EntryOf(lines, folder, i, f)
      {
        var e := LineEntry(lines[0], folder);
        if f in e {
          assert e == [f];
          assert lines[..0] == [];
          assert EntryOf(lines, folder, 0, f);
        } else {
          assert f in ParseFrom(tail, next);
          var i :| EntryOf(tail, next, i, f);
          EntryShift(lines, folder, i, f);
        }
      }
    }
  }

  // ----------------------------------------------------------- lifecycle

  const ListingText: string := "Listing files..."

  /** The count message of a finished listing. */
  function FilesOnDeviceText(n: nat): string {
    "Files on device: " + NatToString(n)
  }

  /** The synchronous start of `listFiles`: the device enters Init with the listing message. */
  function BeginListing(d: Device): (r: Transition)
    ensures r.dev.state == Init && r.dev.parm == Text(ListingText)
    ensures SameIdentity(r.dev, d) && r.dev.files == d.files
    ensures |r.emitted| <= 1
  {
    SetState(d, Init, Text(ListingText))
  }

  /** The registry after the completion step, with what the affected device emitted. */
  datatype Completion = Completion(devices: seq<Device>, emitted: seq<Notification>)

  /**
   The completion of `listFiles` for the device at (bus, port): nothing when
   that device is gone; on a tool error the device goes to Error with the
   error text; otherwise its inventory is replaced by the parsed listing and,
   only if it is still Init or Idle, it goes to Idle with the file count.
   */
  function FinishListing(devs: seq<Device>, bus: nat, port: nat, out: ProcOutput): (r: Completion)
    ensures |r.devices| == |devs| && Pairs(r.devices) == Pairs(devs)
    ensures UniquePairs(devs) ==> UniquePairs(r.devices)
    ensures Find(devs, bus, port).None? ==> r == Completion(devs, [])
    ensures Find(devs, bus, port).Some? ==>
              var i := Find(devs, bus, port).value;
              var d, e := devs[i], r.devices[i];
              && (forall j :: 0 <= j < |devs| && j != i ==> r.devices[j] == devs[j])
              && SameIdentity(e, d)
              && (HasError(out) ==> e.state == Error && e.parm == Text(out.err) && e.files == d.files)
              && (!HasError(out) ==> e.files == ParseListing(out.lines))
              && (!HasError(out) && (d.state == Init || d.state == Idle) ==>
                    e.state == Idle && e.parm == Text(FilesOnDeviceText(|ParseListing(out.lines)|)))
              && (!HasError(out) && d.state != Init && d.state != Idle ==>
                    e.state == d.state && e.parm == d.parm && r.emitted == [])
              && |r.emitted| <= 1
              && (r.emitted == [] || r.emitted == [StateChanged(e.state, e.parm)])
  {
    match Find(devs, bus, port)
    case None => Completion(devs, [])
    case Some(i) =>
      if HasError(out) then
        var t := SetState(devs[i], Error, Text(out.err));
        ReplaceKeepsPairs(devs, i, t.dev);
        Completion(devs[i := t.dev], t.emitted)
      else
        var files := ParseListing(out.lines);
        var d := SetFiles(devs[i], files);
        ReplaceKeepsPairs(devs, i, d);
        if d.state == Idle || d.state == Init then
          var t := SetState(d, Idle, Text(FilesOnDeviceText(|files|)));
          ReplaceKeepsPairs(devs, i, t.dev);
          Completion(devs[i := t.dev], t.emitted)
        else
          Completion(devs[i := d], [])
  }

  /**
   Without interference between its two halves a successful listing always
   ends with the device Idle, holding exactly the parsed files, and it
   notified Init then Idle.
   */
  lemma ListFilesLifecycle(devs: seq<Device>, i: nat, out: ProcOutput)
    requires i < |devs| && UniquePairs(devs)
    requires !HasError(out)
    ensures var d := devs[i];
            var start := BeginListing(d);
            var r := FinishListing(devs[i := start.dev], d.bus, d.port, out);
            && r.devices[i].state == Idle
            && r.devices[i].files == ParseListing(out.lines)
            && r.devices[i].parm == Text(FilesOnDeviceText(|ParseListing(out.lines)|))
            && r.emitted == [StateChanged(Idle, Text(FilesOnDeviceText(|ParseListing(out.lines)|)))]
  {
    var d := devs[i];
    var start := BeginListing(d);
    var devs' := devs[i := start.dev];
    ReplaceKeepsPairs(devs, i, start.dev);
    var k := Find(devs', d.bus, d.port);
    assert Pair(devs'[i]) == (d.bus, d.port);
    assert k == Some(i);
  }
}
