/**
 The transfer job of src/usbmanager.cpp (`downloadFiles`, `cancelDownload`).

 The job walks the device's inventory in order. Before each file it gives up
 if the device has been cancelled, then publishes progress, prepares the
 output directory, fetches the file, checks that it landed and, when moving,
 deletes the original. The first failure ends the job with its own state;
 otherwise the job ends Done with the number of files copied.

 What the job learns from the outside world is given per file as a FileStep:
 the state it observes, the transfer rate of the clock, and the outcome of
 each filesystem check and tool run.
 */
module Transfer {
  import opened Text
  import opened Utils
  import opened UsbDevice

  /** What the job observes while handling one file. */
  datatype FileStep = FileStep(
    cancelled: bool,    // the device is in Cancel when the file comes up
    rate: nat,          // copied kilobytes per elapsed second, as the clock gives it
    dirReady: bool,     // the output directory exists or could be created
    copy: ProcOutput,   // the fetch
    landed: bool,       // the fetched file exists at its destination
    delete: ProcOutput) // the deletion of the original (run only when moving)

  /** Sum of the sizes, in kilobytes. */
  function SumKb(files: seq<UsbFile>): nat
    decreases |files|
  {
    if |files| == 0 then 0 else SumKb(files[..|files| - 1]) + files[|files| - 1].kbSize
  }

  /** The sum over a prefix one file longer adds that file's size. */
  lemma SumKbStep(files: seq<UsbFile>, i: nat)
    requires i < |files|
    ensures SumKb(files[..i + 1]) == SumKb(files[..i]) + files[i].kbSize
  {
    assert files[..i + 1][..i] == files[..i];
  }

  /** The kilobytes copied so far never exceed the total. */
  lemma {:induction false} SumKbPrefix(files: seq<UsbFile>, i: nat, j: nat)
    requires i <= j <= |files|
    ensures SumKb(files[..i]) <= SumKb(files[..j])
    decreases j - i
  {
    if i < j {
      SumKbStep(files, j - 1);
      SumKbPrefix(files, i, j - 1);
    }
  }

  /** A file is handled completely: not cancelled, and every check and tool run succeeded. */
  predicate StepOk(s: FileStep, removeOriginals: bool) {
    && !s.cancelled
    && s.dirReady
    && !HasError(s.copy)
    && s.landed
    && !(removeOriginals && HasError(s.delete))
  }

  /** The number of files handled before the job stops. */
  function LeadingCopied(steps: seq<FileStep>, removeOriginals: bool): (k: nat)
    ensures k <= |steps|
    ensures forall j :: 0 <= j < k ==> StepOk(steps[j], removeOriginals)
    ensures k < |steps| ==> !StepOk(steps[k], removeOriginals)
    decreases |steps|
  {
    if |steps| == 0 || !StepOk(steps[0], removeOriginals) then 0
    else 1 + LeadingCopied(steps[1..], removeOriginals)
  }

  /**
   The rate published with the progress of file `j`: recomputed from the clock
   once some kilobytes have been copied, otherwise the previous value, which
   starts at 0.
   */
  function KbpsAt(files: seq<UsbFile>, steps: seq<FileStep>, j: nat): nat
    requires j < |steps| == |files|
    decreases j
  {
    if SumKb(files[..j]) != 0 then steps[j].rate
    else if j == 0 then 0
    else KbpsAt(files, steps, j - 1)
  }

  /** The rate held before file `j` comes up. */
  function KbpsBefore(files: seq<UsbFile>, steps: seq<FileStep>, j: nat): nat
    requires j <= |steps| == |files|
  {
    if j == 0 then 0 else KbpsAt(files, steps, j - 1)
  }

  /** No rate is published before a single kilobyte has been copied. */
  lemma {:induction false} KbpsZeroBeforeData(files: seq<UsbFile>, steps: seq<FileStep>, j: nat)
    requires j < |steps| == |files|
    requires SumKb(files[..j]) == 0
    ensures KbpsAt(files, steps, j) == 0
    decreases j
  {
    if j > 0 {
      SumKbPrefix(files, j - 1, j);
      KbpsZeroBeforeData(files, steps, j - 1);
    }
  }

  /** The progress record published before file `j`. */
  function ProgressAt(files: seq<UsbFile>, steps: seq<FileStep>, removeOriginals: bool, j: nat): CopyStats
    requires j < |steps| == |files|
  {
    CopyStats(removeOriginals, SumKb(files), SumKb(files[..j]), |files|, j, KbpsAt(files, steps, j))
  }

  /** The updates of the first `n` files: the start text, then one progress report per file. */
  predicate ProgressLogged(files: seq<UsbFile>, steps: seq<FileStep>, removeOriginals: bool, ups: seq<Update>, n: nat)
    requires n <= |steps| == |files|
  {
    && |ups| == n + 1 && ups[0] == Update(Copy, Text(StartText(removeOriginals)))
    && forall j :: 1 <= j < |ups| ==>
         ups[j] == Update(Copy, Progress(ProgressAt(files, steps, removeOriginals, j - 1)))
  }

  /** The report of file `n` extends the updates of the first `n` files to those of the first `n + 1`. */
  lemma ProgressLoggedNext(files: seq<UsbFile>, steps: seq<FileStep>, removeOriginals: bool, ups: seq<Update>,
                           n: nat, progress: CopyStats)
    requires n < |steps| == |files| && ProgressLogged(files, steps, removeOriginals, ups, n)
    requires progress == ProgressAt(files, steps, removeOriginals, n)
    ensures ProgressLogged(files, steps, removeOriginals, ups + [Update(Copy, Progress(progress))], n + 1)
  {
    var next := ups + [Update(Copy, Progress(progress))];
    assert forall j :: 0 <= j < n + 1 ==> next[j] == ups[j];
  }

  /** A closing update after the reports of the first `n` files. */
  lemma ProgressLoggedEnd(files: seq<UsbFile>, steps: seq<FileStep>, removeOriginals: bool, ups: seq<Update>,
                          n: nat, last: Update)
    requires n <= |steps| == |files| && ProgressLogged(files, steps, removeOriginals, ups, n)
    ensures var all := ups + [last];
            && |all| == n + 2 && all[0] == Update(Copy, Text(StartText(removeOriginals)))
            && (forall j :: 1 <= j < |all| - 1 ==>
                  all[j] == Update(Copy, Progress(ProgressAt(files, steps, removeOriginals, j - 1))))
            && all[|all| - 1] == last
  {
    var all := ups + [last];
    assert forall j :: 0 <= j < n + 1 ==> all[j] == ups[j];
  }

  function StartText(removeOriginals: bool): string {
    (if removeOriginals then "Moving" else "Copying") + " files..."
  }

  function DoneText(copied: nat, timeTaken: string): string {
    "Done! Copied " + NatToString(copied) + " files. Took " + timeTaken
  }

  /**
   The path a Qt directory object reports for `p`: one trailing slash is
   dropped unless it is the whole path.
   */
  function DirPath(p: string): (r: string)
    ensures p == r || p == r + "/"
    ensures r == p <==> |p| <= 1 || p[|p| - 1] != '/'
  {
    if |p| > 1 && p[|p| - 1] == '/' then p[..|p| - 1] else p
  }

  /**
   The directory the job reports for `destPath` and a slug: the joined path,
   except that an empty slug reports `destPath` itself (or the root).
   */
  lemma OutDirPath(destPath: string, slug: string)
    ensures slug == "" && destPath != "" ==> DirPath(destPath + "/" + slug) == destPath
    ensures slug == "" && destPath == "" ==> DirPath(destPath + "/" + slug) == "/"
    ensures slug != "" && slug[|slug| - 1] != '/' ==> DirPath(destPath + "/" + slug) == destPath + "/" + slug
  {
    var p := destPath + "/" + slug;
    if slug == "" {
      assert p == destPath + "/";
    } else {
      assert p[|p| - 1] == slug[|slug| - 1];
    }
  }

  /**
   How a file that was not cancelled but failed ends the job: a directory
   that cannot be created and a file that did not land are errors, a failed
   fetch ends Done with the tool's error text, a failed deletion is an error
   with the tool's error text.
   */
  function FailureUpdate(s: FileStep, outDir: string): (u: Update)
    ensures u.state == Done <==> s.dirReady && HasError(s.copy)
    ensures u.state == Error <==> !(s.dirReady && HasError(s.copy))
    ensures !s.dirReady ==> u.parm == Text("Failed to create dir:\n" + DirPath(outDir))
    ensures s.dirReady && HasError(s.copy) ==> u.parm == Text(s.copy.err)
    ensures s.dirReady && !HasError(s.copy) && !s.landed ==> u.parm == Text("File not copied")
    ensures s.dirReady && !HasError(s.copy) && s.landed ==> u.parm == Text(s.delete.err)
  {
    if !s.dirReady then Update(Error, Text("Failed to create dir:\n" + DirPath(outDir)))
    else if HasError(s.copy) then Update(Done, Text(s.copy.err))
    else if !s.landed then Update(Error, Text("File not copied"))
    else Update(Error, Text(s.delete.err))
  }

  /**
   `downloadFiles`: the state requests the job issues, in order, with the
   counters it ends with. The output directory is `destPath/slug`, where the
   slug of the device name is given; a failure to create it reports the
   directory as DirPath shows it.
   */
  method DownloadFiles(files: seq<UsbFile>, removeOriginals: bool, destPath: string, slug: string,
                       steps: seq<FileStep>, timeTaken: string)
    returns (ups: seq<Update>, copiedFiles: nat, copiedKbs: nat)
    requires |steps| == |files|
    ensures copiedFiles == LeadingCopied(steps, removeOriginals)
    ensures copiedKbs == SumKb(files[..copiedFiles]) && copiedKbs <= SumKb(files)
    ensures var k := LeadingCopied(steps, removeOriginals);
            var failed := k < |files| && !steps[k].cancelled;
            && |ups| == k + (if failed then 3 else 2)
            && ups[0] == Update(Copy, Text(StartText(removeOriginals)))
            && (forall j :: 1 <= j < |ups| - 1 ==>
                  ups[j] == Update(Copy, Progress(ProgressAt(files, steps, removeOriginals, j - 1))))
            && ups[|ups| - 1] == (if failed then FailureUpdate(steps[k], destPath + "/" + slug)
                                  else Update(Done, Text(DoneText(k, timeTaken))))
  {
    var k := LeadingCopied(steps, removeOriginals);
    var outDir := destPath + "/" + slug;
    ups := [Update(Copy, Text(StartText(removeOriginals)))];
    copiedFiles, copiedKbs := 0, 0;
    var kbps := 0;
    var i := 0;
    while i < |files|
      invariant i <= k && copiedFiles == i
      invariant copiedKbs == SumKb(files[..i])
      invariant kbps == KbpsBefore(files, steps, i)
      invariant ProgressLogged(files, steps, removeOriginals, ups, i)
    {
      var s := steps[i];
      if s.cancelled {
        break;
      }
      if copiedKbs != 0 {
        kbps := s.rate;
      }
      var progress := CopyStats(removeOriginals, SumKb(files), copiedKbs, |files|, copiedFiles, kbps);
      assert progress == ProgressAt(files, steps, removeOriginals, i);
      ProgressLoggedNext(files, steps, removeOriginals, ups, i, progress);
      ups := ups + [Update(Copy, Progress(progress))];
      if !StepOk(s, removeOriginals) {
        assert k == i;
        SumKbPrefix(files, i, |files|);
        assert files[..|files|] == files;
        ProgressLoggedEnd(files, steps, removeOriginals, ups, i + 1, FailureUpdate(s, outDir));
        ups := ups + [FailureUpdate(s, outDir)];
        return;
      }
      SumKbStep(files, i);
      copiedKbs := copiedKbs + files[i].kbSize;
      copiedFiles := copiedFiles + 1;
      i := i + 1;
    }
    assert k == i;
    SumKbPrefix(files, i, |files|);
    assert files[..|files|] == files;
    ProgressLoggedEnd(files, steps, removeOriginals, ups, i, Update(Done, Text(DoneText(copiedFiles, timeTaken))));
    ups := ups + [Update(Done, Text(DoneText(copiedFiles, timeTaken)))];
  }

  /** `cancelDownload`: the device goes to Cancel with no payload; the job sees it before its next file. */
  function CancelDownload(d: Device): (r: Transition)
    ensures r.dev.state == Cancel && r.dev.parm == NoParm
    ensures SameIdentity(r.dev, d) && r.dev.files == d.files
    ensures |r.emitted| <= 1
  {
    SetState(d, Cancel, NoParm)
  }
}
