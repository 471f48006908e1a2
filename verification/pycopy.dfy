/**
 `copyFiles_thread` of the Python revision (usb.py): every selected file is
 fetched in turn, a failed fetch is recorded and the loop goes on, and the
 device ends Error when anything failed and Done otherwise.

 Each fetch is a `runSync` call whose output and error text are given.
 */
module PyCopy {
  import opened Wrappers
  import opened Text
  import opened PyUsb

  /** What one fetch of the tool printed. */
  datatype PyRun = PyRun(out: string, err: string)

  /** A fetch fails when `runSync` raises, that is when the tool wrote to stderr. */
  predicate FetchFails(r: PyRun) {
    RunSync(r.out, r.err).Failure?
  }

  /** The indexes whose fetch succeeded (`ok`) or failed (`!ok`), in order. */
  function Outcomes(idxs: seq<nat>, runs: seq<PyRun>, ok: bool): (r: seq<nat>)
    requires |idxs| == |runs|
    ensures |r| <= |idxs|
    decreases |idxs|
  {
    if |idxs| == 0 then []
    else
      var n := |idxs| - 1;
      Outcomes(idxs[..n], runs[..n], ok) + (if FetchFails(runs[n]) != ok then [idxs[n]] else [])
  }

  /** The outcome lists over a prefix one file longer. */
  lemma OutcomesStep(idxs: seq<nat>, runs: seq<PyRun>, i: nat, ok: bool)
    requires i < |idxs| == |runs|
    ensures Outcomes(idxs[..i + 1], runs[..i + 1], ok)
            == Outcomes(idxs[..i], runs[..i], ok) + (if FetchFails(runs[i]) != ok then [idxs[i]] else [])
  {
    assert idxs[..i + 1][..i] == idxs[..i] && runs[..i + 1][..i] == runs[..i];
  }

  /** The two outcome lists of the first `i` fetches. */
  predicate Recorded(idxs: seq<nat>, runs: seq<PyRun>, i: nat, succeeded: seq<nat>, failed: seq<nat>)
    requires i <= |idxs| == |runs|
  {
    succeeded == Outcomes(idxs[..i], runs[..i], true) && failed == Outcomes(idxs[..i], runs[..i], false)
  }

  /** One more fetch, recorded in the list its outcome names. */
  lemma RecordedNext(idxs: seq<nat>, runs: seq<PyRun>, i: nat, succeeded: seq<nat>, failed: seq<nat>,
                     ok: seq<nat>, bad: seq<nat>)
    requires i < |idxs| == |runs| && Recorded(idxs, runs, i, succeeded, failed)
    requires ok == succeeded + (if FetchFails(runs[i]) then [] else [idxs[i]])
    requires bad == failed + (if FetchFails(runs[i]) then [idxs[i]] else [])
    ensures Recorded(idxs, runs, i + 1, ok, bad)
  {
    OutcomesNext(idxs, runs, i, succeeded, ok, true);
    OutcomesNext(idxs, runs, i, failed, bad, false);
  }

  /** Recording one more fetch extends an outcome list of a prefix to that of the next prefix. */
  lemma OutcomesNext(idxs: seq<nat>, runs: seq<PyRun>, i: nat, before: seq<nat>, after: seq<nat>, ok: bool)
    requires i < |idxs| == |runs|
    requires before == Outcomes(idxs[..i], runs[..i], ok)
    requires after == before + (if FetchFails(runs[i]) != ok then [idxs[i]] else [])
    ensures after == Outcomes(idxs[..i + 1], runs[..i + 1], ok)
  {
    OutcomesStep(idxs, runs, i, ok);
  }

  /** Every index lands in exactly one of the two lists. */
  lemma {:induction false} OutcomesSplit(idxs: seq<nat>, runs: seq<PyRun>)
    requires |idxs| == |runs|
    ensures |Outcomes(idxs, runs, true)| + |Outcomes(idxs, runs, false)| == |idxs|
    decreases |idxs|
  {
    if |idxs| > 0 {
      OutcomesSplit(idxs[..|idxs| - 1], runs[..|idxs| - 1]);
    }
  }

  /** Nothing failed exactly when no fetch wrote to stderr. */
  lemma {:induction false} NoFailures(idxs: seq<nat>, runs: seq<PyRun>)
    requires |idxs| == |runs|
    ensures |Outcomes(idxs, runs, false)| == 0 <==> forall i :: 0 <= i < |runs| ==> |runs[i].err| == 0
    decreases |idxs|
  {
    if |idxs| > 0 {
      var n := |idxs| - 1;
      NoFailures(idxs[..n], runs[..n]);
      assert forall i :: 0 <= i < n ==> runs[..n][i] == runs[i];
    }
  }

  function CopyingText(i: nat, total: nat): string {
    "Copying " + NatToString(i + 1) + " / " + NatToString(total)
  }

  function FailedText(n: nat): string {
    NatToString(n) + " files failed to copy.."
  }

  function SucceededText(n: nat): string {
    NatToString(n) + " files copied successfully"
  }

  /**
   `copyFiles_thread`: one "Copying k / total" state per file, for k = 1..total
   in order, then Error naming the number of failures if there were any, else
   Done naming the number of files copied.
   */
  method CopyFiles(dev: PyDevice, fileIndexes: seq<nat>, runs: seq<PyRun>)
    returns (d: PyDevice, notes: seq<PyNote>, succeeded: seq<nat>, failed: seq<nat>)
    requires |runs| == |fileIndexes|
    ensures succeeded == Outcomes(fileIndexes, runs, true)
    ensures failed == Outcomes(fileIndexes, runs, false)
    ensures |succeeded| + |failed| == |fileIndexes|
    ensures |notes| == |fileIndexes| + 1
    ensures forall i :: 0 <= i < |fileIndexes| ==>
              notes[i] == PyNote(Copy, Some(CopyingText(i, |fileIndexes|)))
    ensures notes[|fileIndexes|] == (if |failed| > 0 then PyNote(Error, Some(FailedText(|failed|)))
                                     else PyNote(Done, Some(SucceededText(|fileIndexes|))))
    ensures |failed| == 0 <==> forall i :: 0 <= i < |runs| ==> |runs[i].err| == 0
    ensures d == dev.(state := notes[|fileIndexes|].state, parm := notes[|fileIndexes|].parm)
  {
    var progress;
    d, progress, succeeded, failed := FetchAll(dev, fileIndexes, runs);
    OutcomesSplit(fileIndexes, runs);
    NoFailures(fileIndexes, runs);
    var last := if |failed| > 0 then SetState(d, Error, Some(FailedText(|failed|)))
                else SetState(d, Done, Some(SucceededText(|succeeded|)));
    d, notes := last.dev, progress + last.emitted;
  }

  /** The loop of `copyFiles_thread`: every file is fetched, whatever happened to the previous one. */
  method FetchAll(dev: PyDevice, fileIndexes: seq<nat>, runs: seq<PyRun>)
    returns (d: PyDevice, notes: seq<PyNote>, succeeded: seq<nat>, failed: seq<nat>)
    requires |runs| == |fileIndexes|
    ensures succeeded == Outcomes(fileIndexes, runs, true)
    ensures failed == Outcomes(fileIndexes, runs, false)
    ensures |notes| == |fileIndexes|
    ensures forall i :: 0 <= i < |fileIndexes| ==>
              notes[i] == PyNote(Copy, Some(CopyingText(i, |fileIndexes|)))
    ensures d.name == dev.name && d.bus == dev.bus && d.port == dev.port && d.filePaths == dev.filePaths
  {
    var total := |fileIndexes|;
    d, notes, succeeded, failed := dev, [], [], [];
    var i := 0;
    while i < total
      invariant i <= total
      invariant Recorded(fileIndexes, runs, i, succeeded, failed)
      invariant |notes| == i
      invariant forall j :: 0 <= j < i ==> notes[j] == PyNote(Copy, Some(CopyingText(j, total)))
      invariant d.name == dev.name && d.bus == dev.bus && d.port == dev.port && d.filePaths == dev.filePaths
    {
      var step := SetState(d, Copy, Some(CopyingText(i, total)));
      assert forall j :: 0 <= j < i + 1 ==> (notes + step.emitted)[j] == PyNote(Copy, Some(CopyingText(j, total))) by {
        assert (notes + step.emitted)[i] == step.emitted[0];
        assert forall j :: 0 <= j < i ==> (notes + step.emitted)[j] == notes[j];
      }
      d, notes := step.dev, notes + step.emitted;
      // a fetch that raises lands in the failed list, any other in the succeeded list
      var fails := FetchFails(runs[i]);
      var ok := succeeded + (if fails then [] else [fileIndexes[i]]);
      var bad := failed + (if fails then [fileIndexes[i]] else []);
      RecordedNext(fileIndexes, runs, i, succeeded, failed, ok, bad);
      succeeded, failed, i := ok, bad, i + 1;
    }
    assert fileIndexes[..total] == fileIndexes && runs[..total] == runs;
  }
}
