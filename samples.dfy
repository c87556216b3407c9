/** One pass of the sample tests: the cases are taken in index order, a
    `passed` counter is kept, and a crash cuts the pass short. */
module SampleTests {
  import opened ByteStrings

  /** One run of the local executable on one input: it fails (non-zero exit
      or launch error) or it prints some bytes on standard output. */
  datatype RunResult = Crash | Output(out: Bytes)

  /** The sample cases as fetched: slot i of each holds the input and the
      expected output of case i, nil where the server answered 404. */
  datatype Samples = Samples(inputs: seq<ByteSlice>, outputs: seq<ByteSlice>)

  /** Both slot arrays are made with the same length. */
  type SampleSet = s: Samples | |s.inputs| == |s.outputs| witness Samples([], [])

  /** Where a pass stands after some prefix of the cases: still counting, or
      stopped by the crash of case `at`. */
  datatype Progress = Counting(passed: nat) | Crashed(at: nat, passed: nat)

  /** Case i makes the executable crash: its input is present and the run
      fails. */
  predicate Crashes(s: SampleSet, run: Bytes -> RunResult, i: nat)
    requires i < |s.inputs|
  {
    s.inputs[i].Slice? && run(s.inputs[i].content).Crash?
  }

  /** Case i passes: its input is missing, or the run prints exactly the
      expected output (bytes.Equal, so a missing expected output matches an
      empty one). */
  predicate Passes(s: SampleSet, run: Bytes -> RunResult, i: nat)
    requires i < |s.inputs|
  {
    s.inputs[i].Nil? ||
    (run(s.inputs[i].content).Output? && Equal(Slice(run(s.inputs[i].content).out), s.outputs[i]))
  }

  /** The state of a pass after the first k cases. */
  function Tally(s: SampleSet, run: Bytes -> RunResult, k: nat): (t: Progress)
    requires k <= |s.inputs|
    ensures t.passed <= k
    ensures t.Crashed? ==> t.at < k && t.passed <= t.at
  {
    if k == 0 then Counting(0)
    else
      var t := Tally(s, run, k - 1);
      var i := k - 1;
      if t.Crashed? then t
      else if s.inputs[i].Nil? then Counting(t.passed + 1)
      else match run(s.inputs[i].content)
        case Crash => Crashed(i, t.passed)
        case Output(out) =>
          if Equal(Slice(out), s.outputs[i]) then Counting(t.passed + 1) else t
  }

  /** The whole pass reaches "Test passed." exactly when `passed` ends equal
      to the number of cases. */
  predicate AllPassed(s: SampleSet, run: Bytes -> RunResult) {
    Tally(s, run, |s.inputs|) == Counting(|s.inputs|)
  }

  /** Reference count: how many of the first k cases pass, crash or not. */
  function PassCount(s: SampleSet, run: Bytes -> RunResult, k: nat): (n: nat)
    requires k <= |s.inputs|
    ensures n <= k
    ensures n == k <==> forall i :: 0 <= i < k ==> Passes(s, run, i)
  {
    if k == 0 then 0
    else PassCount(s, run, k - 1) + if Passes(s, run, k - 1) then 1 else 0
  }

  /** The cases the pass reaches: up to and including a crashing one. */
  function Reached(t: Progress, n: nat): nat {
    if t.Crashed? then t.at + 1 else n
  }

  /** `passed` counts exactly the passing cases among those reached; a crash
      is the first crash, and nothing after it is looked at. */
  lemma {:induction false} TallyCounts(s: SampleSet, run: Bytes -> RunResult, k: nat)
    requires k <= |s.inputs|
    ensures Tally(s, run, k).Counting? ==>
      Tally(s, run, k).passed == PassCount(s, run, k) &&
      forall i :: 0 <= i < k ==> !Crashes(s, run, i)
    ensures Tally(s, run, k).Crashed? ==>
      var at := Tally(s, run, k).at;
      Tally(s, run, k).passed == PassCount(s, run, at) && Crashes(s, run, at) &&
      forall i :: 0 <= i < at ==> !Crashes(s, run, i)
  {
    if k > 0 {
      TallyCounts(s, run, k - 1);
    }
  }

  /** Once a case has crashed, the later cases change nothing. */
  lemma {:induction false} CrashIsFinal(s: SampleSet, run: Bytes -> RunResult, k: nat, m: nat)
    requires k <= m <= |s.inputs|
    requires Tally(s, run, k).Crashed?
    ensures Tally(s, run, m) == Tally(s, run, k)
  {
    if k < m {
      CrashIsFinal(s, run, k, m - 1);
    }
  }

  /** A pass ends in "Test passed." if and only if no case crashed and every
      case with a present input printed its expected output. */
  lemma AllPassedIff(s: SampleSet, run: Bytes -> RunResult)
    ensures AllPassed(s, run) <==> forall i :: 0 <= i < |s.inputs| ==> Passes(s, run, i)
  {
    var n := |s.inputs|;
    TallyCounts(s, run, n);
    if Tally(s, run, n).Crashed? {
      assert !Passes(s, run, Tally(s, run, n).at);
    }
  }

  /** A crash on any case rules out "Test passed." for the pass. */
  lemma CrashFails(s: SampleSet, run: Bytes -> RunResult, k: nat)
    requires k < |s.inputs| && Crashes(s, run, k)
    ensures !AllPassed(s, run)
  {
    AllPassedIff(s, run);
    assert !Passes(s, run, k);
  }

  /** The sample-test loop body of the program: walk the cases in index
      order; a missing input counts as passed without running anything; a
      crash stops the pass at once; a mismatch is reported and the pass goes
      on. `invoked` lists the cases the executable was run on, in order. */
  method RunSamples(s: SampleSet, run: Bytes -> RunResult) returns (t: Progress, invoked: seq<nat>)
    ensures t == Tally(s, run, |s.inputs|)
    ensures forall j, j' :: 0 <= j < j' < |invoked| ==> invoked[j] < invoked[j']
    ensures forall i :: i in invoked <==> 0 <= i < Reached(t, |s.inputs|) && s.inputs[i].Slice?
  {
    var passed := 0;
    var i := 0;
    invoked := [];
    while i != |s.inputs|
      invariant 0 <= i <= |s.inputs|
      invariant Tally(s, run, i) == Counting(passed)
      invariant forall j :: 0 <= j < |invoked| ==> invoked[j] < i
      invariant forall j, j' :: 0 <= j < j' < |invoked| ==> invoked[j] < invoked[j']
      invariant forall c :: c in invoked <==> 0 <= c < i && s.inputs[c].Slice?
    {
      if s.inputs[i].Nil? {
        passed := passed + 1;
        i := i + 1;
        continue;
      }
      invoked := invoked + [i];
      var result := run(s.inputs[i].content);
      if result.Crash? {
        t := Crashed(i, passed);
        CrashIsFinal(s, run, i + 1, |s.inputs|);
        return;
      }
      if Equal(Slice(result.out), s.outputs[i]) {
        passed := passed + 1;
      }
      i := i + 1;
    }
    t := Counting(passed);
  }
}
