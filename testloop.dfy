/** The retry loop around the sample tests: RUNNING a pass, WAITING for a
    change to the executable, and DONE once a pass succeeds. Filesystem
    events arrive as a finite sequence; the watcher's error channel is one
    more kind of item in it. */
module TestLoop {
  import opened ByteStrings
  import opened Paths
  import opened SampleTests

  /** The operations an fsnotify event can carry. */
  datatype Op = Create | Write | Remove | Rename | Chmod

  /** One receive in the wait state: an event on the watched directory, or an
      error from the watcher. */
  datatype WatchItem = Changed(name: string, ops: set<Op>) | WatchFailed

  /** The executable as it is built when pass number `round` starts; each
      rerun may run a different binary. */
  type Executable = nat -> (Bytes -> RunResult)

  /** For every pass number, whether that pass succeeds. */
  type Verdicts = nat -> bool

  /** The verdicts of the sample passes: pass r succeeds when every case
      passes against the executable of round r. */
  function PassVerdicts(s: SampleSet, exec: Executable): Verdicts {
    (r: nat) => AllPassed(s, exec(r))
  }

  /** An event that triggers a rerun: a Write or Rename of a file whose base
      name is the executable's base name. */
  predicate Qualifies(e: WatchItem, executable: string) {
    e.Changed? && (Write in e.ops || Rename in e.ops) && Base(e.name) == Base(executable)
  }

  /** The filter as the program writes it: the event's operation bits meet
      Write|Rename, and the base names agree. */
  lemma QualifiesBitTest(e: WatchItem, executable: string)
    ensures Qualifies(e, executable) <==>
      e.Changed? && e.ops * {Write, Rename} != {} && Base(e.name) == Base(executable)
  {
    if e.Changed? && e.ops * {Write, Rename} != {} {
      var op :| op in e.ops * {Write, Rename};
    }
    if e.Changed? && Write in e.ops {
      assert Write in e.ops * {Write, Rename};
    }
    if e.Changed? && Rename in e.ops {
      assert Rename in e.ops * {Write, Rename};
    }
  }

  datatype LoopState = Running(round: nat) | Waiting(round: nat) | Done(round: nat) | Aborted

  /** RUNNING: pass number `round` over all samples, from case 0. */
  function AfterPass(passes: Verdicts, round: nat): (st: LoopState)
    ensures st.Done? || st.Waiting?
    ensures st.Done? <==> passes(round)
    ensures st.round == round
  {
    if passes(round) then Done(round) else Waiting(round)
  }

  /** WAITING: one receive. A watcher error aborts, a qualifying event starts
      the next pass, and any other event leaves the state as it was. */
  function OnEvent(st: LoopState, e: WatchItem, executable: string): (next: LoopState)
    requires st.Waiting?
    ensures next == Aborted <==> e.WatchFailed?
    ensures next == Running(st.round + 1) <==> Qualifies(e, executable)
    ensures next == st <==> e.Changed? && !Qualifies(e, executable)
  {
    match e
    case WatchFailed => Aborted
    case Changed(_, _) => if Qualifies(e, executable) then Running(st.round + 1) else st
  }

  /** One event offered to the loop: only the wait state receives it; a
      rerun it triggers runs straight away. */
  function Feed(passes: Verdicts, executable: string, st: LoopState, e: WatchItem): LoopState {
    if !st.Waiting? then st
    else
      match OnEvent(st, e, executable)
      case Running(r) => AfterPass(passes, r)
      case next => next
  }

  /** The state after the first pass and then the given events. */
  function Drive(passes: Verdicts, executable: string, events: seq<WatchItem>): (st: LoopState)
    ensures !st.Running?
  {
    if events == [] then AfterPass(passes, 0)
    else Feed(passes, executable, Drive(passes, executable, events[..|events| - 1]), events[|events| - 1])
  }

  /** How many of the events qualify. */
  function QualifyingCount(events: seq<WatchItem>, executable: string): nat {
    if events == [] then 0
    else QualifyingCount(events[..|events| - 1], executable)
         + if Qualifies(events[|events| - 1], executable) then 1 else 0
  }

  /** A Write or Rename reported for the executable's own file, from any
      directory, qualifies and starts the next pass. */
  lemma ExecutableChangeQualifies(dir: string, executable: string, ops: set<Op>, r: nat)
    requires Write in ops || Rename in ops
    ensures Qualifies(Changed(dir + "/" + Base(executable), ops), executable)
    ensures OnEvent(Waiting(r), Changed(dir + "/" + Base(executable), ops), executable) == Running(r + 1)
  {
    BaseOfJoin(dir, Base(executable));
  }

  /** Only a change to a file named like the executable qualifies: the
      event's path ends in the executable's base name as a whole path
      element. */
  lemma QualifyingNameEndsWithExecutable(e: WatchItem, executable: string)
    requires Qualifies(e, executable)
    ensures |Base(executable)| <= |e.name| && e.name[|e.name| - |Base(executable)|..] == Base(executable)
    ensures |Base(executable)| < |e.name| ==> e.name[|e.name| - |Base(executable)| - 1] == '/'
  {
    BaseIsLastElement(e.name);
  }

  /** While the loop is still waiting, every event has been received in the
      wait state: none was a watcher error, and each qualifying one caused
      exactly one rerun. */
  lemma {:induction false} WaitingCountsReruns(passes: Verdicts, executable: string, events: seq<WatchItem>)
    requires Drive(passes, executable, events).Waiting?
    ensures Drive(passes, executable, events).round == QualifyingCount(events, executable)
    ensures forall i :: 0 <= i < |events| ==> events[i].Changed?
  {
    if events != [] {
      var front := events[..|events| - 1];
      var prev := Drive(passes, executable, front);
      assert prev.Waiting?;
      WaitingCountsReruns(passes, executable, front);
      assert forall i :: 0 <= i < |front| ==> events[i] == front[i];
    }
  }

  /** The loop ends DONE in round r only if pass r succeeded and every
      earlier pass failed. */
  lemma {:induction false} DoneOnlyOnSuccess(passes: Verdicts, executable: string, events: seq<WatchItem>)
    requires Drive(passes, executable, events).Done?
    ensures passes(Drive(passes, executable, events).round)
    ensures forall r :: 0 <= r < Drive(passes, executable, events).round ==> !passes(r)
  {
    if events != [] {
      var front := events[..|events| - 1];
      var prev := Drive(passes, executable, front);
      if prev.Done? {
        DoneOnlyOnSuccess(passes, executable, front);
      } else {
        assert prev.Waiting?;
        WaitingFailedSoFar(passes, executable, front);
      }
    }
  }

  /** While waiting in round r, passes 0..r have all failed. */
  lemma {:induction false} WaitingFailedSoFar(passes: Verdicts, executable: string, events: seq<WatchItem>)
    requires Drive(passes, executable, events).Waiting?
    ensures forall r :: 0 <= r <= Drive(passes, executable, events).round ==> !passes(r)
  {
    var st := Drive(passes, executable, events);
    if events == [] {
      assert st == AfterPass(passes, 0);
    } else {
      var front := events[..|events| - 1];
      var prev := Drive(passes, executable, front);
      var e := events[|events| - 1];
      assert st == Feed(passes, executable, prev, e);
      assert prev.Waiting?;
      WaitingFailedSoFar(passes, executable, front);
      if Qualifies(e, executable) {
        assert st == AfterPass(passes, prev.round + 1);
      } else {
        assert st == prev;
      }
    }
  }

  /** DONE and an abort are final: later events change nothing. */
  lemma {:induction false} TerminalIsFinal(passes: Verdicts, executable: string, events: seq<WatchItem>, p: nat)
    requires p <= |events|
    requires Drive(passes, executable, events[..p]).Done? || Drive(passes, executable, events[..p]).Aborted?
    ensures Drive(passes, executable, events) == Drive(passes, executable, events[..p])
  {
    if p < |events| {
      assert events[..|events| - 1][..p] == events[..p];
      TerminalIsFinal(passes, executable, events[..|events| - 1], p);
    } else {
      assert events[..p] == events;
    }
  }

  /** What DONE in round r means for the sample cases: in pass r every case
      passed, and any earlier pass had a case that crashed or mismatched. */
  lemma DoneMeansSamplesMatched(s: SampleSet, exec: Executable, executable: string, events: seq<WatchItem>, earlier: nat)
    requires Drive(PassVerdicts(s, exec), executable, events).Done?
    ensures var r := Drive(PassVerdicts(s, exec), executable, events).round;
      forall i :: 0 <= i < |s.inputs| ==> Passes(s, exec(r), i)
    ensures earlier < Drive(PassVerdicts(s, exec), executable, events).round ==>
      exists i :: 0 <= i < |s.inputs| && !Passes(s, exec(earlier), i)
  {
    var passes := PassVerdicts(s, exec);
    DoneOnlyOnSuccess(passes, executable, events);
    AllPassedIff(s, exec(Drive(passes, executable, events).round));
    if earlier < Drive(passes, executable, events).round {
      assert !passes(earlier);
      AllPassedIff(s, exec(earlier));
    }
  }

  /** The program's outer loop: run a pass; on success stop; otherwise (a
      crash, or fewer than all cases passed) wait for events until one is a
      Write or Rename on the executable's base name, then run again from
      case 0. A watcher error aborts. `consumed` is how many events were
      received; the loop stays waiting if they run out. */
  method RunTestLoop(s: SampleSet, exec: Executable, executable: string, events: seq<WatchItem>)
    returns (final: LoopState, consumed: nat)
    ensures consumed <= |events|
    ensures final == Drive(PassVerdicts(s, exec), executable, events[..consumed])
    ensures final == Drive(PassVerdicts(s, exec), executable, events)
    ensures final.Waiting? ==> consumed == |events|
    ensures !final.Aborted? ==> final.round == QualifyingCount(events[..consumed], executable)
  {
    ghost var passes := PassVerdicts(s, exec);
    var round := 0;
    consumed := 0;
    while true
      invariant consumed <= |events|
      invariant AfterPass(passes, round) == Drive(passes, executable, events[..consumed])
      invariant round == QualifyingCount(events[..consumed], executable)
      decreases |events| - consumed
    {
      var t, _ := RunSamples(s, exec(round));
      if t.Counting? && t.passed == |s.inputs| {
        final := Done(round);
        TerminalIsFinal(passes, executable, events, consumed);
        return;
      }
      assert !passes(round);
      var start := consumed;
      var rerun := false;
      while !rerun
        invariant start <= consumed <= |events|
        invariant rerun ==> start < consumed
        invariant round == QualifyingCount(events[..consumed], executable)
        invariant rerun ==> AfterPass(passes, round) == Drive(passes, executable, events[..consumed])
        invariant !rerun ==> Waiting(round) == Drive(passes, executable, events[..consumed])
        decreases |events| - consumed
      {
        if consumed == |events| {
          assert events[..consumed] == events;
          final := Waiting(round);
          return;
        }
        var e := events[consumed];
        assert events[..consumed + 1][..consumed] == events[..consumed];
        consumed := consumed + 1;
        match e
        case WatchFailed =>
          final := Aborted;
          TerminalIsFinal(passes, executable, events, consumed);
          return;
        case Changed(name, ops) =>
          if (Write in ops || Rename in ops) && Base(name) == Base(executable) {
            round := round + 1;
            rerun := true;
          }
      }
    }
  }
}
