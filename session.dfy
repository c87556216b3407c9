/** One run of the program from fetching to uploading: fetch every asset,
    loop on the sample tests until they pass, run the hidden inputs, then
    submit the source and every output. Each stage starts only when the one
    before it has finished in full. */
module Session {
  import opened ByteStrings
  import opened Fetch
  import opened SampleTests
  import opened TestLoop
  import opened Batch
  import opened Upload

  /** How a run ends: aborted at one of the stages, still waiting for a
      change when the events ran out, or with everything submitted. */
  datatype Outcome =
    | FetchAborted
    | WatcherAborted
    | StillWaiting(round: nat)
    | BatchAborted(round: nat, at: nat)
    | UploadAborted(round: nat, outputs: seq<Bytes>, plan: seq<UploadJob>)
    | Submitted(round: nat, outputs: seq<Bytes>, plan: seq<UploadJob>)

  /** The whole pipeline. The server's replies to the sample-input,
      sample-output and hidden-input fetches are given slot by slot; `submit`
      is the server's reply to each submission. */
  method RunSession(
    sampleInReplies: seq<Reply>, sampleOutReplies: seq<Reply>, hiddenReplies: seq<Reply>,
    exec: Executable, executable: string, events: seq<WatchItem>,
    qNo: int, term: string, sourcePath: string, source: Bytes,
    submit: UploadJob -> Reply)
    returns (outcome: Outcome)
    requires |sampleInReplies| == |sampleOutReplies|
    ensures outcome.FetchAborted? <==>
      FetchAll(sampleInReplies).None? || FetchAll(sampleOutReplies).None? || FetchAll(hiddenReplies).None?
    ensures !outcome.FetchAborted? ==>
      var s: SampleSet := Samples(FetchAll(sampleInReplies).value, FetchAll(sampleOutReplies).value);
      var st := Drive(PassVerdicts(s, exec), executable, events);
      && (outcome.WatcherAborted? <==> st.Aborted?)
      && (outcome.StillWaiting? <==> st.Waiting?)
      && (st.Done? || st.Waiting? ==> outcome.round == st.round)
      && (outcome.BatchAborted? || outcome.UploadAborted? || outcome.Submitted? ==> st.Done? && AllPassed(s, exec(st.round)))
    ensures outcome.BatchAborted? ==>
      var hidden := FetchAll(hiddenReplies).value;
      && outcome.at < |hidden|
      && exec(outcome.round)(hidden[outcome.at].Data()).Crash?
      && (forall i :: 0 <= i < outcome.at ==> exec(outcome.round)(hidden[i].Data()).Output?)
    ensures outcome.UploadAborted? || outcome.Submitted? ==>
      var hidden := FetchAll(hiddenReplies).value;
      && |outcome.outputs| == |hidden|
      && (forall i :: 0 <= i < |hidden| ==> exec(outcome.round)(hidden[i].Data()) == Output(outcome.outputs[i]))
      && outcome.plan == Plan(qNo, term, sourcePath, source, outcome.outputs)
    ensures outcome.Submitted? ==>
      forall k :: 0 <= k < |outcome.plan| ==> PushResult(submit(outcome.plan[k]))
    ensures outcome.UploadAborted? ==>
      exists k :: 0 <= k < |outcome.plan| && !PushResult(submit(outcome.plan[k]))
  {
    var sampleInputs := FetchAll(sampleInReplies);
    var sampleOutputs := FetchAll(sampleOutReplies);
    var inputs := FetchAll(hiddenReplies);
    if sampleInputs.None? || sampleOutputs.None? || inputs.None? {
      return FetchAborted;
    }
    var s: SampleSet := Samples(sampleInputs.value, sampleOutputs.value);

    var final, _ := RunTestLoop(s, exec, executable, events);
    match final {
      case Aborted =>
        return WatcherAborted;
      case Waiting(round) =>
        return StillWaiting(round);
      case Running(round) =>
        assert false;
      case Done(round) =>
        assert AllPassed(s, exec(round)) by {
          assert Drive(PassVerdicts(s, exec), executable, events) == Done(round);
          DoneOnlyOnSuccess(PassVerdicts(s, exec), executable, events);
        }
        var batch := ProcessInputs(inputs.value, exec(round));
        if batch.Failed? {
          return BatchAborted(round, batch.at);
        }
        var plan := Plan(qNo, term, sourcePath, source, batch.outputs);
        if forall k | 0 <= k < |plan| :: PushResult(submit(plan[k])) {
          return Submitted(round, batch.outputs, plan);
        } else {
          return UploadAborted(round, batch.outputs, plan);
        }
    }
  }
}
