/** The hidden-input run: once the samples pass, the executable is run on
    every hidden input in order and its output kept for upload. */
module Batch {
  import opened ByteStrings
  import opened SampleTests

  /** All outputs, one per input; or the index of the input whose run failed,
      which ends the process before anything is uploaded. */
  datatype BatchResult = Completed(outputs: seq<Bytes>) | Failed(at: nat)

  /** Runs the executable on inputs 0, 1, ... in turn, writing outputs[i]
      from input i. A missing input is fed as empty standard input. The
      first failure is fatal. */
  method ProcessInputs(inputs: seq<ByteSlice>, run: Bytes -> RunResult) returns (r: BatchResult)
    ensures r.Completed? <==> forall i :: 0 <= i < |inputs| ==> run(inputs[i].Data()).Output?
    ensures r.Completed? ==> |r.outputs| == |inputs|
    ensures r.Completed? ==> forall i :: 0 <= i < |inputs| ==> run(inputs[i].Data()) == Output(r.outputs[i])
    ensures r.Failed? ==> r.at < |inputs| && run(inputs[r.at].Data()).Crash?
    ensures r.Failed? ==> forall i :: 0 <= i < r.at ==> run(inputs[i].Data()).Output?
  {
    var outputs := new Bytes[|inputs|];
    for i := 0 to |inputs|
      invariant forall j :: 0 <= j < i ==> run(inputs[j].Data()) == Output(outputs[j])
    {
      var result := run(inputs[i].Data());
      if result.Crash? {
        return Failed(i);
      }
      outputs[i] := result.out;
    }
    return Completed(outputs[..]);
  }
}
