/** The upload stage: one multipart submission for the source file and one
    per hidden output, each with its own form fields and pacing delay. The
    submissions race on the network, so each must carry its own index. */
module Upload {
  import opened ByteStrings
  import opened Paths
  import opened Decimal

  /** One submission: the form fields id, term, formCount and fno, the file
      part (field name, file name, contents), and the seconds its goroutine
      sleeps before writing the body. */
  datatype UploadJob = UploadJob(
    id: string,
    term: string,
    formCount: string,
    fno: string,
    field: string,
    filename: string,
    payload: Bytes,
    delay: nat)

  /** The question id field, "t" followed by the question number. */
  function QuestionId(qNo: int): (id: string)
    ensures |id| >= 2 && id[0] == 't'
    ensures qNo >= 0 ==> Canonical(id[1..]) && ParseDigits(id[1..]) == qNo
    ensures qNo < 0 ==> id[1] == '-' && Canonical(id[2..]) && ParseDigits(id[2..]) == -qNo
  {
    var n := Itoa(qNo);
    assert qNo < 0 ==> n[1..] == ("t" + n)[2..];
    "t" + n
  }

  /** The source upload: index 0, field "program", the source's base name,
      and no delay. */
  function SourceJob(qNo: int, term: string, sourcePath: string, source: Bytes): (j: UploadJob)
    ensures j.fno == "0" && AllDigits(j.fno) && ParseDigits(j.fno) == 0 && j.formCount == j.fno
    ensures j.field == "program" && j.filename == Base(sourcePath)
    ensures j.payload == source && j.delay == 0
  {
    UploadJob(QuestionId(qNo), term, "0", "0", "program", Base(sourcePath), source, 0)
  }

  /** Output upload number `index` (from 0): index index + 1 in fno and
      formCount, field out{index + 1}, file name "out.txt", and a delay of
      index + 1 seconds. */
  function OutputJob(qNo: int, term: string, index: nat, output: Bytes): (j: UploadJob)
    ensures Canonical(j.fno) && ParseDigits(j.fno) == index + 1 && j.formCount == j.fno
    ensures j.field == "out" + j.fno && j.filename == "out.txt"
    ensures j.payload == output && j.delay == index + 1
  {
    var n := Itoa(index + 1);
    UploadJob(QuestionId(qNo), term, n, n, "out" + n, "out.txt", output, index + 1)
  }

  /** All submissions of a run: the source first, then one per output in
      index order. */
  function Plan(qNo: int, term: string, sourcePath: string, source: Bytes, outputs: seq<Bytes>): (p: seq<UploadJob>)
    ensures |p| == |outputs| + 1
    ensures p[0] == SourceJob(qNo, term, sourcePath, source)
    ensures forall i :: 0 <= i < |outputs| ==> p[i + 1] == OutputJob(qNo, term, i, outputs[i])
  {
    var rest := seq(|outputs|, i requires 0 <= i < |outputs| => OutputJob(qNo, term, i, outputs[i]));
    PrependShifts(SourceJob(qNo, term, sourcePath, source), rest);
    [SourceJob(qNo, term, sourcePath, source)] + rest
  }

  /** Putting one job in front moves every other job up by one place. */
  lemma PrependShifts(first: UploadJob, rest: seq<UploadJob>)
    ensures forall i :: 0 <= i < |rest| ==> ([first] + rest)[i + 1] == rest[i]
  {
  }

  /** Every submission carries its own position: fno and formCount read back
      as its index in the plan, its delay is that index, and the question id
      and term are the same on all. */
  lemma PlanIndexed(qNo: int, term: string, sourcePath: string, source: Bytes, outputs: seq<Bytes>, k: nat)
    requires k <= |outputs|
    ensures var j := Plan(qNo, term, sourcePath, source, outputs)[k];
      Canonical(j.fno) && ParseDigits(j.fno) == k && j.formCount == j.fno && j.delay == k &&
      j.id == QuestionId(qNo) && j.term == term
  {
    if k > 0 {
      var j := Plan(qNo, term, sourcePath, source, outputs)[k];
      assert j == OutputJob(qNo, term, k - 1, outputs[k - 1]);
    }
  }

  /** Pacing: a later output upload sleeps strictly longer than an earlier
      one, and the source upload does not sleep at all. */
  lemma PacingIncreases(qNo: int, term: string, sourcePath: string, source: Bytes, outputs: seq<Bytes>, j: nat, k: nat)
    requires j < k <= |outputs|
    ensures Plan(qNo, term, sourcePath, source, outputs)[j].delay < Plan(qNo, term, sourcePath, source, outputs)[k].delay
  {
    PlanIndexed(qNo, term, sourcePath, source, outputs, j);
    PlanIndexed(qNo, term, sourcePath, source, outputs, k);
  }

  /** Two output jobs with different indices differ in fno and field. */
  lemma OutputJobsDistinct(qNo: int, term: string, i: nat, i': nat, out: Bytes, out': Bytes)
    requires i != i'
    ensures OutputJob(qNo, term, i, out).fno != OutputJob(qNo, term, i', out').fno
    ensures OutputJob(qNo, term, i, out).field != OutputJob(qNo, term, i', out').field
  {
    var a := OutputJob(qNo, term, i, out);
    var b := OutputJob(qNo, term, i', out');
    assert a.field[3..] == a.fno;
    assert b.field[3..] == b.fno;
  }

  /** The source job differs from every output job in fno and field. */
  lemma SourceJobDistinct(qNo: int, term: string, sourcePath: string, source: Bytes, i: nat, out: Bytes)
    ensures SourceJob(qNo, term, sourcePath, source).fno != OutputJob(qNo, term, i, out).fno
    ensures SourceJob(qNo, term, sourcePath, source).field != OutputJob(qNo, term, i, out).field
  {
    var b := OutputJob(qNo, term, i, out);
    assert b.field[0] == 'o';
  }

  /** No two submissions share an fno or a file field name, whatever order
      they arrive in. */
  lemma PlanFieldsDistinct(qNo: int, term: string, sourcePath: string, source: Bytes, outputs: seq<Bytes>, j: nat, k: nat)
    requires j < k <= |outputs|
    ensures Plan(qNo, term, sourcePath, source, outputs)[j].fno != Plan(qNo, term, sourcePath, source, outputs)[k].fno
    ensures Plan(qNo, term, sourcePath, source, outputs)[j].field != Plan(qNo, term, sourcePath, source, outputs)[k].field
  {
    var p := Plan(qNo, term, sourcePath, source, outputs);
    var later := OutputJob(qNo, term, k - 1, outputs[k - 1]);
    assert p[k] == later;
    if j == 0 {
      SourceJobDistinct(qNo, term, sourcePath, source, k - 1, outputs[k - 1]);
    } else {
      assert p[j] == OutputJob(qNo, term, j - 1, outputs[j - 1]);
      OutputJobsDistinct(qNo, term, j - 1, k - 1, outputs[j - 1], outputs[k - 1]);
    }
  }
}
