# joihelper test-orchestration core in Dafny

joihelper automates an edit, compile, test and submit cycle against the JOI
grading site. It fetches the sample and hidden test inputs. It reruns a
local executable against the samples until they all pass, rerunning each
time the executable is rebuilt. It then runs the executable on every hidden
input and uploads the source and each output. This project models the
deterministic decisions inside that cycle, all in `main.go`:

- `getCase`: how an HTTP reply becomes a normalised body, a soft miss or a
  fatal error. Stripping `'\r'` is a pure function on bytes.
- the sample-test loop: one pass over the cases with its `passed` counter,
  the `goto wait` on a crash, and the wait state's event filter. These form
  a state machine over RUNNING, WAITING and DONE, driven by a sequence of
  filesystem events.
- the hidden-input run, which fills `outputs[i]` from input `i` in order.
- the upload jobs: the form fields and pacing delay of each submission.

Modules, one per component:

| file | module | what it holds |
|---|---|---|
| bytestrings.dfy | ByteStrings | bytes, Go's nil-or-slice `[]byte`, `bytes.Equal`, CR stripping |
| fetch.dfy | Fetch | replies, `getCase`, `pushResult`, the fetch fan-out with its barrier |
| paths.dfy | Paths | `path.Base` as the last path element |
| samples.dfy | SampleTests | one sample pass: the `Tally` specification and the `RunSamples` loop |
| testloop.dfy | TestLoop | events, the event filter, the state machine `Drive` and the `RunTestLoop` method |
| batch.dfy | Batch | the hidden-input run `ProcessInputs` |
| decimal.dfy | Decimal | `strconv.Itoa` and reading digits back |
| upload.dfy | Upload | the source job, the output jobs and the upload plan |
| session.dfy | Session | the stages in order, from fetch to upload |

The local executable is a parameter: for each rerun round it is a function
from input bytes to `Crash` or `Output(bytes)`. A rebuilt binary can behave
differently, so each round gets its own function. The server is also given
as data: a reply for each fetch slot, and a reply function for submissions.

Two details of the code that the model keeps:

- A sample case is skipped as passed when its *input* is nil, not when its
  expected output is missing (`main.go:144`). A missing expected output is
  compared as empty, because `bytes.Equal` treats nil as empty.
- A crash jumps straight to the wait state without printing the tally
  (`main.go:154`).

## Model

| member | source | states |
|---|---|---|
| ByteStrings.Equal | main.go:156 | `bytes.Equal` against nil: nil equals only nil and the empty slice |
| ByteStrings.EqualBytewise | main.go:156 | `bytes.Equal`: two slices are equal exactly when they have the same length and the same byte at every index |
| ByteStrings.StripCR | main.go:47 | the stripped body holds no `'\r'`, is no longer than the original, and has the same bytes with the same multiplicities apart from every `'\r'` |
| ByteStrings.StripCRLength | main.go:47 | the length drops by exactly the number of `'\r'` bytes |
| ByteStrings.StripCRAppend | main.go:47 | stripping distributes over concatenation, so bytes keep their order |
| ByteStrings.StripCRPosition | main.go:47 | a non-`'\r'` byte at index i lands at the index equal to the number of non-`'\r'` bytes before it |
| ByteStrings.StripCROrder | main.go:47 | two non-`'\r'` bytes keep their relative order |
| ByteStrings.StripCRNoCR | main.go:47 | a body without `'\r'` is unchanged |
| ByteStrings.StripCRIdempotent | main.go:47 | stripping twice gives the same as stripping once |
| Fetch.GetCase | main.go:35-56 | 200 with a readable body gives that body stripped of `'\r'`; 404 gives a soft miss (nil); any other status, a failed request or a failed read is fatal |
| Fetch.GetCaseStable | main.go:41-48 | serving an already normalised body again returns it unchanged |
| Fetch.PushResult | main.go:58-73 | a submission is accepted exactly when a fetch with the same reply would return a body; unlike a fetch, a 404 is fatal |
| Fetch.FetchAll | main.go:107-138 | the fetch barrier: it yields results only if no fetch was fatal, and then slot i holds fetch i's result (nil for a miss) |
| Paths.Base | main.go:178 | the base name contains no `'/'` |
| Paths.BaseIsLastElement | main.go:178 | the base name is the longest suffix without `'/'`: a suffix of the path, preceded by `'/'` unless it is the whole path |
| Paths.BaseOfJoin | main.go:100 | a file `name` reported from any watched directory has base `name` |
| SampleTests.Tally | main.go:142-167 | after k cases, `passed` is at most k; a crash is at a case already reached, and `passed` is at most the crash index |
| SampleTests.TallyCounts | main.go:142-167 | `passed` equals the number of passing cases among those reached; a crash is the first crashing case |
| SampleTests.CrashIsFinal | main.go:151-155 | once a case crashes, later cases change nothing in the pass |
| SampleTests.AllPassedIff | main.go:168-170 | a pass ends in "Test passed." if and only if every case has a missing input or prints exactly its expected output, with no crash |
| SampleTests.CrashFails | main.go:151-155 | a crash on any case rules out "Test passed." for that pass, whatever `passed` was |
| SampleTests.RunSamples | main.go:140-167 | the counter loop ends in the `Tally` state; the executable runs on exactly the cases with a present input up to and including the first crash, in increasing index order |
| TestLoop.QualifiesBitTest | main.go:178 | an event qualifies exactly when it is a change whose operations meet {Write, Rename} (the bit test of `event.Op` against Write and Rename) and whose base name is the executable's |
| TestLoop.QualifyingNameEndsWithExecutable | main.go:178 | a qualifying event's path ends in the executable's base name as a whole path element, so changes to other files never trigger a rerun |
| TestLoop.AfterPass | main.go:168-174 | a pass leads to DONE exactly when it succeeded and to WAITING otherwise, in the same round |
| TestLoop.OnEvent | main.go:176-185 | in the wait state, a watcher error aborts; a qualifying Write or Rename starts exactly one rerun; any other event leaves the state unchanged |
| TestLoop.Drive | main.go:140-186 | the loop is never observed mid-pass: every state after the events is DONE, WAITING or aborted |
| TestLoop.ExecutableChangeQualifies | main.go:178 | a Write or Rename on the executable's own file name, reported from any directory, triggers a rerun |
| TestLoop.WaitingCountsReruns | main.go:176-185 | while waiting, no event was a watcher error, and the round equals the number of qualifying events |
| TestLoop.WaitingFailedSoFar | main.go:168-185 | while waiting in round r, every pass 0 to r has failed |
| TestLoop.DoneOnlyOnSuccess | main.go:168-170 | DONE in round r means pass r succeeded and every earlier pass failed |
| TestLoop.TerminalIsFinal | main.go:170 | DONE and an abort are final: later events change nothing |
| TestLoop.DoneMeansSamplesMatched | main.go:142-170 | DONE in round r means every sample case passed against round r's executable, and each earlier round had a failing or crashing case |
| TestLoop.RunTestLoop | main.go:140-186 | the retry loop ends in the state `Drive` gives for the events it received and for all events; it keeps waiting only once the events run out; its round equals the number of qualifying events received |
| Batch.ProcessInputs | main.go:188-201 | the run completes if and only if no hidden input crashes; then output i is what input i printed; otherwise it stops at the first crashing input |
| Decimal.NatToString | main.go:245-246 | the decimal text is canonical: non-empty, all digits, and starting with `0` only when it is `"0"`, which is the text of 0 alone |
| Decimal.Itoa | main.go:245-246 | `strconv.Itoa`: a non-negative number gives canonical digits reading back as the number; a negative one gives `-` then the canonical digits of its magnitude |
| Decimal.CanonicalIsNatToString | main.go:245-246 | a canonical digit text is the decimal text of the number it reads as, so a canonical text with a given value is unique |
| Decimal.NatToStringAppend | main.go:245-246 | writing a positive number followed by one more digit gives its text with that digit appended |
| Decimal.ParseNatToString | main.go:245-246 | reading the digits back gives the number |
| Decimal.ItoaInjective | main.go:245-247 | different numbers have different decimal texts |
| Upload.QuestionId | main.go:216 | the id field is `t` followed by the question number in canonical decimal, with `-` for a negative number |
| Upload.SourceJob | main.go:216-220 | the source job has fno and formCount exactly "0", field `program`, file name `Base(source)`, the source bytes and no delay |
| Upload.OutputJob | main.go:238-247 | output job i has fno and formCount in canonical decimal reading back as i+1 (so, by `CanonicalIsNatToString`, exactly `strconv.Itoa(i+1)`), field `out` followed by fno, file name `out.txt`, output i as payload, and delay i+1 |
| Upload.Plan | main.go:204-260 | the source job comes first, then one job per output in index order |
| Upload.PlanIndexed | main.go:216-247 | every job's fno and formCount are canonical decimal and read back as its position in the plan, its delay equals that position, and all share the question id and term |
| Upload.PacingIncreases | main.go:240 | a later job's delay is strictly larger than an earlier job's |
| Upload.PlanFieldsDistinct | main.go:216-247 | no two jobs share an fno or a file field name, so arrival order does not matter |
| Session.RunSession | main.go:105-263 | the run aborts at fetch exactly when a fetch is fatal; it ends as the retry loop's state says, in the same round when the loop is DONE or waiting; it runs hidden inputs only after a passing round; it aborts the hidden run exactly at the first crashing input; when the hidden run completes, output i is what input i printed and the plan is built from those outputs; it reports success exactly when every upload was accepted, and otherwise names the plan with a rejected upload |

## Left out

- HTTP transport, the session cookie jar, and the building of URLs and query strings (main.go:24-33, 90-93, 116, 121, 129-133) are not modelled. A fetch is modelled as the reply it produced.
- Goroutines, `sync.WaitGroup` and `io.Pipe` (main.go:112-138, 204-261) are not modelled. Fetch results are assembled slot by slot by `FetchAll`. Uploads are checked together, and the run succeeds only if every one is accepted. Which failure arrives first is not modelled.
- Multipart encoding and its error paths (`CreateFormFile`, `io.Copy`, `writer.Write`, main.go:221-227, 248-254) are not modelled. A job records its form fields and its file part.
- Opening and reading the source file (main.go:209-213) is not modelled. The source bytes are a parameter, so a failure to open the file is not modelled.
- Subprocess execution (main.go:150-151, 194-195) is an abstract function from input to `Crash | Output`. Standard error passing through to the console is not modelled.
- Creating the watcher and adding the directory (main.go:95-103) can panic; that is not modelled. The watcher's error channel is the `WatchFailed` item in the event sequence.
- Events are a finite sequence. When they run out, the loop is reported as still waiting, whereas the program would block.
- fsnotify's operation bit mask is modelled as a set of operations; the bit values are not modelled.
- Paths.Base: Go's `path.Base` returns "." for an empty path, returns "/" for a path made only of slashes, and strips trailing slashes first; the model takes the text after the final `'/'`, which is empty in all three cases.
- Fetch.GetCase: Go's `bytes.Replace` returns nil for an empty body with no `'\r'`, so a 200 reply with an empty body for a sample input would count as a missing case. The model treats every 200 body as present. This behaviour belongs to the standard library and is not modelled.
- `time.Sleep` (main.go:240) is not modelled as wall-clock time; the delay in seconds is kept on each job.
- Console output, colours and diagnostics (main.go:93, 105, 141, 153, 159-165, 169-174, 179, 190, 197, 203, 262) are not modelled.
- Flag and environment parsing (main.go:76-88) is not modelled. The question number, term, executable path and source path are parameters. The counts of 2 sample cases and 5 hidden inputs (main.go:107-109) become the lengths of the reply sequences.
