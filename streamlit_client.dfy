/** The front end's side of the workflow (streamlit_app.py): the events it
    sends, the event id it keeps, and the loop that polls the run of an
    event until it reaches a terminal status or the deadline passes.

    The HTTP calls are replaced by what they returned: the front end sees
    one `Poll` per iteration, holding the runs the status endpoint listed
    and the clock reading taken after them. */
module StreamlitClient {
  import opened RagTypes
  import RagPipeline

  // =====================================================================
  // Sending events
  // =====================================================================

  /** A path as pathlib sees it: parent directories and a final name. */
  datatype FilePath = FilePath(parents: seq<string>, name: string)

  /** Where an uploaded file is saved: `uploads/<file name>`. The name is
      taken to be a single path component; an empty name, `.` or a name
      holding `/` would give pathlib a different final name. */
  function UploadPath(fileName: string): (p: FilePath)
    ensures p.name == fileName
  {
    FilePath(["uploads"], fileName)
  }

  /** send_rag_ingest_event_sync: the event names the resolved path
      (`resolved`, an input) and uses the file's name as its source id. */
  function IngestEventFor(path: FilePath, resolved: string): (e: RagPipeline.IngestEvent)
    ensures e.pdfPath == Some(resolved) && e.sourceId == Some(path.name)
  {
    RagPipeline.IngestEvent(Some(resolved), Some(path.name))
  }

  /** An uploaded file is ingested under its own file name as source id,
      not under the path the source id would otherwise default to. */
  lemma UploadIngestedUnderFileName(fileName: string, resolved: string, loadAndChunkPdf: string -> seq<string>)
    ensures RagPipeline.LoadAndChunk(IngestEventFor(UploadPath(fileName), resolved), loadAndChunkPdf)
         == Ok(ChunkAndSrc(loadAndChunkPdf(resolved), fileName))
  {
  }

  /** send_rag_query_event_sync: the query event always carries `top_k = 5`. */
  function QueryEventFor(question: string): (e: RagPipeline.QueryEvent)
    ensures e.question == Some(question) && e.topK == Some(5)
  {
    RagPipeline.QueryEvent(Some(question), Some(5))
  }

  /** `result[0] if result else ""`: the first id the send returned, or the
      empty id when it returned none. */
  function SelectEventId(sent: seq<string>): (id: string)
    ensures sent == [] ==> id == ""
    ensures sent != [] ==> id == sent[0]
  {
    if sent != [] then sent[0] else ""
  }

  // =====================================================================
  // Polling a run: wait_for_run_output
  // =====================================================================

  /** The JSON values a run's output may hold. Numbers are integers, so a
      falsy `0.0` is not represented. */
  datatype Json =
    | JNull
    | JBool(b: bool)
    | JNumber(n: int)
    | JString(s: string)
    | JArray(items: seq<Json>)
    | JObject(fields: map<string, Json>)

  /** Python truthiness of a JSON value. */
  predicate Truthy(j: Json) {
    match j
    case JNull => false
    case JBool(b) => b
    case JNumber(n) => n != 0
    case JString(s) => s != ""
    case JArray(items) => items != []
    case JObject(fields) => fields != map[]
  }

  /** One run descriptor; `None` is an absent or null field. */
  datatype Run = Run(status: Option<string>, output: Option<Json>)

  /** What `fetch_runs` gave: the run list, or an error it raised. */
  datatype Fetch = FetchError | Fetched(runs: seq<Run>)

  /** One iteration of the loop: the fetch, and `time.time()` at the
      deadline check. */
  datatype Poll = Poll(fetch: Fetch, now: real)  // clock as a real, not a float

  /** How the loop ends. `StillPolling` means the loop had not ended after
      the polls given. */
  datatype WaitOutcome =
    | Output(value: Json)                     // returned the run's output
    | RunFailed(status: string)               // raised RuntimeError
    | TimedOut(lastStatus: Option<string>)    // raised TimeoutError
    | FetchFailed                             // fetch_runs raised
    | StillPolling(lastStatus: Option<string>)

  predicate IsSuccessStatus(status: Option<string>) {
    status.Some? && status.value in {"Completed", "Succeeded", "Success", "Finished"}
  }

  predicate IsFailureStatus(status: Option<string>) {
    status.Some? && status.value in {"Failed", "Cancelled"}
  }

  /** A status is recorded when it is present and not empty (`status or last_status`). */
  predicate IsRecorded(status: Option<string>) {
    status.Some? && status.value != ""
  }

  /** No status is both a success and a failure. */
  lemma StatusClassesDisjoint(status: Option<string>)
    ensures !(IsSuccessStatus(status) && IsFailureStatus(status))
  {
  }

  /** `run.get("output") or {}`. */
  function OutputOrEmpty(output: Option<Json>): (j: Json)
    ensures output.None? || !Truthy(output.value) ==> j == JObject(map[])
    ensures output.Some? && Truthy(output.value) ==> j == output.value
  {
    if output.Some? && Truthy(output.value) then output.value else JObject(map[])
  }

  /** The first run listed, if the fetch listed any. */
  function FirstRun(p: Poll): Option<Run> {
    if p.fetch.Fetched? && p.fetch.runs != [] then Some(p.fetch.runs[0]) else None
  }

  /** `last_status` after this poll. */
  function Observe(p: Poll, last: Option<string>): (r: Option<string>)
    ensures r == last || IsRecorded(r)
    ensures IsRecorded(last) ==> IsRecorded(r)
    ensures FirstRun(p).None? ==> r == last
  {
    var run := FirstRun(p);
    if run.Some? && IsRecorded(run.value.status) then run.value.status else last
  }

  predicate SucceedsAt(p: Poll) {
    var run := FirstRun(p); run.Some? && IsSuccessStatus(run.value.status)
  }

  predicate FailsAt(p: Poll) {
    var run := FirstRun(p); run.Some? && IsFailureStatus(run.value.status)
  }

  /** After this poll the loop sleeps and polls again. */
  predicate Continues(p: Poll, start: real, timeout: real) {
    p.fetch.Fetched? && !SucceedsAt(p) && !FailsAt(p) && p.now - start <= timeout
  }

  /** The loop as a function of the polls it will see: a terminal status is
      acted on first, the deadline is checked only after it. */
  function WaitSpec(polls: seq<Poll>, start: real, timeout: real, last: Option<string>): (r: WaitOutcome)
    ensures r.StillPolling? ==> forall j :: 0 <= j < |polls| ==> Continues(polls[j], start, timeout)
    ensures r.StillPolling? ==> r.lastStatus == LastStatus(polls, last)
    ensures polls != [] && polls[0].fetch.FetchError? ==> r == FetchFailed
    decreases |polls|
  {
    if polls == [] then StillPolling(last)
    else
      var p := polls[0];
      var last' := Observe(p, last);
      if p.fetch.FetchError? then FetchFailed
      else if SucceedsAt(p) then Output(OutputOrEmpty(FirstRun(p).value.output))
      else if FailsAt(p) then RunFailed(FirstRun(p).value.status.value)
      else if p.now - start > timeout then TimedOut(last')
      else WaitSpec(polls[1..], start, timeout, last')
  }

  /** `last_status` after a sequence of polls, as the loop threads it. */
  function LastStatus(polls: seq<Poll>, last: Option<string>): Option<string>
    decreases |polls|
  {
    if polls == [] then last else LastStatus(polls[1..], Observe(polls[0], last))
  }

  /** Reference definition: the status of the latest poll that recorded
      one, or `last` if none did. */
  function MostRecentStatus(polls: seq<Poll>, last: Option<string>): Option<string>
    decreases |polls|
  {
    if polls == [] then last
    else
      var p := polls[|polls| - 1];
      if FirstRun(p).Some? && IsRecorded(FirstRun(p).value.status) then FirstRun(p).value.status
      else MostRecentStatus(polls[..|polls| - 1], last)
  }

  lemma {:induction false} LastStatusSnoc(polls: seq<Poll>, p: Poll, last: Option<string>)
    ensures LastStatus(polls + [p], last) == Observe(p, LastStatus(polls, last))
    decreases |polls|
  {
    if polls != [] {
      assert (polls + [p])[1..] == polls[1..] + [p];
      LastStatusSnoc(polls[1..], p, Observe(polls[0], last));
    }
  }

  /** The status the loop reports is the most recent recorded one. */
  lemma {:induction false} LastStatusIsMostRecent(polls: seq<Poll>, last: Option<string>)
    ensures LastStatus(polls, last) == MostRecentStatus(polls, last)
    decreases |polls|
  {
    if polls != [] {
      var init := polls[..|polls| - 1];
      assert polls == init + [polls[|polls| - 1]];
      LastStatusSnoc(init, polls[|polls| - 1], last);
      LastStatusIsMostRecent(init, last);
    }
  }

  /** Polls that only continue the loop can be skipped, carrying the status. */
  lemma {:induction false} WaitSpecSkip(polls: seq<Poll>, start: real, timeout: real, last: Option<string>, i: nat)
    requires i <= |polls|
    requires forall j :: 0 <= j < i ==> Continues(polls[j], start, timeout)
    ensures WaitSpec(polls, start, timeout, last) == WaitSpec(polls[i..], start, timeout, LastStatus(polls[..i], last))
    decreases i
  {
    if i > 0 {
      var last' := Observe(polls[0], last);
      assert Continues(polls[0], start, timeout);
      assert WaitSpec(polls, start, timeout, last) == WaitSpec(polls[1..], start, timeout, last');
      WaitSpecSkip(polls[1..], start, timeout, last', i - 1);
      assert polls[1..][i - 1..] == polls[i..];
      assert polls[..i][1..] == polls[1..][..i - 1];
    }
  }

  /** A run that reaches a success status ends the loop with its output (or
      `{}`), even if the deadline has passed by then. */
  lemma WaitSucceedsAt(polls: seq<Poll>, start: real, timeout: real, i: nat)
    requires i < |polls|
    requires forall j :: 0 <= j < i ==> Continues(polls[j], start, timeout)
    requires SucceedsAt(polls[i])
    ensures WaitSpec(polls, start, timeout, None) == Output(OutputOrEmpty(FirstRun(polls[i]).value.output))
  {
    WaitSpecSkip(polls, start, timeout, None, i);
  }

  /** A run that reaches Failed or Cancelled ends the loop with an error and
      no output, even if the deadline has passed by then. */
  lemma WaitFailsAt(polls: seq<Poll>, start: real, timeout: real, i: nat)
    requires i < |polls|
    requires forall j :: 0 <= j < i ==> Continues(polls[j], start, timeout)
    requires FailsAt(polls[i])
    ensures WaitSpec(polls, start, timeout, None) == RunFailed(FirstRun(polls[i]).value.status.value)
  {
    WaitSpecSkip(polls, start, timeout, None, i);
  }

  /** A poll with no terminal status after the deadline ends the loop with a
      timeout that reports the most recent recorded status. */
  lemma WaitTimesOutAt(polls: seq<Poll>, start: real, timeout: real, i: nat)
    requires i < |polls|
    requires forall j :: 0 <= j < i ==> Continues(polls[j], start, timeout)
    requires polls[i].fetch.Fetched? && !SucceedsAt(polls[i]) && !FailsAt(polls[i])
    requires polls[i].now - start > timeout
    ensures WaitSpec(polls, start, timeout, None) == TimedOut(MostRecentStatus(polls[..i + 1], None))
  {
    WaitSpecSkip(polls, start, timeout, None, i);
    LastStatusSnoc(polls[..i], polls[i], None);
    assert polls[..i + 1] == polls[..i] + [polls[i]];
    LastStatusIsMostRecent(polls[..i + 1], None);
  }

  /** An error while fetching the runs ends the loop with that error. */
  lemma WaitFetchFailsAt(polls: seq<Poll>, start: real, timeout: real, i: nat)
    requires i < |polls|
    requires forall j :: 0 <= j < i ==> Continues(polls[j], start, timeout)
    requires polls[i].fetch.FetchError?
    ensures WaitSpec(polls, start, timeout, None) == FetchFailed
  {
    WaitSpecSkip(polls, start, timeout, None, i);
  }

  /** Empty run lists and non-terminal statuses before the deadline never
      end the loop. */
  lemma WaitKeepsPolling(polls: seq<Poll>, start: real, timeout: real)
    requires forall j :: 0 <= j < |polls| ==> Continues(polls[j], start, timeout)
    ensures WaitSpec(polls, start, timeout, None) == StillPolling(MostRecentStatus(polls, None))
  {
    WaitSpecSkip(polls, start, timeout, None, |polls|);
    assert polls[..|polls|] == polls;
    LastStatusIsMostRecent(polls, None);
  }

  /** Each way the loop ends is caused by a poll: a timeout by a clock
      reading past the deadline, an output by a success status, an error
      by a failure status or a failed fetch. */
  lemma {:induction false} WaitOutcomeWitnessed(polls: seq<Poll>, start: real, timeout: real, last: Option<string>)
    ensures var r := WaitSpec(polls, start, timeout, last);
            && (r.TimedOut? ==> exists i :: 0 <= i < |polls| && polls[i].now - start > timeout)
            && (r.Output? ==> exists i :: 0 <= i < |polls| && SucceedsAt(polls[i]))
            && (r.RunFailed? ==> exists i :: 0 <= i < |polls| && FailsAt(polls[i]))
            && (r.FetchFailed? ==> exists i :: 0 <= i < |polls| && polls[i].fetch.FetchError?)
    decreases |polls|
  {
    if polls != [] && Continues(polls[0], start, timeout) {
      var r := WaitSpec(polls, start, timeout, last);
      WaitOutcomeWitnessed(polls[1..], start, timeout, Observe(polls[0], last));
      if r.TimedOut? {
        var i :| 0 <= i < |polls[1..]| && polls[1..][i].now - start > timeout;
        assert polls[i + 1] == polls[1..][i];
      }
      if r.Output? {
        var i :| 0 <= i < |polls[1..]| && SucceedsAt(polls[1..][i]);
        assert polls[i + 1] == polls[1..][i];
      }
      if r.RunFailed? {
        var i :| 0 <= i < |polls[1..]| && FailsAt(polls[1..][i]);
        assert polls[i + 1] == polls[1..][i];
      }
      if r.FetchFailed? {
        var i :| 0 <= i < |polls[1..]| && polls[1..][i].fetch.FetchError?;
        assert polls[i + 1] == polls[1..][i];
      }
    }
  }

  /** wait_for_run_output: poll until a terminal status, a failed fetch or
      the deadline `start + timeout`. */
  method WaitForRunOutput(polls: seq<Poll>, start: real, timeout: real) returns (r: WaitOutcome)
    ensures r == WaitSpec(polls, start, timeout, None)
  {
    var lastStatus: Option<string> := None;
    var i := 0;
    while i < |polls|
      invariant 0 <= i <= |polls|
      invariant WaitSpec(polls[i..], start, timeout, lastStatus) == WaitSpec(polls, start, timeout, None)
    {
      var fetch := polls[i].fetch;
      if fetch.FetchError? {
        return FetchFailed;
      }
      var runs := fetch.runs;
      if runs != [] {
        var run := runs[0];
        var status := run.status;
        if IsRecorded(status) {
          lastStatus := status;
        }
        if IsSuccessStatus(status) {
          return Output(OutputOrEmpty(run.output));
        }
        if IsFailureStatus(status) {
          return RunFailed(status.value);
        }
      }
      if polls[i].now - start > timeout {
        return TimedOut(lastStatus);
      }
      i := i + 1;
    }
    r := StillPolling(lastStatus);
  }
}
