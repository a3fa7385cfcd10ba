/**
 * The debug relay: it checks the API key, then walks through thread
 * creation or reuse, adding the message, creating a run and one status
 * check, logging one step per call and stopping at the first call that
 * fails. Each external call is an input here: whether it succeeded and the
 * value it produced (an id, a run status) or the error message it raised.
 */
module DebugRelay {
  import opened Wrappers

  datatype StepName =
    | ApiKeyCheck | ClientInit | ThreadCreation | ThreadReuse
    | MessageAdded | RunCreated | RunStatusCheck | RunCreation

  /** One log entry; `detail` is the thread id, run id or run status of a success, the error of a failure. */
  datatype Step = Step(name: StepName, ok: bool, detail: string)

  /** The outcome of one external call: its value when `ok`, its error message otherwise. */
  datatype Call = Call(ok: bool, value: string)

  /** The outcomes of the four calls the relay may make, in order. */
  datatype ApiCalls = ApiCalls(threadCreate: Call, messageAdd: Call, runCreate: Call, runRetrieve: Call)

  datatype DebugRequest = DebugRequest(assistantId: string, message: string, threadId: Option<string>)

  /** The request as the report echoes it. */
  datatype EchoedInput = EchoedInput(assistantId: string, message: string, threadId: string)

  datatype DebugResponse =
    | Report(input: EchoedInput, steps: seq<Step>, status: int)
    | BodyUnreadable
  {
    function Status(): int {
      if Report? then status else 500
    }
  }

  const NoKeyError: string := "No OpenAI API key"

  /** `threadId || 'none'` */
  function EchoedThreadId(threadId: Option<string>): (s: string)
    ensures s == "none" <==> !Truthy(threadId) || threadId.value == "none"
    ensures Truthy(threadId) ==> s == threadId.value
  {
    if Truthy(threadId) then threadId.value else "none"
  }

  function Echo(request: DebugRequest): EchoedInput {
    EchoedInput(request.assistantId, request.message, EchoedThreadId(request.threadId))
  }

  /**
   * A stage of the relay: whether its call succeeded, the step logged when
   * it did and the step logged when it did not.
   */
  datatype Stage = Stage(ok: bool, done: Step, failed: Step)

  /** Runs the stages in order, logging each success and stopping after the first failure. */
  datatype Progress = Progress(steps: seq<Step>, completed: bool)

  function RunStages(stages: seq<Stage>): Progress
    decreases |stages|
  {
    if stages == [] then Progress([], true)
    else if !stages[0].ok then Progress([stages[0].failed], false)
    else
      var rest := RunStages(stages[1..]);
      Progress([stages[0].done] + rest.steps, rest.completed)
  }

  /**
   * Running stages logs the success of every stage up to the first that
   * fails, then that stage's failure, and nothing after it; the run
   * completes exactly when no stage fails.
   */
  lemma {:induction false} StagesStopAtFirstFailure(stages: seq<Stage>)
    ensures var r := RunStages(stages);
      |r.steps| <= |stages|
      && (r.completed <==> forall i :: 0 <= i < |stages| ==> stages[i].ok)
      && (r.completed ==> |r.steps| == |stages|)
      && (forall i :: 0 <= i < |r.steps| - 1 ==> stages[i].ok && r.steps[i] == stages[i].done)
      && (r.completed && |stages| > 0 ==> r.steps[|stages| - 1] == stages[|stages| - 1].done)
      && (!r.completed ==> |r.steps| >= 1 && !stages[|r.steps| - 1].ok
                           && r.steps[|r.steps| - 1] == stages[|r.steps| - 1].failed)
    decreases |stages|
  {
    if stages != [] && stages[0].ok {
      StagesStopAtFirstFailure(stages[1..]);
      var rest := RunStages(stages[1..]);
      assert forall i :: 1 <= i < |stages| ==> stages[1..][i - 1] == stages[i];
      assert forall i :: 1 <= i <= |rest.steps| ==> ([stages[0].done] + rest.steps)[i] == rest.steps[i - 1];
    }
  }

  /** The stage that fails first is the last one logged. */
  lemma FirstFailureIsLast(stages: seq<Stage>, k: nat)
    requires k < |stages| && !stages[k].ok
    requires forall j :: 0 <= j < k ==> stages[j].ok
    ensures var r := RunStages(stages);
      !r.completed && |r.steps| == k + 1 && r.steps[k] == stages[k].failed
      && forall i :: 0 <= i < k ==> r.steps[i] == stages[i].done
  {
    StagesStopAtFirstFailure(stages);
    var r := RunStages(stages);
    assert |r.steps| - 1 == k;
  }

  /** The stage of an external call: success logs `name` with `detail`, failure logs `failedAs` with the error. */
  function CallStage(call: Call, name: StepName, detail: string, failedAs: StepName): Stage {
    Stage(call.ok, Step(name, true, detail), Step(failedAs, false, call.value))
  }

  /**
   * The stages after the client is set up. A run whose status check fails
   * is logged under `run_creation`, as a failure to create it is.
   */
  function RelayStages(threadId: Option<string>, calls: ApiCalls): seq<Stage> {
    var thread :=
      if Truthy(threadId) then
        var reuse := Step(ThreadReuse, true, threadId.value);
        Stage(true, reuse, reuse)
      else CallStage(calls.threadCreate, ThreadCreation, calls.threadCreate.value, ThreadCreation);
    [thread,
     CallStage(calls.messageAdd, MessageAdded, "", MessageAdded),
     CallStage(calls.runCreate, RunCreated, calls.runCreate.value, RunCreation),
     CallStage(calls.runRetrieve, RunStatusCheck, calls.runRetrieve.value, RunCreation)]
  }

  /** The relay's answer: stage by stage, 200 when all of them went through. */
  function DebugOutcome(request: Option<DebugRequest>, apiKey: Option<string>, calls: ApiCalls): DebugResponse {
    if request.None? then BodyUnreadable
    else if !Truthy(apiKey) then Report(Echo(request.value), [Step(ApiKeyCheck, false, NoKeyError)], 500)
    else
      var progress := RunStages(RelayStages(request.value.threadId, calls));
      Report(Echo(request.value), [Step(ClientInit, true, "")] + progress.steps,
             if progress.completed then 200 else 500)
  }

  /** The handler: the key check and the client set-up, then the relay proper. */
  method Post(request: Option<DebugRequest>, apiKey: Option<string>, calls: ApiCalls) returns (r: DebugResponse)
    ensures r == DebugOutcome(request, apiKey, calls)
  {
    if request.None? {
      return BodyUnreadable;
    }
    var input := Echo(request.value);
    var steps: seq<Step> := [];
    if !Truthy(apiKey) {
      steps := steps + [Step(ApiKeyCheck, false, NoKeyError)];
      return Report(input, steps, 500);
    }
    steps := steps + [Step(ClientInit, true, "")];
    steps, r := Relay(input, request.value.threadId, calls, steps);
  }

  /**
   * The calls after the client set-up, each appending its step to `steps`;
   * the first failure ends the request with 500.
   */
  method Relay(input: EchoedInput, threadId: Option<string>, calls: ApiCalls, steps0: seq<Step>)
    returns (steps: seq<Step>, r: DebugResponse)
    ensures var progress := RunStages(RelayStages(threadId, calls));
      steps == steps0 + progress.steps
      && r == Report(input, steps, if progress.completed then 200 else 500)
  {
    ghost var stages := RelayStages(threadId, calls);
    steps := steps0;
    var currentThreadId := threadId;
    if !Truthy(currentThreadId) {
      if !calls.threadCreate.ok {
        steps := steps + [Step(ThreadCreation, false, calls.threadCreate.value)];
        FirstFailureIsLast(stages, 0);
        return steps, Report(input, steps, 500);
      }
      currentThreadId := Some(calls.threadCreate.value);
      steps := steps + [Step(ThreadCreation, true, currentThreadId.value)];
    } else {
      steps := steps + [Step(ThreadReuse, true, currentThreadId.value)];
    }

    if !calls.messageAdd.ok {
      steps := steps + [Step(MessageAdded, false, calls.messageAdd.value)];
      FirstFailureIsLast(stages, 1);
      return steps, Report(input, steps, 500);
    }
    steps := steps + [Step(MessageAdded, true, "")];

    if !calls.runCreate.ok {
      steps := steps + [Step(RunCreation, false, calls.runCreate.value)];
      FirstFailureIsLast(stages, 2);
      return steps, Report(input, steps, 500);
    }
    steps := steps + [Step(RunCreated, true, calls.runCreate.value)];
    if !calls.runRetrieve.ok {
      steps := steps + [Step(RunCreation, false, calls.runRetrieve.value)];
      FirstFailureIsLast(stages, 3);
      return steps, Report(input, steps, 500);
    }
    steps := steps + [Step(RunStatusCheck, true, calls.runRetrieve.value)];
    StagesStopAtFirstFailure(stages);
    r := Report(input, steps, 200);
  }

  /** Without an API key the log is the one failed key check, and the answer is 500. */
  lemma NoApiKey(request: DebugRequest, calls: ApiCalls)
    ensures DebugOutcome(Some(request), None, calls) == Report(Echo(request), [Step(ApiKeyCheck, false, NoKeyError)], 500)
    ensures DebugOutcome(Some(request), Some(""), calls).steps == [Step(ApiKeyCheck, false, NoKeyError)]
  {
  }

  /** With a key, the log opens with a successful client set-up and ends with a success exactly when the answer is 200. */
  lemma ClientInitFirst(request: DebugRequest, apiKey: string, calls: ApiCalls)
    requires apiKey != ""
    ensures var r := DebugOutcome(Some(request), Some(apiKey), calls);
      r.Report? && 2 <= |r.steps| <= 5 && r.steps[0] == Step(ClientInit, true, "")
      && (r.status == 200 <==> r.steps[|r.steps| - 1].ok)
      && (r.status == 200 || r.status == 500)
  {
    var stages := RelayStages(request.threadId, calls);
    StagesStopAtFirstFailure(stages);
  }

  /** A thread is created exactly when no thread id came in; a supplied id is logged as reused. */
  lemma ThreadCreatedIffNoId(request: DebugRequest, apiKey: string, calls: ApiCalls)
    requires apiKey != ""
    ensures var r := DebugOutcome(Some(request), Some(apiKey), calls);
      (r.steps[1].name == ThreadCreation <==> !Truthy(request.threadId))
      && (Truthy(request.threadId) ==> r.steps[1] == Step(ThreadReuse, true, request.threadId.value))
      && (forall i :: 0 <= i < |r.steps| && i != 1 ==> r.steps[i].name != ThreadCreation && r.steps[i].name != ThreadReuse)
  {
    var stages := RelayStages(request.threadId, calls);
    StagesStopAtFirstFailure(stages);
    assert forall i :: 1 <= i < |stages| ==>
      stages[i].done.name != ThreadCreation && stages[i].done.name != ThreadReuse
      && stages[i].failed.name != ThreadCreation && stages[i].failed.name != ThreadReuse;
  }

  /**
   * The log stops at the first failing call: every earlier entry is a
   * success, the failed entry is the last one, and the answer is 500.
   */
  lemma StopsAtFirstFailure(request: DebugRequest, apiKey: string, calls: ApiCalls, k: nat)
    requires apiKey != ""
    requires k < 4 && !RelayStages(request.threadId, calls)[k].ok
    requires forall j :: 0 <= j < k ==> RelayStages(request.threadId, calls)[j].ok
    ensures var r := DebugOutcome(Some(request), Some(apiKey), calls);
      r.status == 500 && |r.steps| == k + 2 && !r.steps[k + 1].ok
      && forall i :: 0 <= i <= k ==> r.steps[i].ok
  {
    FirstFailureIsLast(RelayStages(request.threadId, calls), k);
  }

  /**
   * A failed run creation and a failed status check are both logged as
   * `run_creation`; only the second comes after a `run_created` success.
   */
  lemma RunFailuresShareName(request: DebugRequest, apiKey: string, calls: ApiCalls)
    requires apiKey != ""
    requires Truthy(request.threadId) || calls.threadCreate.ok
    requires calls.messageAdd.ok
    requires !calls.runCreate.ok || !calls.runRetrieve.ok
    ensures var r := DebugOutcome(Some(request), Some(apiKey), calls);
      r.status == 500 && r.steps[|r.steps| - 1].name == RunCreation
      && (calls.runCreate.ok <==> r.steps[|r.steps| - 2] == Step(RunCreated, true, calls.runCreate.value))
  {
    var stages := RelayStages(request.threadId, calls);
    FirstFailureIsLast(stages, if calls.runCreate.ok then 3 else 2);
  }

  /** When every call succeeds the log has five entries ending with the status check, and the answer is 200. */
  lemma FullSuccess(request: DebugRequest, apiKey: string, calls: ApiCalls)
    requires apiKey != ""
    requires Truthy(request.threadId) || calls.threadCreate.ok
    requires calls.messageAdd.ok && calls.runCreate.ok && calls.runRetrieve.ok
    ensures var r := DebugOutcome(Some(request), Some(apiKey), calls);
      r.status == 200 && |r.steps| == 5
      && r.steps[4] == Step(RunStatusCheck, true, calls.runRetrieve.value)
      && forall i :: 0 <= i < 5 ==> r.steps[i].ok
  {
    StagesStopAtFirstFailure(RelayStages(request.threadId, calls));
  }

  /** The echoed input shows an absent or empty thread id as "none". */
  lemma EchoShowsNone(request: Option<DebugRequest>, apiKey: Option<string>, calls: ApiCalls)
    requires request.Some? && !Truthy(request.value.threadId)
    ensures DebugOutcome(request, apiKey, calls).input.threadId == "none"
  {
  }
}
