/**
 * The end-to-end self test: it probes the debug endpoint, looks up the
 * assistant of `test-solar` and, when the lookup yields an assistant id,
 * sends one chat message; it logs one entry per probe and sums them up.
 * Each fetch is an input: it throws, or it answers with an `ok` flag and a
 * body that can or cannot be read.
 */
module TestChatDebug {
  import opened Wrappers

  datatype TestName = InfrastructureCheck | AssistantLookup | ChatApi

  datatype TestStatus = Success | Failed | Skipped

  /** One entry of `tests`; the payload of each entry is left out. */
  datatype TestEntry = TestEntry(test: TestName, status: TestStatus)

  /** A fetch: it throws, or answers; `readable` says whether reading its body completes. */
  datatype Reply = Threw | Answered(ok: bool, readable: bool)

  /** The fields of the lookup answer the test reads. */
  datatype LookupData = LookupData(success: bool, assistantId: Option<string>)

  datatype Summary = Summary(total: nat, passed: nat, failed: nat, overall: string)

  /** A fetch that answered OK with a readable body. */
  predicate Passes(reply: Reply) {
    reply == Answered(true, true)
  }

  /** The lookup answer carries `success` and a non-empty `assistantId`: the chat test runs. */
  predicate ChatEligible(data: LookupData) {
    data.success && Truthy(data.assistantId)
  }

  /**
   * The test sequence. A chat fetch that throws, or whose body cannot be
   * read, is caught by the handler around the lookup and logged as a second,
   * failed `assistant_lookup` entry.
   */
  method RunTests(infra: Reply, lookup: Reply, data: LookupData, chat: Reply) returns (tests: seq<TestEntry>)
    ensures |tests| == 2 || |tests| == 3
    ensures tests[0] == TestEntry(InfrastructureCheck, if Passes(infra) then Success else Failed)
    ensures forall i :: 1 <= i < |tests| ==> tests[i].test != InfrastructureCheck
    ensures tests[1] == TestEntry(AssistantLookup, if Passes(lookup) then Success else Failed)
    ensures !Passes(lookup) ==> |tests| == 2
    ensures Passes(lookup) && !ChatEligible(data) ==> tests == tests[..2] + [TestEntry(ChatApi, Skipped)]
    ensures Passes(lookup) && ChatEligible(data) ==>
      |tests| == 3
      && tests[2] == (if chat.Answered? && chat.readable then TestEntry(ChatApi, if chat.ok then Success else Failed)
                      else TestEntry(AssistantLookup, Failed))
  {
    tests := [];
    // Test 1: the debug endpoint; a body that cannot be read is caught as a failure
    if infra.Answered? && infra.ok && infra.readable {
      tests := tests + [TestEntry(InfrastructureCheck, Success)];
    } else {
      tests := tests + [TestEntry(InfrastructureCheck, Failed)];
    }

    // Test 2: the assistant lookup, with test 3 inside its handler
    if lookup.Threw? {
      tests := tests + [TestEntry(AssistantLookup, Failed)];
    } else if lookup.ok {
      if !lookup.readable {
        tests := tests + [TestEntry(AssistantLookup, Failed)];
      } else {
        tests := tests + [TestEntry(AssistantLookup, Success)];
        if ChatEligible(data) {
          if chat.Threw? || !chat.readable {
            tests := tests + [TestEntry(AssistantLookup, Failed)];
          } else if chat.ok {
            tests := tests + [TestEntry(ChatApi, Success)];
          } else {
            tests := tests + [TestEntry(ChatApi, Failed)];
          }
        } else {
          tests := tests + [TestEntry(ChatApi, Skipped)];
        }
      }
    } else {
      tests := tests + [TestEntry(AssistantLookup, Failed)];
    }
  }

  /** `tests.filter(t => t.status === status).length` */
  function Count(tests: seq<TestEntry>, status: TestStatus): nat
    decreases |tests|
  {
    if tests == [] then 0
    else (if tests[0].status == status then 1 else 0) + Count(tests[1..], status)
  }

  function Summarize(tests: seq<TestEntry>): Summary {
    var failed := Count(tests, Failed);
    Summary(|tests|, Count(tests, Success), failed, if failed == 0 then "ALL_SYSTEMS_GO" else "ISSUES_DETECTED")
  }

  /** The HTTP status of the answer. */
  function HttpStatus(summary: Summary): int {
    if summary.failed == 0 then 200 else 500
  }

  /** Successes and failures together never exceed the entries: skipped ones count only in `total`. */
  lemma {:induction false} CountsWithinTotal(tests: seq<TestEntry>)
    ensures Count(tests, Success) + Count(tests, Failed) + Count(tests, Skipped) == |tests|
    ensures Summarize(tests).passed + Summarize(tests).failed <= Summarize(tests).total
    decreases |tests|
  {
    if tests != [] {
      CountsWithinTotal(tests[1..]);
    }
  }

  /** A status is counted zero times exactly when no entry has it. */
  lemma {:induction false} CountIsZero(tests: seq<TestEntry>, status: TestStatus)
    ensures Count(tests, status) == 0 <==> forall i :: 0 <= i < |tests| ==> tests[i].status != status
    decreases |tests|
  {
    if tests != [] {
      CountIsZero(tests[1..], status);
      assert forall i :: 1 <= i < |tests| ==> tests[1..][i - 1] == tests[i];
    }
  }

  /** All systems go, and HTTP 200, exactly when no entry failed. */
  lemma AllSystemsGoIffNoFailure(tests: seq<TestEntry>)
    ensures Summarize(tests).overall == "ALL_SYSTEMS_GO" <==> forall i :: 0 <= i < |tests| ==> tests[i].status != Failed
    ensures HttpStatus(Summarize(tests)) == 200 <==> Summarize(tests).overall == "ALL_SYSTEMS_GO"
  {
    CountIsZero(tests, Failed);
  }

  /**
   * The handler: the tests, their summary and the HTTP status. It answers
   * 200 exactly when both probes pass and the chat test, if it runs, passes.
   */
  method Get(infra: Reply, lookup: Reply, data: LookupData, chat: Reply)
    returns (tests: seq<TestEntry>, summary: Summary, status: int)
    ensures summary.total == |tests| && (summary.total == 2 || summary.total == 3)
    ensures summary.passed + summary.failed <= summary.total
    ensures status == 200 <==> summary.overall == "ALL_SYSTEMS_GO"
    ensures status == 200 <==> Passes(infra) && Passes(lookup) && (!ChatEligible(data) || Passes(chat))
  {
    tests := RunTests(infra, lookup, data, chat);
    summary := Summarize(tests);
    status := HttpStatus(summary);
    CountsWithinTotal(tests);
    AllSystemsGoIffNoFailure(tests);
  }
}
