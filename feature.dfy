/**
 * The Feature: an ordered list of scenarios and a transient server state.
 * Requests are matched against every scenario in order; the first success
 * answers, and otherwise the failures are turned into an error. Each
 * operation that reads the server state clears it afterwards.
 *
 * A scenario's own matching and generation are not part of this model: the
 * Feature reaches them through a ScenarioBehaviour, a record of functions.
 */
module Features {
  import opened KotlinStd
  import opened Http
  import opened Results
  import opened Patterns

  datatype Scenario = Scenario(name: string, requestHeaders: HttpHeadersPattern)

  type ServerState = map<string, Value>

  datatype KafkaMessage = KafkaMessage(topic: string, key: Option<string>, value: Value)

  /** What a stub serves: the request headers it expects, the response, and a delay. */
  datatype HttpStubData = HttpStubData(requestHeaders: HttpHeadersPattern, response: HttpResponse, delayInSeconds: Option<int>)

  datatype ScenarioStub = ScenarioStub(request: HttpRequest, response: HttpResponse, delayInSeconds: Option<int>)

  /**
   * The scenario operations the Feature calls: matching a request (as a
   * contract and as a stub), a response, a mock, a Kafka message; generating
   * a response; building the request headers and response of a stub; and
   * naming the scenario in a failure report.
   */
  datatype ScenarioBehaviour = ScenarioBehaviour(
    matches: (Scenario, HttpRequest, ServerState) -> Result,
    matchesStub: (Scenario, HttpRequest, ServerState) -> Result,
    matchesResponse: (Scenario, HttpResponse) -> Result,
    matchesMock: (Scenario, HttpRequest, HttpResponse) -> Result,
    matchesMockKafka: (Scenario, KafkaMessage) -> Result,
    generateHttpResponse: (Scenario, ServerState) -> Outcome<HttpResponse>,
    resolveStub: (Scenario, HttpRequest, HttpResponse) -> Outcome<(HttpHeadersPattern, HttpResponse)>,
    reportInScenario: (Scenario, string) -> string)

  const EmptyContract: string := "The contract is empty."
  const NoKafkaMatch: string := "No match found, couldn't check the message"

  /** The result of each scenario, in order. */
  function ResultsOf(scenarios: seq<Scenario>, matcher: Scenario -> Result): (rs: seq<Result>)
    ensures |rs| == |scenarios|
    ensures forall i :: 0 <= i < |rs| ==> rs[i] == matcher(scenarios[i])
  {
    seq(|scenarios|, i requires 0 <= i < |scenarios| => matcher(scenarios[i]))
  }

  function RequestResults(scenarios: seq<Scenario>, request: HttpRequest, state: ServerState, b: ScenarioBehaviour): seq<Result>
  {
    ResultsOf(scenarios, s => b.matches(s, request, state))
  }

  function StubRequestResults(scenarios: seq<Scenario>, request: HttpRequest, state: ServerState, b: ScenarioBehaviour): seq<Result>
  {
    ResultsOf(scenarios, s => b.matchesStub(s, request, state))
  }

  /** The scenario at i is the first whose result is a success. */
  predicate FirstSuccessAt(rs: seq<Result>, i: int)
  {
    0 <= i < |rs| && rs[i].Success? && forall j :: 0 <= j < i ==> !rs[j].Success?
  }

  /** matchingScenario: the first scenario whose result is a success. */
  function MatchingScenario(scenarios: seq<Scenario>, rs: seq<Result>): (r: Option<Scenario>)
    requires |rs| == |scenarios|
    ensures r.None? <==> forall i :: 0 <= i < |rs| ==> !rs[i].Success?
    ensures r.Some? ==> exists i :: FirstSuccessAt(rs, i) && r.value == scenarios[i]
  {
    var k := IndexWhere(rs, IsSuccess);
    if k < |rs| then
      assert FirstSuccessAt(rs, k);
      Some(scenarios[k])
    else None
  }

  /** Some scenario equal to x has a successful result. */
  ghost predicate Accepted(scenarios: seq<Scenario>, rs: seq<Result>, x: Scenario)
    requires |rs| == |scenarios|
  {
    exists i :: 0 <= i < |rs| && rs[i].Success? && scenarios[i] == x
  }

  /** matchingScenarios: every scenario whose result is a success, in order. */
  function MatchingScenarios(scenarios: seq<Scenario>, rs: seq<Result>): (r: seq<Scenario>)
    requires |rs| == |scenarios|
    ensures |r| <= |scenarios|
  {
    if rs == [] then []
    else
      var rest := MatchingScenarios(scenarios[1..], rs[1..]);
      if rs[0].Success? then [scenarios[0]] + rest else rest
  }

  /** There are as many matching scenarios as successes. */
  lemma {:induction false} MatchingScenariosCount(scenarios: seq<Scenario>, rs: seq<Result>)
    requires |rs| == |scenarios|
    ensures |MatchingScenarios(scenarios, rs)| == Count(rs, IsSuccess)
  {
    if rs != [] {
      MatchingScenariosCount(scenarios[1..], rs[1..]);
    }
  }

  /** matchingScenarios works piece by piece: the matches of a concatenation are the matches of each part, in order. */
  lemma {:induction false} MatchingScenariosConcat(s1: seq<Scenario>, r1: seq<Result>, s2: seq<Scenario>, r2: seq<Result>)
    requires |r1| == |s1| && |r2| == |s2|
    ensures MatchingScenarios(s1 + s2, r1 + r2) == MatchingScenarios(s1, r1) + MatchingScenarios(s2, r2)
  {
    if r1 == [] {
      assert s1 + s2 == s2 && r1 + r2 == r2;
    } else {
      assert (s1 + s2)[0] == s1[0] && (r1 + r2)[0] == r1[0];
      assert (s1 + s2)[1..] == s1[1..] + s2 && (r1 + r2)[1..] == r1[1..] + r2;
      MatchingScenariosConcat(s1[1..], r1[1..], s2, r2);
    }
  }

  /** A single scenario matches exactly when its result is a success. */
  lemma MatchingScenariosOfOne(s: Scenario, r: Result)
    ensures MatchingScenarios([s], [r]) == if r.Success? then [s] else []
  {
  }

  /** The indices from `from` on whose results are successes, in increasing order. */
  function SuccessIndices(rs: seq<Result>, from: nat): (idx: seq<nat>)
    requires from <= |rs|
    ensures forall k :: 0 <= k < |idx| ==> from <= idx[k] < |rs| && rs[idx[k]].Success?
    ensures forall k, l :: 0 <= k < l < |idx| ==> idx[k] < idx[l]
    ensures forall i :: from <= i < |rs| && rs[i].Success? ==> i in idx
    decreases |rs| - from
  {
    if from == |rs| then []
    else
      var rest := SuccessIndices(rs, from + 1);
      if rs[from].Success? then [from] + rest else rest
  }

  /**
   * The matches are the scenarios at the successful indices, one per
   * success and in scenario order.
   */
  lemma {:induction false} MatchingScenariosInOrder(scenarios: seq<Scenario>, rs: seq<Result>, from: nat)
    requires |rs| == |scenarios| && from <= |rs|
    ensures var idx := SuccessIndices(rs, from);
      var matches := MatchingScenarios(scenarios[from..], rs[from..]);
      |matches| == |idx| && forall k :: 0 <= k < |idx| ==> matches[k] == scenarios[idx[k]]
    decreases |rs| - from
  {
    if from < |rs| {
      MatchingScenariosInOrder(scenarios, rs, from + 1);
      assert scenarios[from..][1..] == scenarios[from + 1..] && rs[from..][1..] == rs[from + 1..];
      var rest := MatchingScenarios(scenarios[from + 1..], rs[from + 1..]);
      var restIdx := SuccessIndices(rs, from + 1);
      if rs[from].Success? {
        assert SuccessIndices(rs, from) == [from] + restIdx;
        assert MatchingScenarios(scenarios[from..], rs[from..]) == [scenarios[from]] + rest;
        IndexedPrepend(scenarios, from, rest, restIdx);
      } else {
        assert SuccessIndices(rs, from) == restIdx;
        assert MatchingScenarios(scenarios[from..], rs[from..]) == rest;
      }
    }
  }

  lemma IndexedPrepend(scenarios: seq<Scenario>, from: nat, rest: seq<Scenario>, restIdx: seq<nat>)
    requires from < |scenarios| && |rest| == |restIdx|
    requires forall k :: 0 <= k < |restIdx| ==> restIdx[k] < |scenarios| && rest[k] == scenarios[restIdx[k]]
    ensures var idx := [from] + restIdx;
      var matches := [scenarios[from]] + rest;
      |matches| == |idx| && forall k :: 0 <= k < |idx| ==> matches[k] == scenarios[idx[k]]
  {
    var idx := [from] + restIdx;
    var matches := [scenarios[from]] + rest;
    forall k | 0 <= k < |idx|
      ensures matches[k] == scenarios[idx[k]]
    {
      if k > 0 {
        assert matches[k] == rest[k - 1] && idx[k] == restIdx[k - 1];
      }
    }
  }

  /** Every scenario whose result is a success is among the matching scenarios. */
  lemma {:induction false} MatchingScenariosComplete(scenarios: seq<Scenario>, rs: seq<Result>, i: int)
    requires |rs| == |scenarios| && 0 <= i < |rs| && rs[i].Success?
    ensures scenarios[i] in MatchingScenarios(scenarios, rs)
  {
    if i > 0 {
      MatchingScenariosComplete(scenarios[1..], rs[1..], i - 1);
    }
  }

  lemma NoMatchingScenarios(scenarios: seq<Scenario>, rs: seq<Result>)
    requires |rs| == |scenarios| && MatchingScenarios(scenarios, rs) == []
    ensures forall i :: 0 <= i < |rs| ==> !rs[i].Success?
  {
    forall i | 0 <= i < |rs| && rs[i].Success?
      ensures false
    {
      MatchingScenariosComplete(scenarios, rs, i);
    }
  }

  /** Every matching scenario has a successful result. */
  lemma {:induction false} MatchingScenariosSound(scenarios: seq<Scenario>, rs: seq<Result>, j: int)
    requires |rs| == |scenarios| && 0 <= j < |MatchingScenarios(scenarios, rs)|
    ensures Accepted(scenarios, rs, MatchingScenarios(scenarios, rs)[j])
  {
    var rest := MatchingScenarios(scenarios[1..], rs[1..]);
    if rs[0].Success? && j == 0 {
      assert rs[0].Success? && scenarios[0] == MatchingScenarios(scenarios, rs)[0];
    } else {
      var j' := if rs[0].Success? then j - 1 else j;
      assert MatchingScenarios(scenarios, rs)[j] == rest[j'];
      MatchingScenariosSound(scenarios[1..], rs[1..], j');
      var i :| 0 <= i < |rs[1..]| && rs[1..][i].Success? && scenarios[1..][i] == rest[j'];
      assert rs[i + 1].Success? && scenarios[i + 1] == rest[j'];
    }
  }

  /** matchingScenario is the head of matchingScenarios. */
  lemma {:induction false} MatchingScenarioIsFirstOfAll(scenarios: seq<Scenario>, rs: seq<Result>)
    requires |rs| == |scenarios|
    ensures |MatchingScenarios(scenarios, rs)| == 0 <==> MatchingScenario(scenarios, rs).None?
    ensures |MatchingScenarios(scenarios, rs)| > 0 ==> MatchingScenario(scenarios, rs) == Some(MatchingScenarios(scenarios, rs)[0])
  {
    if rs != [] && !rs[0].Success? {
      MatchingScenarioIsFirstOfAll(scenarios[1..], rs[1..]);
      assert forall i :: 1 <= i < |rs| ==> rs[i] == rs[1..][i - 1];
      MatchingScenarioSkip(scenarios, rs);
    }
  }

  lemma MatchingScenarioSkip(scenarios: seq<Scenario>, rs: seq<Result>)
    requires |rs| == |scenarios| && rs != [] && !rs[0].Success?
    ensures MatchingScenario(scenarios, rs) == MatchingScenario(scenarios[1..], rs[1..])
  {
    assert IndexWhere(rs, IsSuccess) == 1 + IndexWhere(rs[1..], IsSuccess);
  }

  /** The answer to a request: the first matching scenario's response, or an error response. */
  function Respond(scenarios: seq<Scenario>, rs: seq<Result>, state: ServerState, b: ScenarioBehaviour): Outcome<HttpResponse>
    requires |rs| == |scenarios|
  {
    match MatchingScenario(scenarios, rs)
    case Some(s) => b.generateHttpResponse(s, state)
    case None => Ok(GenerateErrorHttpResponse(WithoutFluff(rs)))
  }

  /** lookupScenario: the matching scenarios, or the error that explains why there are none. */
  function LookupScenarioOutcome(scenarios: seq<Scenario>, rs: seq<Result>, request: HttpRequest): (r: Outcome<seq<Scenario>>)
    requires |rs| == |scenarios|
    ensures r.Ok? <==> exists i :: 0 <= i < |rs| && rs[i].Success?
    ensures r.Ok? ==> r.value == MatchingScenarios(scenarios, rs)
    ensures r.Thrown? ==> r.error.ContractException?
  {
    var matching := MatchingScenarios(scenarios, rs);
    if |matching| > 0 then
      MatchingScenariosSound(scenarios, rs, 0);
      Ok(matching)
    else
      NoMatchingScenarios(scenarios, rs);
      match Find(rs, IsNotFluffy)
      case Some(firstReal) => Thrown(ContractException(ReportText(firstReal)))
      case None =>
        if |rs| > 0 then Thrown(ContractException(PathNotRecognizedMessage(request)))
        else Thrown(ContractException(EmptyContract))
  }

  /** What one scenario contributes to a stub: the stub data when the mock matches, and a result. */
  function StubAttempt(s: Scenario, request: HttpRequest, response: HttpResponse, b: ScenarioBehaviour): (r: Outcome<(Option<HttpStubData>, Result)>)
    ensures r.Ok? ==> (r.value.0.Some? <==> r.value.1.Success?)
    ensures r.Ok? && r.value.0.Some? ==>
      b.matchesMock(s, request, response).Success? &&
      r.value.0.value.requestHeaders.ancestorHeaders == Some(s.requestHeaders.pattern) &&
      r.value.0.value.delayInSeconds == None
    ensures r.Thrown? ==> !r.error.ContractException?
  {
    match b.matchesMock(s, request, response)
    case Success =>
      (match b.resolveStub(s, request, response)
       case Ok((headers, resolved)) =>
         Ok((Some(HttpStubData(headers.(ancestorHeaders := Some(s.requestHeaders.pattern)), resolved, None)), Success))
       case Thrown(ContractException(message)) => Ok((None, Failure(message, false)))
       case Thrown(e) => Thrown(e))
    case Failure(report, fluffy) => Ok((None, Failure(b.reportInScenario(s, report), fluffy)))
  }

  /** Every scenario's stub attempt, in order; an error other than a contract error stops the whole. */
  function StubAttempts(scenarios: seq<Scenario>, request: HttpRequest, response: HttpResponse, b: ScenarioBehaviour): (r: Outcome<seq<(Option<HttpStubData>, Result)>>)
    ensures r.Ok? ==> |r.value| == |scenarios|
    ensures r.Ok? ==> forall i :: 0 <= i < |scenarios| ==> StubAttempt(scenarios[i], request, response, b) == Ok(r.value[i])
    ensures r.Ok? <==> forall i :: 0 <= i < |scenarios| ==> StubAttempt(scenarios[i], request, response, b).Ok?
  {
    if scenarios == [] then Ok([])
    else
      match StubAttempt(scenarios[0], request, response, b)
      case Thrown(e) => Thrown(e)
      case Ok(first) =>
        match StubAttempts(scenarios[1..], request, response, b)
        case Thrown(e) =>
          assert forall i :: 1 <= i < |scenarios| ==> scenarios[i] == scenarios[1..][i - 1];
          Thrown(e)
        case Ok(rest) =>
          assert forall i :: 1 <= i < |scenarios| ==> scenarios[i] == scenarios[1..][i - 1];
          Ok([first] + rest)
  }

  predicate HasStub(attempt: (Option<HttpStubData>, Result))
  {
    attempt.0.Some?
  }

  function SecondOf(attempts: seq<(Option<HttpStubData>, Result)>): (rs: seq<Result>)
    ensures |rs| == |attempts|
    ensures forall i :: 0 <= i < |rs| ==> rs[i] == attempts[i].1
  {
    seq(|attempts|, i requires 0 <= i < |attempts| => attempts[i].1)
  }

  /** failureResults: the failures among the attempts. */
  function FailureResults(attempts: seq<(Option<HttpStubData>, Result)>): seq<Result>
  {
    Filter(SecondOf(attempts), IsFailure)
  }

  /** The scenario at i accepts the mock and builds the stub data d. */
  predicate BuiltBy(scenarios: seq<Scenario>, i: int, request: HttpRequest, response: HttpResponse, b: ScenarioBehaviour, d: HttpStubData)
  {
    0 <= i < |scenarios| && b.matchesMock(scenarios[i], request, response).Success? &&
    StubAttempt(scenarios[i], request, response, b) == Ok((Some(d), Success))
  }

  /** matchingStub: the first stub data built, or NoMatchingScenario carrying the report of the failures. */
  function MatchingStubOutcome(scenarios: seq<Scenario>, request: HttpRequest, response: HttpResponse, b: ScenarioBehaviour): (r: Outcome<HttpStubData>)
    ensures r.Ok? ==> exists i :: BuiltBy(scenarios, i, request, response, b, r.value)
  {
    match StubAttempts(scenarios, request, response, b)
    case Thrown(e) => Thrown(e)
    case Ok(attempts) =>
      match Find(attempts, HasStub)
      case Some(attempt) =>
        assert forall i :: 0 <= i < |attempts| && attempts[i] == attempt ==> BuiltBy(scenarios, i, request, response, b, attempt.0.value);
        Ok(attempt.0.value)
      case None => Thrown(NoMatchingScenario(ReportFor(WithoutFluff(FailureResults(attempts)), request)))
  }

  /** matchesMockKafkaMessage: the first success, else the first result, else a fixed failure. */
  function MatchesMockKafka(scenarios: seq<Scenario>, message: KafkaMessage, b: ScenarioBehaviour): (r: Result)
    ensures r.Success? <==> exists i :: 0 <= i < |scenarios| && b.matchesMockKafka(scenarios[i], message).Success?
    ensures r.Failure? && |scenarios| > 0 ==> r == b.matchesMockKafka(scenarios[0], message)
    ensures scenarios == [] ==> r == Failure(NoKafkaMatch, false)
  {
    var rs := ResultsOf(scenarios, s => b.matchesMockKafka(s, message));
    match Find(rs, IsSuccess)
    case Some(success) => success
    case None => if |rs| > 0 then rs[0] else Failure(NoKafkaMatch, false)
  }

  predicate AcceptsResponse(scenarios: seq<Scenario>, i: int, response: HttpResponse, b: ScenarioBehaviour)
  {
    0 <= i < |scenarios| && b.matchesResponse(scenarios[i], response).Success?
  }

  /** matches: the first scenario that accepts the request must accept the response too. */
  function MatchesExchange(scenarios: seq<Scenario>, request: HttpRequest, response: HttpResponse, state: ServerState, b: ScenarioBehaviour): (r: bool)
    ensures r <==> exists i :: FirstSuccessAt(RequestResults(scenarios, request, state, b), i) && AcceptsResponse(scenarios, i, response, b)
  {
    var rs := RequestResults(scenarios, request, state, b);
    match MatchingScenario(scenarios, rs)
    case Some(s) =>
      var i :| FirstSuccessAt(rs, i) && s == scenarios[i];
      assert forall j :: FirstSuccessAt(rs, j) ==> j == i;
      b.matchesResponse(s, response).Success?
    case None => false
  }

  // ---------------------------------------------------------------------
  // Properties of the lookups

  /** Only one index is the first success. */
  lemma FirstSuccessUnique(rs: seq<Result>, i: int, j: int)
    requires FirstSuccessAt(rs, i) && FirstSuccessAt(rs, j)
    ensures i == j
  {
  }

  /** The first scenario that accepts the request answers it. */
  lemma RespondFirstMatch(scenarios: seq<Scenario>, rs: seq<Result>, state: ServerState, b: ScenarioBehaviour, i: int)
    requires |rs| == |scenarios| && FirstSuccessAt(rs, i)
    ensures Respond(scenarios, rs, state, b) == b.generateHttpResponse(scenarios[i], state)
  {
    var m := MatchingScenario(scenarios, rs);
    var k :| FirstSuccessAt(rs, k) && m.value == scenarios[k];
    FirstSuccessUnique(rs, i, k);
  }

  /** With no match, a failure that is not fluffy is part of the error response's body. */
  lemma RespondReportsRealFailure(scenarios: seq<Scenario>, rs: seq<Result>, state: ServerState, b: ScenarioBehaviour, i: int)
    requires |rs| == |scenarios| && forall j :: 0 <= j < |rs| ==> !rs[j].Success?
    requires 0 <= i < |rs| && !IsFluffy(rs[i])
    ensures var r := Respond(scenarios, rs, state, b);
      r.Ok? && r.value.status == 400 && IsSubstring(rs[i].report, r.value.body)
  {
    var nonFluffy := WithoutFluff(rs);
    assert rs[i] in nonFluffy;
    var j :| 0 <= j < |nonFluffy| && nonFluffy[j] == rs[i];
    ReportIgnoresDefault(nonFluffy, PathNotRecognizedError, PathNotRecognizedError);
    WithoutFluffIdempotent(rs);
    ListToReportNamesFailure(nonFluffy, j);
  }

  /** With only fluffy failures, or no scenario at all, the answer is the bare "not recognised" response. */
  lemma RespondAllFluffy(scenarios: seq<Scenario>, rs: seq<Result>, state: ServerState, b: ScenarioBehaviour)
    requires |rs| == |scenarios| && forall j :: 0 <= j < |rs| ==> IsFluffy(rs[j])
    ensures var r := Respond(scenarios, rs, state, b);
      r.Ok? && r.value.status == 400 && r.value.body == PathNotRecognizedError && EmptyHeader in r.value.headers
  {
    assert MatchingScenario(scenarios, rs).None?;
    FilterNonePass(rs, IsNotFluffy);
    assert Respond(scenarios, rs, state, b) == Ok(GenerateErrorHttpResponse([]));
    ErrorResponseOfNothingIsMarkedEmpty();
  }

  /** lookupScenario and lookupResponse agree: the response comes from the first scenario listed. */
  lemma LookupScenarioAgreesWithRespond(scenarios: seq<Scenario>, rs: seq<Result>, request: HttpRequest)
    requires |rs| == |scenarios|
    ensures var r := LookupScenarioOutcome(scenarios, rs, request);
      r.Ok? <==> MatchingScenario(scenarios, rs).Some?
    ensures var r := LookupScenarioOutcome(scenarios, rs, request);
      r.Ok? ==> |r.value| > 0 && MatchingScenario(scenarios, rs) == Some(r.value[0])
  {
    MatchingScenarioIsFirstOfAll(scenarios, rs);
  }

  /** A contract without scenarios is reported as empty. */
  lemma LookupScenarioOfEmptyContract(rs: seq<Result>, request: HttpRequest)
    requires rs == []
    ensures LookupScenarioOutcome([], rs, request) == Thrown(ContractException(EmptyContract))
  {
  }

  /** With no match, the first failure that is not fluffy explains why. */
  lemma LookupScenarioFirstRealFailure(scenarios: seq<Scenario>, rs: seq<Result>, request: HttpRequest, i: int)
    requires |rs| == |scenarios| && forall j :: 0 <= j < |rs| ==> !rs[j].Success?
    requires 0 <= i < |rs| && !IsFluffy(rs[i]) && forall j :: 0 <= j < i ==> IsFluffy(rs[j])
    ensures LookupScenarioOutcome(scenarios, rs, request) == Thrown(ContractException(rs[i].report))
  {
    NoSuccessNoneMatching(scenarios, rs);
    var f := Find(rs, IsNotFluffy);
    var k :| 0 <= k < |rs| && rs[k] == f.value && IsNotFluffy(rs[k]) && forall j :: 0 <= j < k ==> !IsNotFluffy(rs[j]);
    assert k == i;
  }

  /** With only fluffy failures, the request itself is named as not recognised. */
  lemma LookupScenarioAllFluffy(scenarios: seq<Scenario>, rs: seq<Result>, request: HttpRequest)
    requires |rs| == |scenarios| && |rs| > 0 && forall j :: 0 <= j < |rs| ==> IsFluffy(rs[j])
    ensures LookupScenarioOutcome(scenarios, rs, request) == Thrown(ContractException(PathNotRecognizedMessage(request)))
  {
    NoSuccessNoneMatching(scenarios, rs);
  }

  lemma NoSuccessNoneMatching(scenarios: seq<Scenario>, rs: seq<Result>)
    requires |rs| == |scenarios| && forall j :: 0 <= j < |rs| ==> !rs[j].Success?
    ensures MatchingScenarios(scenarios, rs) == []
  {
    if MatchingScenarios(scenarios, rs) != [] {
      MatchingScenariosSound(scenarios, rs, 0);
    }
  }

  /** The first scenario that builds a stub provides it, when no scenario throws. */
  lemma MatchingStubFirstWins(scenarios: seq<Scenario>, request: HttpRequest, response: HttpResponse, b: ScenarioBehaviour, i: int, d: HttpStubData)
    requires StubAttempts(scenarios, request, response, b).Ok?
    requires BuiltBy(scenarios, i, request, response, b, d)
    requires forall j :: 0 <= j < i ==> StubAttempt(scenarios[j], request, response, b).value.0.None?
    ensures MatchingStubOutcome(scenarios, request, response, b) == Ok(d)
  {
    var attempts := StubAttempts(scenarios, request, response, b).value;
    assert HasStub(attempts[i]);
    var f := Find(attempts, HasStub);
    var k :| 0 <= k < |attempts| && attempts[k] == f.value && HasStub(attempts[k]) && forall j :: 0 <= j < k ==> !HasStub(attempts[j]);
    assert k == i;
  }

  /** When no scenario builds a stub, the error is NoMatchingScenario with the report of the failures. */
  lemma MatchingStubNoMatch(scenarios: seq<Scenario>, request: HttpRequest, response: HttpResponse, b: ScenarioBehaviour)
    requires StubAttempts(scenarios, request, response, b).Ok?
    requires forall j :: 0 <= j < |scenarios| ==> StubAttempt(scenarios[j], request, response, b).value.0.None?
    ensures var attempts := StubAttempts(scenarios, request, response, b).value;
      MatchingStubOutcome(scenarios, request, response, b) ==
        Thrown(NoMatchingScenario(ReportFor(WithoutFluff(FailureResults(attempts)), request)))
  {
    var attempts := StubAttempts(scenarios, request, response, b).value;
    assert forall j :: 0 <= j < |attempts| ==> !HasStub(attempts[j]);
  }

  /** Every failure that is not fluffy appears in the NoMatchingScenario report. */
  lemma MatchingStubReportsFailure(scenarios: seq<Scenario>, request: HttpRequest, response: HttpResponse, b: ScenarioBehaviour, i: int)
    requires StubAttempts(scenarios, request, response, b).Ok?
    requires forall j :: 0 <= j < |scenarios| ==> StubAttempt(scenarios[j], request, response, b).value.0.None?
    requires 0 <= i < |scenarios|
    requires var a := StubAttempt(scenarios[i], request, response, b).value.1; a.Failure? && !a.fluffy
    ensures var a := StubAttempt(scenarios[i], request, response, b).value.1;
      var r := MatchingStubOutcome(scenarios, request, response, b);
      r.Thrown? && r.error.NoMatchingScenario? && IsSubstring(a.report, r.error.message)
  {
    var attempts := StubAttempts(scenarios, request, response, b).value;
    MatchingStubNoMatch(scenarios, request, response, b);
    var failure := attempts[i].1;
    var failures := FailureResults(attempts);
    assert SecondOf(attempts)[i] == failure;
    assert failure in failures;
    var nonFluffy := WithoutFluff(failures);
    assert failure in nonFluffy;
    var j :| 0 <= j < |nonFluffy| && nonFluffy[j] == failure;
    ReportIgnoresDefault(nonFluffy, PathNotRecognizedMessage(request), PathNotRecognizedMessage(request));
    WithoutFluffIdempotent(failures);
    ListToReportNamesFailure(nonFluffy, j);
  }

  /** A rejected mock is reported with the scenario named in its failure. */
  lemma MatchingStubReportsMockFailure(scenarios: seq<Scenario>, request: HttpRequest, response: HttpResponse, b: ScenarioBehaviour, i: int)
    requires StubAttempts(scenarios, request, response, b).Ok?
    requires forall j :: 0 <= j < |scenarios| ==> StubAttempt(scenarios[j], request, response, b).value.0.None?
    requires 0 <= i < |scenarios|
    requires var m := b.matchesMock(scenarios[i], request, response); m.Failure? && !m.fluffy
    ensures var m := b.matchesMock(scenarios[i], request, response);
      var r := MatchingStubOutcome(scenarios, request, response, b);
      r.Thrown? && r.error.NoMatchingScenario? && IsSubstring(b.reportInScenario(scenarios[i], m.report), r.error.message)
  {
    MatchingStubReportsFailure(scenarios, request, response, b, i);
  }

  /**
   * A mock the scenario accepts but whose stub cannot be built: the contract
   * error's message is reported as it is.
   */
  lemma MatchingStubReportsStubError(scenarios: seq<Scenario>, request: HttpRequest, response: HttpResponse, b: ScenarioBehaviour, i: int, message: string)
    requires StubAttempts(scenarios, request, response, b).Ok?
    requires forall j :: 0 <= j < |scenarios| ==> StubAttempt(scenarios[j], request, response, b).value.0.None?
    requires 0 <= i < |scenarios| && b.matchesMock(scenarios[i], request, response).Success?
    requires b.resolveStub(scenarios[i], request, response) == Thrown(ContractException(message))
    ensures var r := MatchingStubOutcome(scenarios, request, response, b);
      r.Thrown? && r.error.NoMatchingScenario? && IsSubstring(message, r.error.message)
  {
    MatchingStubReportsFailure(scenarios, request, response, b, i);
  }

  class Feature {
    const scenarios: seq<Scenario>
    const name: string
    const behaviour: ScenarioBehaviour
    var serverState: ServerState

    /** The source's default for serverState is the empty map. */
    constructor (scenarios: seq<Scenario>, name: string, behaviour: ScenarioBehaviour, serverState: ServerState)
      ensures this.scenarios == scenarios && this.name == name && this.behaviour == behaviour
      ensures this.serverState == serverState
    {
      this.scenarios := scenarios;
      this.name := name;
      this.behaviour := behaviour;
      this.serverState := serverState;
    }

    /** setServerState: adds facts, later ones overriding earlier ones. */
    method SetServerState(state: ServerState)
      modifies this
      ensures serverState == old(serverState) + state
    {
      serverState := serverState + state;
    }

    method ClearServerState()
      modifies this
      ensures serverState == map[]
    {
      serverState := map[];
    }

    /** lookupResponse: matches the request as a contract, with the current state, then clears the state. */
    method LookupResponse(request: HttpRequest) returns (r: Outcome<HttpResponse>)
      modifies this
      ensures r == Respond(scenarios, RequestResults(scenarios, request, old(serverState), behaviour), old(serverState), behaviour)
      ensures serverState == map[]
    {
      var rs := RequestResults(scenarios, request, serverState, behaviour);
      r := Respond(scenarios, rs, serverState, behaviour);
      serverState := map[];
    }

    /** stubResponse: as lookupResponse, with the stub matching of each scenario. */
    method StubResponse(request: HttpRequest) returns (r: Outcome<HttpResponse>)
      modifies this
      ensures r == Respond(scenarios, StubRequestResults(scenarios, request, old(serverState), behaviour), old(serverState), behaviour)
      ensures serverState == map[]
    {
      var rs := StubRequestResults(scenarios, request, serverState, behaviour);
      r := Respond(scenarios, rs, serverState, behaviour);
      serverState := map[];
    }

    /** lookupScenario: all scenarios that accept the request, then clears the state. */
    method LookupScenario(request: HttpRequest) returns (r: Outcome<seq<Scenario>>)
      modifies this
      ensures r == LookupScenarioOutcome(scenarios, RequestResults(scenarios, request, old(serverState), behaviour), request)
      ensures serverState == map[]
    {
      var rs := RequestResults(scenarios, request, serverState, behaviour);
      r := LookupScenarioOutcome(scenarios, rs, request);
      serverState := map[];
    }

    /** matches: does not touch the state. */
    method Matches(request: HttpRequest, response: HttpResponse) returns (b: bool)
      ensures b == MatchesExchange(scenarios, request, response, serverState, behaviour)
    {
      b := MatchesExchange(scenarios, request, response, serverState, behaviour);
    }

    /** matchingStub: the stub for a request and response, then clears the state. */
    method MatchingStub(request: HttpRequest, response: HttpResponse) returns (r: Outcome<HttpStubData>)
      modifies this
      ensures r == MatchingStubOutcome(scenarios, request, response, behaviour)
      ensures serverState == map[]
    {
      r := MatchingStubOutcome(scenarios, request, response, behaviour);
      serverState := map[];
    }

    /** matchingStub for a scenario stub: the stub carries the stub's delay. */
    method MatchingStubFor(stub: ScenarioStub) returns (r: Outcome<HttpStubData>)
      modifies this
      ensures var m := MatchingStubOutcome(scenarios, stub.request, stub.response, behaviour);
        r == (if m.Ok? then Ok(m.value.(delayInSeconds := stub.delayInSeconds)) else m)
      ensures serverState == map[]
    {
      var m := MatchingStub(stub.request, stub.response);
      if m.Ok? {
        r := Ok(m.value.(delayInSeconds := stub.delayInSeconds));
      } else {
        r := m;
      }
    }

    method MatchesMockKafkaMessage(message: KafkaMessage) returns (r: Result)
      ensures r == MatchesMockKafka(scenarios, message, behaviour)
    {
      r := MatchesMockKafka(scenarios, message, behaviour);
    }

    /** assertMatchesMockKafkaMessage: a failure becomes NoMatchingScenario with its report. */
    method AssertMatchesMockKafkaMessage(message: KafkaMessage) returns (r: Outcome<()>)
      ensures var m := MatchesMockKafka(scenarios, message, behaviour);
        r == (if m.Failure? then Thrown(NoMatchingScenario(m.report)) else Ok(()))
    {
      var m := MatchesMockKafkaMessage(message);
      if m.Failure? {
        r := Thrown(NoMatchingScenario(ReportText(m)));
      } else {
        r := Ok(());
      }
    }
  }
}
