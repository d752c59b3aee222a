/**
 * Aggregation of per-scenario match results: counting successes and
 * failures, hiding "fluffy" (low-information) failures behind specific ones,
 * rendering the combined report and the 400 response built from it.
 */
module Results {
  import opened KotlinStd
  import opened Http

  /**
   * The outcome of matching one scenario. A failure carries the text its
   * report renders to and whether it is fluffy, i.e. a generic mismatch
   * such as "no endpoint recognised" that a specific failure should hide.
   */
  datatype Result = Success | Failure(report: string, fluffy: bool)

  predicate IsSuccess(r: Result) { r.Success? }
  predicate IsFailure(r: Result) { r.Failure? }
  predicate IsFluffy(r: Result) { r.Failure? && r.fluffy }
  predicate IsNotFluffy(r: Result) { !IsFluffy(r) }

  /** The text of a result's report: a success reports nothing. */
  function ReportText(r: Result): string
  {
    if r.Failure? then r.report else ""
  }

  /** The platform line separator, fixed to the one of Unix systems. */
  const LineSeparator: string := "\n"
  const PathNotRecognizedError: string := "URL path or SOAPAction not recognised"
  const SoapActionHeader: string := "SOAPAction"
  const ContentTypeHeader: string := "Content-Type"
  const ResultHeader: string := "X-Specmatic-Result"
  const EmptyHeader: string := "X-Specmatic-Empty"
  const SoapNotRecognized: string := "SOAP request not recognized; path="
  const RequestNotRecognized: string := "Request not recognized; method="

  /** The message used when no scenario recognised a request. */
  function PathNotRecognizedMessage(request: HttpRequest): (m: string)
    ensures StartsWith(m, SoapNotRecognized) <==> SoapActionHeader in request.headers
    ensures StartsWith(m, RequestNotRecognized) <==> SoapActionHeader !in request.headers
  {
    if SoapActionHeader in request.headers then
      var m := SoapNotRecognized + request.path + ", SOAPAction=" + request.headers[SoapActionHeader];
      assert m[..|SoapNotRecognized|] == SoapNotRecognized;
      assert m[0] != RequestNotRecognized[0];
      m
    else
      var m := RequestNotRecognized + request.httpMethod + ", path=" + request.path;
      assert m[..|RequestNotRecognized|] == RequestNotRecognized;
      assert m[0] != SoapNotRecognized[0];
      m
  }

  lemma OccursInMiddle(a: string, x: string, b: string)
    ensures IsSubstring(x, a + x + b)
  {
    assert (a + x + b)[|a|..|a| + |x|] == x;
    assert OccursAt(x, a + x + b, |a|);
  }

  /** The message names the path, and the SOAP action or the method. */
  lemma PathNotRecognizedMessageNamesRequest(request: HttpRequest)
    ensures IsSubstring(request.path, PathNotRecognizedMessage(request))
    ensures SoapActionHeader in request.headers ==>
      IsSubstring(request.headers[SoapActionHeader], PathNotRecognizedMessage(request))
    ensures SoapActionHeader !in request.headers ==>
      IsSubstring(request.httpMethod, PathNotRecognizedMessage(request))
  {
    var m := PathNotRecognizedMessage(request);
    var path := request.path;
    if SoapActionHeader in request.headers {
      var action := request.headers[SoapActionHeader];
      assert m == SoapNotRecognized + path + (", SOAPAction=" + action);
      OccursInMiddle(SoapNotRecognized, path, ", SOAPAction=" + action);
      assert m == (SoapNotRecognized + path + ", SOAPAction=") + action + "";
      OccursInMiddle(SoapNotRecognized + path + ", SOAPAction=", action, "");
    } else {
      var verb := request.httpMethod;
      assert m == RequestNotRecognized + verb + (", path=" + path);
      OccursInMiddle(RequestNotRecognized, verb, ", path=" + path);
      assert m == (RequestNotRecognized + verb + ", path=") + path + "";
      OccursInMiddle(RequestNotRecognized + verb + ", path=", path, "");
    }
  }

  // ---------------------------------------------------------------------
  // Queries over a list of results

  function HasResults(rs: seq<Result>): bool
  {
    |rs| > 0
  }

  function HasFailures(rs: seq<Result>): (b: bool)
    ensures b <==> exists i :: 0 <= i < |rs| && rs[i].Failure?
  {
    Find(rs, IsFailure).Some?
  }

  function Succeeded(rs: seq<Result>): (b: bool)
    ensures b <==> forall i :: 0 <= i < |rs| ==> rs[i].Success?
  {
    !HasFailures(rs)
  }

  /** A list without results is a success: there is nothing that failed. */
  lemma EmptyIsSuccess(rs: seq<Result>)
    requires !HasResults(rs)
    ensures Succeeded(rs)
  {
  }

  /** The results that are not fluffy, in their original order. */
  function WithoutFluff(rs: seq<Result>): (r: seq<Result>)
    ensures forall i :: 0 <= i < |r| ==> !IsFluffy(r[i]) && r[i] in rs
    ensures forall i :: 0 <= i < |rs| && !IsFluffy(rs[i]) ==> rs[i] in r
  {
    Filter(rs, IsNotFluffy)
  }

  /** WithoutFluff keeps order: it works piece by piece on a concatenation. */
  lemma WithoutFluffConcat(a: seq<Result>, b: seq<Result>)
    ensures WithoutFluff(a + b) == WithoutFluff(a) + WithoutFluff(b)
  {
    FilterConcat(a, b, IsNotFluffy);
  }

  /** Dropping the fluff twice drops nothing more. */
  lemma WithoutFluffIdempotent(rs: seq<Result>)
    ensures WithoutFluff(WithoutFluff(rs)) == WithoutFluff(rs)
  {
    FilterIdempotent(rs, IsNotFluffy);
  }

  function FailureCount(rs: seq<Result>): nat
  {
    Count(rs, IsFailure)
  }

  function SuccessCount(rs: seq<Result>): nat
  {
    Count(rs, IsSuccess)
  }

  /** Every result is counted exactly once, as a success or as a failure. */
  lemma {:induction false} CountsAddUp(rs: seq<Result>)
    ensures FailureCount(rs) + SuccessCount(rs) == |rs|
  {
    if rs != [] {
      CountsAddUp(rs[1..]);
    }
  }

  /** success() holds exactly when no failure is counted. */
  lemma {:induction false} SuccessIffNoFailureCounted(rs: seq<Result>)
    ensures Succeeded(rs) <==> FailureCount(rs) == 0
  {
    if rs != [] {
      SuccessIffNoFailureCounted(rs[1..]);
      assert forall i :: 1 <= i < |rs| ==> rs[i] == rs[1..][i - 1];
    }
  }

  /** The report texts of the failures, in order; successes contribute nothing. */
  function FailureReports(rs: seq<Result>): (texts: seq<string>)
  {
    if rs == [] then []
    else (if rs[0].Failure? then [rs[0].report] else []) + FailureReports(rs[1..])
  }

  /**
   * The first success, or else one failure whose message joins every
   * result's report with blank lines.
   */
  function ToResultIfAny(rs: seq<Result>): (r: Result)
    ensures (exists i :: 0 <= i < |rs| && rs[i].Success?) ==> r == Success
    ensures (forall i :: 0 <= i < |rs| ==> rs[i].Failure?) ==>
      r == Failure(Join(seq(|rs|, i requires 0 <= i < |rs| => ReportText(rs[i])), "\n\n"), false)
  {
    match Find(rs, IsSuccess)
    case Some(s) => s
    case None => Failure(Join(seq(|rs|, i requires 0 <= i < |rs| => ReportText(rs[i])), "\n\n"), false)
  }

  /** A non-empty successful list yields a success. */
  lemma ToResultIfAnyOfSuccess(rs: seq<Result>)
    requires HasResults(rs) && Succeeded(rs)
    ensures ToResultIfAny(rs) == Success
  {
    assert rs[0].Success?;
  }

  /** The failure reports joined by two line separators. */
  function ListToReport(rs: seq<Result>): string
  {
    Join(FailureReports(rs), LineSeparator + LineSeparator)
  }

  lemma {:induction false} FailureReportsConcat(a: seq<Result>, b: seq<Result>)
    ensures FailureReports(a + b) == FailureReports(a) + FailureReports(b)
  {
    if a == [] {
      assert a + b == b;
    } else {
      assert (a + b)[0] == a[0];
      assert (a + b)[1..] == a[1..] + b;
      FailureReportsConcat(a[1..], b);
    }
  }

  /** Success entries contribute nothing to the rendered list. */
  lemma ListToReportSkipsSuccess(a: seq<Result>, b: seq<Result>)
    ensures ListToReport(a + [Success] + b) == ListToReport(a + b)
  {
    var none := FailureReports([Success]);
    assert none == [];
    FailureReportsConcat(a, [Success]);
    FailureReportsConcat(a + [Success], b);
    FailureReportsConcat(a, b);
    assert FailureReports(a + [Success]) == FailureReports(a) + none == FailureReports(a);
    assert FailureReports(a + [Success] + b) == FailureReports(a + b);
  }

  /** The rendered list holds the report of every failure it is given. */
  lemma ListToReportNamesFailure(rs: seq<Result>, i: nat)
    requires i < |rs| && rs[i].Failure?
    ensures IsSubstring(rs[i].report, ListToReport(rs))
  {
    FailureReportsConcat(rs[..i], rs[i..]);
    FailureReportsConcat([rs[i]], rs[i + 1..]);
    assert rs[..i] + rs[i..] == rs;
    assert [rs[i]] + rs[i + 1..] == rs[i..];
    var texts := FailureReports(rs);
    assert texts[|FailureReports(rs[..i])|] == rs[i].report;
    JoinContainsPart(texts, LineSeparator + LineSeparator, |FailureReports(rs[..i])|);
  }

  /**
   * The report: the non-fluffy results when there are any; otherwise the
   * default message followed by every result, trimmed.
   */
  function Report(rs: seq<Result>, defaultMessage: string): string
  {
    var filtered := WithoutFluff(rs);
    if |filtered| > 0 then ListToReport(filtered)
    else Trim(defaultMessage + "\n\n" + ListToReport(rs))
  }

  /** Report(httpRequest): the default message is the path-not-recognised message. */
  function ReportFor(rs: seq<Result>, request: HttpRequest): string
  {
    Report(rs, PathNotRecognizedMessage(request))
  }

  /** With one real result present, the default message plays no part. */
  lemma ReportIgnoresDefault(rs: seq<Result>, d1: string, d2: string)
    requires exists i :: 0 <= i < |rs| && !IsFluffy(rs[i])
    ensures Report(rs, d1) == Report(rs, d2)
    ensures Report(rs, d1) == ListToReport(WithoutFluff(rs))
  {
    var i :| 0 <= i < |rs| && !IsFluffy(rs[i]);
    assert rs[i] in WithoutFluff(rs);
  }

  /** When every result is fluffy, the default message heads the report of all of them. */
  lemma ReportFallsBackToDefault(rs: seq<Result>, d: string)
    requires forall i :: 0 <= i < |rs| ==> IsFluffy(rs[i])
    ensures Report(rs, d) == Trim(d + "\n\n" + ListToReport(rs))
  {
  }

  /** A fluffy failure changes nothing in a report that already has a real result. */
  lemma ReportSuppressesFluff(a: seq<Result>, f: Result, b: seq<Result>, d: string)
    requires IsFluffy(f)
    requires exists i :: 0 <= i < |a + b| && !IsFluffy((a + b)[i])
    ensures Report(a + [f] + b, d) == Report(a + b, d)
  {
    var i :| 0 <= i < |a + b| && !IsFluffy((a + b)[i]);
    var j := if i < |a| then i else i + 1;
    assert (a + [f] + b)[j] == (a + b)[i];
    ReportIgnoresDefault(a + [f] + b, d, d);
    ReportIgnoresDefault(a + b, d, d);
    WithoutFluffWithFluffy(a, f, b);
  }

  lemma WithoutFluffWithFluffy(a: seq<Result>, f: Result, b: seq<Result>)
    requires IsFluffy(f)
    ensures WithoutFluff(a + [f] + b) == WithoutFluff(a + b)
  {
    assert Filter([f], IsNotFluffy) == [];
    WithoutFluffConcat(a, [f]);
    WithoutFluffConcat(a + [f], b);
    WithoutFluffConcat(a, b);
    assert WithoutFluff(a + [f]) == WithoutFluff(a);
  }

  /**
   * generateErrorHttpResponse: status 400, a plain-text report of the
   * results, and headers marking the result a failure; the empty-marker
   * header is there exactly when the report without a default message is blank.
   */
  function GenerateErrorHttpResponse(rs: seq<Result>): (response: HttpResponse)
    ensures response.status == 400
    ensures response.body == Report(rs, PathNotRecognizedError)
    ensures ContentTypeHeader in response.headers && response.headers[ContentTypeHeader] == "text/plain"
    ensures ResultHeader in response.headers && response.headers[ResultHeader] == "failure"
    ensures EmptyHeader in response.headers <==> IsBlank(Report(rs, ""))
    ensures EmptyHeader in response.headers ==> response.headers[EmptyHeader] == "true"
    ensures response.headers.Keys <= {ContentTypeHeader, ResultHeader, EmptyHeader}
  {
    var report := Trim(Report(rs, ""));
    TrimEmpty(Report(rs, ""));
    var defaultHeaders := map[ContentTypeHeader := "text/plain", ResultHeader := "failure"];
    var headers := if report == [] then defaultHeaders[EmptyHeader := "true"] else defaultHeaders;
    HttpResponse(400, Report(rs, PathNotRecognizedError), headers)
  }

  /** Without any result the response carries the empty marker and only the default message. */
  lemma ErrorResponseOfNothingIsMarkedEmpty()
    ensures EmptyHeader in GenerateErrorHttpResponse([]).headers
    ensures GenerateErrorHttpResponse([]).body == PathNotRecognizedError
  {
    ReportOfNothingIsBlank();
    ReportOfNothingIsDefault();
  }

  lemma ReportOfNothingIsBlank()
    ensures IsBlank(Report([], ""))
  {
    ReportOfNothing("");
    assert "" + "\n\n" == "\n\n";
    assert IsBlank("\n\n");
    TrimEmpty("\n\n");
  }

  lemma ReportOfNothingIsDefault()
    ensures Report([], PathNotRecognizedError) == PathNotRecognizedError
  {
    var d := PathNotRecognizedError;
    assert d[0] == 'U' && d[|d| - 1] == 'd';
    ReportOfNothingIsText(d);
  }

  lemma ReportOfNothingIsText(d: string)
    requires |d| > 0 && !IsWhitespace(d[0]) && !IsWhitespace(d[|d| - 1])
    ensures Report([], d) == d
  {
    ReportOfNothing(d);
    assert IsBlank("\n\n");
    TrimEndOfText(d, "\n\n");
  }

  lemma ReportOfNothing(d: string)
    ensures Report([], d) == Trim(d + "\n\n")
  {
    assert WithoutFluff([]) == [];
    assert ListToReport([]) == "";
    assert d + "\n\n" + "" == d + "\n\n";
  }

  /** Trimming text that starts and ends with a visible character, followed by whitespace. */
  lemma TrimEndOfText(s: string, w: string)
    requires |s| > 0 && !IsWhitespace(s[0]) && !IsWhitespace(s[|s| - 1]) && IsBlank(w)
    ensures Trim(s + w) == s
  {
    assert TrimStart(s + w) == s + w;
    TrimEndBlankSuffix(s, w);
  }

  lemma {:induction false} TrimEndBlankSuffix(s: string, w: string)
    requires |s| > 0 && !IsWhitespace(s[|s| - 1]) && IsBlank(w)
    ensures TrimEnd(s + w) == s
    decreases |w|
  {
    if w == [] {
      assert s + w == s;
    } else {
      assert (s + w)[|s + w| - 1] == w[|w| - 1];
      assert (s + w)[..|s + w| - 1] == s + w[..|w| - 1];
      TrimEndBlankSuffix(s, w[..|w| - 1]);
    }
  }

  /** A failure with a visible report makes the rendered list visible. */
  lemma ListToReportOfVisibleFailure(rs: seq<Result>, j: nat)
    requires j < |rs| && rs[j].Failure? && !IsBlank(rs[j].report)
    ensures !IsBlank(ListToReport(rs))
  {
    ListToReportNamesFailure(rs, j);
    if IsBlank(ListToReport(rs)) {
      BlankSubstring(rs[j].report, ListToReport(rs));
    }
  }

  /** A real failure with a visible report means the response is not marked empty. */
  lemma ErrorResponseOfRealFailureNotMarkedEmpty(rs: seq<Result>, i: nat)
    requires i < |rs| && rs[i].Failure? && !rs[i].fluffy && !IsBlank(rs[i].report)
    ensures EmptyHeader !in GenerateErrorHttpResponse(rs).headers
  {
    ReportIgnoresDefault(rs, "", "");
    var f := WithoutFluff(rs);
    assert rs[i] in f;
    var j :| 0 <= j < |f| && f[j] == rs[i];
    ListToReportOfVisibleFailure(f, j);
  }
}
