/**
 * The request and response records that the modelled code reads and builds.
 * Only the parts it looks at are kept: method, path and headers of a request,
 * status, body text and headers of a response.
 */
module Http {

  datatype HttpRequest = HttpRequest(httpMethod: string, path: string, headers: map<string, string>, body: string)

  datatype HttpResponse = HttpResponse(status: int, body: string, headers: map<string, string>)
}
