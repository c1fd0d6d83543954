/** SOAP::Request: prepares the shared NHTTPI request for one SOAP call
    and posts it at most once. */
module SoapRequest {
  import opened Wrappers
  import opened Transport
  import opened SoapXml

  /** Content-Types by SOAP version. */
  const ContentTypes: map<int, string> :=
    map[1 := "text/xml;charset=UTF-8", 2 := "application/soap+xml;charset=UTF-8"]

  /** The table has one entry for each SOAP version and no other. */
  lemma ContentTypeTable()
    ensures ContentTypes.Keys == {1, 2}
    ensures forall v: SoapVersion :: v in ContentTypes
    ensures ContentTypes[1] == "text/xml;charset=UTF-8"
    ensures ContentTypes[2] == "application/soap+xml;charset=UTF-8"
  {
  }

  /** `headers["Content-Type"] ||= ContentType[version]`: a Content-Type
      the caller already set wins; otherwise the version's one is added.
      No other header is touched. */
  function WithContentType(headers: map<string, string>, version: SoapVersion): (r: map<string, string>)
    ensures r.Keys == headers.Keys + {"Content-Type"}
    ensures "Content-Type" !in headers ==> r["Content-Type"] == ContentTypes[version]
    ensures forall k :: k in headers ==> r[k] == headers[k]
  {
    if "Content-Type" in headers then headers else headers["Content-Type" := ContentTypes[version]]
  }

  /** The requests of the SOAP request specification: version 1 and 2 get
      their own Content-Type, a preset one is kept. */
  lemma ContentTypeExamples()
    ensures WithContentType(map[], 1)["Content-Type"] == "text/xml;charset=UTF-8"
    ensures WithContentType(map[], 2)["Content-Type"] == "application/soap+xml;charset=UTF-8"
    ensures WithContentType(map["Content-Type" := "text/plain"], 2)["Content-Type"] == "text/plain"
  {
  }

  /** The outgoing request once `setup` has run on it. */
  function AfterSetup(request: Outgoing, soap: SoapRecord, toXml: SoapRecord -> string): Outgoing {
    Outgoing(soap.endpoint, WithContentType(request.headers, soap.version), Some(toXml(soap)))
  }

  /** A SOAP::Response wrapping the raw HTTP response. */
  datatype SoapResponse = SoapResponse(http: HttpResponse)

  class Request {
    const request: HttpRequest
    var response: Option<SoapResponse>   // @response, the memoised result
    ghost var posts: nat                 // POSTs issued so far

    /** SOAP::Request.new(request, soap): sets the request up in place. */
    constructor (request: HttpRequest, soap: SoapRecord, toXml: SoapRecord -> string)
      modifies request
      ensures this.request == request
      ensures request.Snapshot() == AfterSetup(old(request.Snapshot()), soap, toXml)
      ensures response == None && posts == 0
    {
      var prepared := Setup(request, soap, toXml);
      this.request := prepared;
      response := None;
      posts := 0;
    }

    /** Points the request at the SOAP endpoint, adds a missing
        Content-Type and sets the body to the SOAP XML. */
    static method Setup(request: HttpRequest, soap: SoapRecord, toXml: SoapRecord -> string) returns (r: HttpRequest)
      modifies request
      ensures r == request
      ensures request.url == soap.endpoint
      ensures request.body == Some(toXml(soap))
      ensures "Content-Type" in old(request.headers) ==> request.headers == old(request.headers)
      ensures "Content-Type" !in old(request.headers) ==>
                request.headers == old(request.headers)["Content-Type" := ContentTypes[soap.version]]
      ensures request.Snapshot() == AfterSetup(old(request.Snapshot()), soap, toXml)
    {
      request.url := soap.endpoint;
      if "Content-Type" !in request.headers {
        request.headers := request.headers["Content-Type" := ContentTypes[soap.version]];
      }
      request.body := Some(toXml(soap));
      r := request;
    }

    /** Posts the request unless a response is already memoised. `raises`
        says for which HTTP responses SOAP::Response.new raises (a SOAP
        fault or an HTTP error under the raise-errors setting); then
        nothing is memoised. */
    method Response(post: Outgoing -> HttpResponse, raises: HttpResponse -> bool)
      returns (r: Result<SoapResponse, HttpResponse>)
      modifies this
      ensures old(response).Some? ==>
                r == Success(old(response).value) && response == old(response) && posts == old(posts)
      ensures old(response).None? ==> posts == old(posts) + 1
      ensures old(response).None? && raises(post(request.Snapshot())) ==>
                r == Failure(post(request.Snapshot())) && response == None
      ensures old(response).None? && !raises(post(request.Snapshot())) ==>
                r == Success(SoapResponse(post(request.Snapshot()))) && response == Some(r.value)
    {
      if response.Some? {
        return Success(response.value);
      }
      var http := post(request.Snapshot());
      posts := posts + 1;
      if raises(http) {
        return Failure(http);
      }
      response := Some(SoapResponse(http));
      r := Success(response.value);
    }

    /** SOAP::Request.execute(request, soap): `new(request, soap).response`. */
    static method Execute(request: HttpRequest, soap: SoapRecord, toXml: SoapRecord -> string,
                          post: Outgoing -> HttpResponse, raises: HttpResponse -> bool)
      returns (r: Result<SoapResponse, HttpResponse>)
      modifies request
      ensures request.Snapshot() == AfterSetup(old(request.Snapshot()), soap, toXml)
      ensures raises(post(request.Snapshot())) ==> r == Failure(post(request.Snapshot()))
      ensures !raises(post(request.Snapshot())) ==> r == Success(SoapResponse(post(request.Snapshot())))
    {
      var soapRequest := new Request(request, soap, toXml);
      r := soapRequest.Response(post, raises);
    }
  }
}
