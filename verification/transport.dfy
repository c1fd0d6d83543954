/** The HTTP values the core exchanges with the NHTTPI transport. The
    transport itself (connections, GET and POST) is not part of this model:
    a POST is a function from the outgoing request to a response. */
module Transport {
  import opened Wrappers

  /** An NHTTPI::Response: status code, header mapping and body text. */
  datatype HttpResponse = HttpResponse(code: int, headers: map<string, string>, body: string)

  /** NHTTPI::Response#error?: every status outside the success range
      200..299 is an error. */
  predicate IsError(code: int) {
    !(200 <= code <= 299)
  }

  /** The state of an outgoing request at the moment it is sent. */
  datatype Outgoing = Outgoing(url: Option<string>, headers: map<string, string>, body: Option<string>)

  /** An NHTTPI::Request: a mutable object whose url, headers and body are
      assigned in place, shared between the client and each SOAP request. */
  class HttpRequest {
    var url: Option<string>
    var headers: map<string, string>
    var body: Option<string>

    /** NHTTPI::Request.new(:headers => headers): url and body start as nil. */
    constructor (headers: map<string, string>)
      ensures url == None && this.headers == headers && body == None
    {
      url := None;
      this.headers := headers;
      body := None;
    }

    /** What would go over the wire if the request were posted now. */
    function Snapshot(): Outgoing
      reads this
    {
      Outgoing(url, headers, body)
    }
  }
}
