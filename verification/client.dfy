/** Client#request: turns the caller's arguments and the WSDL facts into a
    fresh SOAP object, sends it through SOAP::Request and forwards a
    Set-Cookie header of the response to the next request. */
module Client {
  import opened Wrappers
  import opened RubyValues
  import opened Transport
  import opened Wsdl
  import opened SoapXml
  import opened SoapRequest

  const NoArgumentsMessage := "Expected to receive at least one argument"
  const SoapOutsideRequestMessage := "Expected to be called in a block passed to #request"

  /** The exceptions Client#request lets escape. */
  datatype RequestError =
    | ArgumentError(message: string)
    | NoMethodError(receiver: Value, methodName: string)   // `to_sym` on a value without it
    | ResponseRaised(http: HttpResponse)                   // raised by SOAP::Response.new

  /** The triple extract_options returns: namespace, input, attributes. */
  datatype Options = Options(namespace: Option<string>, input: Value, attributes: map<Key, Value>)

  // ---------------------------------------------------------------------
  // Argument shapes

  predicate EndsWithHash(args: seq<Value>) {
    |args| > 0 && args[|args| - 1].Hash?
  }

  /** The arguments before a trailing attribute hash. */
  function Positional(args: seq<Value>): seq<Value> {
    if EndsWithHash(args) then args[..|args| - 1] else args
  }

  /** extract_options described by position: a trailing hash gives the
      attributes; with more than one other argument the first is the
      namespace symbol and the second the input; otherwise the only one
      (or nil) is the input. */
  function ExtractedOptions(args: seq<Value>): Result<Options, RequestError> {
    var attributes := if EndsWithHash(args) then args[|args| - 1].entries else map[];
    var positional := Positional(args);
    if |positional| > 1 then
      match ToSym(positional[0])
      case None => Failure(NoMethodError(positional[0], "to_sym"))
      case Some(ns) => Success(Options(Some(ns), positional[1], attributes))
    else
      Success(Options(None, if positional == [] then Nil else positional[0], attributes))
  }

  /** The shortest argument list a caller writes for given options. */
  function ArgsOf(o: Options): seq<Value> {
    (if o.namespace.Some? then [Sym(o.namespace.value)] else [])
    + [o.input]
    + (if o.attributes == map[] then [] else [Hash(o.attributes)])
  }

  /** Writing options out as arguments and extracting them again gives the
      same options, as long as the input is not itself a hash. */
  lemma ExtractOptionsRoundTrip(o: Options)
    requires !o.input.Hash?
    ensures ExtractedOptions(ArgsOf(o)) == Success(o)
  {
  }

  /** The argument lists of the client's request specification. */
  lemma ExtractOptionsExamples()
    ensures ExtractedOptions([Sym("get_user")]) == Success(Options(None, Sym("get_user"), map[]))
    ensures ExtractedOptions([Str("get_user")]) == Success(Options(None, Str("get_user"), map[]))
    ensures ExtractedOptions([Sym("get_user"), Hash(map[SymKey("active") := Bool(true)])])
            == Success(Options(None, Sym("get_user"), map[SymKey("active") := Bool(true)]))
    ensures ExtractedOptions([Sym("v1"), Sym("get_user")]) == Success(Options(Some("v1"), Sym("get_user"), map[]))
    ensures ExtractedOptions([Sym("wsdl"), Sym("get_user"), Hash(map[SymKey("active") := Bool(true)])])
            == Success(Options(Some("wsdl"), Sym("get_user"), map[SymKey("active") := Bool(true)]))
    ensures ExtractedOptions([Hash(map[BodyKey := Nil])]) == Success(Options(None, Nil, map[BodyKey := Nil]))
    ensures ExtractedOptions([Int(1), Sym("get_user")]) == Failure(NoMethodError(Int(1), "to_sym"))
  {
  }

  // ---------------------------------------------------------------------
  // Preconfiguration of the SOAP object

  /** `options[2].delete(:body)`: the value under :body, nil when absent. */
  function BodyOf(attributes: map<Key, Value>): Value {
    if BodyKey in attributes then attributes[BodyKey] else Nil
  }

  /** The SOAP object after the steps of preconfigure that come before the
      SOAP action and input are looked up. */
  function Configured(s: SoapRecord, w: WsdlDocument, o: Options): SoapRecord {
    s.(endpoint := w.endpoint,
       namespaceIdentifier := o.namespace,
       namespace := w.namespace,
       elementFormDefault := if w.present then Some(w.elementFormDefault) else s.elementFormDefault,
       body := BodyOf(o.attributes),
       namespaces := s.namespaces + w.typeNamespaces,
       types := s.types + w.typeDefinitions)
  }

  /** The SOAP object after the whole of preconfigure, `name` being the
      input as a symbol. */
  function Preconfigured(s: SoapRecord, w: WsdlDocument, o: Options, name: string): SoapRecord {
    Configured(s, w, o).(input := InputTuple(o.namespace, SoapInput(w, name), o.attributes - {BodyKey}))
  }

  /** What a fresh SOAP object holds after preconfigure: the WSDL's
      endpoint and namespace, its element form default only when a WSDL
      document is present, the :body attribute as body, the type
      namespaces and definitions in declaration order, and the input tuple
      with the other attributes last. */
  lemma PreconfiguredFacts(w: WsdlDocument, o: Options, name: string)
    ensures var r := Preconfigured(NewSoap(), w, o, name);
      && r.endpoint == w.endpoint
      && r.namespace == w.namespace
      && r.namespaceIdentifier == o.namespace
      && (w.present ==> r.elementFormDefault == Some(w.elementFormDefault))
      && (!w.present ==> r.elementFormDefault == None)
      && (BodyKey in o.attributes ==> r.body == o.attributes[BodyKey])
      && (BodyKey !in o.attributes ==> r.body == Nil)
      && r.namespaces == w.typeNamespaces
      && r.types == w.typeDefinitions
      && |r.input| > 0
      && r.input[|r.input| - 1] == Attributes(o.attributes - {BodyKey})
  {
  }

  /** The input tuple names the WSDL's input element when the WSDL knows
      the operation; otherwise no name is left in it at all. */
  lemma InputNameFromWsdl(w: WsdlDocument, o: Options, name: string)
    ensures var input := Preconfigured(NewSoap(), w, o, name).input;
      && (name in w.soapInputs ==> input[|input| - 2] == Symbol(w.soapInputs[name]))
      && (name !in w.soapInputs ==> |input| == (if o.namespace.Some? then 2 else 1))
  {
  }

  /** The :body attribute never reaches the input tag; every other
      attribute does, with its value. */
  lemma BodyLeavesAttributes(w: WsdlDocument, o: Options, name: string)
    ensures var input := Preconfigured(NewSoap(), w, o, name).input;
      var attrs := input[|input| - 1].attrs;
      && BodyKey !in attrs
      && forall k :: k in o.attributes && k != BodyKey ==> k in attrs && attrs[k] == o.attributes[k]
  {
  }

  /** The input tuples of the client's request specification, against a
      WSDL that maps get_user to getUser. A string and a symbol with the
      same text give the same tuple. */
  lemma InputTupleExamples(w: WsdlDocument)
    requires w.soapInputs == map["get_user" := "getUser"]
    ensures var o := Options(None, Sym("get_user"), map[]);
      Preconfigured(NewSoap(), w, o, ToSym(o.input).value).input == [Symbol("getUser"), Attributes(map[])]
    ensures var o := Options(None, Str("get_user"), map[]);
      Preconfigured(NewSoap(), w, o, ToSym(o.input).value).input == [Symbol("getUser"), Attributes(map[])]
    ensures var o := Options(Some("v1"), Sym("get_user"), map[]);
      Preconfigured(NewSoap(), w, o, ToSym(o.input).value).input == [Symbol("v1"), Symbol("getUser"), Attributes(map[])]
    ensures var o := Options(None, Sym("authenticate"), map[]);
      Preconfigured(NewSoap(), w, o, ToSym(o.input).value).input == [Attributes(map[])]
  {
  }

  // ---------------------------------------------------------------------
  // Headers carried from one request to the next

  /** set_cookie: a Set-Cookie response header becomes the Cookie request
      header; nothing else changes. */
  function WithCookie(headers: map<string, string>, responseHeaders: map<string, string>): (r: map<string, string>)
    ensures "Set-Cookie" in responseHeaders ==> "Cookie" in r && r["Cookie"] == responseHeaders["Set-Cookie"]
    ensures "Set-Cookie" !in responseHeaders ==> r == headers
    ensures r.Keys == headers.Keys + (if "Set-Cookie" in responseHeaders then {"Cookie"} else {})
    ensures forall k :: k in headers && k != "Cookie" ==> r[k] == headers[k]
  {
    if "Set-Cookie" in responseHeaders then headers["Cookie" := responseHeaders["Set-Cookie"]] else headers
  }

  /** One request that reached the POST, as far as the client's headers
      are concerned: the SOAP version sent, the response headers received,
      and whether SOAP::Response.new raised for the response. Requests
      that fail before the POST leave the headers alone and are not
      exchanges. */
  datatype Exchange = Exchange(version: SoapVersion, responseHeaders: map<string, string>, raised: bool)

  /** The client's request headers after a series of exchanges: each adds
      a missing Content-Type during setup; only a response that did not
      raise has its Set-Cookie forwarded. */
  function HeadersAfter(headers: map<string, string>, exchanges: seq<Exchange>): map<string, string>
    decreases |exchanges|
  {
    if exchanges == [] then headers
    else
      var last := exchanges[|exchanges| - 1];
      var prepared := WithContentType(HeadersAfter(headers, exchanges[..|exchanges| - 1]), last.version);
      if last.raised then prepared else WithCookie(prepared, last.responseHeaders)
  }

  /** The Set-Cookie of the most recent response that had one and did not
      raise. */
  function LatestSetCookie(exchanges: seq<Exchange>): Option<string>
    decreases |exchanges|
  {
    if exchanges == [] then None
    else
      var last := exchanges[|exchanges| - 1];
      if !last.raised && "Set-Cookie" in last.responseHeaders then Some(last.responseHeaders["Set-Cookie"])
      else LatestSetCookie(exchanges[..|exchanges| - 1])
  }

  /** The Cookie header always reflects the latest Set-Cookie of a
      response that did not raise, and only that; a raising response never
      changes it. With no such Set-Cookie the caller's own Cookie header
      (or its absence) stays. */
  lemma {:induction false} CookieIsLatest(headers: map<string, string>, exchanges: seq<Exchange>)
    ensures var h := HeadersAfter(headers, exchanges);
      && (LatestSetCookie(exchanges).Some? ==> "Cookie" in h && h["Cookie"] == LatestSetCookie(exchanges).value)
      && (LatestSetCookie(exchanges).None? ==> ("Cookie" in h <==> "Cookie" in headers))
      && (LatestSetCookie(exchanges).None? && "Cookie" in headers ==> h["Cookie"] == headers["Cookie"])
    decreases |exchanges|
  {
    if exchanges != [] {
      CookieIsLatest(headers, exchanges[..|exchanges| - 1]);
    }
  }

  /** A 200 response setting Cookie "a", then a raising 500 response with
      Set-Cookie "b": the next request still sends Cookie "a". */
  lemma RaisedResponseKeepsCookie(headers: map<string, string>)
    ensures var exchanges := [Exchange(1, map["Set-Cookie" := "a"], false), Exchange(1, map["Set-Cookie" := "b"], true)];
      HeadersAfter(headers, exchanges)["Cookie"] == "a"
  {
    var exchanges := [Exchange(1, map["Set-Cookie" := "a"], false), Exchange(1, map["Set-Cookie" := "b"], true)];
    assert exchanges[..1][..0] == [];
    CookieIsLatest(headers, exchanges);
  }

  /** Since setup only adds a Content-Type when none is set and every
      request reuses the client's NHTTPI request, the Content-Type of the
      first request that reached the POST stays for all later ones,
      whatever their SOAP version and whether or not its response raised. */
  lemma {:induction false} ContentTypeSticks(headers: map<string, string>, exchanges: seq<Exchange>)
    requires exchanges != []
    ensures var h := HeadersAfter(headers, exchanges);
      && "Content-Type" in h
      && h["Content-Type"] == (if "Content-Type" in headers then headers["Content-Type"]
                               else ContentTypes[exchanges[0].version])
    decreases |exchanges|
  {
    if |exchanges| > 1 {
      ContentTypeSticks(headers, exchanges[..|exchanges| - 1]);
      assert exchanges[..|exchanges| - 1][0] == exchanges[0];
    } else {
      assert exchanges[..0] == [];
    }
  }

  /** Requests, raising or not, never drop a header, and change no header
      other than Content-Type (only when absent) and Cookie. */
  lemma {:induction false} OtherHeadersKept(headers: map<string, string>, exchanges: seq<Exchange>)
    ensures forall k :: k in headers ==> k in HeadersAfter(headers, exchanges)
    ensures forall k :: k in headers && k != "Cookie" ==> HeadersAfter(headers, exchanges)[k] == headers[k]
    decreases |exchanges|
  {
    if exchanges != [] {
      OtherHeadersKept(headers, exchanges[..|exchanges| - 1]);
    }
  }

  // ---------------------------------------------------------------------
  // The client

  class Client {
    const wsdl: WsdlDocument     // memoised WSDL::Document: the same one on every call
    const http: HttpRequest      // memoised NHTTPI::Request: the same one on every call
    var soap: Option<SoapRecord> // @soap: set only while a request is being prepared

    /** Client.new(wsdl_document): a client with no SOAP object and an
        empty outgoing request. */
    constructor (wsdl: WsdlDocument)
      ensures this.wsdl == wsdl && soap == None
      ensures fresh(http) && http.Snapshot() == Outgoing(None, map[], None)
    {
      this.wsdl := wsdl;
      http := new HttpRequest(map[]);
      soap := None;
    }

    /** Client#soap: the SOAP object of the request in progress; outside a
        request, an ArgumentError. */
    method Soap() returns (r: Result<SoapRecord, RequestError>)
      ensures soap.None? ==> r == Failure(ArgumentError(SoapOutsideRequestMessage))
      ensures soap.Some? ==> r == Success(soap.value)
    {
      if soap.None? {
        return Failure(ArgumentError(SoapOutsideRequestMessage));
      }
      r := Success(soap.value);
    }

    /** Client#request. The block the caller passes is modelled by its
        effect on the SOAP object; `toXml` renders the SOAP object; `post`
        is the transport; `raises` says for which responses
        SOAP::Response.new raises. */
    method Request(args: seq<Value>, block: Option<SoapRecord -> SoapRecord>, toXml: SoapRecord -> string,
                   post: Outgoing -> HttpResponse, raises: HttpResponse -> bool)
      returns (r: Result<SoapResponse, RequestError>)
      modifies this, http
      // No arguments: ArgumentError before anything else happens.
      ensures args == [] ==>
                r == Failure(ArgumentError(NoArgumentsMessage)) && soap == old(soap) && unchanged(http)
      // A namespace argument without to_sym: the fresh SOAP object stays behind.
      ensures args != [] && ExtractedOptions(args).Failure? ==>
                r == Failure(ExtractedOptions(args).error) && soap == Some(NewSoap()) && unchanged(http)
      // An input without to_sym: the partly configured SOAP object stays behind.
      ensures args != [] && ExtractedOptions(args).Success? && ToSym(ExtractedOptions(args).value.input).None? ==>
                var o := ExtractedOptions(args).value;
                r == Failure(NoMethodError(o.input, "to_sym"))
                && soap == Some(Configured(NewSoap(), wsdl, o)) && unchanged(http)
      // Otherwise the SOAP object is sent; Set-Cookie is forwarded and the
      // SOAP object cleared unless the response raises.
      ensures args != [] && ExtractedOptions(args).Success? && ToSym(ExtractedOptions(args).value.input).Some? ==>
                var o := ExtractedOptions(args).value;
                var s := Preconfigured(NewSoap(), wsdl, o, ToSym(o.input).value);
                var sent := (if block.Some? then block.value(s) else s).(wsseAttached := true);
                var out := AfterSetup(old(http.Snapshot()), sent, toXml);
                var response := post(out);
                && (raises(response) ==>
                      r == Failure(ResponseRaised(response)) && soap == Some(sent) && http.Snapshot() == out)
                && (!raises(response) ==>
                      r == Success(SoapResponse(response)) && soap == None
                      && http.Snapshot() == out.(headers := WithCookie(out.headers, response.headers)))
    {
      if args == [] {
        return Failure(ArgumentError(NoArgumentsMessage));
      }
      soap := Some(NewSoap());                     // with_soap: a fresh SOAP object
      var options := ExtractOptions(args);
      if options.Failure? {
        return Failure(options.error);
      }
      var ok := Preconfigure(options.value);
      if !ok {
        return Failure(NoMethodError(options.value.input, "to_sym"));
      }
      if block.Some? {
        soap := Some(block.value(soap.value));
      }
      soap := Some(soap.value.(wsseAttached := true));
      var response := SoapRequest.Request.Execute(http, soap.value, toXml, post, raises);
      if response.Failure? {
        return Failure(ResponseRaised(response.error));
      }
      SetCookie(response.value.http.headers);
      soap := None;                                // with_soap: the SOAP object is dropped
      r := Success(response.value);
    }

    /** set_cookie: forwards Set-Cookie into the Cookie request header. */
    method SetCookie(headers: map<string, string>)
      modifies http
      ensures http.headers == WithCookie(old(http.headers), headers)
      ensures http.url == old(http.url) && http.body == old(http.body)
    {
      if "Set-Cookie" in headers {
        http.headers := http.headers["Cookie" := headers["Set-Cookie"]];
      }
    }

    /** extract_options, popping a trailing hash and shifting a namespace
        off a working copy of the arguments. */
    static method ExtractOptions(args: seq<Value>) returns (r: Result<Options, RequestError>)
      ensures r == ExtractedOptions(args)
    {
      var rest := args;
      var attributes: map<Key, Value> := map[];
      if |rest| > 0 && rest[|rest| - 1].Hash? {
        attributes := rest[|rest| - 1].entries;
        rest := rest[..|rest| - 1];                // args.pop
      }
      var namespace: Option<string> := None;
      if |rest| > 1 {
        var first := rest[0];
        rest := rest[1..];                         // args.shift
        namespace := ToSym(first);
        if namespace.None? {
          return Failure(NoMethodError(first, "to_sym"));
        }
      }
      var input := if rest == [] then Nil else rest[0];
      r := Success(Options(namespace, input, attributes));
    }

    /** preconfigure: copies the WSDL facts and the options into the SOAP
        object, one assignment and one use_namespace/define_type call at a
        time. Fails, as set_soap_action does, when the input has no to_sym. */
    method Preconfigure(options: Options) returns (ok: bool)
      requires soap.Some?
      modifies this
      ensures ok <==> ToSym(options.input).Some?
      ensures ok ==> soap == Some(Preconfigured(old(soap.value), wsdl, options, ToSym(options.input).value))
      ensures !ok ==> soap == Some(Configured(old(soap.value), wsdl, options))
    {
      ghost var initial := soap.value;
      soap := Some(soap.value.(endpoint := wsdl.endpoint));
      soap := Some(soap.value.(namespaceIdentifier := options.namespace));
      soap := Some(soap.value.(namespace := wsdl.namespace));
      if wsdl.present {
        soap := Some(soap.value.(elementFormDefault := Some(wsdl.elementFormDefault)));
      }
      var attributes := options.attributes;
      var body := if BodyKey in attributes then attributes[BodyKey] else Nil;
      attributes := attributes - {BodyKey};        // Hash#delete(:body)
      soap := Some(soap.value.(body := body));

      ghost var beforeNamespaces := soap.value;
      assert beforeNamespaces.namespaces + wsdl.typeNamespaces[..0] == beforeNamespaces.namespaces;
      for i := 0 to |wsdl.typeNamespaces|
        invariant soap == Some(beforeNamespaces.(namespaces := beforeNamespaces.namespaces + wsdl.typeNamespaces[..i]))
      {
        var (path, uri) := wsdl.typeNamespaces[i];
        soap := Some(UseNamespace(soap.value, path, uri));
        assert wsdl.typeNamespaces[..i + 1] == wsdl.typeNamespaces[..i] + [(path, uri)];
        assert beforeNamespaces.namespaces + wsdl.typeNamespaces[..i + 1]
            == (beforeNamespaces.namespaces + wsdl.typeNamespaces[..i]) + [(path, uri)];
      }
      ghost var beforeTypes := soap.value;
      assert beforeTypes.types + wsdl.typeDefinitions[..0] == beforeTypes.types;
      for i := 0 to |wsdl.typeDefinitions|
        invariant soap == Some(beforeTypes.(types := beforeTypes.types + wsdl.typeDefinitions[..i]))
      {
        var (path, typeName) := wsdl.typeDefinitions[i];
        soap := Some(DefineType(soap.value, path, typeName));
        assert wsdl.typeDefinitions[..i + 1] == wsdl.typeDefinitions[..i] + [(path, typeName)];
        assert beforeTypes.types + wsdl.typeDefinitions[..i + 1]
            == (beforeTypes.types + wsdl.typeDefinitions[..i]) + [(path, typeName)];
      }
      assert wsdl.typeNamespaces[..|wsdl.typeNamespaces|] == wsdl.typeNamespaces;
      assert wsdl.typeDefinitions[..|wsdl.typeDefinitions|] == wsdl.typeDefinitions;
      assert soap == Some(Configured(initial, wsdl, options));

      ok := SetSoapAction(options.input);
      if !ok {
        return;
      }
      ok := SetSoapInput(options.namespace, options.input, attributes);
    }

    /** set_soap_action: looks the SOAP action up and discards it; no
        header is written. Its only effect is NoMethodError (false here)
        when the input has no to_sym. */
    method SetSoapAction(input: Value) returns (ok: bool)
      ensures ok <==> ToSym(input).Some?
    {
      var name := ToSym(input);
      ok := name.Some?;
      if ok {
        var _ := SoapAction(wsdl, name.value);
      }
    }

    /** set_soap_input: `[namespace, wsdl.soap_input(input.to_sym), attributes].compact`. */
    method SetSoapInput(namespace: Option<string>, input: Value, attributes: map<Key, Value>) returns (ok: bool)
      requires soap.Some?
      modifies this
      ensures ok <==> ToSym(input).Some?
      ensures ok ==> soap == Some(old(soap.value).(input := InputTuple(namespace, SoapInput(wsdl, ToSym(input).value), attributes)))
      ensures !ok ==> soap == old(soap)
    {
      var name := ToSym(input);
      if name.None? {
        return false;
      }
      var newInput := SoapInput(wsdl, name.value);
      soap := Some(soap.value.(input := InputTuple(namespace, newInput, attributes)));
      ok := true;
    }
  }
}
