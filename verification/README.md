# AddressableSavon request orchestration, modelled in Dafny

This project models the request-orchestration layer of AddressableSavon, a
Ruby SOAP client. It covers three components:

- **`Client#request`** (`client.rb`). It checks the shape of the caller's
  arguments: an optional namespace symbol, the input name and an optional
  trailing attribute hash. It pulls `:body` out of that hash and creates a
  fresh SOAP object for the request. It copies the WSDL's facts into that
  object in order: endpoint, namespace identifier, namespace, element form
  default (only when a WSDL document is present), body, type namespaces,
  type definitions, SOAP action lookup and input tuple. It sends the
  object through `SOAP::Request` and forwards a `Set-Cookie` response
  header into the `Cookie` header of the next request. The client is a
  class. It has the memoised WSDL facts and NHTTPI request as constants,
  plus an `Option` field for `@soap`.
- **`SOAP::Request`** (`soap/request.rb`). This covers the
  version-to-Content-Type table and `setup`. `setup` points the shared
  NHTTPI request at the endpoint. It adds a Content-Type only when none is
  set and makes the body the SOAP XML. `response` is memoised, so the POST
  happens at most once per object until it succeeds.
- **`HTTP::Error`** (`http/error.rb`). This covers `present?`, the
  memoised `to_s` message and `to_hash`.

Collaborators whose code is not part of this model become parameters:

- `toXml`: the SOAP object's XML rendering.
- `post`: the HTTP POST, a function from the outgoing request to a response.
- `raises`: whether `SOAP::Response.new` raises for a response (a SOAP
  fault, or an HTTP error when errors are raised).
- `block`: the caller's block, as its effect on the SOAP object.

The WSDL document is a record of the facts the client asks it for.

Behaviour of the code that the model follows:

- The literal-name fallback for the SOAP input is commented out
  (`client.rb:151`). An input the WSDL does not know therefore drops out
  of the input tuple through `compact`. The `#request` examples of the
  client specification run against the authentication WSDL, which declares
  only `:authenticate` (`spec/addressable_savon/client_spec.rb:67,204`).
  They still expect a name in the input tuple for `get_user`: at
  `spec/addressable_savon/client_spec.rb:81`, `:101`, `:107`, `:113` and
  `:133`. The model follows the code, which leaves that name out.
- `set_soap_action` computes the action and discards it. No `SOAPAction`
  header is written, although `client_spec.rb:207-213`, `:233-239` and `:383-389` expect one. The
  only effect it has is the `NoMethodError` for an input without
  `to_sym`.
- `with_soap` has no `ensure`. When anything raises after the SOAP object
  is created, `@soap` stays set. This applies to a bad namespace or input
  argument, and to a response that `SOAP::Response.new` rejects. When the
  response is rejected, the Cookie is not forwarded either.
- `HTTP::Error#to_s` on an error with an empty body returns nil and
  memoises nothing. The body is appended by a `message << ... unless
  body.empty?` statement, whose value is nil when it does not fire. The
  model returns `None` there.
- Every request reuses the client's NHTTPI request, and `setup` only
  fills a missing Content-Type. The Content-Type of the first request
  therefore stays for every later one, whatever its SOAP version
  (`Client.ContentTypeSticks`).

## Model

| member | source | states |
|---|---|---|
| `Client.Client.constructor` | lib/addressable_savon/client.rb:37-51 | A new client has no SOAP object, keeps the WSDL it was given, and holds a fresh NHTTPI request with no url, headers or body. |
| `Client.Client.Soap` | lib/addressable_savon/client.rb:61-64 | Outside a request, `soap` fails with ArgumentError "Expected to be called in a block passed to #request". Inside one, it returns the current SOAP object. |
| `Client.Client.Request` | lib/addressable_savon/client.rb:81-103 | With no arguments: ArgumentError "Expected to receive at least one argument", and nothing changes. A namespace or input without `to_sym`: NoMethodError, leaving the fresh or partly configured SOAP object set. Otherwise the preconfigured SOAP object, after the block and with WSSE attached, is set up on the shared request and posted. If the response raises, the SOAP object stays set and no cookie is forwarded. Otherwise the SOAP object is cleared and Set-Cookie is forwarded into Cookie. |
| `Client.Client.SetCookie` | lib/addressable_savon/client.rb:106-108 | The request headers become the old ones with Set-Cookie forwarded. The url and body are untouched. |
| `Client.WithCookie` | lib/addressable_savon/client.rb:106-108 | With a Set-Cookie response header, Cookie equals its value. Without one, the headers are unchanged. No other header is added, removed or changed. |
| `Client.CookieIsLatest` | lib/addressable_savon/client.rb:106-108 | After any series of requests, some of whose responses may raise, Cookie is the Set-Cookie of the most recent non-raising response that had one. A raising response forwards nothing. If no such response had one, the caller's own Cookie header is kept, or stays absent. |
| `Client.RaisedResponseKeepsCookie` | lib/addressable_savon/client.rb:89-90 | When a response raises, its Set-Cookie is not forwarded: the Cookie stays the one from the earlier successful response. |
| `Client.Client.ExtractOptions` | lib/addressable_savon/client.rb:112-118 | Popping a trailing hash and shifting a namespace off the arguments gives exactly the positional description `ExtractedOptions`. A first argument without `to_sym` fails with NoMethodError. |
| `Client.ExtractOptionsRoundTrip` | lib/addressable_savon/client.rb:112-118 | Writing any options (namespace, non-hash input, attributes) out as an argument list and extracting them again gives the same options back. |
| `Client.ExtractOptionsExamples` | spec/addressable_savon/client_spec.rb:79-135 | The specification's shapes: `:get_user` and `"get_user"` alone, with an attribute hash, after a namespace symbol, and with both. Also `{:body => nil}` alone (input nil) and a non-symbol namespace (NoMethodError). |
| `Client.Client.Preconfigure` | lib/addressable_savon/client.rb:121-138 | The SOAP object becomes `Preconfigured` of its old value when the input has `to_sym`. Otherwise it becomes `Configured`: every step before the SOAP action lookup has happened and the input is not set. The two loops call use_namespace and define_type once per WSDL entry, in order. |
| `Client.PreconfiguredFacts` | lib/addressable_savon/client.rb:121-134 | A fresh SOAP object after preconfigure has the WSDL's endpoint and namespace and the given namespace identifier. It has the element form default only when a WSDL is present and keeps its own otherwise. Its body is the :body attribute, or nil. Its namespaces and types are the WSDL's, in order. The last input entry is the attributes without :body. |
| `Client.BodyLeavesAttributes` | lib/addressable_savon/client.rb:126 | :body is absent from the input tag's attributes, and every other attribute is there with its value. |
| `Client.Client.SetSoapAction` | lib/addressable_savon/client.rb:141-146 | Succeeds exactly when the input has `to_sym`, and changes no state: no SOAPAction header is written. |
| `Client.Client.SetSoapInput` | lib/addressable_savon/client.rb:149-153 | When the input has `to_sym`, the SOAP input becomes the compacted triple of the namespace, the WSDL's input name for that symbol and the attributes. Otherwise nothing changes. |
| `Client.InputNameFromWsdl` | lib/addressable_savon/client.rb:149-153 | The input tuple holds the WSDL's input element for the operation when the WSDL declares one. When it does not, the tuple holds no name at all: only the namespace (if any) and the attributes. |
| `Client.InputTupleExamples` | lib/addressable_savon/client.rb:149-153 | With a WSDL mapping get_user to getUser: `:get_user` and `"get_user"` both give `[:getUser, {}]`, and `:v1, :get_user` gives `[:v1, :getUser, {}]`. An operation the WSDL lacks gives `[{}]`. |
| `RubyValues.ToSym` | lib/addressable_savon/client.rb:150 | `to_sym` succeeds exactly on a symbol or a string, and gives that symbol or the string's text. The same rule governs the `to_sym` calls at client.rb:114 and client.rb:142. |
| `RubyValues.SymbolAndStringAgree` | lib/addressable_savon/client.rb:150 | A symbol and a string with the same text turn into the same symbol, so they get the same WSDL lookup. |
| `SoapXml.Compact` | lib/addressable_savon/client.rb:152 | `compact` keeps every non-nil entry, and only those. The result is no longer than the input and has the same length when nothing is nil. |
| `SoapXml.CompactMultiplicity` | lib/addressable_savon/client.rb:152 | `compact` keeps each entry as many times as it occurs in the input. |
| `SoapXml.CompactAppend` | lib/addressable_savon/client.rb:152 | Compacting a concatenation compacts each part in turn, so the kept entries stay in their input order. |
| `SoapXml.InputTuple` | lib/addressable_savon/client.rb:152 | The input tuple has the attributes last, the namespace first when given, and the input name just before the attributes when given. Its length counts exactly the entries given. |
| `SoapRequest.ContentTypeTable` | lib/addressable_savon/soap/request.rb:15 | The table maps exactly 1 to "text/xml;charset=UTF-8" and 2 to "application/soap+xml;charset=UTF-8", and covers every SOAP version. |
| `SoapRequest.WithContentType` | lib/addressable_savon/soap/request.rb:44 | Afterwards Content-Type is present. A preset Content-Type is kept. A missing one becomes the version's content type. Every other header is kept unchanged and none is added. |
| `SoapRequest.ContentTypeExamples` | spec/addressable_savon/soap/request_spec.rb:41-54 | Version 1 gives text/xml, version 2 gives application/soap+xml, and a preset "text/plain" stays. |
| `SoapRequest.Request.constructor` | lib/addressable_savon/soap/request.rb:24-26 | Creating the object sets the given request up in place (`AfterSetup`), keeps that same request, and memoises nothing yet. |
| `SoapRequest.Request.Setup` | lib/addressable_savon/soap/request.rb:39-47 | The url becomes the SOAP endpoint and the body the SOAP XML. Content-Type is added for the SOAP version only when absent; otherwise the headers are left as they were. |
| `SoapRequest.Request.Response` | lib/addressable_savon/soap/request.rb:32-34 | A memoised response is returned again without a POST. Otherwise exactly one POST of the current request happens. Its response is memoised and returned unless SOAP::Response raises for it, in which case nothing is memoised. |
| `SoapRequest.Request.Execute` | lib/addressable_savon/soap/request.rb:19-21 | `execute` sets the request up and returns the SOAP::Response for the POST of the set-up request, or the raising response. |
| `Client.ContentTypeSticks` | lib/addressable_savon/soap/request.rb:44 | Over a series of requests on one client, raising or not, Content-Type is the caller's preset value or else the first request's version's type. A raising request is set up as well, so it also fixes the type when it comes first. The type is never replaced by a later request's version. |
| `Client.OtherHeadersKept` | lib/addressable_savon/soap/request.rb:43-46 | Over a series of requests, raising or not, no header is ever removed. Every header other than Cookie keeps its value. |
| `HttpErrors.HttpError.Present` | lib/addressable_savon/http/error.rb:21-23 | `present?` holds exactly when the status code is outside 200..299. |
| `HttpErrors.PresentExamples` | lib/addressable_savon/http/error.rb:21-23 | `present?` holds for a 404 response and not for a 200 response. |
| `HttpErrors.HttpError.constructor` | lib/addressable_savon/http/error.rb:13-15 | A new error wraps the given response and has no memoised message or hash. |
| `HttpErrors.HttpError.ToS` | lib/addressable_savon/http/error.rb:26-33 | Without an error, "" is returned and the memo is untouched. With one, the result is the memoised message block: "HTTP error (code): body" for a non-empty body, nil for an empty one. A message once memoised never changes. |
| `HttpErrors.MessageBlock` | lib/addressable_savon/http/error.rb:29-32 | The block is nil exactly when the body is empty. |
| `HttpErrors.MessageExamples` | lib/addressable_savon/http/error.rb:29-32 | A 404 with body "Not Found" gives "HTTP error (404): Not Found". A 500 with an empty body gives nil. |
| `HttpErrors.MessageDeterminesCodeAndBody` | lib/addressable_savon/http/error.rb:30-31 | Two error responses with the same message have the same status code and the same body. |
| `HttpErrors.IntToStringRoundTrip` | lib/addressable_savon/http/error.rb:30 | The decimal rendering of the status code reads back as the same integer. |
| `HttpErrors.HttpError.ToHash` | lib/addressable_savon/http/error.rb:36-38 | The hash carries the response's code, headers and body verbatim and is kept in `@hash`. |

## Left out

- `lib/addressable_savon/wsdl/request.rb`: a memoised GET with logging. It is transport plumbing.
- The logging of `SOAP::Request` (`with_logging`, `log_request`, `log_response`) and the NHTTPI transport itself. A POST is a function from the outgoing request to a response.
- `SOAP::XML`: its XML rendering, namespace resolution, type handling and `xsi:nil` output are not part of this model. `use_namespace` and `define_type` are recorded as calls, in order.
- `WSDL::Document` parsing is not part of this model. The document is the record of facts it answers.
- `SOAP::Response` and `SOAP::Fault` are not part of this model. Whether a response raises is the `raises` parameter.
- `Delegator#process` is not part of this model, including its block-arity rule.
- The global configuration: logging, `raise_errors`, `soap_version` and `strip_namespaces`. A fresh SOAP object uses SOAP version 1. `raise_errors` only enters through `raises`.
- WSSE: only the fact that the client's WSSE object is handed to the SOAP object is kept.
- `SoapXml.SoapVersion` admits only 1 and 2. The version check in `SOAP::XML#version=` is not part of this model.
- `Transport.IsError` takes NHTTPI's `error?` as "status outside 200..299". NHTTPI is not part of this model.
- The request url is kept as the endpoint string. The `Addressable::URI` parsing is not modelled.
- Client.Client.Request: the block is modelled only by its effect on the SOAP object. Its access to the client's HTTP headers, WSSE and WSDL, and any exception it raises, are not modelled.
- Client.Client.Preconfigure: `Hash#delete(:body)` also removes :body from the caller's own hash. That aliasing is not modelled; only the copy used for the input tuple loses the key.
- Client.Client.constructor: passing a WSDL location and the construction block are not modelled. The client takes the WSDL facts directly. `wsdl.request = http` (client.rb:40) is not modelled either. In Ruby the WSDL document loads itself through the client's own NHTTPI request, so the first WSDL lookup of a remote document (client.rb:122) can set that request's url. The model assumes WSDL lookups never touch the request. The `unchanged(http)` of `Client.Client.Request` on its NoMethodError paths therefore rests on an assumption about `WSDL::Document` code, which is not part of this model.
- Ruby object identity of the memoised `wsdl`, `http` and `wsse` is represented only by constant fields: the same value or object on every access.
- HttpErrors.HttpError: the `http` writer of `attr_accessor :http` (http/error.rb:18) is not modelled; `http` is a constant field. After `error.http = other`, a message memoised by `to_s` would still describe the old response. The model cannot express that stale memo.
- SoapRequest.Request: the `request` writer of `attr_accessor :request` (soap/request.rb:29) is not modelled; `request` is a constant field. Swapping in another request after `setup` would leave it unset up, and that case is not covered.
