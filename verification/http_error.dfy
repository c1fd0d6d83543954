/** HTTP::Error: whether a response is an HTTP error, its message and its
    details as a hash. */
module HttpErrors {
  import opened Wrappers
  import opened Transport

  // ---------------------------------------------------------------------
  // Decimal rendering of the status code, as string interpolation does it

  function DigitChar(d: nat): char
    requires d < 10
  {
    (48 + d) as char
  }

  function NatToString(n: nat): (s: string)
    ensures |s| > 0
    ensures forall i :: 0 <= i < |s| ==> '0' <= s[i] <= '9'
    decreases n
  {
    if n < 10 then [DigitChar(n)] else NatToString(n / 10) + [DigitChar(n % 10)]
  }

  /** Integer#to_s: decimal digits, with a leading minus when negative. */
  function IntToString(n: int): (s: string)
    ensures |s| > 0
    ensures forall i :: 0 <= i < |s| ==> s[i] == '-' || '0' <= s[i] <= '9'
  {
    if n < 0 then "-" + NatToString(-n) else NatToString(n)
  }

  function DigitValue(c: char): nat {
    if '0' <= c <= '9' then c as int - 48 else 0
  }

  /** Reads decimal digits back, last digit least significant. */
  function ParseNat(s: string): nat
    decreases |s|
  {
    if s == [] then 0 else ParseNat(s[..|s| - 1]) * 10 + DigitValue(s[|s| - 1])
  }

  function ParseInt(s: string): int {
    if |s| > 0 && s[0] == '-' then -(ParseNat(s[1..]) as int) else ParseNat(s)
  }

  lemma {:induction false} NatToStringRoundTrip(n: nat)
    ensures ParseNat(NatToString(n)) == n
    decreases n
  {
    if n >= 10 {
      var s := NatToString(n);
      NatToStringRoundTrip(n / 10);
      assert s[..|s| - 1] == NatToString(n / 10);
    }
  }

  /** The rendering of a status code determines the code. */
  lemma IntToStringRoundTrip(n: int)
    ensures ParseInt(IntToString(n)) == n
  {
    if n < 0 {
      NatToStringRoundTrip(-n);
      assert IntToString(n)[1..] == NatToString(-n);
    } else {
      NatToStringRoundTrip(n);
    }
  }

  // ---------------------------------------------------------------------
  // The error

  /** The message of an error response with a body. */
  function Rendered(code: int, body: string): string {
    "HTTP error (" + IntToString(code) + "): " + body
  }

  /** The value of the memoised `begin` block of to_s, as written: the
      `unless` modifier that appends the body makes the block nil when the
      body is empty. */
  function MessageBlock(http: HttpResponse): (r: Option<string>)
    ensures r.None? <==> http.body == ""
  {
    if http.body == "" then None else Some(Rendered(http.code, http.body))
  }

  /** "HTTP error (404): Not Found" for the 404 of the error
      specification; nil for an error without a body. */
  lemma MessageExamples()
    ensures MessageBlock(HttpResponse(404, map[], "Not Found")) == Some("HTTP error (404): Not Found")
    ensures MessageBlock(HttpResponse(500, map[], "")) == None
  {
    assert NatToString(4) == "4";
    assert NatToString(40) == "40";
    assert NatToString(404) == "404";
    assert IntToString(404) == "404";
    assert Rendered(404, "Not Found") == "HTTP error (" + "404" + "): " + "Not Found";
    assert "HTTP error (" + "404" + "): " + "Not Found" == "HTTP error (404): Not Found";
  }

  /** The position of the first ")" (the length when there is none). */
  function ParenIndex(s: string): nat
    decreases |s|
  {
    if s == [] || s[0] == ')' then 0 else 1 + ParenIndex(s[1..])
  }

  lemma {:induction false} ParenIndexAfter(x: string, y: string)
    requires ')' !in x
    ensures ParenIndex(x + ")" + y) == |x|
    decreases |x|
  {
    if x == [] {
      assert x + ")" + y == ")" + y;
    } else {
      assert (x + ")" + y)[1..] == x[1..] + ")" + y;
      ParenIndexAfter(x[1..], y);
    }
  }

  /** Two strings split at the first ")" split the same way. */
  lemma SplitAtParen(x1: string, y1: string, x2: string, y2: string)
    requires ')' !in x1 && ')' !in x2
    requires x1 + ")" + y1 == x2 + ")" + y2
    ensures x1 == x2 && y1 == y2
  {
    var s := x1 + ")" + y1;
    ParenIndexAfter(x1, y1);
    ParenIndexAfter(x2, y2);
    assert x1 == s[..|x1|] == x2;
    assert y1 == s[|x1| + 1..] == y2;
  }

  /** A message names its code and body unambiguously: two error
      responses with the same message have the same code and body. */
  lemma MessageDeterminesCodeAndBody(a: HttpResponse, b: HttpResponse)
    requires MessageBlock(a).Some? && MessageBlock(a) == MessageBlock(b)
    ensures a.code == b.code && a.body == b.body
  {
    var x1, x2 := IntToString(a.code), IntToString(b.code);
    var prefix := "HTTP error (";
    assert Rendered(a.code, a.body) == prefix + (x1 + ")" + (": " + a.body));
    assert Rendered(b.code, b.body) == prefix + (x2 + ")" + (": " + b.body));
    assert x1 + ")" + (": " + a.body) == Rendered(a.code, a.body)[|prefix|..];
    assert x2 + ")" + (": " + b.body) == Rendered(b.code, b.body)[|prefix|..];
    SplitAtParen(x1, ": " + a.body, x2, ": " + b.body);
    assert a.body == (": " + a.body)[2..];
    assert b.body == (": " + b.body)[2..];
    IntToStringRoundTrip(a.code);
    IntToStringRoundTrip(b.code);
  }

  /** HTTP::Error#to_hash. */
  datatype ErrorDetails = ErrorDetails(code: int, headers: map<string, string>, body: string)

  class HttpError {
    const http: HttpResponse
    var message: Option<string>     // @message
    var hash: Option<ErrorDetails>  // @hash

    /** A memoised message is the message of this error's response. */
    ghost predicate Valid()
      reads this
    {
      message.Some? ==> message == MessageBlock(http)
    }

    constructor (http: HttpResponse)
      ensures this.http == http && message == None && hash == None && Valid()
    {
      this.http := http;
      message := None;
      hash := None;
    }

    /** HTTP::Error#present?: the wrapped response is an HTTP error, that
        is, its status lies outside the success range. */
    function Present(): (present: bool)
      ensures present <==> (http.code < 200 || 299 < http.code)
    {
      IsError(http.code)
    }

    /** HTTP::Error#to_s: "" without an error; otherwise the memoised
        message, computed on first use. With an empty body the block is nil,
        so nil is returned and nothing is memoised. */
    method ToS() returns (s: Option<string>)
      requires Valid()
      modifies this`message
      ensures Valid()
      ensures !Present() ==> s == Some("") && message == old(message)
      ensures Present() ==> s == MessageBlock(http) && message == s
      ensures old(message).Some? ==> message == old(message)
    {
      if !Present() {
        return Some("");
      }
      if message.None? {
        var m := "HTTP error (" + IntToString(http.code) + ")";
        if http.body != "" {
          m := m + ": " + http.body;                // message << ": #{body}"
          assert m == Rendered(http.code, http.body);
          message := Some(m);
        } else {
          message := None;                          // the block evaluates to nil
        }
      }
      s := message;
    }

    /** HTTP::Error#to_hash: code, headers and body copied from the response. */
    method ToHash() returns (h: ErrorDetails)
      modifies this`hash
      ensures h.code == http.code && h.headers == http.headers && h.body == http.body
      ensures hash == Some(h)
    {
      h := ErrorDetails(http.code, http.headers, http.body);
      hash := Some(h);
    }
  }

  /** The responses of the error specification: an error around a 404 is
      present, one around a 200 is not. */
  lemma PresentExamples(notFound: HttpError, success: HttpError)
    requires notFound.http == HttpResponse(404, map[], "Not Found")
    requires success.http.code == 200
    ensures notFound.Present() && !success.Present()
  {
  }
}
