/**
 The URL a route service is told the original request was sent to
 (the `X-CF-Forwarded-Url` value): the scheme taken from the first value of
 the request's `X-Forwarded-Proto` header, defaulting to `http`, then `://`,
 the request's host and its request URI (path and query string) verbatim.
 */
module RouteService {
  import opened GoStrings
  import opened HttpHeader

  /** The header the scheme is read from. */
  const ForwardedProtoHeader: string := "X-Forwarded-Proto"

  /** Separator between the values of a multi-valued `X-Forwarded-Proto`. */
  const SchemeSeparator: string := ", "

  /** The scheme used when the header yields no first value. */
  const DefaultScheme: string := "http"

  /** Placed between the scheme and the host. */
  const SchemeDelimiter: string := "://"

  /**
   The parts of an incoming request the construction reads. `requestURI` is
   what Go's `URL.RequestURI()` returns for the request, taken as given.
   */
  datatype Request = Request(header: Header, host: string, requestURI: string)

  /**
   The chosen scheme: the first `", "`-separated value of the header value,
   or `http` when that value is empty. It is never empty, never contains the
   separator, and is either the default or a leading piece of the header
   value that ends where the header ends or where the first separator begins.
   */
  function SchemeFor(forwardedProto: string): (scheme: string)
    ensures scheme != ""
    ensures !Contains(scheme, SchemeSeparator)
    ensures scheme == DefaultScheme
         || (|scheme| <= |forwardedProto| && forwardedProto[..|scheme|] == scheme
             && (|scheme| == |forwardedProto| || OccursAt(forwardedProto, SchemeSeparator, |scheme|)))
  {
    var first := FirstSplit(forwardedProto, SchemeSeparator);
    FirstSplitNoSeparator(forwardedProto, SchemeSeparator);
    assert !Contains(DefaultScheme, SchemeSeparator) by {
      forall j: nat ensures !OccursAt(DefaultScheme, SchemeSeparator, j) {
        if j + 2 <= 4 {
          assert DefaultScheme[j + 1] != ' ';
        }
      }
    }
    if first == "" then DefaultScheme else first
  }

  /**
   The forwarded URL built from the header value (empty when the header is
   absent), the host and the request URI. It reads, in order, the chosen
   scheme, `://`, the host unchanged and the request URI unchanged.
   */
  function CfForwardedUrlFor(forwardedProto: string, host: string, requestURI: string): (url: string)
    ensures var n := |SchemeFor(forwardedProto)|;
            && |url| == n + |SchemeDelimiter| + |host| + |requestURI|
            && url[..n] == SchemeFor(forwardedProto)
            && url[n..n + 3] == SchemeDelimiter
            && url[n + 3..n + 3 + |host|] == host
            && url[n + 3 + |host|..] == requestURI
  {
    var scheme := SchemeFor(forwardedProto);
    var url := scheme + SchemeDelimiter + host + requestURI;
    assert url[..|scheme|] == scheme;
    assert url[|scheme|..|scheme| + 3] == SchemeDelimiter;
    assert url[|scheme| + 3..|scheme| + 3 + |host|] == host;
    assert url[|scheme| + 3 + |host|..] == requestURI;
    url
  }

  /** `CfForwardedUrlFor` on a request: the header is read with `Header.Get`. */
  function CfForwardedUrlForRequest(request: Request): (url: string)
    ensures ForwardedProtoHeader !in request.header
            ==> url == DefaultScheme + SchemeDelimiter + request.host + request.requestURI
  {
    var url := CfForwardedUrlFor(Get(request.header, ForwardedProtoHeader), request.host, request.requestURI);
    assert ForwardedProtoHeader !in request.header ==> url == CfForwardedUrlFor("", request.host, request.requestURI);
    HeaderEmpty(request.host, request.requestURI);
    url
  }

  /** The result ends with the request URI: path and query string are kept. */
  lemma EndsWithRequestURI(forwardedProto: string, host: string, requestURI: string)
    ensures var url := CfForwardedUrlFor(forwardedProto, host, requestURI);
            |url| >= |requestURI| && url[|url| - |requestURI|..] == requestURI
  {
  }

  /** The result is the chosen scheme, `://`, the host and the request URI. */
  lemma Shape(forwardedProto: string, host: string, requestURI: string)
    ensures CfForwardedUrlFor(forwardedProto, host, requestURI)
            == SchemeFor(forwardedProto) + SchemeDelimiter + host + requestURI
  {
  }

  /** An empty header value (the header absent or set to "") gives `http`. */
  lemma HeaderEmpty(host: string, requestURI: string)
    ensures CfForwardedUrlFor("", host, requestURI) == "http://" + host + requestURI
  {
    Shape("", host, requestURI);
  }

  /** A header value whose first element is empty (it starts with ", ") gives `http`. */
  lemma EmptyFirstValue(rest: string)
    ensures SchemeFor(SchemeSeparator + rest) == DefaultScheme
  {
    var v := SchemeSeparator + rest;
    assert OccursAt(v, SchemeSeparator, 0) by {
      assert v[..2] == SchemeSeparator;
    }
    FirstSplitEmptyIff(v, SchemeSeparator);
  }

  /** The header value is used verbatim exactly when it is non-empty and holds no ", ". */
  lemma VerbatimIff(forwardedProto: string)
    ensures SchemeFor(forwardedProto) == forwardedProto
            <==> forwardedProto != "" && !Contains(forwardedProto, SchemeSeparator)
  {
    if forwardedProto != "" && !Contains(forwardedProto, SchemeSeparator) {
      FirstSplitWhole(forwardedProto, SchemeSeparator);
    }
  }

  /** The scheme falls back to `http` exactly when the header's first value is empty. */
  lemma DefaultIff(forwardedProto: string)
    ensures FirstSplit(forwardedProto, SchemeSeparator) == ""
            <==> forwardedProto == "" || OccursAt(forwardedProto, SchemeSeparator, 0)
    ensures FirstSplit(forwardedProto, SchemeSeparator) == "" ==> SchemeFor(forwardedProto) == DefaultScheme
  {
    FirstSplitEmptyIff(forwardedProto, SchemeSeparator);
  }

  /** A single value without ", " is the scheme. */
  lemma SingleValue(value: string, host: string, requestURI: string)
    requires value != "" && !Contains(value, SchemeSeparator)
    ensures CfForwardedUrlFor(value, host, requestURI) == value + "://" + host + requestURI
  {
    VerbatimIff(value);
    Shape(value, host, requestURI);
  }

  /** With several ", "-separated values only the first one is the scheme. */
  lemma FirstOfMany(first: string, rest: string, host: string, requestURI: string)
    requires first != "" && !Contains(first, SchemeSeparator)
    ensures CfForwardedUrlFor(first + SchemeSeparator + rest, host, requestURI)
            == first + "://" + host + requestURI
  {
    var v := first + SchemeSeparator + rest;
    var k := |first|;
    assert OccursAt(v, SchemeSeparator, k) by {
      assert v[k..k + 2] == SchemeSeparator;
    }
    forall j: nat | j < k ensures !OccursAt(v, SchemeSeparator, j) {
      if j + 2 <= k {
        assert v[j..j + 2] == first[j..j + 2];
        assert !OccursAt(first, SchemeSeparator, j);
      } else {
        assert v[j + 1] == ',';
      }
    }
    FirstSplitAt(v, SchemeSeparator, k);
    assert v[..k] == first;
    Shape(v, host, requestURI);
  }

  /** A value holding no comma holds no ", ". */
  lemma CommaFree(value: string)
    requires forall i :: 0 <= i < |value| ==> value[i] != ','
    ensures !Contains(value, SchemeSeparator)
  {
    forall j: nat ensures !OccursAt(value, SchemeSeparator, j) {
      if j + 2 <= |value| {
        assert value[j..j + 2][0] == value[j];
      }
    }
  }

  /** Header not set, request `http://test.com/`: `http://test.com/`. */
  lemma ExampleNotSet()
    ensures CfForwardedUrlForRequest(Request(map[], "test.com", "/")) == "http://test.com/"
  {
  }

  /** Header set to "", request `http://test.com/`: `http://test.com/`. */
  lemma ExampleSetEmpty()
    ensures CfForwardedUrlForRequest(Request(Set(map[], ForwardedProtoHeader, ""), "test.com", "/"))
            == "http://test.com/"
  {
    GetSet(map[], ForwardedProtoHeader, "");
    HeaderEmpty("test.com", "/");
  }

  /** Header set to "https": `https://test.com/`. */
  lemma ExampleSingle()
    ensures CfForwardedUrlForRequest(Request(Set(map[], ForwardedProtoHeader, "https"), "test.com", "/"))
            == "https://test.com/"
  {
    GetSet(map[], ForwardedProtoHeader, "https");
    CommaFree("https");
    SingleValue("https", "test.com", "/");
  }

  /** A request whose header was set to several values uses the first. */
  lemma FirstOfManyRequest(first: string, rest: string, host: string, requestURI: string)
    requires first != "" && !Contains(first, SchemeSeparator)
    ensures CfForwardedUrlForRequest(Request(Set(map[], ForwardedProtoHeader, first + SchemeSeparator + rest), host, requestURI))
            == first + "://" + host + requestURI
  {
    GetSet(map[], ForwardedProtoHeader, first + SchemeSeparator + rest);
    FirstOfMany(first, rest, host, requestURI);
  }

  /** Header set to "https, http, http" (written with the separator): `https://test.com/`. */
  lemma ExampleMany()
    ensures CfForwardedUrlForRequest(Request(Set(map[], ForwardedProtoHeader,
                                                 "https" + SchemeSeparator + "http" + SchemeSeparator + "http"),
                                             "test.com", "/"))
            == "https://test.com/"
  {
    var rest := "http" + SchemeSeparator + "http";
    assert "https" + SchemeSeparator + "http" + SchemeSeparator + "http" == "https" + SchemeSeparator + rest;
    CommaFree("https");
    FirstOfManyRequest("https", rest, "test.com", "/");
  }

  /** Request `http://test.com/path`: the path is kept. */
  lemma ExamplePath()
    ensures CfForwardedUrlForRequest(Request(map[], "test.com", "/path")) == "http://test.com/path"
  {
  }

  /** Request `http://test.com/path?a=b`: the path and query string are kept. */
  lemma ExampleQuery()
    ensures CfForwardedUrlForRequest(Request(map[], "test.com", "/path?a=b")) == "http://test.com/path?a=b"
  {
  }
}
