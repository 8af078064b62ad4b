# Route-service forwarded URL

When gorouter sends a request through a route service, it tells the route
service which URL the client originally asked for (the `X-CF-Forwarded-Url`
value). `CfForwardedUrlFor` rebuilds that URL from three parts of the
incoming request:

- the scheme: the first `", "`-separated value of the `X-Forwarded-Proto`
  header, or `http` when that value is empty;
- the request's `Host`;
- the request URI (path and query string), as returned by Go's
  `URL.RequestURI()`.

The result is `scheme + "://" + host + requestURI`.

The project has three modules:

- `GoStrings` (`gostrings.dfy`) models the Go `strings` behaviour the function
  relies on. `Split` is `strings.Split` with a non-empty separator. `FirstSplit`
  is `strings.Split(s, sep)[0]`. `Join` is `strings.Join`, which is used only
  to state that a split can be undone.
- `HttpHeader` (`httpheader.dfy`) models `http.Header` as a map from key to
  the list of its values. It has `Get` (the first value, or `""` when there is
  none) and `Set`.
- `RouteService` (`cf_forwarded_url.dfy`) holds the construction itself. It
  works on plain strings in `CfForwardedUrlFor`, and on a `Request` value in
  `CfForwardedUrlForRequest`. It also has the lemmas that state the function's
  behaviour, and the six test cases of
  `route_service/cf_forwarded_url_test.go`, each written as a lemma.

Everything is a pure function, like the Go code. Go's `Header.Get` returns
`""` both for a missing header and for one set to `""`, so the string-level
function takes the header value with `""` standing for "absent".

## Model

| member | source | states |
|---|---|---|
| GoStrings.FirstSplit | route_service/cf_forwarded_url.go:10 | the first element is a prefix of the header value; no `", "` starts before its end; it is either the whole value or a `", "` starts right after it |
| GoStrings.FirstSplitNoSeparator | route_service/cf_forwarded_url.go:10 | the first element never contains the separator |
| GoStrings.FirstSplitWhole | route_service/cf_forwarded_url.go:10 | a value with no separator is its own first element |
| GoStrings.FirstSplitAt | route_service/cf_forwarded_url.go:10 | when the leftmost separator starts at `k`, the first element is exactly the first `k` characters |
| GoStrings.FirstSplitEmptyIff | route_service/cf_forwarded_url.go:10-11 | the first element is empty if and only if the value is empty or starts with the separator |
| GoStrings.Split | route_service/cf_forwarded_url.go:10 | a split with a non-empty separator always yields at least one piece, so taking element `[0]` cannot fail |
| GoStrings.SplitHead | route_service/cf_forwarded_url.go:10 | `FirstSplit` equals element 0 of the full left-to-right `Split` |
| GoStrings.JoinSplit | route_service/cf_forwarded_url.go:10 | joining the pieces of a split with the same separator gives back the original string |
| GoStrings.SplitSingleIff | route_service/cf_forwarded_url.go:10 | a split yields exactly one piece if and only if the separator does not occur |
| HttpHeader.Set | route_service/cf_forwarded_url_test.go:25 | `Set` stores the single value under its key and leaves every other key as it was |
| HttpHeader.GetAbsent | route_service/cf_forwarded_url.go:9 | reading a header that is not set gives the empty string |
| HttpHeader.GetSet | route_service/cf_forwarded_url_test.go:25 | reading a header gives back the value `Set` stored, including `""` |
| HttpHeader.GetSetOther | route_service/cf_forwarded_url.go:9 | setting one header does not change what another header reads as |
| RouteService.SchemeFor | route_service/cf_forwarded_url.go:9-13 | the chosen scheme is never empty and never contains `", "`; it is either `http` or a leading piece of the header value that ends where the value ends or where the first `", "` begins |
| RouteService.CfForwardedUrlFor | route_service/cf_forwarded_url.go:15 | the URL splits into the chosen scheme, then `://`, then the host unchanged, then the request URI unchanged |
| RouteService.CfForwardedUrlForRequest | route_service/cf_forwarded_url.go:8-16 | on a request, the header is read with `Header.Get`; with no `X-Forwarded-Proto` header the URL is `http://` + host + request URI |
| RouteService.EndsWithRequestURI | route_service/cf_forwarded_url.go:15 | the URL ends with the request URI, so the path and query string are kept verbatim |
| RouteService.Shape | route_service/cf_forwarded_url.go:15 | the URL is exactly the chosen scheme, `://`, the host and the request URI |
| RouteService.HeaderEmpty | route_service/cf_forwarded_url.go:11-13 | an empty header value (header absent or set to `""`) gives `http://` + host + request URI |
| RouteService.EmptyFirstValue | route_service/cf_forwarded_url.go:10-13 | a header value that starts with `", "` also falls back to `http` |
| RouteService.VerbatimIff | route_service/cf_forwarded_url.go:10-13 | the header value is used verbatim as the scheme if and only if it is non-empty and holds no `", "` |
| RouteService.DefaultIff | route_service/cf_forwarded_url.go:10-13 | the fallback applies if and only if the value is empty or starts with `", "`, and then the scheme is `http` |
| RouteService.SingleValue | route_service/cf_forwarded_url.go:15 | a non-empty value with no `", "` gives that value + `://` + host + request URI |
| RouteService.FirstOfMany | route_service/cf_forwarded_url.go:10 | for `first + ", " + rest`, with `first` non-empty and free of `", "`, only `first` is used as the scheme |
| RouteService.FirstOfManyRequest | route_service/cf_forwarded_url_test.go:43-44 | the same, for a request whose header was set to such a value |
| RouteService.ExampleNotSet | route_service/cf_forwarded_url_test.go:13-19 | header not set, request `http://test.com/`: the result is `http://test.com/` |
| RouteService.ExampleSetEmpty | route_service/cf_forwarded_url_test.go:21-28 | header set to `""`: the result is `http://test.com/` |
| RouteService.ExampleSingle | route_service/cf_forwarded_url_test.go:30-37 | header set to `https`: the result is `https://test.com/` |
| RouteService.ExampleMany | route_service/cf_forwarded_url_test.go:39-46 | header set to `https, http, http`: the result is `https://test.com/` |
| RouteService.ExamplePath | route_service/cf_forwarded_url_test.go:48-54 | request `http://test.com/path`: the result is `http://test.com/path` |
| RouteService.ExampleQuery | route_service/cf_forwarded_url_test.go:56-62 | request `http://test.com/path?a=b`: the result is `http://test.com/path?a=b` |

In the test cases, the host `test.com` and the request URI (`/`, `/path`,
`/path?a=b`) are what Go's `http.NewRequest` gives for the test URLs. That
parsing is Go library code, so the model takes those values as given.

## Left out

- `URL.RequestURI()`: Go library code that escapes the path and adds the raw query. The model takes its result as an input string and does no URL escaping.
- `Header.Get` key canonicalisation (`textproto.CanonicalMIMEHeaderKey`): header keys are taken as already canonical.
- GoStrings.FirstSplit and GoStrings.Split require a non-empty separator. Go's `strings.Split` with `""` splits into UTF-8 characters and returns an empty slice for `""`; the only separator this code uses is `", "`.
- The request's own URL scheme is not read by the Go function, so it is not in `Request`.
- Router drain and signal handling (`router/router_drain_test.go`): the `Router` implementation is not part of this model. What that test exercises is goroutines, channels, timeouts and live listeners.
- Proxy request handling and access-log timing (`proxy/proxy_unit_test.go`): the proxy implementation is not part of this model. The test drives a full HTTP upgrade through `ServeHTTP`.
- Access-logger construction (`access_log/create_running_access_logger.go`): it opens files, writes to stdout and starts the logger in a goroutine. All of that is I/O and concurrency.
- Metrics interfaces (`metrics/reporter.go`): these are method signatures with no behaviour.
