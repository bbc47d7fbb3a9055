# updateip metrics aggregator, modelled in Dafny

updateip gathers its Prometheus instruments in one registry and serves them
over HTTP. This project models two parts of it. The first is the aggregator in
`pkg/metrics/metrics.go`. It builds the `Metrics` object, registers the default
event counter and the build-info collector, and registers a provider's
instruments from a descriptor map. It also fills in defaults for the server
configuration, forms the listen address and binds the one GET route. The second
is the AWS provider's instruments and the descriptor map it returns
(`pkg/providers/aws/metrics.go`).

Files and modules:

- `wrappers.dfy`, module `Wrappers`: the `Option` datatype used by the parsers and by `Run`.
- `decimal.dfy`, module `Decimal`: `strconv.Itoa` (decimal rendering) and a parser `ParseInt` that inverts it.
- `prometheus.dfy`, module `Prometheus`: the parts of the Prometheus client that `pkg/metrics/metrics.go` uses.
  - A collector handle is tagged by its dynamic Go type: `Counter`, `Gauge`, `CounterVec`, `GaugeVec`, `HistogramVec`, and `BuildInfo` for the build-info collector.
  - The registry is a class. `MustRegister` aborts when a name is already taken.
  - A panic is modelled as an `Outcome`, `Abort(fault)`, instead of ending the process.
- `metrics.dfy`, module `Metrics`:
  - configuration defaulting, the listen address and route dispatch as pure functions;
  - the pure specifications of `registerMetrics` and `RegisterPkg` (`RegisterMetricsSpec`, `RegisterList`, `RegisterPkgSpec`);
  - the `Metrics` class, whose methods run the source's loops and field updates against the registry object and are proved equal to those specifications.
- `aws.dfy`, module `AwsMetrics`: the three AWS instruments and `RegistryMetrics`.

`RegistryMetrics` is a Dafny function. Being a function, every call gives the
same map holding the same three handles.

Combining `pkg/metrics/metrics.go` and `pkg/providers/aws/metrics.go`, `AwsMetrics.RegisterAwsDescriptor` proves that
`RegisterPkg` aborts when given the AWS descriptor. The "gauge" entry is a plain
`Gauge`, but line 59 asserts `*GaugeVec`, so nothing gets registered. The
histogram is listed under "gaugeVec", and `RegisterPkg` never reads that key.
The code that calls `RegisterPkg` is not part of this model, so the model does
not say whether this happens at run time.

The descriptor is modelled as the code has it. It is keyed by the strings
"gauge", "counter" and "gaugeVec", and the element types are checked when
registration runs.

## Model

| member | source | states |
|---|---|---|
| `Metrics.EventReceiveIsFresh` | pkg/metrics/metrics.go:24-29 | the default counter is a plain counter named updateip_count_event_receive with value 0; the initial counter table maps only "eventReceive" to it |
| `Metrics.Metrics.Init` | pkg/metrics/metrics.go:33-43 | Init keeps the config, creates a fresh empty registry, sets the counter table to only `"eventReceive"` and the gauge table to empty |
| `Prometheus.Registry.constructor` | pkg/metrics/metrics.go:37 | a new registry holds no collectors and no names |
| `Prometheus.NewCounter` | pkg/providers/aws/metrics.go:10-15 | a new counter has the given name and value 0 |
| `Prometheus.NewGauge` | pkg/providers/aws/metrics.go:18-23 | a new gauge is a plain (unlabelled) gauge with the given name and value 0 |
| `Prometheus.NewHistogramVec` | pkg/providers/aws/metrics.go:26-31 | a new histogram vector has the given name and label names |
| `Prometheus.NewBuildInfoCollector` | pkg/metrics/metrics.go:53 | the build-info collector is one collector named go_build_info |
| `Prometheus.Register` | pkg/metrics/metrics.go:52 | a registration succeeds exactly when the name is not yet registered; on success the collector is appended, otherwise it aborts with AlreadyRegistered and nothing changes |
| `Prometheus.RegisterKeepsUnique` | pkg/metrics/metrics.go:52 | a registration never puts two collectors with the same name in the registry, and on success the registered names grow by exactly the new name |
| `Prometheus.Registry.MustRegister` | pkg/metrics/metrics.go:52 | the registry method does what `Register` says and keeps the name set equal to the collectors' names, with no duplicates |
| `Metrics.Metrics.RegisterMetrics` | pkg/metrics/metrics.go:51-54 | registers `counters["eventReceive"]`, then the build-info collector, stopping at the first abort; a missing key is a nil collector and aborts |
| `Metrics.RegisterMetricsEffect` | pkg/metrics/metrics.go:51-54 | with the initial counter table: succeeds exactly when neither default name is registered, and then adds exactly the event counter and the build-info collector, in that order; otherwise it aborts on the first default name already taken, keeping the event counter when only go_build_info was taken |
| `Metrics.RegisterMetricsTwice` | pkg/metrics/metrics.go:51-54 | running registerMetrics again after a successful run aborts with AlreadyRegistered(updateip_count_event_receive) and leaves the registry unchanged |
| `Metrics.Lookup` | pkg/metrics/metrics.go:58 | reading a present key gives its list; reading a key missing from the descriptor gives an empty list |
| `Metrics.RegisterList` | pkg/metrics/metrics.go:58-64 | one loop adds at most its list's length and passes exactly when it adds the whole list; its order, kinds and fault are given by `RegisterListOrder` and `RegisterListFault` |
| `Metrics.RegisterPkgSpec` | pkg/metrics/metrics.go:56-65 | RegisterPkg adds at most the "gauge" and "counter" lists' lengths and passes exactly when it adds both whole; what it adds is given by `RegisterPkgReads`, `RegisterPkgAddsOnlyVectors` and `RegisterPkgIgnoresOtherKeys` |
| `Metrics.RegisterMetricsSpec` | pkg/metrics/metrics.go:51-54 | a missing "eventReceive" key aborts as a nil collector with nothing registered; a pass adds exactly that counter then the build-info collector; an abort keeps the old registry as a prefix and adds at most one; `RegisterMetricsEffect` gives when it passes |
| `Metrics.Metrics.RegisterPkg` | pkg/metrics/metrics.go:56-65 | the two loops leave the outcome and registry that `RegisterPkgSpec` gives for the old registry |
| `Metrics.RegisterListOrder` | pkg/metrics/metrics.go:58-64 | one loop registers a prefix of its list in order, every element of it of the asserted type |
| `Metrics.RegisterListFault` | pkg/metrics/metrics.go:59-63 | a loop that aborts does so on the first element it left out: a wrong dynamic type gives WrongType, otherwise the fault is AlreadyRegistered of that element's name, and that name is among the names already registered |
| `Metrics.RegisterListAddsKind` | pkg/metrics/metrics.go:59 | every collector a loop adds has the dynamic type asserted for it |
| `Metrics.RegisterListKeepsUnique` | pkg/metrics/metrics.go:58-64 | a loop never makes two registered collectors share a name |
| `Metrics.RegisterListPasses` | pkg/metrics/metrics.go:58-64 | a loop completes exactly when every element has the asserted dynamic type and the registry plus the list has no repeated name |
| `Metrics.RegisterPkgReads` | pkg/metrics/metrics.go:56-65 | RegisterPkg keeps the old registry as a prefix, keeps names unique, and passes exactly when it appends the whole "gauge" list then the whole "counter" list |
| `Metrics.RegisterPkgAddsOnlyVectors` | pkg/metrics/metrics.go:59-63 | every collector RegisterPkg adds is a *GaugeVec or a *CounterVec |
| `Metrics.RegisterPkgIgnoresOtherKeys` | pkg/metrics/metrics.go:56-65 | RegisterPkg reads only the "gauge" and "counter" entries: restricting the descriptor to them changes nothing |
| `Metrics.WithDefaults` | pkg/metrics/metrics.go:69-79 | an empty path becomes "/metrics", port 0 becomes 8080, an empty host becomes "0.0.0.0", and set fields are kept |
| `Metrics.WithDefaultsIdempotent` | pkg/metrics/metrics.go:69-79 | after defaulting no field is unset; defaulting twice is the same as once; defaulting changes a config exactly when some field is unset |
| `Metrics.Metrics.HTTPServer` | pkg/metrics/metrics.go:69-93 | overwrites the unset config fields one at a time and ends with the defaulted config; builds the server for it; touches nothing else |
| `Decimal.NatToDec` | pkg/metrics/metrics.go:84 | the decimal rendering of a natural is non-empty, all digits, and has no leading zero |
| `Decimal.Itoa` | pkg/metrics/metrics.go:84 | Itoa's output is non-empty, is digits with a leading '-' exactly for negative values, is "0" exactly for zero, has no leading zero after the sign, and contains no colon |
| `Decimal.DecValueOfNatToDec` | pkg/metrics/metrics.go:84 | reading the decimal digits back gives the natural they render |
| `Decimal.ParseItoa` | pkg/metrics/metrics.go:84 | ParseInt inverts Itoa on every integer |
| `Decimal.ItoaInjective` | pkg/metrics/metrics.go:84 | distinct ports render differently |
| `Metrics.ListenAddress` | pkg/metrics/metrics.go:84 | the address is the host, then ':', then exactly `Itoa` of the port, which parses back to the port |
| `Metrics.SplitListenAddress` | pkg/metrics/metrics.go:84 | splitting the address at its last colon gives back exactly the host and port it was formed from |
| `Metrics.NewServer` | pkg/metrics/metrics.go:81-93 | the server's address is exactly `ListenAddress` of the config and splits back into its host and port, its timeouts are 15 s write, 15 s read and 60 s idle, and its one route is GET on the config's path; `SplitListenAddress`, `ServerRoutes` and `UnsetConfigServer` say more |
| `Metrics.DefaultPortText` | pkg/metrics/metrics.go:73-74 | the default port 8080 renders as "8080" |
| `Metrics.UnsetConfigServer` | pkg/metrics/metrics.go:69-93 | with host "", port 0 and path "" the server listens on "0.0.0.0:8080" with the one route GET "/metrics" |
| `Metrics.Dispatch` | pkg/metrics/metrics.go:93 | router dispatch answers 404 exactly when no route has the request path; `DispatchMeaning` gives when it answers OK |
| `Metrics.DispatchMeaning` | pkg/metrics/metrics.go:93 | router dispatch answers OK exactly when some route matches both path and method; with `Dispatch`'s 404 clause, 405 is left for a path that matches with no matching method |
| `Metrics.ServerRoutes` | pkg/metrics/metrics.go:93 | the server has exactly one route; a request is OK exactly for GET on the configured path, 405 for another method on that path, and 404 for any other path |
| `Metrics.Metrics.Run` | pkg/metrics/metrics.go:46-49 | runs registerMetrics first; if it aborts no server is started, otherwise the server is built from the defaulted config |
| `AwsMetrics.RegistryMetrics` | pkg/providers/aws/metrics.go:34-42 | the descriptor has exactly the keys "counter", "gauge" and "gaugeVec", each with one instrument: the plain counter updateip_aws_update, the plain gauge updateip_aws_status, and the histogram vector updateip_aws_func_time with the one label "where" |
| `AwsMetrics.AwsInstruments` | pkg/providers/aws/metrics.go:9-32 | the AWS counter and gauge start at 0; the three AWS names and the default counter's name are pairwise distinct |
| `AwsMetrics.RegisterAwsDescriptor` | pkg/providers/aws/metrics.go:37-39 | RegisterPkg on this descriptor aborts on the "gauge" entry (a Gauge where *GaugeVec is asserted) and registers nothing, so the histogram is never registered |
| `AwsMetrics.GaugeVecKeyUnread` | pkg/providers/aws/metrics.go:39 | replacing the "gaugeVec" entry does not change what RegisterPkg does |

## Left out

- `srv.ListenAndServe`, binding the socket and the fatal exit when binding fails: network I/O and process termination. `HTTPServer` stops at the server value.
- The `go` statement in `Run`: the background task and concurrency. `Run` is modelled as registration followed by building the server.
- Rendering of the exposition format (`promhttp.HandlerFor`): library code. This includes snapshot contents, sample values seen by a scrape, and histogram buckets.
- `loggingMiddleware` and the debug log line: logging only, with no effect on the response.
- `timeTrackS`: it depends on the wall clock and float seconds.
- Instrument value updates (Inc, Set, Observe) and their concurrency safety: they are not part of this model. Counter counts (`nat`) and gauge values (`int`) are integers here, not floats.
- Prometheus descriptor validation other than name collisions is left out: metric- and label-name syntax. Every name in the two modelled files is a valid metric name.
- `Prometheus.Register`: a repeated name always gives `AlreadyRegistered(name)`. The library returns AlreadyRegisteredError only when the new collector's descriptor is identical; a repeated name with a different help text or label set is a different error. Either way MustRegister panics and nothing is registered, which is what the model keeps.
- `Metrics.Descriptor`: its lists hold only collectors. The source's `map[string][]interface{}` can also hold nil or a value that is not a collector, which panic at the type assertion (metrics.go:59, 63), or a typed nil `*GaugeVec`/`*CounterVec`, which passes the assertion and panics inside `MustRegister`. The model cannot express such elements.
- `Prometheus.Registry.MustRegister`: modelled for one collector. The four call sites (metrics.go:52, 53, 59, 63) each pass exactly one.
- `Metrics.Dispatch` and `Metrics.ServerRoutes`, the gorilla/mux details that are left out:
  - the 301 redirect of request paths that are not clean;
  - path templates with `{…}` variables;
  - the rule that a configured path must start with "/". In gorilla/mux a route whose path breaks that rule matches no requests; in the model it matches its path literally, so `ServerRoutes` answers OK for GET on such a path too.
  - The configured path is matched as a literal string.
- `config.CFGMetrics` is not part of this model. Its fields are taken as Host string, Port int and Path string, as `metrics.go` uses them. Go's `int` is 64 bits on 64-bit platforms (32 on 32-bit ones), but Port is modelled as an unbounded integer; only its rendering matters here.
- The `http.Server` timeouts appear only as constants in `NewServer` (write 15 s, read 15 s, idle 60 s). No behaviour of them is modelled.
- `Metrics.SplitAddress`: a reference inverse that splits at the last colon. It is not Go's `net.SplitHostPort`, which also expects a host that contains colons to be in brackets.
