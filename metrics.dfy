/** The metrics aggregator: its configuration defaults, the listen address and
    the one route of the exposition server, and the Metrics object that owns
    the registry and registers the default collectors and providers' ones. */
module Metrics {
  import opened Wrappers
  import opened Decimal
  import opened Prometheus

  // ---------------------------------------------------------------------------
  // Default instruments

  const EventReceiveKey := "eventReceive"
  const EventReceiveName := "updateip_count_event_receive"

  /** The package-level event counter, fresh at start-up. */
  const EventReceive := NewCounter(Opts(EventReceiveName, "Count of events received"))

  /** The counter table Init installs. */
  const InitialCounters: map<string, Collector> := map[EventReceiveKey := EventReceive]

  lemma EventReceiveIsFresh()
    ensures EventReceive.Counter? && EventReceive.count == 0
    ensures EventReceive.Name() == EventReceiveName
    ensures InitialCounters.Keys == {EventReceiveKey} && InitialCounters[EventReceiveKey] == EventReceive
  {
  }

  // ---------------------------------------------------------------------------
  // Server configuration

  /** config.CFGMetrics: where the exposition server listens. */
  datatype Config = Config(host: string, port: int, path: string)

  const DefaultPath := "/metrics"
  const DefaultPort := 8080
  const DefaultHost := "0.0.0.0"

  /** The defaulting hTTPServer applies to its configuration before it listens. */
  function WithDefaults(c: Config): (r: Config)
    ensures c.path == "" ==> r.path == DefaultPath
    ensures c.path != "" ==> r.path == c.path
    ensures c.port == 0 ==> r.port == DefaultPort
    ensures c.port != 0 ==> r.port == c.port
    ensures c.host == "" ==> r.host == DefaultHost
    ensures c.host != "" ==> r.host == c.host
  {
    var withPath := if c.path == "" then c.(path := DefaultPath) else c;
    var withPort := if withPath.port == 0 then withPath.(port := DefaultPort) else withPath;
    if withPort.host == "" then withPort.(host := DefaultHost) else withPort
  }

  /** A configuration filled in field by field, as hTTPServer does, is the defaulted one. */
  lemma DefaultsInSteps(c: Config, r: Config)
    requires r.path == (if c.path == "" then DefaultPath else c.path)
    requires r.port == (if c.port == 0 then DefaultPort else c.port)
    requires r.host == (if c.host == "" then DefaultHost else c.host)
    ensures r == WithDefaults(c)
  {
  }

  /** After defaulting no field is unset. */
  predicate Complete(c: Config) {
    c.path != "" && c.port != 0 && c.host != ""
  }

  /** Defaulting is idempotent, and it changes exactly the incomplete configurations. */
  lemma WithDefaultsIdempotent(c: Config)
    ensures Complete(WithDefaults(c))
    ensures WithDefaults(WithDefaults(c)) == WithDefaults(c)
    ensures WithDefaults(c) == c <==> Complete(c)
  {
  }

  /** The address the server listens on: host, a colon, the decimal port. */
  function ListenAddress(c: Config): (a: string)
    ensures |a| > |c.host| + 1
    ensures a[..|c.host|] == c.host && a[|c.host|] == ':'
    ensures a[|c.host| + 1..] == Itoa(c.port)
    ensures ParseInt(a[|c.host| + 1..]) == Some(c.port)
  {
    var a := c.host + ":" + Itoa(c.port);
    ParseItoa(c.port);
    assert a[|c.host| + 1..] == Itoa(c.port);
    a
  }

  /** The position of the last colon of s, if any. */
  function LastColon(s: string): (r: Option<nat>)
    ensures r.None? <==> ':' !in s
    ensures r.Some? ==> r.value < |s| && s[r.value] == ':' && ':' !in s[r.value + 1..]
  {
    if s == [] then None
    else if s[|s| - 1] == ':' then Some(|s| - 1)
    else
      var r := LastColon(s[..|s| - 1]);
      assert s == s[..|s| - 1] + [s[|s| - 1]];
      if r.Some? then
        assert s[r.value + 1..] == s[..|s| - 1][r.value + 1..] + [s[|s| - 1]];
        r
      else r
  }

  /** Reads a listen address back into host and port, splitting at the last colon. */
  function SplitAddress(a: string): Option<(string, int)> {
    match LastColon(a)
    case None => None
    case Some(k) =>
      match ParseInt(a[k + 1..])
      case None => None
      case Some(port) => Some((a[..k], port))
  }

  lemma {:induction false} LastColonBefore(p: string, q: string)
    requires ':' !in q
    ensures LastColon(p + ":" + q) == Some(|p|)
    decreases |q|
  {
    var s := p + ":" + q;
    if q != [] {
      var q' := q[..|q| - 1];
      assert s[..|s| - 1] == p + ":" + q';
      assert s[|s| - 1] == q[|q| - 1];
      LastColonBefore(p, q');
    }
  }

  /** The listen address determines the host and the port it was formed from. */
  lemma SplitListenAddress(c: Config)
    ensures SplitAddress(ListenAddress(c)) == Some((c.host, c.port))
  {
    var a := ListenAddress(c);
    assert a == c.host + ":" + Itoa(c.port);
    LastColonBefore(c.host, Itoa(c.port));
  }

  // ---------------------------------------------------------------------------
  // Exposition server

  /** A gorilla/mux route: a path and the methods it accepts. */
  datatype Route = Route(path: string, methods: seq<string>)

  /** The HTTP status the router answers a request with. */
  datatype Status = OK | NotFound | MethodNotAllowed

  /** The http.Server hTTPServer builds; timeouts in seconds. */
  datatype Server = Server(addr: string, writeTimeout: nat, readTimeout: nat, idleTimeout: nat, routes: seq<Route>)

  /** The server hTTPServer builds for configuration c: it listens on the
      address that splits back into c's host and port and has the one GET
      route on c's path. */
  function NewServer(c: Config): (s: Server)
    ensures s.addr == ListenAddress(c)
    ensures SplitAddress(s.addr) == Some((c.host, c.port))
    ensures s.writeTimeout == 15 && s.readTimeout == 15 && s.idleTimeout == 60
    ensures s.routes == [Route(c.path, ["GET"])]
  {
    SplitListenAddress(c);
    Server(ListenAddress(c), 15, 15, 60, [Route(c.path, ["GET"])])
  }

  /** Router matching: a route that matches path and method serves the
      request; failing that, a route that matches the path only answers
      method-not-allowed; otherwise not-found. */
  function Dispatch(routes: seq<Route>, verb: string, path: string): (s: Status)
    ensures s == NotFound <==> forall i :: 0 <= i < |routes| ==> routes[i].path != path
  {
    if routes == [] then NotFound
    else if routes[0].path == path && verb in routes[0].methods then OK
    else
      var rest := Dispatch(routes[1..], verb, path);
      if routes[0].path == path && rest == NotFound then MethodNotAllowed else rest
  }

  lemma {:induction false} DispatchMeaning(routes: seq<Route>, verb: string, path: string)
    ensures Dispatch(routes, verb, path) == OK <==>
      exists i :: 0 <= i < |routes| && routes[i].path == path && verb in routes[i].methods
  {
    if routes != [] {
      DispatchMeaning(routes[1..], verb, path);
      if Dispatch(routes[1..], verb, path) == OK {
        var i :| 0 <= i < |routes[1..]| && routes[1..][i].path == path && verb in routes[1..][i].methods;
        assert routes[i + 1] == routes[1..][i];
      }
      forall i | 1 <= i < |routes| ensures routes[i] == routes[1..][i - 1] { }
    }
  }

  /** The exposition server has exactly one route: GET on the configured
      path. Any other method there is refused with 405, any other path 404. */
  lemma ServerRoutes(c: Config, verb: string, path: string)
    ensures |NewServer(c).routes| == 1
    ensures Dispatch(NewServer(c).routes, verb, path) == OK <==> path == c.path && verb == "GET"
    ensures Dispatch(NewServer(c).routes, verb, path) == MethodNotAllowed <==> path == c.path && verb != "GET"
    ensures Dispatch(NewServer(c).routes, verb, path) == NotFound <==> path != c.path
  {
    DispatchMeaning(NewServer(c).routes, verb, path);
  }

  /** The rendering of the default port. */
  lemma DefaultPortText()
    ensures Itoa(DefaultPort) == "8080"
  {
    assert NatToDec(80) == "80";
  }

  /** With nothing configured the server listens on 0.0.0.0:8080 and serves /metrics. */
  lemma UnsetConfigServer()
    ensures var s := NewServer(WithDefaults(Config("", 0, "")));
      s.addr == "0.0.0.0:8080" && s.routes == [Route("/metrics", ["GET"])]
  {
    var c := WithDefaults(Config("", 0, ""));
    assert c == Config(DefaultHost, DefaultPort, DefaultPath);
    DefaultPortText();
    var a := NewServer(c).addr;
    assert a == ListenAddress(c) == DefaultHost + ":" + Itoa(DefaultPort);
  }

  // ---------------------------------------------------------------------------
  // Registration

  /** A provider descriptor: instrument kind to the collectors of that kind. */
  type Descriptor = map<string, seq<Collector>>

  /** Reading a Go map: the entry's list, or an empty (nil) slice for a missing key. */
  function Lookup(rg: Descriptor, key: string): (list: seq<Collector>)
    ensures key in rg ==> list == rg[key]
    ensures key !in rg ==> list == []
  {
    if key in rg then rg[key] else []
  }

  /** One loop of RegisterPkg: each element is asserted to have dynamic type
      want, then registered; the first failure aborts. */
  function RegisterList(cs: seq<Collector>, list: seq<Collector>, want: Kind): (e: Effect)
    ensures |cs| <= |e.collectors| <= |cs| + |list|
    ensures e.outcome.Pass? <==> |e.collectors| == |cs| + |list|
    decreases |list|
  {
    if list == [] then Effect(Pass, cs)
    else if list[0].TypeOf() != want then Effect(Abort(WrongType(want, list[0].TypeOf())), cs)
    else
      var e := Register(cs, list[0]);
      if e.outcome.Abort? then e else RegisterList(e.collectors, list[1..], want)
  }

  /** RegisterPkg: the "gauge" list as *GaugeVec, then the "counter" list as
      *CounterVec; no other key is read. */
  function RegisterPkgSpec(cs: seq<Collector>, rg: Descriptor): (e: Effect)
    ensures |cs| <= |e.collectors| <= |cs| + |Lookup(rg, "gauge")| + |Lookup(rg, "counter")|
    ensures e.outcome.Pass? <==> |e.collectors| == |cs| + |Lookup(rg, "gauge")| + |Lookup(rg, "counter")|
  {
    var g := RegisterList(cs, Lookup(rg, "gauge"), GaugeVecKind);
    if g.outcome.Abort? then g else RegisterList(g.collectors, Lookup(rg, "counter"), CounterVecKind)
  }

  /** registerMetrics: the "eventReceive" counter, then the build-info collector. */
  function RegisterMetricsSpec(counters: map<string, Collector>, cs: seq<Collector>): (e: Effect)
    ensures EventReceiveKey !in counters ==> e == Effect(Abort(NilCollector), cs)
    ensures e.outcome.Pass? ==> e.collectors == cs + [counters[EventReceiveKey], BuildInfo]
    ensures e.outcome.Abort? ==> |cs| <= |e.collectors| <= |cs| + 1 && e.collectors[..|cs|] == cs
  {
    if EventReceiveKey !in counters then Effect(Abort(NilCollector), cs)
    else
      var e := Register(cs, counters[EventReceiveKey]);
      if e.outcome.Abort? then e else Register(e.collectors, NewBuildInfoCollector())
  }

  /** The list is registered in order: what was registered is a prefix of
      it, and every element of that prefix has dynamic type want. */
  lemma {:induction false} RegisterListOrder(cs: seq<Collector>, list: seq<Collector>, want: Kind)
    ensures var e := RegisterList(cs, list, want);
      var k := |e.collectors| - |cs|;
      && e.collectors == cs + list[..k]
      && (forall i :: 0 <= i < k ==> list[i].TypeOf() == want)
    decreases |list|
  {
    if list != [] && list[0].TypeOf() == want && Register(cs, list[0]).outcome.Pass? {
      var cs' := cs + [list[0]];
      RegisterListOrder(cs', list[1..], want);
      var e := RegisterList(cs', list[1..], want);
      var k' := |e.collectors| - |cs'|;
      assert list[1..][..k'] == list[1..k' + 1];
      assert cs' + list[1..k' + 1] == cs + list[..k' + 1];
      forall i | 1 <= i < k' + 1 ensures list[i].TypeOf() == want {
        assert list[i] == list[1..][i - 1];
      }
    } else {
      assert list[..0] == [];
    }
  }

  /** A loop that aborts does so on the first element it left out: that
      element has the wrong dynamic type, or its name is already taken. */
  lemma {:induction false} RegisterListFault(cs: seq<Collector>, list: seq<Collector>, want: Kind)
    ensures var e := RegisterList(cs, list, want);
      var k := |e.collectors| - |cs|;
      e.outcome.Abort? ==>
        && k < |list|
        && e.outcome.fault == (if list[k].TypeOf() != want then WrongType(want, list[k].TypeOf())
                               else AlreadyRegistered(list[k].Name()))
        && (list[k].TypeOf() == want ==> list[k].Name() in NamesOf(e.collectors))
    decreases |list|
  {
    if list != [] && list[0].TypeOf() == want && Register(cs, list[0]).outcome.Pass? {
      var cs' := cs + [list[0]];
      RegisterListFault(cs', list[1..], want);
      var e := RegisterList(cs', list[1..], want);
      var k' := |e.collectors| - |cs'|;
      if e.outcome.Abort? {
        assert list[k' + 1] == list[1..][k'];
      }
    }
  }

  /** A loop of RegisterPkg never puts two collectors of one name in the registry. */
  lemma {:induction false} RegisterListKeepsUnique(cs: seq<Collector>, list: seq<Collector>, want: Kind)
    requires Unique(cs)
    ensures Unique(RegisterList(cs, list, want).collectors)
    decreases |list|
  {
    if list != [] && list[0].TypeOf() == want {
      RegisterKeepsUnique(cs, list[0]);
      if Register(cs, list[0]).outcome.Pass? {
        RegisterListKeepsUnique(cs + [list[0]], list[1..], want);
      }
    }
  }

  /** A loop of RegisterPkg completes exactly when every element has the
      asserted dynamic type and no name repeats, in the list or against the
      registry. */
  lemma {:induction false} RegisterListPasses(cs: seq<Collector>, list: seq<Collector>, want: Kind)
    requires Unique(cs)
    ensures RegisterList(cs, list, want).outcome.Pass? <==>
      (forall i :: 0 <= i < |list| ==> list[i].TypeOf() == want) && Unique(cs + list)
    decreases |list|
  {
    if list == [] {
      assert cs + list == cs;
    } else {
      var x := list[0];
      assert cs + list == (cs + [x]) + list[1..];
      if x.TypeOf() == want && x.Name() !in NamesOf(cs) {
        RegisterKeepsUnique(cs, x);
        RegisterListPasses(cs + [x], list[1..], want);
        forall i | 1 <= i < |list| ensures list[i] == list[1..][i - 1] { }
        if Unique(cs + list) {
          UniquePrefix(cs + [x], list[1..]);
        }
      } else if x.TypeOf() == want {
        var y :| y in cs && y.Name() == x.Name();
        var j :| 0 <= j < |cs| && cs[j] == y;
        assert (cs + list)[j].Name() == (cs + list)[|cs|].Name();
      }
    }
  }

  lemma UniquePrefix(a: seq<Collector>, b: seq<Collector>)
    requires Unique(a + b)
    ensures Unique(a)
  {
    forall i, j | 0 <= i < j < |a| ensures a[i].Name() != a[j].Name() {
      assert a[i] == (a + b)[i] && a[j] == (a + b)[j];
    }
  }

  /** Everything one loop of RegisterPkg adds has the asserted dynamic type. */
  lemma RegisterListAddsKind(cs: seq<Collector>, list: seq<Collector>, want: Kind)
    ensures forall i :: |cs| <= i < |RegisterList(cs, list, want).collectors| ==>
      RegisterList(cs, list, want).collectors[i].TypeOf() == want
  {
    RegisterListOrder(cs, list, want);
    var e := RegisterList(cs, list, want);
    forall i | |cs| <= i < |e.collectors| ensures e.collectors[i].TypeOf() == want {
      assert e.collectors[i] == list[i - |cs|];
    }
  }

  /** RegisterPkg registers the "gauge" list, then the "counter" list, each in
      order: it keeps the old registry as a prefix and unique names, and it
      completes exactly when both lists went in whole. */
  lemma RegisterPkgReads(cs: seq<Collector>, rg: Descriptor)
    requires Unique(cs)
    ensures var e := RegisterPkgSpec(cs, rg);
      var gs := Lookup(rg, "gauge");
      var ns := Lookup(rg, "counter");
      && Unique(e.collectors)
      && e.collectors[..|cs|] == cs
      && (e.outcome.Pass? <==> e.collectors == cs + gs + ns)
  {
    var gs := Lookup(rg, "gauge");
    var ns := Lookup(rg, "counter");
    RegisterListOrder(cs, gs, GaugeVecKind);
    RegisterListKeepsUnique(cs, gs, GaugeVecKind);
    var g := RegisterList(cs, gs, GaugeVecKind);
    if g.outcome.Pass? {
      assert gs[..|gs|] == gs;
      RegisterListOrder(g.collectors, ns, CounterVecKind);
      RegisterListKeepsUnique(g.collectors, ns, CounterVecKind);
      var n := RegisterList(g.collectors, ns, CounterVecKind);
      var kn := |n.collectors| - |g.collectors|;
      assert n.collectors == cs + gs + ns[..kn];
      assert n.collectors[..|cs|] == cs;
      if kn == |ns| {
        assert ns[..kn] == ns;
      }
    }
  }

  /** Every collector RegisterPkg adds is a *GaugeVec or a *CounterVec, so
      a plain counter, a plain gauge or a histogram vector never gets in. */
  lemma RegisterPkgAddsOnlyVectors(cs: seq<Collector>, rg: Descriptor)
    ensures var e := RegisterPkgSpec(cs, rg);
      forall i :: |cs| <= i < |e.collectors| ==> e.collectors[i].GaugeVec? || e.collectors[i].CounterVec?
  {
    var gs := Lookup(rg, "gauge");
    var ns := Lookup(rg, "counter");
    var g := RegisterList(cs, gs, GaugeVecKind);
    RegisterListAddsKind(cs, gs, GaugeVecKind);
    if g.outcome.Pass? {
      RegisterListOrder(g.collectors, ns, CounterVecKind);
      RegisterListAddsKind(g.collectors, ns, CounterVecKind);
      var n := RegisterList(g.collectors, ns, CounterVecKind);
      forall i | |cs| <= i < |n.collectors| ensures n.collectors[i].GaugeVec? || n.collectors[i].CounterVec? {
        if i < |g.collectors| {
          assert n.collectors[i] == g.collectors[i];
          assert g.collectors[i].TypeOf() == GaugeVecKind;
        } else {
          assert n.collectors[i].TypeOf() == CounterVecKind;
        }
      }
    } else {
      forall i | |cs| <= i < |g.collectors| ensures g.collectors[i].GaugeVec? {
        assert g.collectors[i].TypeOf() == GaugeVecKind;
      }
    }
  }

  /** RegisterPkg reads the "gauge" and "counter" entries only: the
      descriptor restricted to those two keys gives the same result. */
  lemma RegisterPkgIgnoresOtherKeys(cs: seq<Collector>, rg: Descriptor)
    ensures RegisterPkgSpec(cs, rg) == RegisterPkgSpec(cs, map k | k in rg.Keys * {"gauge", "counter"} :: rg[k])
  {
  }

  /** registerMetrics on a registry that holds neither default name adds
      exactly the event counter and the build-info collector; if either name
      is taken it aborts on the first one already present. */
  lemma RegisterMetricsEffect(cs: seq<Collector>)
    ensures var e := RegisterMetricsSpec(InitialCounters, cs);
      (e.outcome.Pass? <==> EventReceiveName !in NamesOf(cs) && BuildInfoName !in NamesOf(cs))
      && (e.outcome.Pass? ==> e.collectors == cs + [EventReceive, BuildInfo])
      && (EventReceiveName in NamesOf(cs) ==> e == Effect(Abort(AlreadyRegistered(EventReceiveName)), cs))
      && (EventReceiveName !in NamesOf(cs) && BuildInfoName in NamesOf(cs) ==>
            e == Effect(Abort(AlreadyRegistered(BuildInfoName)), cs + [EventReceive]))
  {
    AppendNames(cs, EventReceive);
  }

  /** Running registerMetrics a second time aborts, because the event counter
      is already registered, and leaves the registry as the first run did. */
  lemma RegisterMetricsTwice(cs: seq<Collector>)
    requires RegisterMetricsSpec(InitialCounters, cs).outcome.Pass?
    ensures var first := RegisterMetricsSpec(InitialCounters, cs);
      RegisterMetricsSpec(InitialCounters, first.collectors)
        == Effect(Abort(AlreadyRegistered(EventReceiveName)), first.collectors)
  {
    RegisterMetricsEffect(cs);
    var first := RegisterMetricsSpec(InitialCounters, cs);
    assert EventReceive in first.collectors;
    RegisterMetricsEffect(first.collectors);
  }

  // ---------------------------------------------------------------------------
  // The aggregator

  /** metrics.Metrics: the counter and gauge tables, the registry and the
      server configuration. */
  class Metrics {
    var counters: map<string, Collector>
    var gauges: map<string, Collector>
    var registry: Registry
    var cfg: Config

    /** The registry keeps unique names; the tables hold what their Go map
        types allow (prometheus.Counter, *prometheus.GaugeVec). */
    ghost predicate Valid()
      reads this, registry
    {
      && registry.Valid()
      && (forall k :: k in counters ==> counters[k].Counter?)
      && (forall k :: k in gauges ==> gauges[k].GaugeVec?)
    }

    /** Init: a fresh, empty registry, the event counter as the only
        counter, and no gauges. */
    constructor Init(cfg: Config)
      ensures Valid() && fresh(registry)
      ensures registry.collectors == []
      ensures counters == InitialCounters && gauges == map[]
      ensures this.cfg == cfg
    {
      this.cfg := cfg;
      registry := new Registry();
      gauges := map[];
      counters := InitialCounters;
    }

    /** registerMetrics. */
    method RegisterMetrics() returns (o: Outcome)
      requires Valid()
      modifies registry
      ensures Valid()
      ensures Effect(o, registry.collectors) == RegisterMetricsSpec(counters, old(registry.collectors))
    {
      if EventReceiveKey !in counters {
        return Abort(NilCollector);
      }
      o := registry.MustRegister(counters[EventReceiveKey]);
      if o.Abort? {
        return;
      }
      o := registry.MustRegister(NewBuildInfoCollector());
    }

    /** RegisterPkg: the two loops over the descriptor's "gauge" and
        "counter" lists. */
    method RegisterPkg(rg: Descriptor) returns (o: Outcome)
      requires Valid()
      modifies registry
      ensures Valid()
      ensures Effect(o, registry.collectors) == RegisterPkgSpec(old(registry.collectors), rg)
    {
      o := Pass;
      ghost var cs0 := registry.collectors;
      var gaugeList := Lookup(rg, "gauge");
      for i := 0 to |gaugeList|
        invariant Valid()
        invariant RegisterList(registry.collectors, gaugeList[i..], GaugeVecKind) == RegisterList(cs0, gaugeList, GaugeVecKind)
      {
        var v := gaugeList[i];
        assert gaugeList[i..][0] == v && gaugeList[i..][1..] == gaugeList[i + 1..];
        if !v.GaugeVec? {
          return Abort(WrongType(GaugeVecKind, v.TypeOf()));
        }
        o := registry.MustRegister(v);
        if o.Abort? {
          return;
        }
      }
      ghost var cs1 := registry.collectors;
      assert RegisterList(cs0, gaugeList, GaugeVecKind) == Effect(Pass, cs1);
      var counterList := Lookup(rg, "counter");
      for i := 0 to |counterList|
        invariant Valid()
        invariant RegisterList(registry.collectors, counterList[i..], CounterVecKind) == RegisterList(cs1, counterList, CounterVecKind)
      {
        var v := counterList[i];
        assert counterList[i..][0] == v && counterList[i..][1..] == counterList[i + 1..];
        if !v.CounterVec? {
          return Abort(WrongType(CounterVecKind, v.TypeOf()));
        }
        o := registry.MustRegister(v);
        if o.Abort? {
          return;
        }
      }
      o := Pass;
    }

    /** The configuration part of hTTPServer: fill in the unset fields one by
        one, then build the server that will listen (ListenAndServe itself is
        not modelled). */
    method HTTPServer() returns (srv: Server)
      requires Valid()
      modifies this`cfg
      ensures Valid()
      ensures cfg == WithDefaults(old(cfg))
      ensures srv == NewServer(cfg)
    {
      if cfg.path == "" {
        cfg := cfg.(path := DefaultPath);
      }
      if cfg.port == 0 {
        cfg := cfg.(port := DefaultPort);
      }
      if cfg.host == "" {
        cfg := cfg.(host := DefaultHost);
      }
      DefaultsInSteps(old(cfg), cfg);
      srv := NewServer(cfg);
    }

    /** Run: register the defaults, then start the server. A failing
        registration aborts before the server is started. */
    method Run() returns (o: Outcome, srv: Option<Server>)
      requires Valid()
      modifies this`cfg, registry
      ensures Valid()
      ensures Effect(o, registry.collectors) == RegisterMetricsSpec(old(counters), old(registry.collectors))
      ensures o.Pass? ==> cfg == WithDefaults(old(cfg)) && srv == Some(NewServer(cfg))
      ensures o.Abort? ==> cfg == old(cfg) && srv == None
    {
      o := RegisterMetrics();
      if o.Abort? {
        return o, None;
      }
      var s := HTTPServer();
      srv := Some(s);
    }
  }
}
