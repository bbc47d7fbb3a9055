/** The part of the Prometheus Go client that the metrics aggregator relies on:
    collector handles tagged by their dynamic Go type, and a registry whose
    MustRegister aborts on a name that is already taken. */
module Prometheus {

  datatype Opts = Opts(name: string, help: string)

  /** The dynamic Go type of a collector handle. */
  datatype Kind = CounterKind | GaugeKind | CounterVecKind | GaugeVecKind | HistogramVecKind | BuildInfoKind

  /** A collector handle. Scalar instruments carry their current value;
      vectors carry their label names and start with no children. */
  datatype Collector =
    | Counter(opts: Opts, count: nat)
    | Gauge(opts: Opts, value: int)
    | CounterVec(opts: Opts, labels: seq<string>)
    | GaugeVec(opts: Opts, labels: seq<string>)
    | HistogramVec(opts: Opts, labels: seq<string>)
    | BuildInfo
  {
    /** The fully-qualified name of the one descriptor the collector describes. */
    function Name(): string {
      if BuildInfo? then BuildInfoName else opts.name
    }

    function TypeOf(): Kind {
      match this
      case Counter(_, _) => CounterKind
      case Gauge(_, _) => GaugeKind
      case CounterVec(_, _) => CounterVecKind
      case GaugeVec(_, _) => GaugeVecKind
      case HistogramVec(_, _) => HistogramVecKind
      case BuildInfo => BuildInfoKind
    }
  }

  /** The descriptor name collectors.NewBuildInfoCollector describes. */
  const BuildInfoName := "go_build_info"

  function NewCounter(opts: Opts): (c: Collector)
    ensures c.TypeOf() == CounterKind && c.Name() == opts.name
    ensures c.Counter? && c.count == 0
  {
    Counter(opts, 0)
  }

  function NewGauge(opts: Opts): (g: Collector)
    ensures g.TypeOf() == GaugeKind && g.Name() == opts.name
    ensures g.Gauge? && g.value == 0
  {
    Gauge(opts, 0)
  }

  function NewHistogramVec(opts: Opts, labels: seq<string>): (h: Collector)
    ensures h.TypeOf() == HistogramVecKind && h.Name() == opts.name
    ensures h.HistogramVec? && h.labels == labels
  {
    HistogramVec(opts, labels)
  }

  function NewBuildInfoCollector(): (b: Collector)
    ensures b.TypeOf() == BuildInfoKind && b.Name() == BuildInfoName
  {
    BuildInfo
  }

  /** Why a registration panics. */
  datatype Fault =
    | AlreadyRegistered(name: string)
    | NilCollector
    | WrongType(want: Kind, got: Kind)

  datatype Outcome = Pass | Abort(fault: Fault)

  /** What a sequence of registrations leaves behind: how it ended and the
      collectors registered, in registration order. */
  datatype Effect = Effect(outcome: Outcome, collectors: seq<Collector>)

  function NamesOf(cs: seq<Collector>): set<string> {
    set c | c in cs :: c.Name()
  }

  /** No two registered collectors share a name. */
  predicate Unique(cs: seq<Collector>) {
    forall i, j :: 0 <= i < j < |cs| ==> cs[i].Name() != cs[j].Name()
  }

  /** What one MustRegister call does to the registered collectors. */
  function Register(cs: seq<Collector>, c: Collector): (e: Effect)
    ensures e.outcome.Pass? <==> c.Name() !in NamesOf(cs)
    ensures e.outcome.Pass? ==> e.collectors == cs + [c]
    ensures e.outcome.Abort? ==> e.outcome.fault == AlreadyRegistered(c.Name()) && e.collectors == cs
  {
    if c.Name() in NamesOf(cs) then Effect(Abort(AlreadyRegistered(c.Name())), cs)
    else Effect(Pass, cs + [c])
  }

  lemma AppendNames(cs: seq<Collector>, c: Collector)
    ensures NamesOf(cs + [c]) == NamesOf(cs) + {c.Name()}
  {
    assert c in cs + [c];
    forall n | n in NamesOf(cs + [c]) ensures n in NamesOf(cs) + {c.Name()} {
      var x :| x in cs + [c] && x.Name() == n;
      if x != c {
        assert x in cs;
      }
    }
    forall n | n in NamesOf(cs) ensures n in NamesOf(cs + [c]) {
      var x :| x in cs && x.Name() == n;
      assert x in cs + [c];
    }
  }

  /** A registration keeps the registry free of duplicate names, and the
      names it holds grow by exactly the registered collector's name. */
  lemma RegisterKeepsUnique(cs: seq<Collector>, c: Collector)
    requires Unique(cs)
    ensures Unique(Register(cs, c).collectors)
    ensures Register(cs, c).outcome.Pass? ==> NamesOf(Register(cs, c).collectors) == NamesOf(cs) + {c.Name()}
  {
    if c.Name() !in NamesOf(cs) {
      AppendNames(cs, c);
      var r := cs + [c];
      forall i, j | 0 <= i < j < |r| ensures r[i].Name() != r[j].Name() {
        if j == |cs| {
          assert r[i] in cs;
        }
      }
    }
  }

  /** prometheus.Registry: the collectors in registration order and the set of
      descriptor names they own. */
  class Registry {
    var collectors: seq<Collector>
    var names: set<string>

    ghost predicate Valid()
      reads this
    {
      names == NamesOf(collectors) && Unique(collectors)
    }

    /** prometheus.NewRegistry: an empty registry. */
    constructor ()
      ensures Valid()
      ensures collectors == [] && names == {}
    {
      collectors := [];
      names := {};
    }

    /** MustRegister with one collector: a name already present aborts and
        leaves the registry as it was; otherwise the collector is added. */
    method MustRegister(c: Collector) returns (o: Outcome)
      requires Valid()
      modifies this
      ensures Valid()
      ensures Effect(o, collectors) == Register(old(collectors), c)
    {
      if c.Name() in names {
        o := Abort(AlreadyRegistered(c.Name()));
      } else {
        RegisterKeepsUnique(collectors, c);
        collectors := collectors + [c];
        names := names + {c.Name()};
        o := Pass;
      }
    }
  }
}
