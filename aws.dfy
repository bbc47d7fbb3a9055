/** The AWS provider's instruments and the descriptor it hands to the
    aggregator. */
module AwsMetrics {
  import opened Prometheus
  import Metrics

  const CountUpdate := NewCounter(Opts("updateip_aws_update", "Number of ip updated on AWS provider."))
  const ProviderStatus := NewGauge(Opts("updateip_aws_status", "AWS Providers status."))
  const FuncTime := NewHistogramVec(Opts("updateip_aws_func_time", "Time taken to do ..."), ["where"])

  /** Paws.RegistryMetrics: one instrument under each of three keys. */
  function RegistryMetrics(): (x: Metrics.Descriptor)
    ensures x.Keys == {"counter", "gauge", "gaugeVec"}
    ensures forall k :: k in x ==> |x[k]| == 1
    ensures x["counter"][0].Counter? && x["counter"][0].Name() == "updateip_aws_update"
    ensures x["gauge"][0].Gauge? && x["gauge"][0].Name() == "updateip_aws_status"
    ensures x["gaugeVec"][0].HistogramVec? && x["gaugeVec"][0].labels == ["where"]
    ensures x["gaugeVec"][0].Name() == "updateip_aws_func_time"
  {
    map["counter" := [CountUpdate], "gauge" := [ProviderStatus], "gaugeVec" := [FuncTime]]
  }

  /** The provider's instruments start fresh, and their names are pairwise
      distinct and distinct from the aggregator's default counter. */
  lemma AwsInstruments()
    ensures CountUpdate.count == 0 && ProviderStatus.value == 0
    ensures Unique([Metrics.EventReceive, CountUpdate, ProviderStatus, FuncTime])
  {
    var all := [Metrics.EventReceive, CountUpdate, ProviderStatus, FuncTime];
    forall i, j | 0 <= i < j < |all| ensures all[i].Name() != all[j].Name() {
      assert all[i].Name()[9] != all[j].Name()[9] || all[i].Name()[13] != all[j].Name()[13];
    }
  }

  /** Handing this descriptor to RegisterPkg aborts at once, whatever the
      registry already holds: its "gauge" entry is a plain Gauge, not the
      *GaugeVec asserted there. Nothing is registered, so in particular the
      histogram under "gaugeVec", a key RegisterPkg never reads, is not. */
  lemma RegisterAwsDescriptor(cs: seq<Collector>)
    ensures Metrics.RegisterPkgSpec(cs, RegistryMetrics())
      == Effect(Abort(WrongType(GaugeVecKind, GaugeKind)), cs)
  {
  }

  /** Dropping the "gaugeVec" entry changes nothing: RegisterPkg does not read it. */
  lemma GaugeVecKeyUnread(cs: seq<Collector>, other: seq<Collector>)
    ensures Metrics.RegisterPkgSpec(cs, RegistryMetrics()["gaugeVec" := other])
      == Metrics.RegisterPkgSpec(cs, RegistryMetrics())
  {
  }
}
