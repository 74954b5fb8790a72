/**
 * The exporter's fixed metric table: the ten metrics, the name constant
 * each is registered under, and the ordered label names of each vector.
 * The metric map is only ever indexed by these ten constants, so the
 * model keys it by an enumeration of them.
 */
module Metrics {

  datatype Metric =
    | Depth | BackendDepth | InFlight | TimeoutCount | RequeueCount
    | DeferredCount | MessageCount | ClientCount | ChannelCount | Info
  {
    /** The metric's name constant. */
    function Name(): string
    {
      match this
      case Depth => "depth"
      case BackendDepth => "backend_depth"
      case InFlight => "in_flight_count"
      case TimeoutCount => "timeout_count_total"
      case RequeueCount => "requeue_count_total"
      case DeferredCount => "deferred_count_total"
      case MessageCount => "message_count_total"
      case ClientCount => "client_count"
      case ChannelCount => "channel_count"
      case Info => "info"
    }
  }

  const CommonLabels: seq<string> := ["type", "topic", "paused", "channel"]
  const InfoLabelNames: seq<string> := ["health", "start_time", "version"]

  /** The ordered label names the metric's vector is created with. */
  function LabelSchema(m: Metric): (r: seq<string>)
    ensures m == Info ==> r == InfoLabelNames
    ensures m != Info ==> |r| == (if m == ChannelCount then 3 else 4) && r == CommonLabels[..|r|]
  {
    match m
    case Info => InfoLabelNames
    case ChannelCount => CommonLabels[..3]
    case _ => CommonLabels
  }

  /** The table as the source writes it out. */
  lemma SchemaTable()
    ensures LabelSchema(Info) == ["health", "start_time", "version"]
    ensures forall m: Metric :: m != Info && m != ChannelCount ==>
              LabelSchema(m) == ["type", "topic", "paused", "channel"]
    ensures LabelSchema(ChannelCount) == ["type", "topic", "paused"]
  {
  }

  /** No two metrics share a name. */
  lemma NamesDistinct(a: Metric, b: Metric)
    requires a != b
    ensures a.Name() != b.Name()
  {
  }
}
