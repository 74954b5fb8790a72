# nsqd-exporter: the stats reconciliation, in Dafny

This project models the `stats` package of nsqd-exporter. The package is a
Prometheus exporter for one nsqd node. Each probe does two things:

- it fetches the node's stats document (health, start time, version, and the
  topics, each with its channels);
- it reconciles a registry of ten labelled gauge vectors against that document.

Reconciliation works in four steps:

1. It collects the topic names and the channel identities. A channel's
   identity is its topic's name followed by its own name.
2. It compares them with the names remembered from the previous probe. If a
   remembered name has vanished, every vector is reset.
3. It remembers the new names.
4. It upserts one series per info, topic and channel value.

The modules follow the package's structure:

- `NsqdStats` (`nsqd_stats.dfy`) is the stats document, and `FetchResult` is
  the outcome of one fetch: a document or an error.
- `Metrics` (`metrics.dfy`) holds the ten metric constants and the label
  schema `initMetrics` gives each vector.
- `Gauges` (`gauges.dfy`) is the part of a gauge vector the package relies on.
  It covers keyed upserts (`WithLabelValues(...).Set`), `Reset`, and a registry
  from metric to vector. Around these it proves:
  - the value a series holds after a list of writes;
  - that writes are idempotent;
  - that writes cannot panic when their arity fits the schema.
- `Topology` (`topology.dfy`) holds the detected name lists, the removal test
  `deadTopicOrChannelExists` (a method with nested loops, proved against a
  predicate), and the loops that build the lists.
- `Reconcile` (`reconcile.dfy`) is `fetchAndSetStats` on values:
  - `Writes(s)` is the ordered list of upserts for document `s`;
  - `Base` is the registry after the removal test and its reset;
  - `Step` is the state after one call;
  - `Probe` is `New`.
  The lemmas here state what every series holds after a call.
- `Exporter` (`exporter.dfy`) holds the package globals `knownTopics`,
  `knownChannels` and `nsqMetrics` as fields of the class `Collector`.
  - `InitMetrics`, `FetchAndSetStats` and `New` update these fields in place,
    step by step, as the Go code does.
  - `InitMetrics` is proved to leave `Gauges.InitialVectors`.
    `FetchAndSetStats` is proved to leave `Reconcile.Step` of the old state,
    and `New` to leave `Reconcile.Probe` of it.
- `Decimal` (`decimal.dfy`) is the `%d` rendering of the start time, with its
  inverse.

Nothing here performs I/O. The fetch is an input.

## Model

| member | source | states |
|---|---|---|
| Exporter.Collector.constructor | stats/fetch.go:10-15 | At start nothing is remembered and the metric map is empty. |
| Exporter.Collector.InitMetrics | stats/stats.go:27-74 | Afterwards the map holds exactly InitialVectors(): all ten metrics, each with its schema and no series, whatever it held before. |
| Gauges.InstallingReplacesAll | stats/stats.go:36-73 | The ten successive map assignments of initMetrics give InitialVectors() from any prior registry. |
| Gauges.InitialVectorsInstalled | stats/stats.go:30-73 | InitialVectors, the map initMetrics builds, installs every metric with its label schema, and every initial vector is empty. |
| Gauges.CreateGaugeVector | stats/stats.go:76-88 | A new vector has the given label names and no series. |
| Metrics.LabelSchema | stats/stats.go:30-73 | info has the three info labels. Every other metric has a prefix of commonLabels: three labels for channel_count, all four otherwise. |
| Metrics.SchemaTable | stats/stats.go:30-73 | info has [health, start_time, version]. channel_count has [type, topic, paused]. The other eight have [type, topic, paused, channel]. |
| Metrics.NamesDistinct | stats/stats.go:9-18 | The ten metric constants are pairwise distinct, so keying the map by the enumeration loses nothing. |
| Exporter.Collector.New | stats/stats.go:21-25 | Runs initMetrics, then fetchAndSetStats. Returns whether the fetch succeeded, and leaves the state Probe(old state, fetch). |
| Reconcile.ProbeHoldsOnlyCurrent | stats/stats.go:21-25 | After New, every series holds exactly the last value the current document wrote to it. No series from an earlier probe survives. |
| Reconcile.ProbeDepthSeries | stats/stats.go:21-25 | After New, a depth series exists exactly when it is some topic's ("topic", name, paused, "") or some channel's ("channel", topic, paused, channel). |
| Reconcile.ProbeExample | stats/fetch.go:58-95 | For a one-topic, one-channel document: info is 1 at ("OK", "1700000000", "1.2.3"), the topic and channel depths are 5, client_count is 2 and channel_count is 1, at the expected label tuples. |
| Reconcile.Step | stats/fetch.go:19-100 | fetchAndSetStats on values. A failed fetch leaves the state as it is. A successful one remembers the detected lists, keeps every vector installed and adds or removes none. The series it leaves are stated by StepAfterRemoval, StepWithoutRemoval and StepIdempotent. |
| Reconcile.Probe | stats/stats.go:21-25 | New on values: fresh vectors, then one Step. After a failed fetch the registry is the ten fresh, empty vectors. |
| Exporter.Collector.FetchAndSetStats | stats/fetch.go:19-100 | Returns true exactly when the fetch succeeded. On success the remembered lists are the detected ones and the state is Step(old state, fetch). On failure nothing changes. |
| Topology.DetectNames | stats/fetch.go:30-37 | The two nested append loops produce DetectedTopics(ts) and DetectedChannels(ts). |
| Topology.DetectedTopics | stats/fetch.go:31-33 | One name per topic, in document order: entry i is topic i's name. |
| Topology.ChannelIds | stats/fetch.go:34-36 | For one topic, entry j is the topic's name followed by the name of channel j. |
| Topology.DetectedChannels | stats/fetch.go:30-36 | Its length is the total number of channels over all topics. |
| Topology.DetectedChannelsMembers | stats/fetch.go:30-36 | x is detected exactly when x is topic i's name followed by the name of one of topic i's channels, for some i. |
| Topology.DetectedChannelsSound | stats/fetch.go:30-36 | Every detected identity comes from some topic's channel. |
| Topology.DetectedChannelsComplete | stats/fetch.go:30-36 | Every topic's channel contributes its identity. |
| Topology.ConcatenatedIdentityHidesRemoval | stats/fetch.go:35 | Channel "bc" of topic "a" vanishes while topic "ab" gains channel "c". Neither removal test fires, because the identities "abc" coincide. |
| Topology.DeadTopicOrChannelExists | stats/fetch.go:105-121 | Returns true exactly when some known name does not occur among the detected ones. |
| Topology.HasDeadIsNotSubset | stats/fetch.go:102-121 | The test fires exactly when the known names are not a subset of the detected names. |
| Topology.NothingKnownNothingDead | stats/fetch.go:105-121 | An empty known list never fires, so the first probe never resets. |
| Topology.AdditionsNeverFire | stats/fetch.go:105-121 | Adding detected names never makes the test fire. |
| Reconcile.RemovalDetectedIsNotSubset | stats/fetch.go:40-51 | The two tests together fire exactly when the remembered topic names, or the remembered channel identities, are not a subset of the detected ones. |
| Reconcile.Base | stats/fetch.go:40-51 | The registry the document is written into keeps every vector. When a test fires, every vector has no series. Otherwise it is the registry as it was. |
| Exporter.Collector.ResetOnRemoval | stats/fetch.go:40-51 | Both tests run in order, and each resets every vector when it fires. The registry becomes Base(old state, document). The vectors stay installed and well formed. |
| Exporter.Collector.ResetVectors | stats/fetch.go:42-44 | The registry becomes ResetAll of the old registry, and stays well formed. |
| Gauges.ResetEach | stats/fetch.go:42-44 | Resetting the vectors one at a time, in any order, gives ResetAll. |
| Gauges.GaugeVec.Reset | stats/fetch.go:43 | Reset keeps the label names and drops every series. |
| Gauges.ResetAll | stats/fetch.go:42-44 | Same metrics. Each vector keeps its label names and loses every series. |
| Gauges.ResetAllTwice | stats/fetch.go:40-51 | When both tests fire, resetting twice is resetting once. |
| Exporter.Collector.UpsertDocument | stats/fetch.go:57-97 | The registry becomes ApplyWrites(old registry, Writes(document)). It stays installed and well formed. |
| Exporter.Collector.UpsertTopics | stats/fetch.go:62-97 | The outer loop applies TopicsWrites(topics) to the registry. |
| Exporter.Collector.UpsertTopic | stats/fetch.go:63-96 | One topic's three writes, then its channels' writes. |
| Exporter.Collector.UpsertChannels | stats/fetch.go:75-96 | The inner loop applies ChannelsWrites(topic name, channels). |
| Exporter.Collector.UpsertChannel | stats/fetch.go:76-95 | One channel's eight writes, in order. |
| Reconcile.PausedLabel | stats/fetch.go:63-66 | The paused label is "true" or "false", and it is "true" exactly when the flag is set. |
| Reconcile.TopicLevelWrites | stats/fetch.go:63-72 | Each of a topic's writes has its metric's arity: 4 labels for depth and backend_depth, 3 for channel_count. |
| Reconcile.ChannelWrites | stats/fetch.go:76-95 | Each of a channel's eight writes has the arity of its metric. |
| Reconcile.ChannelsWrites | stats/fetch.go:75-96 | The inner loop makes eight writes per channel, and each has its metric's arity. |
| Reconcile.TopicWrites | stats/fetch.go:63-96 | One topic makes three writes plus eight per channel, and each has its metric's arity. |
| Reconcile.TopicsWrites | stats/fetch.go:62-97 | Every write of the outer loop has its metric's arity. |
| Reconcile.TopicsWritesCount | stats/fetch.go:62-97 | The outer loop makes three writes per topic and eight per channel. |
| Reconcile.Writes | stats/fetch.go:58-95 | The info write comes first. Every upsert of a call has exactly as many label values as its metric's schema declares. |
| Gauges.GaugeVec.Set | stats/fetch.go:58-95 | WithLabelValues(labels).Set(value) keeps the label names. It adds the series if it is new, and the series now holds value. Every other series keeps its value. |
| Gauges.Apply | stats/fetch.go:58-95 | One upsert into the metric map. It sets the series of the named vector and leaves every other vector as it was. |
| Gauges.ConformingWritesFit | stats/fetch.go:58-95 | A write list that fits the registry fits it at each step. When its turn comes, every write names an installed vector and has its arity, so no WithLabelValues call panics. |
| Gauges.ApplyWrites | stats/fetch.go:58-95 | Writes never add or remove vectors, and never change label names. |
| Gauges.ApplyWritesValue | stats/fetch.go:58-95 | After a fitting write list, a series holds its last written value, or its earlier value if the list never wrote it. |
| Gauges.ApplyWritesTwice | stats/fetch.go:58-95 | Writes are keyed upserts: applying the same list twice equals applying it once. |
| Gauges.SchemaWritesKeepReady | stats/stats.go:27-74 | Writes that fit the schema keep a registry installed, and keep every series at its vector's arity. |
| Reconcile.StepAfterRemoval | stats/fetch.go:40-59 | When a test fires, every series afterwards holds exactly its last write from this document. Nothing older survives. |
| Reconcile.StepWithoutRemoval | stats/fetch.go:40-59 | When every known name is still detected, no series is removed. Unwritten series keep their value, and written ones hold their last write. |
| Reconcile.StepIdempotent | stats/fetch.go:19-100 | Calling twice with the same fetch result gives the state of one call. |
| Reconcile.InfoSeries | stats/fetch.go:58-59 | Afterwards the info series at (health, decimal start time, version) is 1. |
| Reconcile.TopicSeries | stats/fetch.go:62-72 | With unique names, each topic's depth and backend depth sit at ("topic", name, paused, ""). Its channel count sits at ("topic", name, paused). paused is "true" or "false" after the flag. |
| Reconcile.ChannelSeries | stats/fetch.go:74-95 | With unique names, a channel's eight values sit at ("channel", topic name, the channel's own paused flag, channel name). client_count is its number of clients. |
| Reconcile.SeriesOfWrite | stats/fetch.go:58-95 | With unique names, every write of the document is what its series holds afterwards. |
| Reconcile.WriteKeyUnique | stats/fetch.go:58-95 | With unique names, no two writes of one document target the same series. |
| Reconcile.TopicWriteShape | stats/fetch.go:62-96 | A topic's write carries its name as second label. It is a topic-level write or one of a channel's. |
| Reconcile.ChannelsWritesMembers | stats/fetch.go:75-96 | A write belongs to a topic's channel writes exactly when it belongs to one channel's writes. |
| Reconcile.TopicsWritesMembers | stats/fetch.go:62-97 | A write belongs to the topics' writes exactly when it belongs to one topic's writes. |
| Decimal.FormatInt | stats/fetch.go:59 | The rendering is non-empty, and starts with '-' exactly for negative values. |
| Decimal.FormatIntRoundTrip | stats/fetch.go:59 | Parsing the rendered start time gives the start time back. |
| Decimal.FormatIntInjective | stats/fetch.go:59 | Distinct start times give distinct start_time labels. |
| Decimal.FormatExample | stats/fetch.go:59 | The start time 1700000000 is rendered as the label "1700000000". |

## Left out

- The fetch itself (`getNsqdStats`, HTTP and JSON decoding) is not part of
  this model: one `FetchResult` per call is an input.
- `logger.Fatal` on a failed fetch ends the Go process. The model covers the
  rest of that branch: the call returns false and changes nothing.
  Terminating the process is not modelled.
- Log messages carry no state and are omitted.
- Prometheus mechanics are omitted:
  - `MustRegister` and its panic on double registration;
  - the namespace and subsystem name composition and the help texts in
    `createGaugeVector`;
  - exposition over HTTP;
  - `buildInfoMetric`, which is created but never set.
- main.go (flags, the HTTP handler and its timeout) is not part of this model.
- Gauge values are `int`: the `float64(...)` conversions and their precision
  limit are not modelled.
- Concurrent probes that share the package globals are not modelled. Calls are
  sequential.
- The metric map is keyed by an enumeration of the ten metric constants rather
  than by their strings. The package only indexes it by those constants, and
  `Metrics.NamesDistinct` shows that they are distinct.
- The Go map's iteration order is left open: `Gauges.ResetEach` resets the
  vectors in an arbitrary order.
- Gauges.Apply: does not model the panic of `WithLabelValues` on a wrong
  number of label values, nor the nil dereference on an uninstalled metric.
  It is total instead. `Reconcile.Writes` states that every write fits the
  schema, and `Gauges.ConformingWritesFit` shows that each write still fits
  when its turn comes.
- Exporter.Collector.FetchAndSetStats: requires the ten vectors to be
  installed (`Ready`). The Go code dereferences a nil vector when
  `initMetrics` has not run.
- Reconcile.TopicSeries, Reconcile.ChannelSeries, Reconcile.SeriesOfWrite:
  assume topic names are unique, and channel names unique within their topic,
  as nsqd reports them. Without this assumption a later write can overwrite an
  earlier series, and `StepAfterRemoval` and `StepWithoutRemoval` still give
  the last write.
