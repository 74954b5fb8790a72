/**
 * fetchAndSetStats on values: the writes one stats document implies, the
 * removal test against the names remembered from the previous call, the
 * reset it triggers, and what the registry holds afterwards.
 */
module Reconcile {
  import opened Options
  import opened NsqdStats
  import opened Decimal
  import opened Gauges
  import opened Metrics
  import opened Topology

  /** A paused flag as a label value. */
  function PausedLabel(paused: bool): (r: string)
    ensures r == "true" || r == "false"
    ensures r == "true" <==> paused
  {
    if paused then "true" else "false"
  }

  function InfoLabels(s: Stats): seq<string>
  {
    [s.health, FormatInt(s.startTime), s.version]
  }

  function TopicLabels(t: Topic): seq<string>
  {
    ["topic", t.name, PausedLabel(t.paused), ""]
  }

  /** The labels of a channel's series carry the channel's own paused flag. */
  function ChannelLabels(topicName: string, c: Channel): seq<string>
  {
    ["channel", topicName, PausedLabel(c.paused), c.name]
  }

  function InfoWrite(s: Stats): Write
  {
    Write(Info, InfoLabels(s), 1)
  }

  function TopicLevelWrites(t: Topic): (r: seq<Write>)
    ensures forall w :: w in r ==> FitsSchema(w)
  {
    [ Write(Depth, TopicLabels(t), t.depth),
      Write(BackendDepth, TopicLabels(t), t.backendDepth),
      Write(ChannelCount, TopicLabels(t)[..3], |t.channels|) ]
  }

  function ChannelWrites(topicName: string, c: Channel): (r: seq<Write>)
    ensures forall w :: w in r ==> FitsSchema(w)
  {
    var l := ChannelLabels(topicName, c);
    [ Write(Depth, l, c.depth),
      Write(BackendDepth, l, c.backendDepth),
      Write(InFlight, l, c.inFlightCount),
      Write(TimeoutCount, l, c.timeoutCount),
      Write(RequeueCount, l, c.requeueCount),
      Write(DeferredCount, l, c.deferredCount),
      Write(MessageCount, l, c.messageCount),
      Write(ClientCount, l, |c.clients|) ]
  }

  /** The topic-level writes, applied one after another. */
  lemma TopicLevelWritesInOrder(reg: Registry, t: Topic)
    ensures ApplyWrites(reg, TopicLevelWrites(t))
            == Apply(Apply(Apply(reg,
                 Write(Depth, TopicLabels(t), t.depth)),
                 Write(BackendDepth, TopicLabels(t), t.backendDepth)),
                 Write(ChannelCount, TopicLabels(t)[..3], |t.channels|))
  {
    var d := Extend(reg, [], Write(Depth, TopicLabels(t), t.depth));
    d := Extend(reg, d, Write(BackendDepth, TopicLabels(t), t.backendDepth));
    d := Extend(reg, d, Write(ChannelCount, TopicLabels(t)[..3], |t.channels|));
    assert d == TopicLevelWrites(t);
  }

  /** The writes for one channel, applied one after another. */
  lemma ChannelWritesInOrder(reg: Registry, topicName: string, c: Channel)
    ensures var l := ChannelLabels(topicName, c);
            ApplyWrites(reg, ChannelWrites(topicName, c))
            == Apply(Apply(Apply(Apply(Apply(Apply(Apply(Apply(reg,
                 Write(Depth, l, c.depth)),
                 Write(BackendDepth, l, c.backendDepth)),
                 Write(InFlight, l, c.inFlightCount)),
                 Write(TimeoutCount, l, c.timeoutCount)),
                 Write(RequeueCount, l, c.requeueCount)),
                 Write(DeferredCount, l, c.deferredCount)),
                 Write(MessageCount, l, c.messageCount)),
                 Write(ClientCount, l, |c.clients|))
  {
    var l := ChannelLabels(topicName, c);
    var d := Extend(reg, [], Write(Depth, l, c.depth));
    d := Extend(reg, d, Write(BackendDepth, l, c.backendDepth));
    d := Extend(reg, d, Write(InFlight, l, c.inFlightCount));
    d := Extend(reg, d, Write(TimeoutCount, l, c.timeoutCount));
    d := Extend(reg, d, Write(RequeueCount, l, c.requeueCount));
    d := Extend(reg, d, Write(DeferredCount, l, c.deferredCount));
    d := Extend(reg, d, Write(MessageCount, l, c.messageCount));
    d := Extend(reg, d, Write(ClientCount, l, |c.clients|));
    assert d == ChannelWrites(topicName, c);
  }

  /** The writes for the channels cs of the topic named topicName, in order;
      each one names a metric of the table and has its arity. */
  function ChannelsWrites(topicName: string, cs: seq<Channel>): (r: seq<Write>)
    ensures |r| == 8 * |cs|
    ensures forall w :: w in r ==> FitsSchema(w)
  {
    if cs == [] then [] else ChannelsWrites(topicName, cs[..|cs| - 1]) + ChannelWrites(topicName, cs[|cs| - 1])
  }

  /** One more channel appends that channel's writes. */
  lemma ChannelsWritesSnoc(reg: Registry, topicName: string, cs: seq<Channel>, j: nat)
    requires j < |cs|
    ensures ChannelsWrites(topicName, cs[..j + 1]) == ChannelsWrites(topicName, cs[..j]) + ChannelWrites(topicName, cs[j])
    ensures ApplyWrites(reg, ChannelsWrites(topicName, cs[..j + 1]))
         == ApplyWrites(ApplyWrites(reg, ChannelsWrites(topicName, cs[..j])), ChannelWrites(topicName, cs[j]))
  {
    assert cs[..j + 1][..j] == cs[..j];
    ApplyWritesConcat(reg, ChannelsWrites(topicName, cs[..j]), ChannelWrites(topicName, cs[j]));
  }

  function TopicWrites(t: Topic): (r: seq<Write>)
    ensures |r| == 3 + 8 * |t.channels|
    ensures forall w :: w in r ==> FitsSchema(w)
  {
    TopicLevelWrites(t) + ChannelsWrites(t.name, t.channels)
  }

  function TopicsWrites(ts: seq<Topic>): (r: seq<Write>)
    ensures forall w :: w in r ==> FitsSchema(w)
  {
    if ts == [] then [] else TopicsWrites(ts[..|ts| - 1]) + TopicWrites(ts[|ts| - 1])
  }

  /** One more topic appends that topic's writes. */
  lemma TopicsWritesSnoc(reg: Registry, ts: seq<Topic>, i: nat)
    requires i < |ts|
    ensures TopicsWrites(ts[..i + 1]) == TopicsWrites(ts[..i]) + TopicWrites(ts[i])
    ensures ApplyWrites(reg, TopicsWrites(ts[..i + 1]))
         == ApplyWrites(ApplyWrites(reg, TopicsWrites(ts[..i])), TopicWrites(ts[i]))
  {
    assert ts[..i + 1][..i] == ts[..i];
    ApplyWritesConcat(reg, TopicsWrites(ts[..i]), TopicWrites(ts[i]));
  }

  /** One call makes three upserts per topic and eight per channel. */
  lemma {:induction false} TopicsWritesCount(ts: seq<Topic>)
    ensures |TopicsWrites(ts)| == 3 * |ts| + 8 * TotalChannels(ts)
  {
    if ts != [] {
      TopicsWritesCount(ts[..|ts| - 1]);
    }
  }

  /** Every upsert fetchAndSetStats makes for one document, in order. Each
      supplies exactly as many label values as its metric declares. */
  function Writes(s: Stats): (r: seq<Write>)
    ensures |r| >= 1 && r[0] == InfoWrite(s)
    ensures forall w :: w in r ==> FitsSchema(w)
  {
    [InfoWrite(s)] + TopicsWrites(s.topics)
  }

  /** The package state: the remembered names and the metric vectors. */
  datatype ExporterState = ExporterState(knownTopics: seq<string>, knownChannels: seq<string>, metrics: Registry)

  /** Either removal test fires. */
  ghost predicate RemovalDetected(st: ExporterState, s: Stats)
  {
    || HasDead(st.knownTopics, DetectedTopics(s.topics))
    || HasDead(st.knownChannels, DetectedChannels(s.topics))
  }

  /** The removal test fires exactly when a remembered topic or channel
      name is not among the detected ones, as sets. */
  lemma RemovalDetectedIsNotSubset(st: ExporterState, s: Stats)
    ensures RemovalDetected(st, s) <==>
            || !((set k | k in st.knownTopics) <= (set d | d in DetectedTopics(s.topics)))
            || !((set k | k in st.knownChannels) <= (set d | d in DetectedChannels(s.topics)))
  {
    HasDeadIsNotSubset(st.knownTopics, DetectedTopics(s.topics));
    HasDeadIsNotSubset(st.knownChannels, DetectedChannels(s.topics));
  }

  /** The registry the document's values are written into. */
  ghost function Base(st: ExporterState, s: Stats): (r: Registry)
    requires Installed(st.metrics)
    ensures Installed(r) && r.Keys == st.metrics.Keys
    ensures RemovalDetected(st, s) ==> forall m :: m in r ==> |r[m].series| == 0
    ensures !RemovalDetected(st, s) ==> r == st.metrics
  {
    if RemovalDetected(st, s) then ResetAll(st.metrics) else st.metrics
  }

  /** fetchAndSetStats: the state after one call. */
  ghost function Step(st: ExporterState, fetch: FetchResult): (r: ExporterState)
    requires Installed(st.metrics)
    ensures Installed(r.metrics) && r.metrics.Keys == st.metrics.Keys
    ensures fetch.FetchFailed? ==> r == st
    ensures fetch.Fetched? ==> (r.knownTopics == DetectedTopics(fetch.stats.topics)
                                && r.knownChannels == DetectedChannels(fetch.stats.topics))
  {
    match fetch
    case FetchFailed(_) => st
    case Fetched(s) =>
      ExporterState(DetectedTopics(s.topics), DetectedChannels(s.topics), ApplyWrites(Base(st, s), Writes(s)))
  }

  /** New: fresh vectors, then one reconciliation. */
  ghost function Probe(st: ExporterState, fetch: FetchResult): (r: ExporterState)
    ensures Installed(r.metrics)
    ensures fetch.FetchFailed? ==> r == ExporterState(st.knownTopics, st.knownChannels, InitialVectors())
  {
    InitialVectorsInstalled();
    Step(ExporterState(st.knownTopics, st.knownChannels, InitialVectors()), fetch)
  }

  /** The writes for one document in stages: the info series first, then
      the topics. */
  lemma WritesInStages(reg: Registry, s: Stats)
    ensures ApplyWrites(reg, Writes(s)) == ApplyWrites(Apply(reg, InfoWrite(s)), TopicsWrites(s.topics))
  {
    var info := Extend(reg, [], InfoWrite(s));
    assert info == [InfoWrite(s)];
    ApplyWritesConcat(reg, info, TopicsWrites(s.topics));
  }

  // ---------------------------------------------------------------------
  // Where each write comes from

  lemma {:induction false} ChannelsWritesMembers(topicName: string, cs: seq<Channel>, w: Write)
    ensures w in ChannelsWrites(topicName, cs) <==>
            exists j :: 0 <= j < |cs| && w in ChannelWrites(topicName, cs[j])
  {
    if cs != [] {
      var p := cs[..|cs| - 1];
      ChannelsWritesMembers(topicName, p, w);
      if w in ChannelsWrites(topicName, cs) && w in ChannelsWrites(topicName, p) {
        var j :| 0 <= j < |p| && w in ChannelWrites(topicName, p[j]);
        assert cs[j] == p[j];
      }
      if exists j :: 0 <= j < |cs| && w in ChannelWrites(topicName, cs[j]) {
        var j :| 0 <= j < |cs| && w in ChannelWrites(topicName, cs[j]);
        if j < |cs| - 1 {
          assert p[j] == cs[j];
        }
      }
    }
  }

  lemma {:induction false} TopicsWritesMembers(ts: seq<Topic>, w: Write)
    ensures w in TopicsWrites(ts) <==> exists i :: 0 <= i < |ts| && w in TopicWrites(ts[i])
  {
    if ts != [] {
      var p := ts[..|ts| - 1];
      TopicsWritesMembers(p, w);
      if w in TopicsWrites(ts) && w in TopicsWrites(p) {
        var i :| 0 <= i < |p| && w in TopicWrites(p[i]);
        assert ts[i] == p[i];
      }
      if exists i :: 0 <= i < |ts| && w in TopicWrites(ts[i]) {
        var i :| 0 <= i < |ts| && w in TopicWrites(ts[i]);
        if i < |ts| - 1 {
          assert p[i] == ts[i];
        }
      }
    }
  }

  /** A write for topic t is labelled with t's name, and is either one of
      its three topic-level writes or a write for one of its channels. */
  lemma TopicWriteShape(t: Topic, w: Write)
    requires w in TopicWrites(t)
    ensures w.metric != Info && |w.labels| >= 3 && w.labels[1] == t.name
    ensures w.labels[0] == "topic" ==> w in TopicLevelWrites(t)
    ensures w.labels[0] != "topic" ==>
              exists j :: 0 <= j < |t.channels| && w in ChannelWrites(t.name, t.channels[j])
  {
    if w in TopicLevelWrites(t) {
      TopicLevelWriteLabels(t, w);
    } else {
      ChannelsWritesMembers(t.name, t.channels, w);
      var j :| 0 <= j < |t.channels| && w in ChannelWrites(t.name, t.channels[j]);
      ChannelWriteLabels(t.name, t.channels[j], w);
    }
  }

  lemma NoTopicWriteIsInfo(ts: seq<Topic>, w: Write)
    requires w in TopicsWrites(ts)
    ensures w.metric != Info
  {
    TopicsWritesMembers(ts, w);
    var i :| 0 <= i < |ts| && w in TopicWrites(ts[i]);
    TopicWriteShape(ts[i], w);
  }

  lemma TopicLevelKeysDistinct(t: Topic, w1: Write, w2: Write)
    requires w1 in TopicLevelWrites(t) && w2 in TopicLevelWrites(t) && w1.metric == w2.metric
    ensures w1 == w2
  {
  }

  lemma ChannelKeysDistinct(topicName: string, c: Channel, w1: Write, w2: Write)
    requires w1 in ChannelWrites(topicName, c) && w2 in ChannelWrites(topicName, c) && w1.metric == w2.metric
    ensures w1 == w2
  {
  }

  lemma ChannelWriteLabels(topicName: string, c: Channel, w: Write)
    requires w in ChannelWrites(topicName, c)
    ensures w.metric != Info && w.labels == ChannelLabels(topicName, c)
  {
  }

  lemma TopicLevelWriteLabels(t: Topic, w: Write)
    requires w in TopicLevelWrites(t)
    ensures w.metric != Info && |w.labels| >= 3 && w.labels[..3] == ["topic", t.name, PausedLabel(t.paused)]
  {
  }

  /** Two writes of the topics that share a series come from the same topic. */
  lemma SameTopic(ts: seq<Topic>, i1: nat, i2: nat, w1: Write, w2: Write)
    requires forall i, k :: 0 <= i < k < |ts| ==> ts[i].name != ts[k].name
    requires i1 < |ts| && i2 < |ts|
    requires w1 in TopicWrites(ts[i1]) && w2 in TopicWrites(ts[i2]) && w1.labels == w2.labels
    ensures i1 == i2
  {
    TopicWriteShape(ts[i1], w1);
    TopicWriteShape(ts[i2], w2);
  }

  /** Two writes of one topic that share a series are the same write. */
  lemma SameTopicKeyUnique(t: Topic, w1: Write, w2: Write)
    requires ChannelNamesUnique(t)
    requires w1 in TopicWrites(t) && w2 in TopicWrites(t)
    requires w1.metric == w2.metric && w1.labels == w2.labels
    ensures w1 == w2
  {
    TopicWriteShape(t, w1);
    TopicWriteShape(t, w2);
    if w1.labels[0] == "topic" {
      TopicLevelKeysDistinct(t, w1, w2);
    } else {
      var j1 :| 0 <= j1 < |t.channels| && w1 in ChannelWrites(t.name, t.channels[j1]);
      var j2 :| 0 <= j2 < |t.channels| && w2 in ChannelWrites(t.name, t.channels[j2]);
      ChannelWriteLabels(t.name, t.channels[j1], w1);
      ChannelWriteLabels(t.name, t.channels[j2], w2);
      assert j1 == j2;
      ChannelKeysDistinct(t.name, t.channels[j1], w1, w2);
    }
  }

  /** With unique names, no two writes of a document share a series. */
  lemma WriteKeyUnique(s: Stats, w1: Write, w2: Write)
    requires UniqueNames(s)
    requires w1 in Writes(s) && w2 in Writes(s)
    requires w1.metric == w2.metric && w1.labels == w2.labels
    ensures w1 == w2
  {
    var ts := s.topics;
    if w1.metric == Info {
      if w1 in TopicsWrites(ts) { NoTopicWriteIsInfo(ts, w1); }
      if w2 in TopicsWrites(ts) { NoTopicWriteIsInfo(ts, w2); }
    } else {
      assert w1 in TopicsWrites(ts) && w2 in TopicsWrites(ts);
      TopicsWritesMembers(ts, w1);
      TopicsWritesMembers(ts, w2);
      var i1 :| 0 <= i1 < |ts| && w1 in TopicWrites(ts[i1]);
      var i2 :| 0 <= i2 < |ts| && w2 in TopicWrites(ts[i2]);
      SameTopic(ts, i1, i2, w1, w2);
      SameTopicKeyUnique(ts[i1], w1, w2);
    }
  }

  /** With unique names, every write of a document is what its series holds
      afterwards, whatever the state before. */
  lemma SeriesOfWrite(st: ExporterState, s: Stats, w: Write)
    requires Installed(st.metrics) && UniqueNames(s)
    requires w in Writes(s)
    ensures SeriesValue(Step(st, Fetched(s)).metrics, w.metric, w.labels) == Some(w.value)
  {
    var ws := Writes(s);
    InstalledConforms(Base(st, s), ws);
    ApplyWritesValue(Base(st, s), ws, w.metric, w.labels);
    var r := LastWrite(ws, w.metric, w.labels);
    WriteKeyUnique(s, w, Write(w.metric, w.labels, r.value));
  }

  // ---------------------------------------------------------------------
  // The series one call leaves

  /** The info series carries health, start time and version, and is 1. */
  lemma InfoSeries(st: ExporterState, s: Stats)
    requires Installed(st.metrics)
    ensures SeriesValue(Step(st, Fetched(s)).metrics, Info, [s.health, FormatInt(s.startTime), s.version]) == Some(1)
  {
    var ws := Writes(s);
    InstalledConforms(Base(st, s), ws);
    ApplyWritesValue(Base(st, s), ws, Info, InfoLabels(s));
    var r := LastWrite(ws, Info, InfoLabels(s));
    var w := Write(Info, InfoLabels(s), r.value);
    if w in TopicsWrites(s.topics) {
      NoTopicWriteIsInfo(s.topics, w);
    }
  }

  /** Each topic's depth and backend depth at ("topic", name, paused, ""),
      and its channel count at ("topic", name, paused). */
  lemma TopicSeries(st: ExporterState, s: Stats, i: nat)
    requires Installed(st.metrics) && UniqueNames(s) && i < |s.topics|
    ensures var m := Step(st, Fetched(s)).metrics;
            var t := s.topics[i];
            var key := ["topic", t.name, if t.paused then "true" else "false", ""];
            && SeriesValue(m, Depth, key) == Some(t.depth)
            && SeriesValue(m, BackendDepth, key) == Some(t.backendDepth)
            && SeriesValue(m, ChannelCount, key[..3]) == Some(|t.channels|)
  {
    var t := s.topics[i];
    forall w | w in TopicLevelWrites(t)
      ensures SeriesValue(Step(st, Fetched(s)).metrics, w.metric, w.labels) == Some(w.value)
    {
      TopicsWritesMembers(s.topics, w);
      SeriesOfWrite(st, s, w);
    }
    assert TopicLevelWrites(t)[0] in TopicLevelWrites(t);
    assert TopicLevelWrites(t)[1] in TopicLevelWrites(t);
    assert TopicLevelWrites(t)[2] in TopicLevelWrites(t);
  }

  /** Each channel's eight series at ("channel", topic name, the channel's
      own paused flag, channel name); client_count is its number of clients. */
  lemma ChannelSeries(st: ExporterState, s: Stats, i: nat, j: nat)
    requires Installed(st.metrics) && UniqueNames(s)
    requires i < |s.topics| && j < |s.topics[i].channels|
    ensures var m := Step(st, Fetched(s)).metrics;
            var t := s.topics[i];
            var c := t.channels[j];
            var key := ["channel", t.name, if c.paused then "true" else "false", c.name];
            && SeriesValue(m, Depth, key) == Some(c.depth)
            && SeriesValue(m, BackendDepth, key) == Some(c.backendDepth)
            && SeriesValue(m, InFlight, key) == Some(c.inFlightCount)
            && SeriesValue(m, TimeoutCount, key) == Some(c.timeoutCount)
            && SeriesValue(m, RequeueCount, key) == Some(c.requeueCount)
            && SeriesValue(m, DeferredCount, key) == Some(c.deferredCount)
            && SeriesValue(m, MessageCount, key) == Some(c.messageCount)
            && SeriesValue(m, ClientCount, key) == Some(|c.clients|)
  {
    var t := s.topics[i];
    var c := t.channels[j];
    var cw := ChannelWrites(t.name, c);
    forall w | w in cw
      ensures SeriesValue(Step(st, Fetched(s)).metrics, w.metric, w.labels) == Some(w.value)
    {
      ChannelsWritesMembers(t.name, t.channels, w);
      assert w in TopicWrites(t);
      TopicsWritesMembers(s.topics, w);
      SeriesOfWrite(st, s, w);
    }
    assert cw[0] in cw && cw[1] in cw && cw[2] in cw && cw[3] in cw;
    assert cw[4] in cw && cw[5] in cw && cw[6] in cw && cw[7] in cw;
  }

  /** When a known topic or channel has vanished, the registry afterwards
      holds exactly the series this document writes. */
  lemma StepAfterRemoval(st: ExporterState, s: Stats)
    requires Installed(st.metrics) && RemovalDetected(st, s)
    ensures forall metric, labels ::
              SeriesValue(Step(st, Fetched(s)).metrics, metric, labels) == LastWrite(Writes(s), metric, labels)
  {
    var ws := Writes(s);
    InstalledConforms(Base(st, s), ws);
    forall metric, labels
      ensures SeriesValue(Step(st, Fetched(s)).metrics, metric, labels) == LastWrite(ws, metric, labels)
    {
      ApplyWritesValue(Base(st, s), ws, metric, labels);
    }
  }

  /** When every known name is still present, no series is removed: each
      series not written keeps its value, and each written one holds its
      last write. */
  lemma StepWithoutRemoval(st: ExporterState, s: Stats)
    requires Installed(st.metrics)
    requires forall k :: k in st.knownTopics ==> k in DetectedTopics(s.topics)
    requires forall k :: k in st.knownChannels ==> k in DetectedChannels(s.topics)
    ensures forall metric, labels ::
              SeriesValue(Step(st, Fetched(s)).metrics, metric, labels)
              == if LastWrite(Writes(s), metric, labels).Some? then LastWrite(Writes(s), metric, labels)
                 else SeriesValue(st.metrics, metric, labels)
    ensures forall metric, labels :: SeriesValue(st.metrics, metric, labels).Some? ==>
              SeriesValue(Step(st, Fetched(s)).metrics, metric, labels).Some?
  {
    assert !RemovalDetected(st, s);
    var ws := Writes(s);
    InstalledConforms(st.metrics, ws);
    forall metric, labels
      ensures SeriesValue(Step(st, Fetched(s)).metrics, metric, labels)
              == if LastWrite(ws, metric, labels).Some? then LastWrite(ws, metric, labels)
                 else SeriesValue(st.metrics, metric, labels)
    {
      ApplyWritesValue(st.metrics, ws, metric, labels);
    }
  }

  /** Calling twice with the same fetch result gives the state of one call. */
  lemma StepIdempotent(st: ExporterState, fetch: FetchResult)
    requires Installed(st.metrics)
    ensures Step(Step(st, fetch), fetch) == Step(st, fetch)
  {
    if fetch.Fetched? {
      var s := fetch.stats;
      var once := Step(st, fetch);
      assert !RemovalDetected(once, s);
      InstalledConforms(Base(st, s), Writes(s));
      ApplyWritesTwice(Base(st, s), Writes(s));
    }
  }

  /** After New succeeds the registry holds exactly the series written from
      the current document, and nothing from earlier probes. */
  lemma ProbeHoldsOnlyCurrent(st: ExporterState, s: Stats)
    ensures forall metric, labels ::
              SeriesValue(Probe(st, Fetched(s)).metrics, metric, labels) == LastWrite(Writes(s), metric, labels)
  {
    var start := ExporterState(st.knownTopics, st.knownChannels, InitialVectors());
    InitialVectorsInstalled();
    var ws := Writes(s);
    InstalledConforms(Base(start, s), ws);
    forall metric, labels
      ensures SeriesValue(Probe(st, Fetched(s)).metrics, metric, labels) == LastWrite(ws, metric, labels)
    {
      ApplyWritesValue(Base(start, s), ws, metric, labels);
    }
  }

  /** A depth write for topic t is t's own or one of its channels'. */
  lemma DepthWriteOfTopic(t: Topic, w: Write)
    requires w in TopicWrites(t) && w.metric == Depth
    ensures || w.labels == TopicLabels(t)
            || exists j :: 0 <= j < |t.channels| && w.labels == ChannelLabels(t.name, t.channels[j])
  {
    ChannelsWritesMembers(t.name, t.channels, w);
    if w !in TopicLevelWrites(t) {
      var j :| 0 <= j < |t.channels| && w in ChannelWrites(t.name, t.channels[j]);
      ChannelWriteLabels(t.name, t.channels[j], w);
    }
  }

  /** After New, there is one depth series per topic and one per channel,
      and no others. */
  lemma ProbeDepthSeries(st: ExporterState, s: Stats, labels: seq<string>)
    ensures var ts := s.topics;
            labels in Probe(st, Fetched(s)).metrics[Depth].series <==>
            || (exists i :: 0 <= i < |ts| && labels == TopicLabels(ts[i]))
            || (exists i, j :: 0 <= i < |ts| && 0 <= j < |ts[i].channels| &&
                               labels == ChannelLabels(ts[i].name, ts[i].channels[j]))
  {
    var ts := s.topics;
    var ws := Writes(s);
    ProbeHoldsOnlyCurrent(st, s);
    var m := Probe(st, Fetched(s)).metrics;
    assert SeriesValue(m, Depth, labels) == LastWrite(ws, Depth, labels);
    var r := LastWrite(ws, Depth, labels);
    if r.Some? {
      var w := Write(Depth, labels, r.value);
      assert w in TopicsWrites(ts);
      TopicsWritesMembers(ts, w);
      var i :| 0 <= i < |ts| && w in TopicWrites(ts[i]);
      DepthWriteOfTopic(ts[i], w);
    }
    if exists i :: 0 <= i < |ts| && labels == TopicLabels(ts[i]) {
      var i :| 0 <= i < |ts| && labels == TopicLabels(ts[i]);
      var w := Write(Depth, labels, ts[i].depth);
      assert w in TopicWrites(ts[i]);
      TopicsWritesMembers(ts, w);
      assert w in ws;
    }
    if exists i, j :: 0 <= i < |ts| && 0 <= j < |ts[i].channels| &&
                      labels == ChannelLabels(ts[i].name, ts[i].channels[j]) {
      var i, j :| 0 <= i < |ts| && 0 <= j < |ts[i].channels| &&
                  labels == ChannelLabels(ts[i].name, ts[i].channels[j]);
      var w := Write(Depth, labels, ts[i].channels[j].depth);
      assert w in ChannelWrites(ts[i].name, ts[i].channels[j]);
      ChannelsWritesMembers(ts[i].name, ts[i].channels, w);
      assert w in TopicWrites(ts[i]);
      TopicsWritesMembers(ts, w);
      assert w in ws;
    }
  }
  /** A document with one topic "orders" holding one channel "ship" with
      two clients, probed from any state. */
  lemma ProbeExample(st: ExporterState, s: Stats)
    requires s == Stats("OK", 1700000000, "1.2.3",
                        [Topic("orders", false, 5, 0, [Channel("ship", false, 5, 0, 1, 0, 0, 0, 100, [Client("a"), Client("b")])])])
    ensures var m := Probe(st, Fetched(s)).metrics;
            && SeriesValue(m, Info, ["OK", "1700000000", "1.2.3"]) == Some(1)
            && SeriesValue(m, Depth, ["topic", "orders", "false", ""]) == Some(5)
            && SeriesValue(m, Depth, ["channel", "orders", "false", "ship"]) == Some(5)
            && SeriesValue(m, ClientCount, ["channel", "orders", "false", "ship"]) == Some(2)
            && SeriesValue(m, ChannelCount, ["topic", "orders", "false"]) == Some(1)
  {
    assert ["topic", "orders", "false", ""][..3] == ["topic", "orders", "false"];
    FormatExample();
    var start := ExporterState(st.knownTopics, st.knownChannels, InitialVectors());
    InitialVectorsInstalled();
    assert UniqueNames(s);
    InfoSeries(start, s);
    TopicSeries(start, s, 0);
    ChannelSeries(start, s, 0, 0);
  }
}
