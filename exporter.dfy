/**
 * The stats package as it runs: its package-level state (the remembered
 * topic and channel names and the metric vectors) and the operations that
 * update it in place.
 */
module Exporter {
  import opened NsqdStats
  import opened Decimal
  import opened Gauges
  import opened Metrics
  import opened Topology
  import opened Reconcile

  class Collector {
    var knownTopics: seq<string>
    var knownChannels: seq<string>
    var metrics: Registry

    /** Every installed vector has its metric's schema, and every series
        has the arity of its vector: the guarantee WithLabelValues enforces
        by panicking on a label list of the wrong length. */
    ghost predicate Valid()
      reads this
    {
      WellFormed(metrics)
    }

    /** All ten vectors are installed. */
    ghost predicate Ready()
      reads this
    {
      Valid() && Installed(metrics)
    }

    ghost function State(): ExporterState
      reads this
    {
      ExporterState(knownTopics, knownChannels, metrics)
    }

    /** The state at process start: nothing known, no vectors. */
    constructor ()
      ensures Valid()
      ensures knownTopics == [] && knownChannels == [] && metrics == map[]
    {
      knownTopics, knownChannels, metrics := [], [], map[];
    }

    /** initMetrics: installs a fresh, empty vector for each of the ten
        metrics, replacing whatever was there. */
    method InitMetrics()
      modifies this`metrics
      ensures Ready()
      ensures metrics == InitialVectors()
    {
      ghost var before := metrics;
      var commonLabels := CommonLabels;
      metrics := metrics[Info := CreateGaugeVector(InfoLabelNames)];
      metrics := metrics[Depth := CreateGaugeVector(commonLabels)];
      metrics := metrics[BackendDepth := CreateGaugeVector(commonLabels)];
      metrics := metrics[InFlight := CreateGaugeVector(commonLabels)];
      metrics := metrics[TimeoutCount := CreateGaugeVector(commonLabels)];
      metrics := metrics[RequeueCount := CreateGaugeVector(commonLabels)];
      metrics := metrics[DeferredCount := CreateGaugeVector(commonLabels)];
      metrics := metrics[MessageCount := CreateGaugeVector(commonLabels)];
      metrics := metrics[ClientCount := CreateGaugeVector(commonLabels)];
      metrics := metrics[ChannelCount := CreateGaugeVector(commonLabels[..3])];
      InstallingReplacesAll(before);
      InitialVectorsInstalled();
    }

    /** Reset of every vector, one after another. */
    method ResetVectors()
      requires Valid()
      modifies this`metrics
      ensures Valid()
      ensures metrics == ResetAll(old(metrics))
    {
      ResetKeepsWellFormed(metrics);
      metrics := ResetEach(metrics);
    }

    /** The eight upserts fetchAndSetStats makes for one channel of the
        topic named topicName (the body of its inner loop). */
    method UpsertChannel(topicName: string, channel: Channel)
      modifies this`metrics
      ensures metrics == ApplyWrites(old(metrics), ChannelWrites(topicName, channel))
    {
      ghost var start := metrics;
      var paused := "false";
      if channel.paused {
        paused := "true";
      }
      var labels := ["channel", topicName, paused, channel.name];
      metrics := Apply(metrics, Write(Depth, labels, channel.depth));
      metrics := Apply(metrics, Write(BackendDepth, labels, channel.backendDepth));
      metrics := Apply(metrics, Write(InFlight, labels, channel.inFlightCount));
      metrics := Apply(metrics, Write(TimeoutCount, labels, channel.timeoutCount));
      metrics := Apply(metrics, Write(RequeueCount, labels, channel.requeueCount));
      metrics := Apply(metrics, Write(DeferredCount, labels, channel.deferredCount));
      metrics := Apply(metrics, Write(MessageCount, labels, channel.messageCount));
      metrics := Apply(metrics, Write(ClientCount, labels, |channel.clients|));
      ChannelWritesInOrder(start, topicName, channel);
      assert labels == ChannelLabels(topicName, channel);
    }

    /** The inner loop of fetchAndSetStats: the channels of the topic named
        topicName, one after another. */
    method UpsertChannels(topicName: string, channels: seq<Channel>)
      modifies this`metrics
      ensures metrics == ApplyWrites(old(metrics), ChannelsWrites(topicName, channels))
    {
      ghost var start := metrics;
      assert channels[..0] == [];
      for j := 0 to |channels|
        invariant metrics == ApplyWrites(start, ChannelsWrites(topicName, channels[..j]))
      {
        UpsertChannel(topicName, channels[j]);
        ChannelsWritesSnoc(start, topicName, channels, j);
      }
      assert channels[..|channels|] == channels;
    }

    /** The body of the outer loop of fetchAndSetStats: one topic's depth,
        backend depth and channel count, then each of its channels. */
    method UpsertTopic(topic: Topic)
      modifies this`metrics
      ensures metrics == ApplyWrites(old(metrics), TopicWrites(topic))
    {
      ghost var start := metrics;
      var paused := "false";
      if topic.paused {
        paused := "true";
      }
      var labels := ["topic", topic.name, paused, ""];
      metrics := Apply(metrics, Write(Depth, labels, topic.depth));
      metrics := Apply(metrics, Write(BackendDepth, labels, topic.backendDepth));
      metrics := Apply(metrics, Write(ChannelCount, labels[..3], |topic.channels|));
      TopicLevelWritesInOrder(start, topic);
      assert labels == TopicLabels(topic);
      UpsertChannels(topic.name, topic.channels);
      ApplyWritesConcat(start, TopicLevelWrites(topic), ChannelsWrites(topic.name, topic.channels));
    }

    /** The outer loop of fetchAndSetStats: every topic, in order. */
    method UpsertTopics(topics: seq<Topic>)
      modifies this`metrics
      ensures metrics == ApplyWrites(old(metrics), TopicsWrites(topics))
    {
      ghost var start := metrics;
      assert topics[..0] == [];
      for i := 0 to |topics|
        invariant metrics == ApplyWrites(start, TopicsWrites(topics[..i]))
      {
        var topic := topics[i];
        UpsertTopic(topic);
        TopicsWritesSnoc(start, topics, i);
      }
      assert topics[..|topics|] == topics;
    }

    /** The removal tests of fetchAndSetStats: every vector is reset when
        a remembered topic or channel is missing from the document. */
    method ResetOnRemoval(stats: Stats, detectedTopics: seq<string>, detectedChannels: seq<string>)
      requires Ready()
      requires detectedTopics == DetectedTopics(stats.topics)
      requires detectedChannels == DetectedChannels(stats.topics)
      modifies this`metrics
      ensures Ready()
      ensures metrics == Base(old(State()), stats)
    {
      var dead := DeadTopicOrChannelExists(knownTopics, detectedTopics);
      if dead {
        ResetVectors();
      }
      dead := DeadTopicOrChannelExists(knownChannels, detectedChannels);
      if dead {
        ResetAllTwice(old(metrics));
        ResetVectors();
      }
    }

    /** The upserts fetchAndSetStats makes for one document: the info
        series, then every topic in order. */
    method UpsertDocument(stats: Stats)
      requires Ready()
      modifies this`metrics
      ensures Ready()
      ensures metrics == ApplyWrites(old(metrics), Writes(stats))
    {
      ghost var start := metrics;
      metrics := Apply(metrics, Write(Info, [stats.health, FormatInt(stats.startTime), stats.version], 1));
      UpsertTopics(stats.topics);
      WritesInStages(start, stats);
      SchemaWritesKeepReady(start, Writes(stats));
    }

    /** fetchAndSetStats: remembers the names of the fetched topics and
        channels, resets every vector when a remembered name has gone, and
        upserts the info series and every topic's and channel's series. A
        failed fetch changes nothing. */
    method FetchAndSetStats(fetch: FetchResult) returns (ok: bool)
      requires Ready()
      modifies this
      ensures Ready()
      ensures ok == fetch.Fetched?
      ensures ok ==> (knownTopics == DetectedTopics(fetch.stats.topics)
                      && knownChannels == DetectedChannels(fetch.stats.topics))
      ensures State() == Step(old(State()), fetch)
      ensures fetch.FetchFailed? ==> unchanged(this)
    {
      if fetch.FetchFailed? {
        return false;
      }
      var stats := fetch.stats;
      var detectedTopics, detectedChannels := DetectNames(stats.topics);
      ResetOnRemoval(stats, detectedTopics, detectedChannels);
      knownTopics := detectedTopics;
      knownChannels := detectedChannels;
      UpsertDocument(stats);
      return true;
    }

    /** New: installs fresh vectors, then reconciles, and returns whether
        the fetch succeeded. */
    method New(fetch: FetchResult) returns (success: bool)
      modifies this
      ensures Ready()
      ensures success == fetch.Fetched?
      ensures State() == Probe(old(State()), fetch)
    {
      InitMetrics();
      success := FetchAndSetStats(fetch);
    }
  }
}
