/**
 * The parsed nsqd stats document that one fetch delivers: the node's
 * health, start time and version, and its topics, each with its channels.
 * Only the fields the reconciliation reads are modelled.
 */
module NsqdStats {

  /** A client connected to a channel; the exporter only counts them. */
  datatype Client = Client(clientId: string)

  datatype Channel = Channel(
    name: string,
    paused: bool,
    depth: int,
    backendDepth: int,
    inFlightCount: int,
    timeoutCount: int,
    requeueCount: int,
    deferredCount: int,
    messageCount: int,
    clients: seq<Client>)

  datatype Topic = Topic(
    name: string,
    paused: bool,
    depth: int,
    backendDepth: int,
    channels: seq<Channel>)

  datatype Stats = Stats(health: string, startTime: int, version: string, topics: seq<Topic>)

  /** What fetching the stats of one nsqd yields: the document, or an error. */
  datatype FetchResult = Fetched(stats: Stats) | FetchFailed(error: string)

  /** The number of channels over all topics. */
  function TotalChannels(ts: seq<Topic>): nat
  {
    if ts == [] then 0 else TotalChannels(ts[..|ts| - 1]) + |ts[|ts| - 1].channels|
  }

  /** Channel names are unique within their topic. */
  ghost predicate ChannelNamesUnique(t: Topic)
  {
    forall j, k :: 0 <= j < k < |t.channels| ==> t.channels[j].name != t.channels[k].name
  }

  /** nsqd reports each topic once, and each channel once within its topic. */
  ghost predicate UniqueNames(s: Stats)
  {
    && (forall i, k :: 0 <= i < k < |s.topics| ==> s.topics[i].name != s.topics[k].name)
    && (forall i :: 0 <= i < |s.topics| ==> ChannelNamesUnique(s.topics[i]))
  }
}
