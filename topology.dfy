/**
 * The topic and channel names observed in one stats document, and the
 * one-directional test that some previously known name has vanished.
 * A channel is identified by its topic's name followed by its own name.
 */
module Topology {
  import opened NsqdStats

  /** The topic names, in document order. */
  function DetectedTopics(ts: seq<Topic>): (r: seq<string>)
    ensures |r| == |ts|
    ensures forall i :: 0 <= i < |ts| ==> r[i] == ts[i].name
  {
    if ts == [] then [] else DetectedTopics(ts[..|ts| - 1]) + [ts[|ts| - 1].name]
  }

  /** The identities of the channels of the topic named tn, in order. */
  function ChannelIds(tn: string, cs: seq<Channel>): (r: seq<string>)
    ensures |r| == |cs|
    ensures forall j :: 0 <= j < |cs| ==> r[j] == tn + cs[j].name
  {
    if cs == [] then [] else ChannelIds(tn, cs[..|cs| - 1]) + [tn + cs[|cs| - 1].name]
  }

  /** The channel identities of all topics, topic by topic. */
  function DetectedChannels(ts: seq<Topic>): (r: seq<string>)
    ensures |r| == TotalChannels(ts)
  {
    if ts == [] then [] else DetectedChannels(ts[..|ts| - 1]) + ChannelIds(ts[|ts| - 1].name, ts[|ts| - 1].channels)
  }

  /** Some known name is absent from the detected ones. */
  ghost predicate HasDead(known: seq<string>, detected: seq<string>)
  {
    exists k :: k in known && k !in detected
  }

  /** deadTopicOrChannelExists. */
  method DeadTopicOrChannelExists(known: seq<string>, detected: seq<string>) returns (dead: bool)
    ensures dead <==> HasDead(known, detected)
  {
    var i := 0;
    while i < |known|
      invariant 0 <= i <= |known|
      invariant forall k :: 0 <= k < i ==> known[k] in detected
    {
      var found := false;
      var j := 0;
      while j < |detected|
        invariant 0 <= j <= |detected|
        invariant !found
        invariant forall m :: 0 <= m < j ==> detected[m] != known[i]
      {
        if known[i] == detected[j] {
          found := true;
          break;
        }
        j := j + 1;
      }
      if !found {
        assert known[i] in known && known[i] !in detected;
        return true;
      }
      i := i + 1;
    }
    return false;
  }

  lemma DetectedSnoc(ts: seq<Topic>, i: nat)
    requires i < |ts|
    ensures DetectedTopics(ts[..i + 1]) == DetectedTopics(ts[..i]) + [ts[i].name]
    ensures DetectedChannels(ts[..i + 1]) == DetectedChannels(ts[..i]) + ChannelIds(ts[i].name, ts[i].channels)
  {
    assert ts[..i + 1][..i] == ts[..i];
  }

  lemma ChannelIdsSnoc(tn: string, cs: seq<Channel>, j: nat)
    requires j < |cs|
    ensures ChannelIds(tn, cs[..j + 1]) == ChannelIds(tn, cs[..j]) + [tn + cs[j].name]
  {
    assert cs[..j + 1][..j] == cs[..j];
  }

  /** Regrouping a concatenation, stated on its own so that the inner loop
      of DetectNames needs only this instance. */
  lemma AppendAssoc(a: seq<string>, b: seq<string>, c: seq<string>)
    ensures (a + b) + c == a + (b + c)
  {
  }

  /** The loops of fetchAndSetStats that collect the detected names. */
  method DetectNames(ts: seq<Topic>) returns (detectedTopics: seq<string>, detectedChannels: seq<string>)
    ensures detectedTopics == DetectedTopics(ts)
    ensures detectedChannels == DetectedChannels(ts)
  {
    detectedTopics, detectedChannels := [], [];
    assert ts[..0] == [];
    for i := 0 to |ts|
      invariant detectedTopics == DetectedTopics(ts[..i])
      invariant detectedChannels == DetectedChannels(ts[..i])
    {
      var topic := ts[i];
      DetectedSnoc(ts, i);
      detectedTopics := detectedTopics + [topic.name];
      ghost var before := detectedChannels;
      assert topic.channels[..0] == [];
      assert ChannelIds(topic.name, []) == [];
      for j := 0 to |topic.channels|
        invariant detectedChannels == before + ChannelIds(topic.name, topic.channels[..j])
      {
        ChannelIdsSnoc(topic.name, topic.channels, j);
        AppendAssoc(before, ChannelIds(topic.name, topic.channels[..j]), [topic.name + topic.channels[j].name]);
        detectedChannels := detectedChannels + [topic.name + topic.channels[j].name];
      }
      assert topic.channels[..|topic.channels|] == topic.channels;
    }
    assert ts[..|ts|] == ts;
  }

  /** An empty known list never reports a removal: the first call never resets. */
  lemma NothingKnownNothingDead(detected: seq<string>)
    ensures !HasDead([], detected)
  {
  }

  /** Names added to the detected list never make the test fire. */
  lemma AdditionsNeverFire(known: seq<string>, detected: seq<string>, more: seq<string>)
    requires (forall x :: x in detected ==> x in more)
    ensures HasDead(known, more) ==> HasDead(known, detected)
  {
  }

  /** The test is set inclusion, read backwards. */
  lemma HasDeadIsNotSubset(known: seq<string>, detected: seq<string>)
    ensures HasDead(known, detected) <==> !((set k | k in known) <= (set d | d in detected))
  {
    var ks, ds := set k | k in known, set d | d in detected;
    if !(ks <= ds) {
      var k :| k in ks && k !in ds;
      assert k in known && k !in detected;
    }
    if HasDead(known, detected) {
      var k :| k in known && k !in detected;
      assert k in ks && k !in ds;
    }
  }

  lemma ChannelIdsMember(tn: string, cs: seq<Channel>, x: string)
    ensures x in ChannelIds(tn, cs) <==> exists j :: 0 <= j < |cs| && x == tn + cs[j].name
  {
    var ids := ChannelIds(tn, cs);
    if x in ids {
      var j :| 0 <= j < |ids| && ids[j] == x;
      assert x == tn + cs[j].name;
    }
  }

  /** Every detected channel identity comes from some topic's channel. */
  lemma {:induction false} DetectedChannelsSound(ts: seq<Topic>, x: string)
    requires x in DetectedChannels(ts)
    ensures exists i, j :: 0 <= i < |ts| && 0 <= j < |ts[i].channels| && x == ts[i].name + ts[i].channels[j].name
  {
    var p, last := ts[..|ts| - 1], ts[|ts| - 1];
    if x in DetectedChannels(p) {
      DetectedChannelsSound(p, x);
      var i, j :| 0 <= i < |p| && 0 <= j < |p[i].channels| && x == p[i].name + p[i].channels[j].name;
      assert ts[i] == p[i];
    } else {
      ChannelIdsMember(last.name, last.channels, x);
      var j :| 0 <= j < |last.channels| && x == last.name + last.channels[j].name;
      assert ts[|ts| - 1] == last;
    }
  }

  /** Every topic's channel contributes its identity. */
  lemma {:induction false} DetectedChannelsComplete(ts: seq<Topic>, i: int, j: int)
    requires 0 <= i < |ts| && 0 <= j < |ts[i].channels|
    ensures ts[i].name + ts[i].channels[j].name in DetectedChannels(ts)
  {
    var p, last := ts[..|ts| - 1], ts[|ts| - 1];
    if i < |ts| - 1 {
      assert p[i] == ts[i];
      DetectedChannelsComplete(p, i, j);
    } else {
      ChannelIdsMember(last.name, last.channels, ts[i].name + ts[i].channels[j].name);
    }
  }

  /** A channel identity is detected exactly when some topic has a channel
      whose name, appended to the topic's name, gives it. */
  lemma DetectedChannelsMembers(ts: seq<Topic>, x: string)
    ensures x in DetectedChannels(ts) <==>
            exists i, j :: 0 <= i < |ts| && 0 <= j < |ts[i].channels| && x == ts[i].name + ts[i].channels[j].name
  {
    if x in DetectedChannels(ts) {
      DetectedChannelsSound(ts, x);
    }
    if exists i, j :: 0 <= i < |ts| && 0 <= j < |ts[i].channels| && x == ts[i].name + ts[i].channels[j].name {
      var i, j :| 0 <= i < |ts| && 0 <= j < |ts[i].channels| && x == ts[i].name + ts[i].channels[j].name;
      DetectedChannelsComplete(ts, i, j);
    }
  }

  /** A known list every element of which is detected has nothing dead. */
  lemma Covered(known: seq<string>, detected: seq<string>)
    requires forall i :: 0 <= i < |known| ==> known[i] in detected
    ensures !HasDead(known, detected)
  {
  }

  lemma ChannelIdsOne(tn: string, c: Channel)
    ensures ChannelIds(tn, [c]) == [tn + c.name]
  {
    assert [c][..0] == [];
  }

  lemma DetectedOne(t: Topic)
    ensures DetectedTopics([t]) == [t.name]
    ensures DetectedChannels([t]) == ChannelIds(t.name, t.channels)
  {
    assert [t][..0] == [];
  }

  lemma DetectedTwo(t: Topic, u: Topic)
    ensures DetectedTopics([t, u]) == [t.name, u.name]
    ensures DetectedChannels([t, u]) == ChannelIds(t.name, t.channels) + ChannelIds(u.name, u.channels)
  {
    assert [t, u][..1] == [t];
    DetectedOne(t);
  }

  /** Identifying channels by concatenation lets a vanished channel go
      unnoticed: channel "bc" of topic "a" disappears while topic "ab"
      gains a channel "c", and neither test fires. */
  lemma ConcatenatedIdentityHidesRemoval()
    ensures var gone := Channel("bc", false, 0, 0, 0, 0, 0, 0, 0, []);
            var added := Channel("c", false, 0, 0, 0, 0, 0, 0, 0, []);
            var before := [Topic("a", false, 0, 0, [gone])];
            var after := [Topic("a", false, 0, 0, []), Topic("ab", false, 0, 0, [added])];
            && !HasDead(DetectedTopics(before), DetectedTopics(after))
            && !HasDead(DetectedChannels(before), DetectedChannels(after))
  {
    var gone := Channel("bc", false, 0, 0, 0, 0, 0, 0, 0, []);
    var added := Channel("c", false, 0, 0, 0, 0, 0, 0, 0, []);
    var t := Topic("a", false, 0, 0, [gone]);
    var t' := Topic("a", false, 0, 0, []);
    var u := Topic("ab", false, 0, 0, [added]);
    DetectedOne(t);
    DetectedTwo(t', u);
    ChannelIdsOne("a", gone);
    ChannelIdsOne("ab", added);
    assert "a" + "bc" == "ab" + "c";
    assert DetectedChannels([t]) == ChannelIds("a", []) + DetectedChannels([t]);
    Covered(DetectedTopics([t]), DetectedTopics([t', u]));
    Covered(DetectedChannels([t]), DetectedChannels([t', u]));
  }
}
