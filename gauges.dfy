/**
 * The part of a labelled gauge vector that the exporter relies on: its
 * fixed, ordered label names, one value per label tuple, keyed upserts
 * (WithLabelValues(...).Set) and Reset. A registry maps metric names to
 * vectors; a write is one upsert into it.
 */
module Gauges {
  import opened Options
  import opened Metrics

  datatype GaugeVec = GaugeVec(labelNames: seq<string>, series: map<seq<string>, int>)
  {
    /** Every series carries one value per label name. */
    ghost predicate Valid()
    {
      forall l :: l in series ==> |l| == |labelNames|
    }

    /** WithLabelValues(labels...).Set(value): the series with these
        label values now holds value. */
    function Set(labels: seq<string>, value: int): (r: GaugeVec)
      ensures r.labelNames == labelNames
      ensures r.series.Keys == series.Keys + {labels}
      ensures r.series[labels] == value
      ensures forall l :: l in series && l != labels ==> r.series[l] == series[l]
    {
      GaugeVec(labelNames, series[labels := value])
    }

    /** Reset drops every series and keeps the label names. */
    function Reset(): (r: GaugeVec)
      ensures r.labelNames == labelNames && |r.series| == 0
    {
      GaugeVec(labelNames, map[])
    }
  }

  /** A new vector holds no series. */
  function CreateGaugeVector(labelNames: seq<string>): (v: GaugeVec)
    ensures v.labelNames == labelNames && |v.series| == 0
  {
    GaugeVec(labelNames, map[])
  }

  type Registry = map<Metric, GaugeVec>

  datatype Write = Write(metric: Metric, labels: seq<string>, value: int)

  /** The write names a vector of the registry and has its arity. */
  ghost predicate Fits(reg: Registry, w: Write)
  {
    w.metric in reg && |w.labels| == |reg[w.metric].labelNames|
  }

  ghost predicate Conforms(reg: Registry, ws: seq<Write>)
  {
    forall w :: w in ws ==> Fits(reg, w)
  }

  /** One upsert. A write to a metric the registry does not hold, or with
      the wrong number of label values, would make the Go code panic; Fits
      says when it cannot, and Conforms when none of a list of writes can. */
  function Apply(reg: Registry, w: Write): (r: Registry)
    ensures r.Keys == reg.Keys
    ensures w.metric in reg ==> r[w.metric] == reg[w.metric].Set(w.labels, w.value)
    ensures forall n :: n in reg && n != w.metric ==> r[n] == reg[n]
  {
    if w.metric in reg then reg[w.metric := reg[w.metric].Set(w.labels, w.value)] else reg
  }

  lemma PrefixConforms(reg: Registry, ws: seq<Write>, k: nat)
    requires Conforms(reg, ws) && k <= |ws|
    ensures Conforms(reg, ws[..k])
  {
    forall w | w in ws[..k] ensures Fits(reg, w) {
      var i :| 0 <= i < k && ws[..k][i] == w;
      assert ws[i] == w;
    }
  }

  /** The registry after the writes of ws, in order. */
  function ApplyWrites(reg: Registry, ws: seq<Write>): (r: Registry)
    ensures r.Keys == reg.Keys
    ensures forall n :: n in r ==> r[n].labelNames == reg[n].labelNames
    decreases |ws|
  {
    if ws == [] then reg
    else Apply(ApplyWrites(reg, ws[..|ws| - 1]), ws[|ws| - 1])
  }

  /** Records one more write: ws' is ws followed by w. */
  lemma Extend(reg: Registry, ws: seq<Write>, w: Write) returns (ws': seq<Write>)
    ensures ws' == ws + [w]
    ensures ApplyWrites(reg, ws') == Apply(ApplyWrites(reg, ws), w)
  {
    ws' := ws + [w];
    assert ws'[..|ws|] == ws;
  }

  /** Applying a + b is applying a, then b. */
  lemma {:induction false} ApplyWritesConcat(reg: Registry, a: seq<Write>, b: seq<Write>)
    ensures ApplyWrites(reg, a + b) == ApplyWrites(ApplyWrites(reg, a), b)
    decreases |b|
  {
    if b == [] {
      assert a + b == a;
    } else {
      var b' := b[..|b| - 1];
      assert (a + b)[..|a + b| - 1] == a + b';
      ApplyWritesConcat(reg, a, b');
    }
  }

  /** Writes that conform to a registry never panic: each one, when its
      turn comes, still names a vector and has that vector's arity. */
  lemma ConformingWritesFit(reg: Registry, ws: seq<Write>, k: nat)
    requires Conforms(reg, ws) && k < |ws|
    ensures Fits(ApplyWrites(reg, ws[..k]), ws[k])
  {
    assert ws[k] in ws;
  }

  /** The value of the last write of ws to the series (metric, labels). */
  function LastWrite(ws: seq<Write>, metric: Metric, labels: seq<string>): (r: Option<int>)
    ensures r.Some? ==> Write(metric, labels, r.value) in ws
    ensures r.None? ==> forall w :: w in ws ==> !(w.metric == metric && w.labels == labels)
    decreases |ws|
  {
    if ws == [] then None
    else if ws[|ws| - 1].metric == metric && ws[|ws| - 1].labels == labels then Some(ws[|ws| - 1].value)
    else LastWrite(ws[..|ws| - 1], metric, labels)
  }

  /** The value of series (metric, labels), if the registry holds it. */
  function SeriesValue(reg: Registry, metric: Metric, labels: seq<string>): Option<int>
  {
    if metric in reg && labels in reg[metric].series then Some(reg[metric].series[labels]) else None
  }

  /** Every vector of the registry reset. */
  function ResetAll(reg: Registry): (r: Registry)
    ensures r.Keys == reg.Keys
    ensures forall n :: n in r ==> r[n] == reg[n].Reset()
  {
    map n | n in reg :: reg[n].Reset()
  }

  /** Resets every vector of the registry, one at a time, in no particular order. */
  method ResetEach(reg: Registry) returns (r: Registry)
    ensures r == ResetAll(reg)
  {
    r := reg;
    var pending := reg.Keys;
    while pending != {}
      invariant pending <= r.Keys == reg.Keys
      invariant forall n :: n in r ==> r[n] == if n in pending then reg[n] else reg[n].Reset()
      decreases pending
    {
      var n :| n in pending;
      r := r[n := r[n].Reset()];
      pending := pending - {n};
    }
  }

  /** Resetting twice is resetting once. */
  lemma ResetAllTwice(reg: Registry)
    ensures ResetAll(ResetAll(reg)) == ResetAll(reg)
  {
  }

  /** One upsert to a vector the registry holds sets that series and no other. */
  lemma ApplyValue(reg: Registry, w: Write, metric: Metric, labels: seq<string>)
    requires w.metric in reg
    ensures SeriesValue(Apply(reg, w), metric, labels)
            == if w.metric == metric && w.labels == labels then Some(w.value) else SeriesValue(reg, metric, labels)
  {
  }

  /** A written series holds its last written value; every other series
      keeps what it had. */
  lemma {:induction false} ApplyWritesValue(reg: Registry, ws: seq<Write>, metric: Metric, labels: seq<string>)
    requires Conforms(reg, ws)
    ensures SeriesValue(ApplyWrites(reg, ws), metric, labels)
            == if LastWrite(ws, metric, labels).Some? then LastWrite(ws, metric, labels)
               else SeriesValue(reg, metric, labels)
    decreases |ws|
  {
    if ws != [] {
      var p, w := ws[..|ws| - 1], ws[|ws| - 1];
      PrefixConforms(reg, ws, |ws| - 1);
      ApplyWritesValue(reg, p, metric, labels);
      assert w in ws;
      ApplyValue(ApplyWrites(reg, p), w, metric, labels);
    }
  }

  /** Two registries with the same vectors, label names and series are equal. */
  lemma RegistryExtensionality(a: Registry, b: Registry)
    requires a.Keys == b.Keys
    requires forall n :: n in a ==> a[n].labelNames == b[n].labelNames
    requires forall n, l :: SeriesValue(a, n, l) == SeriesValue(b, n, l)
    ensures a == b
  {
    forall n | n in a ensures a[n] == b[n] {
      forall l ensures (l in a[n].series) == (l in b[n].series) {
        assert SeriesValue(a, n, l) == SeriesValue(b, n, l);
      }
      forall l | l in a[n].series ensures a[n].series[l] == b[n].series[l] {
        assert SeriesValue(a, n, l) == SeriesValue(b, n, l);
      }
      assert a[n].series == b[n].series;
    }
  }

  /** Writes are keyed upserts: repeating them changes nothing. */
  lemma ApplyWritesTwice(reg: Registry, ws: seq<Write>)
    requires Conforms(reg, ws)
    ensures Conforms(ApplyWrites(reg, ws), ws)
    ensures ApplyWrites(ApplyWrites(reg, ws), ws) == ApplyWrites(reg, ws)
  {
    var once := ApplyWrites(reg, ws);
    assert Conforms(once, ws);
    forall n, l ensures SeriesValue(ApplyWrites(once, ws), n, l) == SeriesValue(once, n, l) {
      ApplyWritesValue(once, ws, n, l);
      ApplyWritesValue(reg, ws, n, l);
    }
    RegistryExtensionality(ApplyWrites(once, ws), once);
  }

  // ---------------------------------------------------------------------
  // The registry initMetrics builds

  /** The registry holds all ten vectors, with their schemas. */
  ghost predicate Installed(reg: Registry)
  {
    forall m: Metric :: m in reg && reg[m].labelNames == LabelSchema(m)
  }

  /** The write has the arity its metric declares. */
  ghost predicate FitsSchema(w: Write)
  {
    |w.labels| == |LabelSchema(w.metric)|
  }

  /** One fresh, empty vector per metric. */
  function InitialVectors(): Registry
  {
    map[
      Info := CreateGaugeVector(InfoLabelNames),
      Depth := CreateGaugeVector(CommonLabels),
      BackendDepth := CreateGaugeVector(CommonLabels),
      InFlight := CreateGaugeVector(CommonLabels),
      TimeoutCount := CreateGaugeVector(CommonLabels),
      RequeueCount := CreateGaugeVector(CommonLabels),
      DeferredCount := CreateGaugeVector(CommonLabels),
      MessageCount := CreateGaugeVector(CommonLabels),
      ClientCount := CreateGaugeVector(CommonLabels),
      ChannelCount := CreateGaugeVector(CommonLabels[..3])]
  }

  /** initMetrics leaves every metric installed with its schema and no series. */
  lemma InitialVectorsInstalled()
    ensures Installed(InitialVectors())
    ensures forall m :: m in InitialVectors() ==> InitialVectors()[m].series == map[]
  {
    forall m: Metric ensures m in InitialVectors() && InitialVectors()[m].labelNames == LabelSchema(m) {
      match m
      case Depth =>
      case BackendDepth =>
      case InFlight =>
      case TimeoutCount =>
      case RequeueCount =>
      case DeferredCount =>
      case MessageCount =>
      case ClientCount =>
      case ChannelCount =>
      case Info =>
    }
  }

  /** Installing the ten vectors one after another, as initMetrics does,
      replaces whatever the registry held before. */
  lemma InstallingReplacesAll(reg: Registry)
    ensures reg[Info := CreateGaugeVector(InfoLabelNames)][Depth := CreateGaugeVector(CommonLabels)]
               [BackendDepth := CreateGaugeVector(CommonLabels)][InFlight := CreateGaugeVector(CommonLabels)]
               [TimeoutCount := CreateGaugeVector(CommonLabels)][RequeueCount := CreateGaugeVector(CommonLabels)]
               [DeferredCount := CreateGaugeVector(CommonLabels)][MessageCount := CreateGaugeVector(CommonLabels)]
               [ClientCount := CreateGaugeVector(CommonLabels)][ChannelCount := CreateGaugeVector(CommonLabels[..3])]
            == InitialVectors()
  {
    var r := reg[Info := CreateGaugeVector(InfoLabelNames)][Depth := CreateGaugeVector(CommonLabels)]
               [BackendDepth := CreateGaugeVector(CommonLabels)][InFlight := CreateGaugeVector(CommonLabels)]
               [TimeoutCount := CreateGaugeVector(CommonLabels)][RequeueCount := CreateGaugeVector(CommonLabels)]
               [DeferredCount := CreateGaugeVector(CommonLabels)][MessageCount := CreateGaugeVector(CommonLabels)]
               [ClientCount := CreateGaugeVector(CommonLabels)][ChannelCount := CreateGaugeVector(CommonLabels[..3])];
    InitialVectorsInstalled();
    forall m: Metric ensures m in r && r[m] == InitialVectors()[m] {
      match m
      case Depth =>
      case BackendDepth =>
      case InFlight =>
      case TimeoutCount =>
      case RequeueCount =>
      case DeferredCount =>
      case MessageCount =>
      case ClientCount =>
      case ChannelCount =>
      case Info =>
    }
  }

  /** Every vector has its metric's schema, and every series has one
      label value per label name of its vector. */
  ghost predicate WellFormed(reg: Registry)
  {
    forall m :: m in reg ==> reg[m].labelNames == LabelSchema(m) && reg[m].Valid()
  }

  lemma ApplyWellFormed(reg: Registry, w: Write)
    requires WellFormed(reg) && Fits(reg, w)
    ensures WellFormed(Apply(reg, w))
  {
    var r := Apply(reg, w);
    forall m | m in r ensures r[m].labelNames == LabelSchema(m) && r[m].Valid() {
      if m == w.metric {
        assert r[m] == reg[m].Set(w.labels, w.value);
      } else {
        assert r[m] == reg[m];
      }
    }
  }

  lemma ApplyKeepsInstalled(reg: Registry, w: Write)
    requires Installed(reg)
    ensures Installed(Apply(reg, w))
  {
    var r := Apply(reg, w);
    forall m: Metric ensures m in r && r[m].labelNames == LabelSchema(m) {
      if m == w.metric {
        assert r[m] == reg[m].Set(w.labels, w.value);
      } else {
        assert r[m] == reg[m];
      }
    }
  }

  /** Writes that conform keep the registry well formed. */
  lemma {:induction false} ApplyWritesWellFormed(reg: Registry, ws: seq<Write>)
    requires WellFormed(reg) && Conforms(reg, ws)
    ensures WellFormed(ApplyWrites(reg, ws))
    decreases |ws|
  {
    if ws != [] {
      PrefixConforms(reg, ws, |ws| - 1);
      ApplyWritesWellFormed(reg, ws[..|ws| - 1]);
      ConformingWritesFit(reg, ws, |ws| - 1);
      ApplyWellFormed(ApplyWrites(reg, ws[..|ws| - 1]), ws[|ws| - 1]);
    }
  }

  lemma ResetKeepsWellFormed(reg: Registry)
    requires WellFormed(reg)
    ensures WellFormed(ResetAll(reg))
  {
  }

  /** Writes that fit the schema fit every installed registry. */
  lemma InstalledConforms(reg: Registry, ws: seq<Write>)
    requires Installed(reg)
    requires forall w :: w in ws ==> FitsSchema(w)
    ensures Conforms(reg, ws)
  {
  }

  lemma ResetKeepsInstalled(reg: Registry)
    requires Installed(reg)
    ensures Installed(ResetAll(reg))
  {
  }

  /** Writes that fit the schema keep an installed, well-formed registry so. */
  lemma SchemaWritesKeepReady(reg: Registry, ws: seq<Write>)
    requires WellFormed(reg) && Installed(reg)
    requires forall w :: w in ws ==> FitsSchema(w)
    ensures WellFormed(ApplyWrites(reg, ws)) && Installed(ApplyWrites(reg, ws))
  {
    InstalledConforms(reg, ws);
    ApplyWritesWellFormed(reg, ws);
  }
}
