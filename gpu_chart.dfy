/**
 * The data behind the GPU chart (web/src/components/GpuChart.tsx): samples are
 * grouped into one row per timestamp, each row carrying `<node>_util` and
 * `<node>_mem` fields for the nodes that reported at that timestamp, and the
 * rows are sorted by timestamp.
 */
module GpuChart {
  import Collections

  /** Utilization is copied into the rows and never computed on. */
  type Utilization = real

  datatype GpuSample = GpuSample(nodeId: string, timestamp: int, utilization: Utilization, memoryMb: int)

  /** The value of one chart field. */
  datatype FieldValue = Util(utilization: Utilization) | Mem(memoryMb: int)

  /** One chart row: its `timestamp` and its per-node fields by name. */
  datatype ChartRow = ChartRow(timestamp: int, fields: map<string, FieldValue>)

  function UtilField(node: string): string { node + "_util" }
  function MemField(node: string): string { node + "_mem" }

  /** Field names never collide: each names one node and one quantity. */
  lemma FieldNamesDistinct(a: string, b: string)
    ensures UtilField(a) == UtilField(b) ==> a == b
    ensures MemField(a) == MemField(b) ==> a == b
    ensures UtilField(a) != MemField(b)
  {
    if UtilField(a) == UtilField(b) {
      assert a == UtilField(a)[..|a|] && b == UtilField(b)[..|b|];
    }
    if MemField(a) == MemField(b) {
      assert a == MemField(a)[..|a|] && b == MemField(b)[..|b|];
    }
    assert UtilField(a)[|UtilField(a)| - 1] == 'l';
    assert MemField(b)[|MemField(b)| - 1] == 'm';
  }

  // ----- The reference description, stated on the input samples -----

  /** Some sample was taken at `t`. */
  ghost predicate HasSampleAt(samples: seq<GpuSample>, t: int) {
    exists i :: 0 <= i < |samples| && samples[i].timestamp == t
  }

  /** Node `n` reported at `t`. */
  ghost predicate ReportedAt(samples: seq<GpuSample>, t: int, n: string) {
    exists i :: 0 <= i < |samples| && samples[i].timestamp == t && samples[i].nodeId == n
  }

  /** `f` is the util or mem field of some node that reported at `t`. */
  ghost predicate FieldOfReporter(samples: seq<GpuSample>, t: int, f: string) {
    exists i :: 0 <= i < |samples| && samples[i].timestamp == t &&
      (f == UtilField(samples[i].nodeId) || f == MemField(samples[i].nodeId))
  }

  /** No later sample has the same node and timestamp as sample `i`. */
  ghost predicate IsLastReading(samples: seq<GpuSample>, i: int)
    requires 0 <= i < |samples|
  {
    forall j :: i < j < |samples| ==>
      !(samples[j].timestamp == samples[i].timestamp && samples[j].nodeId == samples[i].nodeId)
  }

  // ----- The grouping fold, one sample at a time -----

  /** The body of `samples.forEach`: make sure a row exists for the sample's
      timestamp, then write its node's util field and then its mem field. */
  function Place(grouped: map<int, ChartRow>, s: GpuSample): (r: map<int, ChartRow>)
    ensures r.Keys == grouped.Keys + {s.timestamp}
    ensures forall t :: t in grouped && t != s.timestamp ==> r[t] == grouped[t]
    ensures s.timestamp !in grouped ==> r[s.timestamp].timestamp == s.timestamp
    ensures s.timestamp in grouped ==> r[s.timestamp].timestamp == grouped[s.timestamp].timestamp
    ensures UtilField(s.nodeId) in r[s.timestamp].fields && MemField(s.nodeId) in r[s.timestamp].fields
    ensures r[s.timestamp].fields[UtilField(s.nodeId)] == Util(s.utilization)
    ensures r[s.timestamp].fields[MemField(s.nodeId)] == Mem(s.memoryMb)
    ensures var before := if s.timestamp in grouped then grouped[s.timestamp].fields else map[];
      && r[s.timestamp].fields.Keys == before.Keys + {UtilField(s.nodeId), MemField(s.nodeId)}
      && forall f :: f in before && f != UtilField(s.nodeId) && f != MemField(s.nodeId) ==>
           r[s.timestamp].fields[f] == before[f]
  {
    FieldNamesDistinct(s.nodeId, s.nodeId);
    var g1 := if s.timestamp !in grouped then grouped[s.timestamp := ChartRow(s.timestamp, map[])] else grouped;
    var row1 := g1[s.timestamp];
    var g2 := g1[s.timestamp := row1.(fields := row1.fields[UtilField(s.nodeId) := Util(s.utilization)])];
    var row2 := g2[s.timestamp];
    g2[s.timestamp := row2.(fields := row2.fields[MemField(s.nodeId) := Mem(s.memoryMb)])]
  }

  /** `grouped` after the loop has visited every sample of `samples`, in order. */
  function Group(samples: seq<GpuSample>): (r: map<int, ChartRow>)
    ensures forall t :: t in r ==> r[t].timestamp == t
  {
    if samples == [] then map[]
    else Place(Group(samples[..|samples| - 1]), samples[|samples| - 1])
  }

  lemma HasSampleAtSnoc(samples: seq<GpuSample>, t: int)
    requires samples != []
    ensures HasSampleAt(samples, t) <==>
      HasSampleAt(samples[..|samples| - 1], t) || samples[|samples| - 1].timestamp == t
  {
    var init := samples[..|samples| - 1];
    if HasSampleAt(samples, t) && samples[|samples| - 1].timestamp != t {
      var i :| 0 <= i < |samples| && samples[i].timestamp == t;
      assert init[i] == samples[i];
    }
    if HasSampleAt(init, t) {
      var i :| 0 <= i < |init| && init[i].timestamp == t;
      assert samples[i] == init[i];
    }
  }

  lemma ReportedAtSnoc(samples: seq<GpuSample>, t: int, n: string)
    requires samples != []
    ensures ReportedAt(samples, t, n) <==>
      ReportedAt(samples[..|samples| - 1], t, n) ||
      (samples[|samples| - 1].timestamp == t && samples[|samples| - 1].nodeId == n)
  {
    var init := samples[..|samples| - 1];
    var last := samples[|samples| - 1];
    if ReportedAt(samples, t, n) && !(last.timestamp == t && last.nodeId == n) {
      var i :| 0 <= i < |samples| && samples[i].timestamp == t && samples[i].nodeId == n;
      assert init[i] == samples[i];
    }
    if ReportedAt(init, t, n) {
      var i :| 0 <= i < |init| && init[i].timestamp == t && init[i].nodeId == n;
      assert samples[i] == init[i];
    }
  }

  lemma FieldOfReporterSnoc(samples: seq<GpuSample>, t: int, f: string)
    requires samples != []
    ensures FieldOfReporter(samples, t, f) <==>
      FieldOfReporter(samples[..|samples| - 1], t, f) ||
      (samples[|samples| - 1].timestamp == t &&
       (f == UtilField(samples[|samples| - 1].nodeId) || f == MemField(samples[|samples| - 1].nodeId)))
  {
    var init := samples[..|samples| - 1];
    var last := samples[|samples| - 1];
    if FieldOfReporter(samples, t, f) && !(last.timestamp == t && (f == UtilField(last.nodeId) || f == MemField(last.nodeId))) {
      var i :| 0 <= i < |samples| && samples[i].timestamp == t &&
        (f == UtilField(samples[i].nodeId) || f == MemField(samples[i].nodeId));
      assert init[i] == samples[i];
    }
    if FieldOfReporter(init, t, f) {
      var i :| 0 <= i < |init| && init[i].timestamp == t &&
        (f == UtilField(init[i].nodeId) || f == MemField(init[i].nodeId));
      assert samples[i] == init[i];
    }
  }

  /** There is a row exactly for each timestamp some sample carries, and each
      row is labelled with the timestamp it was grouped under. */
  lemma {:induction false} GroupRows(samples: seq<GpuSample>)
    ensures forall t :: t in Group(samples) <==> HasSampleAt(samples, t)
    ensures forall t :: t in Group(samples) ==> Group(samples)[t].timestamp == t
  {
    if samples != [] {
      var init := samples[..|samples| - 1];
      GroupRows(init);
      forall t ensures t in Group(samples) <==> HasSampleAt(samples, t) {
        HasSampleAtSnoc(samples, t);
      }
    }
  }

  /** A row has the util and the mem field of node `n` exactly when `n`
      reported at the row's timestamp, and no field of any other name. */
  lemma {:induction false} GroupFields(samples: seq<GpuSample>)
    ensures forall t, n :: t in Group(samples) ==>
      (UtilField(n) in Group(samples)[t].fields <==> ReportedAt(samples, t, n))
    ensures forall t, n :: t in Group(samples) ==>
      (MemField(n) in Group(samples)[t].fields <==> ReportedAt(samples, t, n))
    ensures forall t, f :: t in Group(samples) && f in Group(samples)[t].fields ==>
      FieldOfReporter(samples, t, f)
  {
    if samples != [] {
      var init := samples[..|samples| - 1];
      var last := samples[|samples| - 1];
      GroupFields(init);
      GroupRows(init);
      forall t, n | t in Group(samples)
        ensures UtilField(n) in Group(samples)[t].fields <==> ReportedAt(samples, t, n)
        ensures MemField(n) in Group(samples)[t].fields <==> ReportedAt(samples, t, n)
      {
        ReportedAtSnoc(samples, t, n);
        PlaceFieldsOf(Group(init), last, t, n);
      }
      forall t, f | t in Group(samples) && f in Group(samples)[t].fields
        ensures FieldOfReporter(samples, t, f)
      {
        FieldOfReporterSnoc(samples, t, f);
      }
    }
  }

  /** One step of the fold adds node `n`'s fields to a row exactly when the
      sample is `n`'s reading at that row's timestamp. */
  lemma PlaceFieldsOf(g: map<int, ChartRow>, s: GpuSample, t: int, n: string)
    requires t in Place(g, s)
    ensures UtilField(n) in Place(g, s)[t].fields <==>
      (t in g && UtilField(n) in g[t].fields) || (t == s.timestamp && n == s.nodeId)
    ensures MemField(n) in Place(g, s)[t].fields <==>
      (t in g && MemField(n) in g[t].fields) || (t == s.timestamp && n == s.nodeId)
  {
    FieldNamesDistinct(n, s.nodeId);
    FieldNamesDistinct(s.nodeId, n);
  }

  /** Where one node reported several times at one timestamp, the row holds
      the values of its last such sample. */
  lemma {:induction false} GroupLastWins(samples: seq<GpuSample>, i: int)
    requires 0 <= i < |samples| && IsLastReading(samples, i)
    ensures samples[i].timestamp in Group(samples)
    ensures UtilField(samples[i].nodeId) in Group(samples)[samples[i].timestamp].fields
    ensures Group(samples)[samples[i].timestamp].fields[UtilField(samples[i].nodeId)] == Util(samples[i].utilization)
    ensures MemField(samples[i].nodeId) in Group(samples)[samples[i].timestamp].fields
    ensures Group(samples)[samples[i].timestamp].fields[MemField(samples[i].nodeId)] == Mem(samples[i].memoryMb)
  {
    var init := samples[..|samples| - 1];
    var last := samples[|samples| - 1];
    var s := samples[i];
    FieldNamesDistinct(s.nodeId, last.nodeId);
    FieldNamesDistinct(last.nodeId, s.nodeId);
    if i < |samples| - 1 {
      assert init[i] == s;
      assert IsLastReading(init, i) by {
        forall j | i < j < |init|
          ensures !(init[j].timestamp == s.timestamp && init[j].nodeId == s.nodeId)
        {
          assert init[j] == samples[j];
        }
      }
      GroupLastWins(init, i);
    }
  }

  /** The `samples.forEach` loop: builds the rows keyed by timestamp. */
  method GroupSamples(samples: seq<GpuSample>) returns (grouped: map<int, ChartRow>)
    ensures grouped == Group(samples)
  {
    grouped := map[];
    var i := 0;
    while i < |samples|
      invariant 0 <= i <= |samples|
      invariant grouped == Group(samples[..i])
    {
      var s := samples[i];
      if s.timestamp !in grouped {
        grouped := grouped[s.timestamp := ChartRow(s.timestamp, map[])];
      }
      var row := grouped[s.timestamp];
      grouped := grouped[s.timestamp := row.(fields := row.fields[UtilField(s.nodeId) := Util(s.utilization)])];
      row := grouped[s.timestamp];
      grouped := grouped[s.timestamp := row.(fields := row.fields[MemField(s.nodeId) := Mem(s.memoryMb)])];
      assert samples[..i + 1][..i] == samples[..i];
      i := i + 1;
    }
    assert samples[..i] == samples;
  }

  /** The `data` computed in `useMemo`: the grouped rows, ascending by timestamp. */
  method ChartData(samples: seq<GpuSample>) returns (rows: seq<ChartRow>)
    ensures forall k, l :: 0 <= k < l < |rows| ==> rows[k].timestamp < rows[l].timestamp
    ensures forall t :: (exists k :: 0 <= k < |rows| && rows[k].timestamp == t) <==> HasSampleAt(samples, t)
    ensures forall k, n :: 0 <= k < |rows| ==>
      (UtilField(n) in rows[k].fields <==> ReportedAt(samples, rows[k].timestamp, n))
    ensures forall k, n :: 0 <= k < |rows| ==>
      (MemField(n) in rows[k].fields <==> ReportedAt(samples, rows[k].timestamp, n))
    ensures forall k, f :: 0 <= k < |rows| && f in rows[k].fields ==>
      FieldOfReporter(samples, rows[k].timestamp, f)
    ensures forall k, i ::
      (0 <= k < |rows| && 0 <= i < |samples| &&
       samples[i].timestamp == rows[k].timestamp && IsLastReading(samples, i)) ==>
        && UtilField(samples[i].nodeId) in rows[k].fields
        && rows[k].fields[UtilField(samples[i].nodeId)] == Util(samples[i].utilization)
        && MemField(samples[i].nodeId) in rows[k].fields
        && rows[k].fields[MemField(samples[i].nodeId)] == Mem(samples[i].memoryMb)
  {
    var grouped := GroupSamples(samples);
    GroupRows(samples);
    GroupFields(samples);

    rows := SortRows(grouped);

    forall k, i | 0 <= k < |rows| && 0 <= i < |samples| &&
      samples[i].timestamp == rows[k].timestamp && IsLastReading(samples, i)
      ensures UtilField(samples[i].nodeId) in rows[k].fields
      ensures rows[k].fields[UtilField(samples[i].nodeId)] == Util(samples[i].utilization)
      ensures MemField(samples[i].nodeId) in rows[k].fields
      ensures rows[k].fields[MemField(samples[i].nodeId)] == Mem(samples[i].memoryMb)
    {
      GroupLastWins(samples, i);
    }
  }

  /** `Object.values(grouped).sort((a, b) => a.timestamp - b.timestamp)`:
      the grouped rows, each once, strictly ascending by timestamp. */
  method SortRows(grouped: map<int, ChartRow>) returns (rows: seq<ChartRow>)
    requires forall t :: t in grouped ==> grouped[t].timestamp == t
    ensures forall k :: 0 <= k < |rows| ==> rows[k].timestamp in grouped && rows[k] == grouped[rows[k].timestamp]
    ensures forall t :: t in grouped ==> exists k :: 0 <= k < |rows| && rows[k].timestamp == t
    ensures forall k, l :: 0 <= k < l < |rows| ==> rows[k].timestamp < rows[l].timestamp
  {
    assert Collections.KeyedBy(grouped, (r: ChartRow) => r.timestamp);
    var values := Collections.MapValues(grouped, (r: ChartRow) => r.timestamp);
    var a := new ChartRow[|values|](j requires 0 <= j < |values| => values[j]);
    assert a[..] == values;
    Collections.SortBy(a, (r: ChartRow) => r.timestamp);
    rows := a[..];
    RowsAreGroups(rows, values, grouped);
  }

  /** A sorted arrangement of the rows of a grouping: each is the row grouped
      under its own timestamp, every grouped timestamp has one, and no
      timestamp occurs twice. */
  lemma RowsAreGroups(rows: seq<ChartRow>, values: seq<ChartRow>, grouped: map<int, ChartRow>)
    requires forall t :: t in grouped ==> grouped[t].timestamp == t
    requires forall i :: 0 <= i < |values| ==> values[i].timestamp in grouped && grouped[values[i].timestamp] == values[i]
    requires multiset(values) == multiset(grouped.Values)
    requires multiset(rows) == multiset(values)
    requires Collections.SortedBy(rows, (r: ChartRow) => r.timestamp)
    ensures forall k :: 0 <= k < |rows| ==> rows[k].timestamp in grouped && rows[k] == grouped[rows[k].timestamp]
    ensures forall t :: t in grouped ==> exists k :: 0 <= k < |rows| && rows[k].timestamp == t
    ensures forall k, l :: 0 <= k < l < |rows| ==> rows[k].timestamp < rows[l].timestamp
  {
    forall k | 0 <= k < |rows| ensures rows[k].timestamp in grouped && rows[k] == grouped[rows[k].timestamp] {
      assert rows[k] in multiset(values);
      var i :| 0 <= i < |values| && values[i] == rows[k];
    }
    forall t | t in grouped ensures exists k :: 0 <= k < |rows| && rows[k].timestamp == t {
      assert grouped[t] in grouped.Values;
      assert grouped[t] in multiset(rows);
      var k :| 0 <= k < |rows| && rows[k] == grouped[t];
    }
    forall k, l | 0 <= k < l < |rows| ensures rows[k].timestamp < rows[l].timestamp {
      Collections.NoDuplicatesFromSet(rows, grouped.Values, k, l);
    }
  }
}
