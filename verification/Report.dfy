/** The benchmark report and its JSON form. */
module Report {
  import opened Bytes
  import opened Json

  datatype Provenance = Provenance(
    schemaVersion: u32, crateName: string, crateVersion: string, hostOs: string, hostArch: string,
    allocCounting: bool, hwCountersSupported: bool)
  datatype HwCounters = HwCounters(
    supported: bool, cpuCycles: Option<u64>, cacheMisses: Option<u64>, branchMisses: Option<u64>)
  datatype BenchStat = BenchStat(
    name: string, iterations: u64, totalNs: u64, minNs: u64, p50Ns: u64, p90Ns: u64, p95Ns: u64, p99Ns: u64,
    p999Ns: u64, maxNs: u64, opsPerSec: u64, allocations: u64, bytesAllocated: u64, allocsPerOpMilli: u64,
    allocMeasured: bool, counters: HwCounters)
  datatype TargetResult = TargetResult(
    id: string, description: string, suite: string, metric: string, comparison: string, threshold: u64,
    measured: Option<u64>, passed: bool, missing: bool)
  datatype Report = Report(
    provenance: Provenance, stats: seq<BenchStat>, targets: seq<TargetResult>, allTargetsPassed: bool)

  // ---- writing -------------------------------------------------------------

  function ProvenanceFields(p: Provenance): seq<Field> {
    [Field("schema_version", DInt(p.schemaVersion)), Field("crate_name", DStr(p.crateName)),
     Field("crate_version", DStr(p.crateVersion)), Field("host_os", DStr(p.hostOs)),
     Field("host_arch", DStr(p.hostArch)),
     Field("alloc_counting", DBool(p.allocCounting)), Field("hw_counters_supported", DBool(p.hwCountersSupported))]
  }

  function CounterFields(c: HwCounters): seq<Field> {
    [Field("supported", DBool(c.supported)), Field("cpu_cycles", OptDoc(c.cpuCycles)),
     Field("cache_misses", OptDoc(c.cacheMisses)), Field("branch_misses", OptDoc(c.branchMisses))]
  }

  function CountFields(s: BenchStat): seq<Field> {
    [Field("name", DStr(s.name)), Field("iterations", DInt(s.iterations)), Field("total_ns", DInt(s.totalNs)),
     Field("min_ns", DInt(s.minNs))]
  }

  function QuantileFields(s: BenchStat): seq<Field> {
    [Field("p50_ns", DInt(s.p50Ns)), Field("p90_ns", DInt(s.p90Ns)), Field("p95_ns", DInt(s.p95Ns)),
     Field("p99_ns", DInt(s.p99Ns)), Field("p999_ns", DInt(s.p999Ns)), Field("max_ns", DInt(s.maxNs))]
  }

  function AllocFields(s: BenchStat): seq<Field> {
    [Field("ops_per_sec", DInt(s.opsPerSec)), Field("allocations", DInt(s.allocations)),
     Field("bytes_allocated", DInt(s.bytesAllocated)), Field("allocs_per_op_milli", DInt(s.allocsPerOpMilli)),
     Field("alloc_measured", DBool(s.allocMeasured))]
  }

  function StatFields(s: BenchStat): seq<Field> {
    ((CountFields(s) + QuantileFields(s)) + AllocFields(s)) + [Field("counters", DObject(CounterFields(s.counters)))]
  }

  function TargetFields(t: TargetResult): seq<Field> {
    [Field("id", DStr(t.id)), Field("description", DStr(t.description)), Field("suite", DStr(t.suite)),
     Field("metric", DStr(t.metric)), Field("comparison", DStr(t.comparison)), Field("threshold", DInt(t.threshold)),
     Field("measured", OptDoc(t.measured)), Field("passed", DBool(t.passed)), Field("missing", DBool(t.missing))]
  }

  function StatDocs(stats: seq<BenchStat>): (ds: seq<Doc>)
    ensures |ds| == |stats| && forall i | 0 <= i < |ds| :: ds[i] == DObject(StatFields(stats[i]))
  {
    seq(|stats|, i requires 0 <= i < |stats| => DObject(StatFields(stats[i])))
  }

  function TargetDocs(targets: seq<TargetResult>): (ds: seq<Doc>)
    ensures |ds| == |targets| && forall i | 0 <= i < |ds| :: ds[i] == DObject(TargetFields(targets[i]))
  {
    seq(|targets|, i requires 0 <= i < |targets| => DObject(TargetFields(targets[i])))
  }

  function ReportFields(r: Report): seq<Field> {
    [Field("provenance", DObject(ProvenanceFields(r.provenance))), Field("stats", DArray(StatDocs(r.stats))),
     Field("targets", DArray(TargetDocs(r.targets))), Field("all_targets_passed", DBool(r.allTargetsPassed))]
  }

  function ReportDoc(r: Report): Doc { DObject(ReportFields(r)) }

  // The writers, field by field over the mutable object writer.

  method WriteProvenance(o: ObjectWriter, p: Provenance)
    requires o.Valid() && o.fields == []
    modifies o, o.w
    ensures o.Valid() && o.fields == ProvenanceFields(p)
  {
    o.IntField("schema_version", p.schemaVersion);
    o.StrField("crate_name", p.crateName);
    o.StrField("crate_version", p.crateVersion);
    o.StrField("host_os", p.hostOs);
    o.StrField("host_arch", p.hostArch);
    o.BoolField("alloc_counting", p.allocCounting);
    o.BoolField("hw_counters_supported", p.hwCountersSupported);
  }

  method WriteCounterFields(o: ObjectWriter, c: HwCounters)
    requires o.Valid() && o.fields == []
    modifies o, o.w
    ensures o.Valid() && o.fields == CounterFields(c)
  {
    o.BoolField("supported", c.supported);
    o.OptField("cpu_cycles", c.cpuCycles);
    o.OptField("cache_misses", c.cacheMisses);
    o.OptField("branch_misses", c.branchMisses);
  }

  method WriteCounters(w: JsonWriter, c: HwCounters)
    modifies w
    ensures w.buf == old(w.buf) + Print(DObject(CounterFields(c)))
  {
    var o := new ObjectWriter(w);
    WriteCounterFields(o, c);
    o.Finish(CounterFields(c));
  }

  method WriteCounts(o: ObjectWriter, s: BenchStat)
    requires o.Valid() && o.fields == []
    modifies o, o.w
    ensures o.Valid() && o.fields == CountFields(s)
  {
    o.StrField("name", s.name);
    o.IntField("iterations", s.iterations);
    o.IntField("total_ns", s.totalNs);
    o.IntField("min_ns", s.minNs);
  }

  method WriteQuantiles(o: ObjectWriter, s: BenchStat)
    requires o.Valid()
    modifies o, o.w
    ensures o.Valid() && o.fields == old(o.fields) + QuantileFields(s)
  {
    o.IntField("p50_ns", s.p50Ns);
    o.IntField("p90_ns", s.p90Ns);
    o.IntField("p95_ns", s.p95Ns);
    o.IntField("p99_ns", s.p99Ns);
    o.IntField("p999_ns", s.p999Ns);
    o.IntField("max_ns", s.maxNs);
  }

  method WriteAllocations(o: ObjectWriter, s: BenchStat)
    requires o.Valid()
    modifies o, o.w
    ensures o.Valid() && o.fields == old(o.fields) + AllocFields(s)
  {
    o.IntField("ops_per_sec", s.opsPerSec);
    o.IntField("allocations", s.allocations);
    o.IntField("bytes_allocated", s.bytesAllocated);
    o.IntField("allocs_per_op_milli", s.allocsPerOpMilli);
    o.BoolField("alloc_measured", s.allocMeasured);
  }

  method WriteStatFields(o: ObjectWriter, s: BenchStat)
    requires o.Valid() && o.fields == []
    modifies o, o.w
    ensures o.Valid() && o.fields == StatFields(s)
  {
    WriteCounts(o, s);
    WriteQuantiles(o, s);
    WriteAllocations(o, s);
    ghost var at := o.Key("counters");
    WriteCounters(o.w, s.counters);
    o.Added("counters", DObject(CounterFields(s.counters)), at);
  }

  /** `write_stat`. */
  method WriteStat(w: JsonWriter, s: BenchStat)
    modifies w
    ensures w.buf == old(w.buf) + Print(DObject(StatFields(s)))
  {
    var o := new ObjectWriter(w);
    WriteStatFields(o, s);
    o.Finish(StatFields(s));
  }

  method WriteTargetFields(o: ObjectWriter, t: TargetResult)
    requires o.Valid() && o.fields == []
    modifies o, o.w
    ensures o.Valid() && o.fields == TargetFields(t)
  {
    o.StrField("id", t.id);
    o.StrField("description", t.description);
    o.StrField("suite", t.suite);
    o.StrField("metric", t.metric);
    o.StrField("comparison", t.comparison);
    o.IntField("threshold", t.threshold);
    o.OptField("measured", t.measured);
    o.BoolField("passed", t.passed);
    o.BoolField("missing", t.missing);
  }

  /** `write_target`. */
  method WriteTarget(w: JsonWriter, t: TargetResult)
    modifies w
    ensures w.buf == old(w.buf) + Print(DObject(TargetFields(t)))
  {
    var o := new ObjectWriter(w);
    WriteTargetFields(o, t);
    o.Finish(TargetFields(t));
  }

  method WriteNextStat(w: JsonWriter, i: nat, x: BenchStat)
    modifies w
    ensures w.buf == old(w.buf) + ((if i > 0 then "," else "") + Print(DObject(StatFields(x))))
  {
    ghost var was := w.buf;
    if i > 0 { w.Push(","); }
    WriteStat(w, x);
    Glue(was, if i > 0 then "," else "", Print(DObject(StatFields(x))));
  }

  /** `write_array` over the statistics. */
  method WriteStats(w: JsonWriter, stats: seq<BenchStat>)
    modifies w
    ensures w.buf == old(w.buf) + Print(DArray(StatDocs(stats)))
  {
    ghost var was, parts := w.buf, Prints(StatDocs(stats));
    w.Push("[");
    assert Open(parts[..0]) == "";
    for i := 0 to |stats|
      invariant w.buf == was + ("[" + Open(parts[..i]))
    {
      OpenMore(was, "[", parts, i);
      WriteNextStat(w, i, stats[i]);
    }
    OpenDone(was, "[", parts, "]");
    w.Push("]");
  }

  method WriteNextTarget(w: JsonWriter, i: nat, x: TargetResult)
    modifies w
    ensures w.buf == old(w.buf) + ((if i > 0 then "," else "") + Print(DObject(TargetFields(x))))
  {
    ghost var was := w.buf;
    if i > 0 { w.Push(","); }
    WriteTarget(w, x);
    Glue(was, if i > 0 then "," else "", Print(DObject(TargetFields(x))));
  }

  method WriteTargets(w: JsonWriter, targets: seq<TargetResult>)
    modifies w
    ensures w.buf == old(w.buf) + Print(DArray(TargetDocs(targets)))
  {
    ghost var was, parts := w.buf, Prints(TargetDocs(targets));
    w.Push("[");
    assert Open(parts[..0]) == "";
    for i := 0 to |targets|
      invariant w.buf == was + ("[" + Open(parts[..i]))
    {
      OpenMore(was, "[", parts, i);
      WriteNextTarget(w, i, targets[i]);
    }
    OpenDone(was, "[", parts, "]");
    w.Push("]");
  }

  lemma FourFields(a: Field, b: Field, c: Field, d: Field)
    ensures ((([] + [a]) + [b]) + [c]) + [d] == [a, b, c, d]
  {
  }

  /** `to_json`. */
  method ToJson(r: Report) returns (text: string)
    ensures text == Print(ReportDoc(r))
  {
    var w := new JsonWriter();
    var o := new ObjectWriter(w);
    ghost var at := o.Key("provenance");
    var inner := new ObjectWriter(w);
    WriteProvenance(inner, r.provenance);
    inner.Finish(ProvenanceFields(r.provenance));
    o.Added("provenance", DObject(ProvenanceFields(r.provenance)), at);
    at := o.Key("stats");
    WriteStats(w, r.stats);
    o.Added("stats", DArray(StatDocs(r.stats)), at);
    at := o.Key("targets");
    WriteTargets(w, r.targets);
    o.Added("targets", DArray(TargetDocs(r.targets)), at);
    o.BoolField("all_targets_passed", r.allTargetsPassed);
    FourFields(
      Field("provenance", DObject(ProvenanceFields(r.provenance))), Field("stats", DArray(StatDocs(r.stats))),
      Field("targets", DArray(TargetDocs(r.targets))), Field("all_targets_passed", DBool(r.allTargetsPassed)));
    o.Finish(ReportFields(r));
    text := w.buf;
  }

  // ---- reading -------------------------------------------------------------

  function GetField(v: JsonValue, key: string): Result<JsonValue, JsonError> {
    if v.Object? && key in v.fields then Ok(v.fields[key]) else Err(Schema("missing field '" + key + "'"))
  }

  function AsU64(v: JsonValue): Result<u64, JsonError> {
    if !v.Int? || v.n < 0 then Err(Schema("expected non-negative integer"))
    else if v.n >= U64_SIZE then Err(Schema("u64 overflow"))
    else Ok(v.n)
  }

  function AsBool(v: JsonValue): Result<bool, JsonError> {
    if v.Bool? then Ok(v.b) else Err(Schema("expected bool"))
  }

  function AsStr(v: JsonValue): Result<string, JsonError> {
    if v.Str? then Ok(v.s) else Err(Schema("expected string"))
  }

  function AsArray(v: JsonValue): Result<seq<JsonValue>, JsonError> {
    if v.Array? then Ok(v.items) else Err(Schema("expected array"))
  }

  function StrField(v: JsonValue, key: string): Result<string, JsonError> {
    var f :- GetField(v, key);
    AsStr(f)
  }

  function BoolField(v: JsonValue, key: string): Result<bool, JsonError> {
    var f :- GetField(v, key);
    AsBool(f)
  }

  function U64Field(v: JsonValue, key: string): Result<u64, JsonError> {
    var f :- GetField(v, key);
    AsU64(f)
  }

  function OptField(v: JsonValue, key: string): Result<Option<u64>, JsonError> {
    var f :- GetField(v, key);
    if f.Null? then Ok(None)
    else
      var n :- AsU64(f);
      Ok(Some(n))
  }

  function ParseProvenance(v: JsonValue): Result<Provenance, JsonError> {
    var version :- U64Field(v, "schema_version");
    if version >= U32_SIZE then Err(Schema("schema_version overflow"))
    else
      var crateName :- StrField(v, "crate_name");
      var crateVersion :- StrField(v, "crate_version");
      var hostOs :- StrField(v, "host_os");
      var hostArch :- StrField(v, "host_arch");
      var allocCounting :- BoolField(v, "alloc_counting");
      var hw :- BoolField(v, "hw_counters_supported");
      Ok(Provenance(version, crateName, crateVersion, hostOs, hostArch, allocCounting, hw))
  }

  function ParseCounters(v: JsonValue): Result<HwCounters, JsonError> {
    var supported :- BoolField(v, "supported");
    var cpuCycles :- OptField(v, "cpu_cycles");
    var cacheMisses :- OptField(v, "cache_misses");
    var branchMisses :- OptField(v, "branch_misses");
    Ok(HwCounters(supported, cpuCycles, cacheMisses, branchMisses))
  }

  function ParseStat(v: JsonValue): Result<BenchStat, JsonError> {
    var name :- StrField(v, "name");
    var iterations :- U64Field(v, "iterations");
    var totalNs :- U64Field(v, "total_ns");
    var minNs :- U64Field(v, "min_ns");
    var p50Ns :- U64Field(v, "p50_ns");
    var p90Ns :- U64Field(v, "p90_ns");
    var p95Ns :- U64Field(v, "p95_ns");
    var p99Ns :- U64Field(v, "p99_ns");
    var p999Ns :- U64Field(v, "p999_ns");
    var maxNs :- U64Field(v, "max_ns");
    var opsPerSec :- U64Field(v, "ops_per_sec");
    var allocations :- U64Field(v, "allocations");
    var bytesAllocated :- U64Field(v, "bytes_allocated");
    var allocsPerOpMilli :- U64Field(v, "allocs_per_op_milli");
    var allocMeasured :- BoolField(v, "alloc_measured");
    var inner :- GetField(v, "counters");
    var counters :- ParseCounters(inner);
    Ok(BenchStat(name, iterations, totalNs, minNs, p50Ns, p90Ns, p95Ns, p99Ns, p999Ns, maxNs, opsPerSec, allocations,
                 bytesAllocated, allocsPerOpMilli, allocMeasured, counters))
  }

  function ParseTarget(v: JsonValue): Result<TargetResult, JsonError> {
    var measured :- OptField(v, "measured");
    var id :- StrField(v, "id");
    var description :- StrField(v, "description");
    var suite :- StrField(v, "suite");
    var metric :- StrField(v, "metric");
    var comparison :- StrField(v, "comparison");
    var threshold :- U64Field(v, "threshold");
    var passed :- BoolField(v, "passed");
    var missing :- BoolField(v, "missing");
    Ok(TargetResult(id, description, suite, metric, comparison, threshold, measured, passed, missing))
  }

  // ---- field lookup --------------------------------------------------------

  /** The keys are plain ASCII and no two are equal. */
  predicate Apart(fields: seq<Field>) {
    && (forall i | 0 <= i < |fields| :: AsciiText(fields[i].key))
    && (forall i, j | 0 <= i < j < |fields| :: fields[i].key != fields[j].key)
  }

  predicate Distinct(keys: seq<string>) { forall i, j | 0 <= i < j < |keys| :: keys[i] != keys[j] }

  predicate Ascii(keys: seq<string>) { forall i | 0 <= i < |keys| :: AsciiText(keys[i]) }

  predicate Named(fields: seq<Field>, keys: seq<string>) {
    |fields| == |keys| && forall i | 0 <= i < |keys| :: fields[i].key == keys[i]
  }

  lemma {:induction false} NamedApart(fields: seq<Field>, keys: seq<string>)
    requires Named(fields, keys) && Distinct(keys) && Ascii(keys)
    ensures Apart(fields)
  {
    forall i, j | 0 <= i < j < |fields| ensures fields[i].key != fields[j].key { assert keys[i] != keys[j]; }
  }

  const COUNTER_KEYS := ["supported", "cpu_cycles", "cache_misses", "branch_misses"]
  const PROVENANCE_KEYS := [
    "schema_version", "crate_name", "crate_version", "host_os", "host_arch", "alloc_counting", "hw_counters_supported"]
  const STAT_KEYS := [
    "name", "iterations", "total_ns", "min_ns", "p50_ns", "p90_ns", "p95_ns", "p99_ns", "p999_ns", "max_ns",
    "ops_per_sec", "allocations", "bytes_allocated", "allocs_per_op_milli", "alloc_measured", "counters"]
  const TARGET_KEYS := [
    "id", "description", "suite", "metric", "comparison", "threshold", "measured", "passed", "missing"]
  const REPORT_KEYS := ["provenance", "stats", "targets", "all_targets_passed"]

  // Keys of different lengths differ; of those of one length, some letter does.

  lemma {:induction false} ProvenanceKeys()
    ensures Distinct(PROVENANCE_KEYS)
  {
    var k := PROVENANCE_KEYS;
    assert k[0][0] != k[5][0];
  }

  lemma {:induction false} TargetKeys()
    ensures Distinct(TARGET_KEYS)
  {
    var k := TARGET_KEYS;
    assert k[3][0] != k[7][0];
  }

  lemma {:induction false} StatKeys()
    ensures Distinct(STAT_KEYS)
  {
    var k := STAT_KEYS;
    assert k[2][0] != k[15][0] && k[10][0] != k[11][0];
    assert k[3][0] == k[9][0] == 'm' && k[3][1] != k[9][1];
    assert k[4][0] == k[5][0] == k[6][0] == k[7][0] == 'p';
    assert k[4][1] == '5' && k[5][1] == k[6][1] == k[7][1] == '9';
    assert k[5][2] == '0' && k[6][2] == '5' && k[7][2] == '9';
  }

  predicate AsciiFrom(keys: seq<string>, lo: nat, hi: nat)
    requires hi <= |keys|
  {
    forall i | lo <= i < hi :: AsciiText(keys[i])
  }

  lemma TimeKeysAscii()
    ensures AsciiFrom(STAT_KEYS, 0, 6)
  {
  }

  lemma QuantileKeysAscii()
    ensures AsciiFrom(STAT_KEYS, 6, 11)
  {
  }

  lemma AllocationKeysAscii()
    ensures AsciiFrom(STAT_KEYS, 11, 14)
  {
  }

  lemma LastKeysAscii()
    ensures AsciiFrom(STAT_KEYS, 14, 16)
  {
  }

  lemma {:induction false} StatKeysAscii()
    ensures Ascii(STAT_KEYS)
  {
    TimeKeysAscii();
    QuantileKeysAscii();
    AllocationKeysAscii();
    LastKeysAscii();
  }

  lemma TargetKeysAscii()
    ensures Ascii(TARGET_KEYS)
  {
  }

  lemma CrateKeysAscii()
    ensures AsciiFrom(PROVENANCE_KEYS, 0, 4)
  {
  }

  lemma HostKeysAscii()
    ensures AsciiFrom(PROVENANCE_KEYS, 4, 7)
  {
  }

  lemma {:induction false} ProvenanceKeysAscii()
    ensures Ascii(PROVENANCE_KEYS)
  {
    CrateKeysAscii();
    HostKeysAscii();
  }

  lemma CounterKeysAscii()
    ensures Ascii(COUNTER_KEYS)
  {
  }

  lemma ReportKeysAscii()
    ensures Ascii(REPORT_KEYS)
  {
  }

  lemma {:induction false} InsertAllKeeps(pairs: seq<(string, JsonValue)>, acc: map<string, JsonValue>, key: string)
    requires key in acc && forall i | 0 <= i < |pairs| :: pairs[i].0 != key
    ensures key in InsertAll(pairs, acc) && InsertAll(pairs, acc)[key] == acc[key]
    decreases |pairs|
  {
    if pairs != [] { InsertAllKeeps(pairs[1..], acc[pairs[0].0 := pairs[0].1], key); }
  }

  lemma {:induction false} InsertAllAt(pairs: seq<(string, JsonValue)>, acc: map<string, JsonValue>, i: nat)
    requires i < |pairs| && forall j | i < j < |pairs| :: pairs[j].0 != pairs[i].0
    ensures pairs[i].0 in InsertAll(pairs, acc) && InsertAll(pairs, acc)[pairs[i].0] == pairs[i].1
    decreases |pairs|
  {
    var acc' := acc[pairs[0].0 := pairs[0].1];
    if i == 0 { InsertAllKeeps(pairs[1..], acc', pairs[0].0); } else { InsertAllAt(pairs[1..], acc', i - 1); }
  }

  /** Field i of an object with keys apart is found under its key. */
  lemma {:induction false} FieldAt(fields: seq<Field>, i: nat)
    requires Apart(fields) && i < |fields|
    ensures GetField(Meaning(DObject(fields)), fields[i].key) == Ok(Meaning(fields[i].value))
  {
    var pairs := Pairs(fields);
    forall j | 0 <= j < |pairs| ensures pairs[j].0 == fields[j].key { Utf8TextSame(fields[j].key); }
    forall j | i < j < |pairs| ensures pairs[j].0 != pairs[i].0 { assert fields[i].key != fields[j].key; }
    InsertAllAt(pairs, map[], i);
  }

  lemma {:induction false} U64At(fields: seq<Field>, i: nat, key: string, n: u64)
    requires Apart(fields) && i < |fields| && fields[i] == Field(key, DInt(n))
    ensures U64Field(Meaning(DObject(fields)), key) == Ok(n)
  {
    FieldAt(fields, i);
  }

  lemma {:induction false} StrAt(fields: seq<Field>, i: nat, key: string, s: string)
    requires Apart(fields) && i < |fields| && fields[i] == Field(key, DStr(s))
    ensures StrField(Meaning(DObject(fields)), key) == Ok(Utf8Text(s))
  {
    FieldAt(fields, i);
  }

  lemma {:induction false} BoolAt(fields: seq<Field>, i: nat, key: string, b: bool)
    requires Apart(fields) && i < |fields| && fields[i] == Field(key, DBool(b))
    ensures BoolField(Meaning(DObject(fields)), key) == Ok(b)
  {
    FieldAt(fields, i);
  }

  lemma {:induction false} OptAt(fields: seq<Field>, i: nat, key: string, n: Option<u64>)
    requires Apart(fields) && i < |fields| && fields[i] == Field(key, OptDoc(n))
    ensures OptField(Meaning(DObject(fields)), key) == Ok(n)
  {
    FieldAt(fields, i);
  }

  lemma {:induction false} CountersApart(c: HwCounters)
    ensures Apart(CounterFields(c))
  {
    CounterKeysAscii();
    NamedApart(CounterFields(c), COUNTER_KEYS);
  }

  lemma {:induction false} CountersBack(c: HwCounters)
    ensures ParseCounters(Meaning(DObject(CounterFields(c)))) == Ok(c)
  {
    CountersApart(c);
    var f := CounterFields(c);
    BoolAt(f, 0, "supported", c.supported);
    OptAt(f, 1, "cpu_cycles", c.cpuCycles);
    OptAt(f, 2, "cache_misses", c.cacheMisses);
    OptAt(f, 3, "branch_misses", c.branchMisses);
  }

  lemma {:induction false} ProvenanceApart(p: Provenance)
    ensures Apart(ProvenanceFields(p))
  {
    ProvenanceKeys();
    ProvenanceKeysAscii();
    NamedApart(ProvenanceFields(p), PROVENANCE_KEYS);
  }

  function ProvenanceRead(p: Provenance): Provenance {
    p.(crateName := Utf8Text(p.crateName), crateVersion := Utf8Text(p.crateVersion), hostOs := Utf8Text(p.hostOs),
       hostArch := Utf8Text(p.hostArch))
  }

  lemma {:induction false} ProvenanceBack(p: Provenance)
    ensures ParseProvenance(Meaning(DObject(ProvenanceFields(p)))) == Ok(ProvenanceRead(p))
  {
    ProvenanceApart(p);
    var f := ProvenanceFields(p);
    U64At(f, 0, "schema_version", p.schemaVersion);
    StrAt(f, 1, "crate_name", p.crateName);
    StrAt(f, 2, "crate_version", p.crateVersion);
    StrAt(f, 3, "host_os", p.hostOs);
    StrAt(f, 4, "host_arch", p.hostArch);
    BoolAt(f, 5, "alloc_counting", p.allocCounting);
    BoolAt(f, 6, "hw_counters_supported", p.hwCountersSupported);
  }

  lemma {:induction false} StatApart(s: BenchStat)
    ensures Apart(StatFields(s))
  {
    StatKeys();
    StatKeysAscii();
    NamedApart(StatFields(s), STAT_KEYS);
  }

  /** The statistic as it is read back: its one string as its UTF-8 bytes. */
  function StatRead(s: BenchStat): BenchStat { s.(name := Utf8Text(s.name)) }

  // The fields of a statistic, four at a time.

  predicate Head(v: JsonValue, s: BenchStat) {
    && StrField(v, "name") == Ok(s.name)
    && U64Field(v, "iterations") == Ok(s.iterations)
    && U64Field(v, "total_ns") == Ok(s.totalNs)
    && U64Field(v, "min_ns") == Ok(s.minNs)
  }

  predicate Quantiles(v: JsonValue, s: BenchStat) {
    && U64Field(v, "p50_ns") == Ok(s.p50Ns)
    && U64Field(v, "p90_ns") == Ok(s.p90Ns)
    && U64Field(v, "p95_ns") == Ok(s.p95Ns)
    && U64Field(v, "p99_ns") == Ok(s.p99Ns)
  }

  predicate Rates(v: JsonValue, s: BenchStat) {
    && U64Field(v, "p999_ns") == Ok(s.p999Ns)
    && U64Field(v, "max_ns") == Ok(s.maxNs)
    && U64Field(v, "ops_per_sec") == Ok(s.opsPerSec)
    && U64Field(v, "allocations") == Ok(s.allocations)
  }

  predicate Allocations(v: JsonValue, s: BenchStat) {
    && U64Field(v, "bytes_allocated") == Ok(s.bytesAllocated)
    && U64Field(v, "allocs_per_op_milli") == Ok(s.allocsPerOpMilli)
    && BoolField(v, "alloc_measured") == Ok(s.allocMeasured)
    && GetField(v, "counters") == Ok(Meaning(DObject(CounterFields(s.counters))))
  }

  lemma {:induction false} HeadRead(f: seq<Field>, s: BenchStat)
    requires Apart(f) && |f| == 16
    requires f[0] == Field("name", DStr(s.name)) && f[1] == Field("iterations", DInt(s.iterations))
    requires f[2] == Field("total_ns", DInt(s.totalNs)) && f[3] == Field("min_ns", DInt(s.minNs))
    ensures Head(Meaning(DObject(f)), StatRead(s))
  {
    StrAt(f, 0, "name", s.name);
    U64At(f, 1, "iterations", s.iterations);
    U64At(f, 2, "total_ns", s.totalNs);
    U64At(f, 3, "min_ns", s.minNs);
  }

  lemma {:induction false} QuantilesRead(f: seq<Field>, s: BenchStat)
    requires Apart(f) && |f| == 16
    requires f[4] == Field("p50_ns", DInt(s.p50Ns)) && f[5] == Field("p90_ns", DInt(s.p90Ns))
    requires f[6] == Field("p95_ns", DInt(s.p95Ns)) && f[7] == Field("p99_ns", DInt(s.p99Ns))
    ensures Quantiles(Meaning(DObject(f)), StatRead(s))
  {
    U64At(f, 4, "p50_ns", s.p50Ns);
    U64At(f, 5, "p90_ns", s.p90Ns);
    U64At(f, 6, "p95_ns", s.p95Ns);
    U64At(f, 7, "p99_ns", s.p99Ns);
  }

  lemma {:induction false} RatesRead(f: seq<Field>, s: BenchStat)
    requires Apart(f) && |f| == 16
    requires f[8] == Field("p999_ns", DInt(s.p999Ns)) && f[9] == Field("max_ns", DInt(s.maxNs))
    requires f[10] == Field("ops_per_sec", DInt(s.opsPerSec)) && f[11] == Field("allocations", DInt(s.allocations))
    ensures Rates(Meaning(DObject(f)), StatRead(s))
  {
    U64At(f, 8, "p999_ns", s.p999Ns);
    U64At(f, 9, "max_ns", s.maxNs);
    U64At(f, 10, "ops_per_sec", s.opsPerSec);
    U64At(f, 11, "allocations", s.allocations);
  }

  lemma {:induction false} AllocationsRead(f: seq<Field>, s: BenchStat)
    requires Apart(f) && |f| == 16
    requires f[12] == Field("bytes_allocated", DInt(s.bytesAllocated))
    requires f[13] == Field("allocs_per_op_milli", DInt(s.allocsPerOpMilli))
    requires f[14] == Field("alloc_measured", DBool(s.allocMeasured))
    requires f[15] == Field("counters", DObject(CounterFields(s.counters)))
    ensures Allocations(Meaning(DObject(f)), StatRead(s))
  {
    U64At(f, 12, "bytes_allocated", s.bytesAllocated);
    U64At(f, 13, "allocs_per_op_milli", s.allocsPerOpMilli);
    BoolAt(f, 14, "alloc_measured", s.allocMeasured);
    FieldAt(f, 15);
  }

  lemma {:induction false} Assemble(v: JsonValue, s: BenchStat)
    requires Head(v, s) && Quantiles(v, s) && Rates(v, s) && Allocations(v, s)
    ensures ParseStat(v) == Ok(s)
  {
    CountersBack(s.counters);
  }

  lemma {:induction false} HeadBack(s: BenchStat)
    requires Apart(StatFields(s))
    ensures Head(Meaning(DObject(StatFields(s))), StatRead(s))
  {
    HeadRead(StatFields(s), s);
  }

  lemma {:induction false} QuantilesBack(s: BenchStat)
    requires Apart(StatFields(s))
    ensures Quantiles(Meaning(DObject(StatFields(s))), StatRead(s))
  {
    QuantilesRead(StatFields(s), s);
  }

  lemma {:induction false} RatesBack(s: BenchStat)
    requires Apart(StatFields(s))
    ensures Rates(Meaning(DObject(StatFields(s))), StatRead(s))
  {
    RatesRead(StatFields(s), s);
  }

  lemma {:induction false} AllocationsBack(s: BenchStat)
    requires Apart(StatFields(s))
    ensures Allocations(Meaning(DObject(StatFields(s))), StatRead(s))
  {
    AllocationsRead(StatFields(s), s);
  }

  lemma {:induction false} StatBack(s: BenchStat)
    ensures ParseStat(Meaning(DObject(StatFields(s)))) == Ok(StatRead(s))
  {
    StatApart(s);
    HeadBack(s);
    QuantilesBack(s);
    RatesBack(s);
    AllocationsBack(s);
    Assemble(Meaning(DObject(StatFields(s))), StatRead(s));
  }

  lemma {:induction false} TargetApart(t: TargetResult)
    ensures Apart(TargetFields(t))
  {
    TargetKeys();
    TargetKeysAscii();
    NamedApart(TargetFields(t), TARGET_KEYS);
  }

  function TargetRead(t: TargetResult): TargetResult {
    t.(id := Utf8Text(t.id), description := Utf8Text(t.description), suite := Utf8Text(t.suite),
       metric := Utf8Text(t.metric), comparison := Utf8Text(t.comparison))
  }

  predicate Texts(v: JsonValue, t: TargetResult) {
    && StrField(v, "id") == Ok(t.id)
    && StrField(v, "description") == Ok(t.description)
    && StrField(v, "suite") == Ok(t.suite)
    && StrField(v, "metric") == Ok(t.metric)
    && StrField(v, "comparison") == Ok(t.comparison)
  }

  lemma {:induction false} TextsBack(t: TargetResult)
    requires Apart(TargetFields(t))
    ensures Texts(Meaning(DObject(TargetFields(t))), TargetRead(t))
  {
    var f := TargetFields(t);
    StrAt(f, 0, "id", t.id);
    StrAt(f, 1, "description", t.description);
    StrAt(f, 2, "suite", t.suite);
    StrAt(f, 3, "metric", t.metric);
    StrAt(f, 4, "comparison", t.comparison);
  }

  lemma {:induction false} TargetBack(t: TargetResult)
    ensures ParseTarget(Meaning(DObject(TargetFields(t)))) == Ok(TargetRead(t))
  {
    TargetApart(t);
    TextsBack(t);
    var f := TargetFields(t);
    U64At(f, 5, "threshold", t.threshold);
    OptAt(f, 6, "measured", t.measured);
    BoolAt(f, 7, "passed", t.passed);
    BoolAt(f, 8, "missing", t.missing);
  }

  // ---- the whole report ----------------------------------------------------

  function ParseStats(vs: seq<JsonValue>): Result<seq<BenchStat>, JsonError> {
    if vs == [] then Ok([])
    else
      var init :- ParseStats(vs[..|vs| - 1]);
      var last :- ParseStat(vs[|vs| - 1]);
      Ok(init + [last])
  }

  function ParseTargets(vs: seq<JsonValue>): Result<seq<TargetResult>, JsonError> {
    if vs == [] then Ok([])
    else
      var init :- ParseTargets(vs[..|vs| - 1]);
      var last :- ParseTarget(vs[|vs| - 1]);
      Ok(init + [last])
  }

  /** `from_json`, on the parsed value. */
  function FromValue(v: JsonValue): Result<Report, JsonError> {
    var prov :- GetField(v, "provenance");
    var provenance :- ParseProvenance(prov);
    var statsField :- GetField(v, "stats");
    var statValues :- AsArray(statsField);
    var stats :- ParseStats(statValues);
    var targetsField :- GetField(v, "targets");
    var targetValues :- AsArray(targetsField);
    var targets :- ParseTargets(targetValues);
    var passed :- BoolField(v, "all_targets_passed");
    Ok(Report(provenance, stats, targets, passed))
  }

  function FromText(text: string): Result<Report, JsonError> {
    var v :- Parse(text);
    FromValue(v)
  }

  /** `from_json`. */
  method FromJson(text: string) returns (r: Result<Report, JsonError>)
    ensures r == FromText(text)
  {
    var v :- ParseText(text);
    var prov :- GetField(v, "provenance");
    var provenance :- ParseProvenance(prov);
    var statsField :- GetField(v, "stats");
    var statValues :- AsArray(statsField);
    var stats :- CollectStats(statValues);
    var targetsField :- GetField(v, "targets");
    var targetValues :- AsArray(targetsField);
    var targets :- CollectTargets(targetValues);
    var passed :- BoolField(v, "all_targets_passed");
    return Ok(Report(provenance, stats, targets, passed));
  }

  method CollectStats(vs: seq<JsonValue>) returns (r: Result<seq<BenchStat>, JsonError>)
    ensures r == ParseStats(vs)
  {
    var stats: seq<BenchStat> := [];
    for i := 0 to |vs|
      invariant ParseStats(vs[..i]) == Ok(stats)
    {
      assert vs[..i + 1][..i] == vs[..i];
      var one := ParseStat(vs[i]);
      if one.Err? {
        StatsFail(vs, i + 1);
        return Err(one.error);
      }
      stats := stats + [one.value];
    }
    assert vs[..|vs|] == vs;
    return Ok(stats);
  }

  lemma {:induction false} StatsFail(vs: seq<JsonValue>, i: nat)
    requires i <= |vs| && ParseStats(vs[..i]).Err?
    ensures ParseStats(vs) == ParseStats(vs[..i])
    decreases |vs| - i
  {
    if i < |vs| {
      assert vs[..i + 1][..i] == vs[..i];
      StatsFail(vs, i + 1);
    } else {
      assert vs[..i] == vs;
    }
  }

  method CollectTargets(vs: seq<JsonValue>) returns (r: Result<seq<TargetResult>, JsonError>)
    ensures r == ParseTargets(vs)
  {
    var targets: seq<TargetResult> := [];
    for i := 0 to |vs|
      invariant ParseTargets(vs[..i]) == Ok(targets)
    {
      assert vs[..i + 1][..i] == vs[..i];
      var one := ParseTarget(vs[i]);
      if one.Err? {
        TargetsFail(vs, i + 1);
        return Err(one.error);
      }
      targets := targets + [one.value];
    }
    assert vs[..|vs|] == vs;
    return Ok(targets);
  }

  lemma {:induction false} TargetsFail(vs: seq<JsonValue>, i: nat)
    requires i <= |vs| && ParseTargets(vs[..i]).Err?
    ensures ParseTargets(vs) == ParseTargets(vs[..i])
    decreases |vs| - i
  {
    if i < |vs| {
      assert vs[..i + 1][..i] == vs[..i];
      TargetsFail(vs, i + 1);
    } else {
      assert vs[..i] == vs;
    }
  }

  function StatsRead(stats: seq<BenchStat>): (rs: seq<BenchStat>)
    ensures |rs| == |stats| && forall i | 0 <= i < |rs| :: rs[i] == StatRead(stats[i])
  {
    if stats == [] then [] else StatsRead(stats[..|stats| - 1]) + [StatRead(stats[|stats| - 1])]
  }

  function TargetsRead(targets: seq<TargetResult>): (rs: seq<TargetResult>)
    ensures |rs| == |targets| && forall i | 0 <= i < |rs| :: rs[i] == TargetRead(targets[i])
  {
    if targets == [] then [] else TargetsRead(targets[..|targets| - 1]) + [TargetRead(targets[|targets| - 1])]
  }

  lemma {:induction false} StatsBack(stats: seq<BenchStat>, vs: seq<JsonValue>)
    requires |vs| == |stats| && forall i | 0 <= i < |vs| :: vs[i] == Meaning(DObject(StatFields(stats[i])))
    ensures ParseStats(vs) == Ok(StatsRead(stats))
    decreases |vs|
  {
    if vs != [] {
      var n := |vs| - 1;
      StatsBack(stats[..n], vs[..n]);
      StatBack(stats[n]);
    }
  }

  lemma {:induction false} TargetsBack(targets: seq<TargetResult>, vs: seq<JsonValue>)
    requires |vs| == |targets| && forall i | 0 <= i < |vs| :: vs[i] == Meaning(DObject(TargetFields(targets[i])))
    ensures ParseTargets(vs) == Ok(TargetsRead(targets))
    decreases |vs|
  {
    if vs != [] {
      var n := |vs| - 1;
      TargetsBack(targets[..n], vs[..n]);
      TargetBack(targets[n]);
    }
  }

  lemma {:induction false} ReportApart(r: Report)
    ensures Apart(ReportFields(r))
  {
    ReportKeysAscii();
    NamedApart(ReportFields(r), REPORT_KEYS);
  }

  /** The report as it is read back: every string as its UTF-8 bytes. */
  function AsRead(r: Report): Report {
    Report(ProvenanceRead(r.provenance), StatsRead(r.stats), TargetsRead(r.targets), r.allTargetsPassed)
  }

  /** The four fields of a report, read one by one. */
  predicate Sections(v: JsonValue, r: Report) {
    && GetField(v, "provenance") == Ok(Meaning(DObject(ProvenanceFields(r.provenance))))
    && GetField(v, "stats") == Ok(Array(Meanings(StatDocs(r.stats))))
    && GetField(v, "targets") == Ok(Array(Meanings(TargetDocs(r.targets))))
    && BoolField(v, "all_targets_passed") == Ok(r.allTargetsPassed)
  }

  lemma {:induction false} SectionsRead(r: Report)
    ensures Sections(Meaning(ReportDoc(r)), r)
  {
    var f := ReportFields(r);
    ReportApart(r);
    FieldAt(f, 0);
    FieldAt(f, 1);
    FieldAt(f, 2);
    BoolAt(f, 3, "all_targets_passed", r.allTargetsPassed);
  }

  lemma {:induction false} SectionsBack(v: JsonValue, r: Report)
    requires Sections(v, r)
    ensures FromValue(v) == Ok(AsRead(r))
  {
    ProvenanceBack(r.provenance);
    StatsBack(r.stats, Meanings(StatDocs(r.stats)));
    TargetsBack(r.targets, Meanings(TargetDocs(r.targets)));
  }

  lemma {:induction false} ReportBack(r: Report)
    ensures FromValue(Meaning(ReportDoc(r))) == Ok(AsRead(r))
  {
    SectionsRead(r);
    SectionsBack(Meaning(ReportDoc(r)), r);
  }

  // ---- which reports survive -----------------------------------------------

  predicate AsciiProvenance(p: Provenance) {
    AsciiText(p.crateName) && AsciiText(p.crateVersion) && AsciiText(p.hostOs) && AsciiText(p.hostArch)
  }

  predicate AsciiStat(s: BenchStat) { AsciiText(s.name) }

  predicate AsciiTarget(t: TargetResult) {
    AsciiText(t.id) && AsciiText(t.description) && AsciiText(t.suite) && AsciiText(t.metric) && AsciiText(t.comparison)
  }

  /** Every string of the report is ASCII. */
  predicate AsciiReport(r: Report) {
    && AsciiProvenance(r.provenance)
    && (forall i | 0 <= i < |r.stats| :: AsciiStat(r.stats[i]))
    && (forall i | 0 <= i < |r.targets| :: AsciiTarget(r.targets[i]))
  }

  lemma {:induction false} ProvenanceSame(p: Provenance)
    ensures ProvenanceRead(p) == p <==> AsciiProvenance(p)
  {
    Utf8TextSame(p.crateName);
    Utf8TextSame(p.crateVersion);
    Utf8TextSame(p.hostOs);
    Utf8TextSame(p.hostArch);
  }

  lemma {:induction false} TargetSame(t: TargetResult)
    ensures TargetRead(t) == t <==> AsciiTarget(t)
  {
    Utf8TextSame(t.id);
    Utf8TextSame(t.description);
    Utf8TextSame(t.suite);
    Utf8TextSame(t.metric);
    Utf8TextSame(t.comparison);
  }

  lemma {:induction false} StatsSame(stats: seq<BenchStat>)
    ensures StatsRead(stats) == stats <==> forall i | 0 <= i < |stats| :: AsciiStat(stats[i])
  {
    forall i | 0 <= i < |stats| ensures StatsRead(stats)[i] == stats[i] <==> AsciiStat(stats[i]) {
      Utf8TextSame(stats[i].name);
    }
  }

  lemma {:induction false} TargetsSame(targets: seq<TargetResult>)
    ensures TargetsRead(targets) == targets <==> forall i | 0 <= i < |targets| :: AsciiTarget(targets[i])
  {
    forall i | 0 <= i < |targets| ensures TargetsRead(targets)[i] == targets[i] <==> AsciiTarget(targets[i]) {
      TargetSame(targets[i]);
    }
  }

  lemma {:induction false} ReportSame(r: Report)
    ensures AsRead(r) == r <==> AsciiReport(r)
  {
    ProvenanceSame(r.provenance);
    StatsSame(r.stats);
    TargetsSame(r.targets);
  }

  // ---- the numbers fit -----------------------------------------------------

  lemma CountersPrintable(c: HwCounters)
    ensures Printable(DObject(CounterFields(c)))
  {
  }

  lemma {:induction false} StatPrintable(s: BenchStat)
    ensures Printable(DObject(StatFields(s)))
  {
    CountersPrintable(s.counters);
    var f := StatFields(s);
    assert forall i | 1 <= i < 14 :: f[i].value.DInt? && InI128(f[i].value.n);
  }

  lemma TargetPrintable(t: TargetResult)
    ensures Printable(DObject(TargetFields(t)))
  {
  }

  lemma {:induction false} ReportPrintable(r: Report)
    ensures Printable(ReportDoc(r))
  {
    forall i | 0 <= i < |r.stats| ensures Printable(StatDocs(r.stats)[i]) { StatPrintable(r.stats[i]); }
    forall i | 0 <= i < |r.targets| ensures Printable(TargetDocs(r.targets)[i]) { TargetPrintable(r.targets[i]); }
    var f := ReportFields(r);
    assert Printable(f[0].value) && Printable(f[1].value) && Printable(f[2].value) && Printable(f[3].value);
  }

  /** What reading back a written report gives, for every report ... */
  lemma {:induction false} ReadBack(r: Report)
    ensures FromText(Print(ReportDoc(r))) == Ok(AsRead(r))
  {
    ReportPrintable(r);
    ParseAfterPrint(ReportDoc(r));
    ReportBack(r);
  }

  /** ... which is the report itself exactly when all its strings are ASCII. */
  lemma {:induction false} ReportRoundTrip(r: Report)
    ensures FromText(Print(ReportDoc(r))) == Ok(r) <==> AsciiReport(r)
  {
    ReadBack(r);
    ReportSame(r);
  }

  /** A report from a crate named with one accented letter. */
  const ACCENTED: Report := Report(Provenance(1, ['\U{E9}'], "1", "os", "arch", false, false), [], [], true)

  /** It comes back with two letters in place of the one. */
  lemma {:induction false} AccentIsLost()
    ensures FromText(Print(ReportDoc(ACCENTED))) != Ok(ACCENTED)
    ensures AsRead(ACCENTED).provenance.crateName == ['\U{C3}', '\U{A9}']
  {
    var name := ACCENTED.provenance.crateName;
    assert name[0] == '\U{E9}' && name[1..] == [];
    assert Utf8(name[0]) == ['\U{C3}', '\U{A9}'];
    assert Utf8Text(name) == Utf8(name[0]) + Utf8Text(name[1..]);
    ReportRoundTrip(ACCENTED);
  }

  /** The same over the mutable writer and parser. */
  method WriteThenRead(r: Report) returns (text: string, back: Result<Report, JsonError>)
    ensures back == Ok(AsRead(r))
    ensures back == Ok(r) <==> AsciiReport(r)
  {
    text := ToJson(r);
    back := FromJson(text);
    ReadBack(r);
    ReportSame(r);
  }
}
