/**
 * The coverage report of the coveralls API client and the way it is handed to
 * a serde `Serializer`: the data types of `src/lib.rs`, the field list that
 * `#[derive(Serialize)]` produces for a source file (with its two
 * `skip_serializing_if` rules), and the hand-written `Serialize` impl of the
 * report, whose fields and declared size depend on the identity variant.
 * A `usize` is modelled as a `nat`: values are only copied, never computed on.
 */
module Coveralls {
  import opened Wrappers
  import opened Wire

  /** One branch of branch coverage; no code of the crate flattens it. */
  datatype BranchData = BranchData(lineNumber: nat, blockName: nat, branchNumber: nat, hits: nat)

  /**
   * A source file and its coverage. `coverage[i]` is `None` when line i+1 is
   * not relevant, `Some(0)` when it is not covered and `Some(n)` when it was
   * hit n times. `sourceDigest` is the file's hash, kept opaque here.
   */
  datatype Source = Source(
    name: string,
    sourceDigest: string,
    coverage: seq<Option<nat>>,
    branches: Option<seq<nat>>,
    source: Option<string>)

  /** A CI service the report is attributed to. */
  datatype Service = Service(serviceName: string, serviceJobId: string)

  /** A report is authenticated either by a secret repo token or by a CI service. */
  datatype Identity = RepoToken(token: string) | ServiceToken(service: Service)

  datatype CoverallsReport = CoverallsReport(id: Identity, sourceFiles: seq<Source>)

  /** A coverage entry: `None` is serialized as null, `Some(n)` as the integer n. */
  function CoverageEntry(c: Option<nat>): Value
  {
    match c
    case None => Null
    case Some(n) => UInt(n)
  }

  /** The coverage vector, serialized element by element in order. */
  function SerializeCoverage(coverage: seq<Option<nat>>): (vs: seq<Value>)
    ensures |vs| == |coverage|
    ensures forall i :: 0 <= i < |coverage| ==> vs[i] == CoverageEntry(coverage[i])
  {
    if coverage == [] then [] else [CoverageEntry(coverage[0])] + SerializeCoverage(coverage[1..])
  }

  /** A `Vec<usize>`, serialized element by element in order. */
  function SerializeNats(xs: seq<nat>): (vs: seq<Value>)
    ensures |vs| == |xs|
    ensures forall i :: 0 <= i < |xs| ==> vs[i] == UInt(xs[i])
  {
    if xs == [] then [] else [UInt(xs[0])] + SerializeNats(xs[1..])
  }

  /** The fields `#[derive(Serialize)]` emits for a source, skipping the absent options. */
  function SourceFields(s: Source): seq<Field>
  {
    [Field("name", Str(s.name)),
     Field("source_digest", Str(s.sourceDigest)),
     Field("coverage", Seq(SerializeCoverage(s.coverage)))]
    + (if s.branches.Some? then [Field("branches", Seq(SerializeNats(s.branches.value)))] else [])
    + (if s.source.Some? then [Field("source", Str(s.source.value))] else [])
  }

  /** The size the derived impl declares: one per field, none for a skipped option. */
  function SourceLen(s: Source): nat
  {
    3 + (if s.branches.None? then 0 else 1) + (if s.source.None? then 0 else 1)
  }

  function SerializeSource(s: Source): Value
  {
    Struct("Source", SourceLen(s), SourceFields(s))
  }

  /** `source_files`, serialized source by source in order. */
  function SerializeSources(sources: seq<Source>): (vs: seq<Value>)
    ensures |vs| == |sources|
    ensures forall i :: 0 <= i < |sources| ==> vs[i] == SerializeSource(sources[i])
  {
    if sources == [] then [] else [SerializeSource(sources[0])] + SerializeSources(sources[1..])
  }

  /** The number of identity fields the report impl counts for each variant. */
  function IdentityLen(id: Identity): nat
  {
    match id
    case RepoToken(_) => 1
    case ServiceToken(_) => 2
  }

  /** The identity fields the report impl emits, before `source_files`. */
  function IdentityFields(id: Identity): seq<Field>
  {
    match id
    case RepoToken(r) => [Field("repo_token", Str(r))]
    case ServiceToken(serv) =>
      [Field("service_name", Str(serv.serviceName)),
       Field("service_job_id", Str(serv.serviceJobId))]
  }

  function ReportFields(report: CoverallsReport): seq<Field>
  {
    IdentityFields(report.id) + [Field("source_files", Seq(SerializeSources(report.sourceFiles)))]
  }

  /** The hand-written `Serialize` impl of the report, with the serializer's error channel left out. */
  function SerializeReport(report: CoverallsReport): Value
  {
    Struct("CoverallsReport", 1 + IdentityLen(report.id), ReportFields(report))
  }
}
