/**
 * A reader of the serialized report that finds every field by its key, as a
 * JSON consumer of the upload does (struct names and declared sizes are not
 * part of the JSON text and are ignored; a missing optional field reads as
 * absent). Reading back what the serializer wrote gives the report again,
 * so serialization loses nothing and two different reports never serialize
 * alike.
 */
module ReportReader {
  import opened Wrappers
  import opened Wire
  import opened Coveralls
  import opened ReportProperties

  function ReadStr(v: Option<Value>): Option<string>
  {
    if v.Some? && v.value.Str? then Some(v.value.s) else None
  }

  /** Reads coverage entries: null is an irrelevant line, an integer a hit count; anything else fails. */
  function ReadCoverage(vs: seq<Value>): (r: Option<seq<Option<nat>>>)
    ensures r.Some? <==> forall i :: 0 <= i < |vs| ==> vs[i].Null? || vs[i].UInt?
    ensures r.Some? ==> |r.value| == |vs|
    ensures r.Some? ==> forall i :: 0 <= i < |vs| ==> CoverageEntry(r.value[i]) == vs[i]
  {
    if vs == [] then Some([])
    else
      var rest := ReadCoverage(vs[1..]);
      if rest.None? then None
      else
        match vs[0]
        case Null => Some([None] + rest.value)
        case UInt(n) => Some([Some(n)] + rest.value)
        case _ => None
  }

  /** Reads a sequence of integers; anything else fails. */
  function ReadNats(vs: seq<Value>): (r: Option<seq<nat>>)
    ensures r.Some? <==> forall i :: 0 <= i < |vs| ==> vs[i].UInt?
    ensures r.Some? ==> |r.value| == |vs|
    ensures r.Some? ==> forall i :: 0 <= i < |vs| ==> vs[i] == UInt(r.value[i])
  {
    if vs == [] then Some([])
    else
      var rest := ReadNats(vs[1..]);
      if rest.None? || !vs[0].UInt? then None
      else Some([vs[0].n] + rest.value)
  }

  /** Reads the optional `branches` field: absent is `None`, present must be a list of integers. */
  function ReadBranches(v: Option<Value>): Option<Option<seq<nat>>>
  {
    match v
    case None => Some(None)
    case Some(Seq(items)) =>
      var bs := ReadNats(items);
      if bs.Some? then Some(Some(bs.value)) else None
    case Some(_) => None
  }

  /** Reads the optional `source` field: absent is `None`, present must be a string. */
  function ReadSourceText(v: Option<Value>): Option<Option<string>>
  {
    match v
    case None => Some(None)
    case Some(Str(text)) => Some(Some(text))
    case Some(_) => None
  }

  function ReadSource(v: Value): Option<Source>
  {
    if !v.Struct? then None
    else
      var name := ReadStr(Lookup(v.fields, "name"));
      var digest := ReadStr(Lookup(v.fields, "source_digest"));
      var cov := Lookup(v.fields, "coverage");
      var branches := ReadBranches(Lookup(v.fields, "branches"));
      var text := ReadSourceText(Lookup(v.fields, "source"));
      if name.None? || digest.None? || cov.None? || !cov.value.Seq? || branches.None? || text.None? then None
      else
        var coverage := ReadCoverage(cov.value.items);
        if coverage.None? then None
        else Some(Source(name.value, digest.value, coverage.value, branches.value, text.value))
  }

  function ReadSources(vs: seq<Value>): (r: Option<seq<Source>>)
    ensures r.Some? ==> |r.value| == |vs|
  {
    if vs == [] then Some([])
    else
      var first := ReadSource(vs[0]);
      var rest := ReadSources(vs[1..]);
      if first.None? || rest.None? then None else Some([first.value] + rest.value)
  }

  /** A `repo_token` field makes a repo-token identity; otherwise both service fields are needed. */
  function ReadIdentity(fields: seq<Field>): Option<Identity>
  {
    var token := ReadStr(Lookup(fields, "repo_token"));
    var name := ReadStr(Lookup(fields, "service_name"));
    var job := ReadStr(Lookup(fields, "service_job_id"));
    if token.Some? then Some(RepoToken(token.value))
    else if name.Some? && job.Some? then Some(ServiceToken(Service(name.value, job.value)))
    else None
  }

  function ReadReport(v: Value): Option<CoverallsReport>
  {
    if !v.Struct? then None
    else
      var id := ReadIdentity(v.fields);
      var files := Lookup(v.fields, "source_files");
      if id.None? || files.None? || !files.value.Seq? then None
      else
        var sources := ReadSources(files.value.items);
        if sources.None? then None else Some(CoverallsReport(id.value, sources.value))
  }

  lemma ReadCoverageRoundTrip(coverage: seq<Option<nat>>)
    ensures ReadCoverage(SerializeCoverage(coverage)) == Some(coverage)
  {
    var vs := SerializeCoverage(coverage);
    forall i | 0 <= i < |vs| ensures vs[i].Null? || vs[i].UInt? {
      assert vs[i] == CoverageEntry(coverage[i]);
    }
    var r := ReadCoverage(vs);
    forall i | 0 <= i < |coverage| ensures r.value[i] == coverage[i] {
      assert CoverageEntry(r.value[i]) == CoverageEntry(coverage[i]);
    }
    assert r.value == coverage;
  }

  lemma ReadNatsRoundTrip(xs: seq<nat>)
    ensures ReadNats(SerializeNats(xs)) == Some(xs)
  {
    var vs := SerializeNats(xs);
    forall i | 0 <= i < |vs| ensures vs[i].UInt? {
      assert vs[i] == UInt(xs[i]);
    }
    var r := ReadNats(vs);
    forall i | 0 <= i < |xs| ensures r.value[i] == xs[i] {
      assert UInt(r.value[i]) == UInt(xs[i]);
    }
    assert r.value == xs;
  }

  /** A source struct whose fields read back as those of `s` reads back as `s`. */
  lemma ReadSourceFrom(v: Value, s: Source)
    requires v.Struct?
    requires ReadStr(Lookup(v.fields, "name")) == Some(s.name)
    requires ReadStr(Lookup(v.fields, "source_digest")) == Some(s.sourceDigest)
    requires Lookup(v.fields, "coverage") == Some(Seq(SerializeCoverage(s.coverage)))
    requires ReadBranches(Lookup(v.fields, "branches")) == Some(s.branches)
    requires ReadSourceText(Lookup(v.fields, "source")) == Some(s.source)
    ensures ReadSource(v) == Some(s)
  {
    ReadCoverageRoundTrip(s.coverage);
  }

  lemma ReadBranchesRoundTrip(s: Source)
    ensures ReadBranches(Lookup(SerializeSource(s).fields, "branches")) == Some(s.branches)
  {
    SourceBranchesIff(s);
    if s.branches.Some? {
      assert Lookup(SerializeSource(s).fields, "branches").value.items == SerializeNats(s.branches.value);
      ReadNatsRoundTrip(s.branches.value);
    }
  }

  lemma ReadNameFields(s: Source)
    ensures ReadStr(Lookup(SerializeSource(s).fields, "name")) == Some(s.name)
    ensures ReadStr(Lookup(SerializeSource(s).fields, "source_digest")) == Some(s.sourceDigest)
  {
    SourceAlwaysEmits(s);
  }

  lemma ReadSourceTextRoundTrip(s: Source)
    ensures ReadSourceText(Lookup(SerializeSource(s).fields, "source")) == Some(s.source)
  {
    SourceSourceIff(s);
  }

  /** A serialized source file reads back as the same source file. */
  lemma ReadSourceRoundTrip(s: Source)
    ensures ReadSource(SerializeSource(s)) == Some(s)
  {
    ReadNameFields(s);
    SourceCoverageField(s);
    ReadBranchesRoundTrip(s);
    ReadSourceTextRoundTrip(s);
    ReadSourceFrom(SerializeSource(s), s);
  }

  lemma {:induction false} ReadSourcesRoundTrip(sources: seq<Source>)
    ensures ReadSources(SerializeSources(sources)) == Some(sources)
  {
    if sources != [] {
      var vs := SerializeSources(sources);
      assert vs[1..] == SerializeSources(sources[1..]);
      ReadSourcesRoundTrip(sources[1..]);
      assert ReadSource(vs[0]) == Some(sources[0]) by {
        ReadSourceRoundTrip(sources[0]);
      }
      assert [sources[0]] + sources[1..] == sources;
    }
  }

  /** The identity fields of a serialized report read back as its identity. */
  lemma ReadIdentityRoundTrip(report: CoverallsReport)
    ensures ReadIdentity(SerializeReport(report).fields) == Some(report.id)
  {
    match report.id
    case RepoToken(_) => RepoTokenFields(report);
    case ServiceToken(_) => ServiceTokenFields(report);
  }

  lemma ReadSourceFilesField(report: CoverallsReport)
    ensures Lookup(SerializeReport(report).fields, "source_files")
         == Some(Seq(SerializeSources(report.sourceFiles)))
  {
    var fs := SerializeReport(report).fields;
    ReportKeysDistinct(report);
    LookupAt(fs, |fs| - 1);
  }

  /** A serialized report reads back as the same report, whichever its identity. */
  lemma ReadReportRoundTrip(report: CoverallsReport)
    ensures ReadReport(SerializeReport(report)) == Some(report)
  {
    ReadIdentityRoundTrip(report);
    ReadSourceFilesField(report);
    ReadSourcesRoundTrip(report.sourceFiles);
  }

  /** Two reports that serialize alike are the same report. */
  lemma SerializeReportInjective(a: CoverallsReport, b: CoverallsReport)
    requires SerializeReport(a) == SerializeReport(b)
    ensures a == b
  {
    ReadReportRoundTrip(a);
    ReadReportRoundTrip(b);
  }
}
