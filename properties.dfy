/**
 * What the serialized report promises a reader: which keys each struct
 * carries and in what order, what values they hold, that no key repeats, and
 * that every declared struct size equals the number of fields emitted.
 */
module ReportProperties {
  import opened Wrappers
  import opened Wire
  import opened Coveralls

  /** The keys of a source file: the three fixed ones, then each option that is present. */
  lemma SourceKeys(s: Source)
    ensures Keys(SerializeSource(s).fields)
      == ["name", "source_digest", "coverage"]
         + (if s.branches.Some? then ["branches"] else [])
         + (if s.source.Some? then ["source"] else [])
  {
  }

  /** A source file never emits the same key twice. */
  lemma SourceKeysDistinct(s: Source)
    ensures Distinct(Keys(SerializeSource(s).fields))
  {
    SourceKeys(s);
    var fixed := ["name", "source_digest", "coverage"];
    if s.branches.Some? && s.source.Some? {
      assert Distinct(fixed + ["branches"] + ["source"]);
    } else if s.branches.Some? {
      assert Distinct(fixed + ["branches"] + []);
    } else if s.source.Some? {
      assert Distinct(fixed + [] + ["source"]);
    } else {
      assert Distinct(fixed + [] + []);
    }
  }

  /** The derived impl declares exactly as many fields as it emits. */
  lemma SourceLenMatches(s: Source)
    ensures SerializeSource(s).len == |SerializeSource(s).fields|
    ensures 3 <= SerializeSource(s).len <= 5
  {
  }

  /** `name`, `source_digest` and `coverage` are always emitted, first and in that order. */
  lemma SourceAlwaysEmits(s: Source)
    ensures Keys(SerializeSource(s).fields)[..3] == ["name", "source_digest", "coverage"]
    ensures Lookup(SerializeSource(s).fields, "name") == Some(Str(s.name))
    ensures Lookup(SerializeSource(s).fields, "source_digest") == Some(Str(s.sourceDigest))
  {
    var fs := SerializeSource(s).fields;
    SourceKeys(s);
    SourceKeysDistinct(s);
    assert fs[0] == Field("name", Str(s.name)) && fs[1] == Field("source_digest", Str(s.sourceDigest));
    LookupAt(fs, 0);
    LookupAt(fs, 1);
  }

  /**
   * `coverage` holds null for an irrelevant line and the hit count otherwise,
   * one entry per line, in line order.
   */
  lemma SourceCoverage(s: Source)
    ensures Lookup(SerializeSource(s).fields, "coverage").Some?
    ensures Lookup(SerializeSource(s).fields, "coverage").value.Seq?
    ensures |Lookup(SerializeSource(s).fields, "coverage").value.items| == |s.coverage|
    ensures forall i :: 0 <= i < |s.coverage| ==>
      (Lookup(SerializeSource(s).fields, "coverage").value.items[i] == Null <==> s.coverage[i].None?)
    ensures forall i :: 0 <= i < |s.coverage| && s.coverage[i].Some? ==>
      Lookup(SerializeSource(s).fields, "coverage").value.items[i] == UInt(s.coverage[i].value)
  {
    SourceCoverageField(s);
  }

  /** The `coverage` key holds the serialized coverage vector. */
  lemma SourceCoverageField(s: Source)
    ensures Lookup(SerializeSource(s).fields, "coverage") == Some(Seq(SerializeCoverage(s.coverage)))
  {
    var fs := SerializeSource(s).fields;
    SourceKeysDistinct(s);
    assert fs[2] == Field("coverage", Seq(SerializeCoverage(s.coverage)));
    LookupAt(fs, 2);
  }

  /** `branches` is emitted if and only if the source has branch data, and then holds it in order. */
  lemma SourceBranchesIff(s: Source)
    ensures "branches" in Keys(SerializeSource(s).fields) <==> s.branches.Some?
    ensures s.branches.Some? ==>
      && Lookup(SerializeSource(s).fields, "branches").Some?
      && Lookup(SerializeSource(s).fields, "branches").value.Seq?
      && |Lookup(SerializeSource(s).fields, "branches").value.items| == |s.branches.value|
      && forall i :: 0 <= i < |s.branches.value| ==>
           Lookup(SerializeSource(s).fields, "branches").value.items[i] == UInt(s.branches.value[i])
  {
    var fs := SerializeSource(s).fields;
    SourceKeys(s);
    if s.branches.Some? {
      LookupAt(fs, 3);
    }
  }

  /** `source` is emitted if and only if the source text is present, and then holds it. */
  lemma SourceSourceIff(s: Source)
    ensures "source" in Keys(SerializeSource(s).fields) <==> s.source.Some?
    ensures s.source.Some? ==> Lookup(SerializeSource(s).fields, "source") == Some(Str(s.source.value))
  {
    var fs := SerializeSource(s).fields;
    SourceKeys(s);
    if s.source.Some? {
      assert fs[|fs| - 1] == Field("source", Str(s.source.value));
      SourceKeysDistinct(s);
      LookupAt(fs, |fs| - 1);
    }
  }

  /** The keys of the report: the identity's fields, then `source_files`. */
  lemma ReportKeys(report: CoverallsReport)
    ensures Keys(SerializeReport(report).fields)
      == (match report.id
          case RepoToken(_) => ["repo_token"]
          case ServiceToken(_) => ["service_name", "service_job_id"])
         + ["source_files"]
  {
  }

  /** The report never emits the same key twice. */
  lemma ReportKeysDistinct(report: CoverallsReport)
    ensures Distinct(Keys(SerializeReport(report).fields))
  {
    ReportKeys(report);
  }

  /** A repo token emits `repo_token` with the token and no service field. */
  lemma RepoTokenFields(report: CoverallsReport)
    requires report.id.RepoToken?
    ensures Keys(SerializeReport(report).fields) == ["repo_token", "source_files"]
    ensures Lookup(SerializeReport(report).fields, "repo_token") == Some(Str(report.id.token))
    ensures "service_name" !in Keys(SerializeReport(report).fields)
    ensures "service_job_id" !in Keys(SerializeReport(report).fields)
  {
    ReportKeys(report);
    LookupAt(SerializeReport(report).fields, 0);
  }

  /** A service identity emits `service_name`, then `service_job_id`, copied from it, and no `repo_token`. */
  lemma ServiceTokenFields(report: CoverallsReport)
    requires report.id.ServiceToken?
    ensures Keys(SerializeReport(report).fields) == ["service_name", "service_job_id", "source_files"]
    ensures Lookup(SerializeReport(report).fields, "service_name")
         == Some(Str(report.id.service.serviceName))
    ensures Lookup(SerializeReport(report).fields, "service_job_id")
         == Some(Str(report.id.service.serviceJobId))
    ensures "repo_token" !in Keys(SerializeReport(report).fields)
  {
    ReportKeys(report);
    LookupAt(SerializeReport(report).fields, 0);
    LookupAt(SerializeReport(report).fields, 1);
  }

  /**
   * `source_files` is emitted for either identity, as the last field and
   * only there, holding one serialized source per source file, in order.
   */
  lemma SourceFilesLast(report: CoverallsReport)
    ensures |SerializeReport(report).fields| > 0
    ensures SerializeReport(report).fields[|SerializeReport(report).fields| - 1].key == "source_files"
    ensures forall i :: 0 <= i < |SerializeReport(report).fields| - 1 ==>
      SerializeReport(report).fields[i].key != "source_files"
    ensures Lookup(SerializeReport(report).fields, "source_files").Some?
    ensures Lookup(SerializeReport(report).fields, "source_files").value.Seq?
    ensures |Lookup(SerializeReport(report).fields, "source_files").value.items| == |report.sourceFiles|
    ensures forall i :: 0 <= i < |report.sourceFiles| ==>
      Lookup(SerializeReport(report).fields, "source_files").value.items[i]
        == SerializeSource(report.sourceFiles[i])
  {
    var fs := SerializeReport(report).fields;
    ReportKeys(report);
    LookupAt(fs, |fs| - 1);
  }

  /** The declared size is 1 + 1 for a repo token and 1 + 2 for a service, and equals the fields emitted. */
  lemma ReportLenMatches(report: CoverallsReport)
    ensures SerializeReport(report).len == |SerializeReport(report).fields|
    ensures SerializeReport(report).len == if report.id.RepoToken? then 2 else 3
  {
  }
}
