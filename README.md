# Coveralls report serialization, in Dafny

This project models the core of the `coveralls-api` Rust crate: the coverage
report it uploads to the Coveralls service, and the mapping from that report
to the fields handed to a serde `Serializer`.

- `wrappers.dfy` — `Option`, standing for Rust's `Option`.
- `wire.dfy` (module `Wire`) — the serialized report at the level of the
  JSON it becomes, as a value tree: `Null`, `UInt` (a `usize`), `Str`, `Seq`
  (a `Vec`) and `Struct(name, len, fields)`. A struct keeps the name and the
  declared size passed to `serialize_struct`, and its fields in the order of
  the `serialize_field` calls. It also holds `Keys`, the key-based
  `Lookup` a JSON reader performs, and `LookupAt`: with distinct keys, every
  field is found again under its key.
- `coveralls.dfy` (module `Coveralls`) — the crate's data types `BranchData`,
  `Source`, `Service`, `Identity` and `CoverallsReport`. Two serializers:
  - `SerializeSource` is what `#[derive(Serialize)]` produces for `Source`. Its
    two `skip_serializing_if = "Option::is_none"` rules drop `branches` and
    `source` when they are `None`. The declared size is 3 plus one per
    option that is present, which is how the derive counts skipped fields.
  - `SerializeReport` is the hand-written `impl Serialize for CoverallsReport`.
- `properties.dfy` (module `ReportProperties`) — which keys each struct emits,
  in which order and with which values; that keys never repeat; and that each
  declared size equals the number of fields emitted.
- `reader.dfy` (module `ReportReader`) — the serializer's partner. It is a
  reader that finds each field by its key, as a JSON consumer does, and
  ignores struct names and declared sizes. It has round-trip lemmas
  (`ReadReport(SerializeReport(r)) == Some(r)`) and the consequence that two
  different reports never serialize alike.

Serialization is modelled as total. The serializer's error channel (each `?`
in the impl) belongs to serde and is left out.

What this version of `src/lib.rs` does, and so what the model does:
- A `Service` holds only the two strings `service_name` and
  `service_job_id`.
- A `ServiceToken` carries no token, so `repo_token` is never emitted with
  it.
- `service_job_id` is always emitted for a service.
- This version has no `service_number`, `service_build_url`,
  `service_branch`, `service_pull_request`, `commit_sha` or `git` field. It
  has no CI detection, no expansion of hit maps and no upload status
  classification.

## Model

| member | source | states |
|---|---|---|
| Coveralls.SerializeCoverage | src/lib.rs:29 | the serialized coverage vector has one entry per line, and entry i is the serialized coverage of line i+1, in order |
| Coveralls.SerializeNats | src/lib.rs:32 | the serialized branch vector has the same length as the vector, and entry i is the integer at position i |
| Coveralls.SerializeSources | src/lib.rs:84 | `source_files` is serialized as a sequence of the same length as the report's source list, holding source i at position i |
| ReportProperties.SourceKeys | src/lib.rs:19-35 | a source emits exactly the keys `name`, `source_digest`, `coverage`, then `branches` if present, then `source` if present |
| ReportProperties.SourceKeysDistinct | src/lib.rs:19-35 | no key of a serialized source repeats |
| ReportProperties.SourceLenMatches | src/lib.rs:19-35 | the size the derived impl declares for a source equals the number of fields it emits, between 3 and 5 |
| ReportProperties.SourceAlwaysEmits | src/lib.rs:20-29 | `name`, `source_digest` and `coverage` are always the first three keys; `name` and `source_digest` hold the source's strings |
| ReportProperties.SourceCoverage | src/lib.rs:25-29 | `coverage` is always present; it has one entry per line; an entry is null exactly for a `None` line, and the hit count otherwise |
| ReportProperties.SourceBranchesIff | src/lib.rs:30-32 | the `branches` key is emitted if and only if `branches` is `Some`; it then holds the branch integers in order |
| ReportProperties.SourceSourceIff | src/lib.rs:33-35 | the `source` key is emitted if and only if `source` is `Some`; it then holds the text |
| ReportProperties.ReportKeys | src/lib.rs:75-84 | the report emits `repo_token` for a repo token, or `service_name` then `service_job_id` for a service, and then `source_files` |
| ReportProperties.ReportKeysDistinct | src/lib.rs:75-84 | no key of the serialized report repeats |
| ReportProperties.RepoTokenFields | src/lib.rs:76-78 | a `RepoToken(t)` emits exactly the keys `repo_token` and `source_files`; `repo_token` holds `t`; there is no `service_name` or `service_job_id` |
| ReportProperties.ServiceTokenFields | src/lib.rs:79-82 | a `ServiceToken(serv)` emits `service_name` and then `service_job_id`, copied from `serv`, before `source_files`; there is never a `repo_token` |
| ReportProperties.SourceFilesLast | src/lib.rs:75-85 | `source_files` is emitted for either identity, as the last field and nowhere else; it holds the serialized sources in their order |
| ReportProperties.ReportLenMatches | src/lib.rs:70-84 | the declared size is 1 + 1 for a repo token and 1 + 2 for a service, and equals the number of fields emitted |
| ReportReader.ReadCoverageRoundTrip | src/lib.rs:25-29 | reading a serialized coverage vector gives back the vector, `None` entries included |
| ReportReader.ReadNatsRoundTrip | src/lib.rs:32 | reading a serialized branch vector gives back the vector |
| ReportReader.ReadBranchesRoundTrip | src/lib.rs:30-32 | reading the `branches` key of a serialized source gives back the source's `branches`: an absent key reads as `None` |
| ReportReader.ReadSourceRoundTrip | src/lib.rs:18-36 | reading a serialized source by its keys gives back the same source |
| ReportReader.ReadSourcesRoundTrip | src/lib.rs:63 | reading the serialized source list gives back the list, in order |
| ReportReader.ReadReportRoundTrip | src/lib.rs:67-87 | reading a serialized report by its keys gives back the same report, identity variant included |
| ReportReader.SerializeReportInjective | src/lib.rs:67-87 | two reports that serialize to the same value are equal |

## Left out

- The textual JSON encoding and serde's internals. The output is a JSON-level value tree: struct name, declared size and fields in order.
- `serialize_some(x)`: a present `Option` (a `Some(n)` coverage entry, present `branches` or `source`) is written as `x` itself, as in the JSON text.
- Skipped fields: a `None` that `skip_serializing_if` drops leaves no trace in the tree, whatever call a given serde_derive version makes for it.
- The serializer's error channel (`?` on each call). A `Serializer` that fails is external code, so serialization is total here.
- The integration test `tests/fill_in_example.rs`. It reads an environment variable, checks the file system and uploads over the network.
- `Source::new`, `CoverallsReport::new`, `add_source` and `send_to_coveralls`. The test calls them, but `src/lib.rs` does not define them.
- The MD5 computation of `source_digest`: the digest is an opaque string.
- `BranchData`: it is declared but never serialized, and no code flattens it into `branches`. It is modelled as a plain datatype with no operation.
- `usize` bounds: hit counts and branch integers are `nat`. The crate only copies them, so machine width never matters.
- CI environment detection, coverage expansion from hit maps, upload status classification, and commit or git fields: none of them exists in this version of `src/lib.rs`.
