/** Where an import is read from and in which format an export is written:
    the extension and scheme tests on the configured path and the split of an
    `s3://bucket/key` path. Reading and writing the files is not modelled. */
module Paths {
  import opened Wrappers
  import Text

  datatype Format = Csv | Json

  /** Where the bytes of an import come from. */
  datatype Origin = S3(bucket: string, key: string) | LocalFile(path: string)

  datatype Source = Source(format: Format, origin: Origin)

  datatype PathError =
    | InvalidImportFile(path: string)   // neither `.csv` nor `.json`
    | MalformedS3Path(path: string)     // no `/` after the bucket: the unpacking fails
    | UnknownExportFormat(path: string)

  const S3Scheme: string := "s3://"

  /** `path.strip()[5:].split('/', maxsplit=1)` unpacked into bucket and key. */
  function S3Split(path: string): (r: Option<(string, string)>)
    ensures r.Some? ==> '/' !in r.value.0
    ensures r.Some? ==> Text.DropPrefix(Text.Strip(path), |S3Scheme|) == r.value.0 + "/" + r.value.1
    ensures r.None? <==> '/' !in Text.DropPrefix(Text.Strip(path), |S3Scheme|)
  {
    Text.SplitFirst(Text.DropPrefix(Text.Strip(path), |S3Scheme|), '/')
  }

  /** Where a path that passed the extension test is read from. */
  function OriginOf(path: string): Result<Origin, PathError> {
    if Text.StartsWith(path, S3Scheme) then
      match S3Split(path)
      case None => Failure(MalformedS3Path(path))
      case Some((bucket, key)) => Success(S3(bucket, key))
    else Success(LocalFile(path))
  }

  /** The dispatch of `import_data`: `.csv` is tested before `.json`, both on
      the path as configured; any other path is refused. */
  function ImportSource(path: string): (r: Result<Source, PathError>)
    ensures r == Failure(InvalidImportFile(path)) <==>
              !Text.EndsWith(path, ".csv") && !Text.EndsWith(path, ".json")
    ensures r.Success? && r.value.format == Csv ==> Text.EndsWith(path, ".csv")
    ensures r.Success? && r.value.format == Json ==> Text.EndsWith(path, ".json") && !Text.EndsWith(path, ".csv")
    ensures r.Success? ==> (r.value.origin.S3? <==> Text.StartsWith(path, S3Scheme))
    ensures r.Success? && r.value.origin.LocalFile? ==> r.value.origin.path == path
  {
    var format := if Text.EndsWith(path, ".csv") then Some(Csv)
                  else if Text.EndsWith(path, ".json") then Some(Json)
                  else None;
    match format
    case None => Failure(InvalidImportFile(path))
    case Some(f) =>
      match OriginOf(path)
      case Failure(e) => Failure(e)
      case Success(o) => Success(Source(f, o))
  }

  /** A path that starts with the scheme and ends with an extension has no
      surrounding whitespace, so the strip before the split changes nothing. */
  lemma StripIsNoOpOnS3Paths(path: string)
    requires Text.StartsWith(path, S3Scheme)
    requires Text.EndsWith(path, ".csv") || Text.EndsWith(path, ".json")
    ensures Text.Strip(path) == path
  {
    assert path[0] == 's';
    assert path[|path| - 1] == 'v' || path[|path| - 1] == 'n';
    Text.StripUnpadded(path);
  }

  /** On such a path the split works on the path as configured. */
  lemma S3SplitUnstripped(path: string)
    requires Text.StartsWith(path, S3Scheme)
    requires Text.EndsWith(path, ".csv") || Text.EndsWith(path, ".json")
    ensures S3Split(path) == Text.SplitFirst(Text.DropPrefix(path, |S3Scheme|), '/')
  {
    StripIsNoOpOnS3Paths(path);
  }

  /** An `s3://bucket/key` path is read from that bucket and key: the bucket
      ends at the first `/` and the key keeps any further ones. */
  lemma S3PathSplits(bucket: string, key: string, ext: string)
    requires '/' !in bucket
    requires ext == ".csv" || ext == ".json"
    ensures var path := S3Scheme + bucket + "/" + key + ext;
            ImportSource(path) == Success(Source(if ext == ".csv" then Csv else Json, S3(bucket, key + ext)))
  {
    var path := S3Scheme + bucket + "/" + key + ext;
    assert path == (S3Scheme + bucket + "/" + key) + ext;
    EndsWithSuffix(S3Scheme + bucket + "/" + key, ext);
    S3OriginOf(path, bucket, key + ext);
    if ext == ".json" {
      assert !Text.EndsWith(path, ".csv") by {
        assert path[|path| - 1] == 'n';
      }
    }
  }

  /** A path with the scheme and an accepted extension is read from the
      bucket before its first `/` and the key after it. */
  lemma S3OriginOf(path: string, bucket: string, rest: string)
    requires '/' !in bucket
    requires path == S3Scheme + bucket + "/" + rest
    requires Text.EndsWith(path, ".csv") || Text.EndsWith(path, ".json")
    ensures OriginOf(path) == Success(S3(bucket, rest))
  {
    assert path == S3Scheme + (bucket + "/" + rest);
    SchemeParts(path, bucket + "/" + rest);
    S3SplitUnstripped(path);
    SplitFirstOf(bucket, rest);
  }

  lemma SchemeParts(path: string, rest: string)
    requires path == S3Scheme + rest
    ensures Text.StartsWith(path, S3Scheme) && Text.DropPrefix(path, |S3Scheme|) == rest
  {
    assert path[..|S3Scheme|] == S3Scheme;
    assert path[|S3Scheme|..] == rest;
  }

  lemma EndsWithSuffix(front: string, ext: string)
    ensures Text.EndsWith(front + ext, ext)
  {
    assert (front + ext)[|front|..] == ext;
  }

  /** Splitting at the first separator finds the text before it and the
      text after it. */
  lemma {:induction false} SplitFirstOf(a: string, b: string)
    requires '/' !in a
    ensures Text.SplitFirst(a + "/" + b, '/') == Some((a, b))
    decreases |a|
  {
    if a == [] {
      assert (a + "/" + b)[1..] == b;
    } else {
      SplitFirstOf(a[1..], b);
      assert (a + "/" + b)[1..] == a[1..] + "/" + b;
      assert [a[0]] + a[1..] == a;
    }
  }

  /** An `s3://` path with no `/` after the bucket fails when it is split. */
  lemma S3PathWithoutKeyFails(bucket: string)
    requires '/' !in bucket
    ensures ImportSource(S3Scheme + bucket + ".csv") == Failure(MalformedS3Path(S3Scheme + bucket + ".csv"))
  {
    var rest := bucket + ".csv";
    assert S3Scheme + bucket + ".csv" == S3Scheme + rest;
    assert '/' !in rest by {
      forall i | |bucket| <= i < |rest| ensures rest[i] != '/' {
        assert rest[i] == ".csv"[i - |bucket|];
      }
      assert forall i :: 0 <= i < |bucket| ==> rest[i] == bucket[i];
    }
    EndsWithSuffix(S3Scheme + bucket, ".csv");
    S3PathWithoutSeparator(S3Scheme + rest, rest);
  }

  lemma S3PathWithoutSeparator(path: string, rest: string)
    requires path == S3Scheme + rest && '/' !in rest
    requires Text.EndsWith(path, ".csv")
    ensures ImportSource(path) == Failure(MalformedS3Path(path))
  {
    SchemeParts(path, rest);
    S3SplitUnstripped(path);
  }

  /** The format test of `perform_export`: the path must end in `csv`, else
      in `json`; unlike the import, no dot is required. */
  function ExportFormat(path: string): (r: Result<Format, PathError>)
    ensures r == Success(Csv) <==> Text.EndsWith(path, "csv")
    ensures r == Success(Json) <==> Text.EndsWith(path, "json") && !Text.EndsWith(path, "csv")
    ensures r.Failure? <==> !Text.EndsWith(path, "csv") && !Text.EndsWith(path, "json")
  {
    if Text.EndsWith(path, "csv") then Success(Csv)
    else if Text.EndsWith(path, "json") then Success(Json)
    else Failure(UnknownExportFormat(path))
  }

  /** Every path the import accepts is exported in the same format, and a
      path without the dot that the import refuses is still exported. */
  lemma ExportAcceptsImportPaths(path: string)
    ensures ImportSource(path).Success? ==> ExportFormat(path) == Success(ImportSource(path).value.format)
    ensures ExportFormat("reportcsv") == Success(Csv) && ImportSource("reportcsv") == Failure(InvalidImportFile("reportcsv"))
  {
    if Text.EndsWith(path, ".csv") {
      assert path[|path| - 3..] == path[|path| - 4..][1..];
    } else if Text.EndsWith(path, ".json") {
      assert path[|path| - 4..] == path[|path| - 5..][1..];
    }
    var q := "reportcsv";
    assert q[|q| - 3..] == "csv";
    assert q[|q| - 4..] != ".csv" by { assert q[|q| - 4] == 't'; }
    assert q[|q| - 5..] != ".json" by { assert q[|q| - 5] == 'r'; }
  }
}
