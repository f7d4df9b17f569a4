/**
 * `parse_s3`: splits `s3://bucket/path` into the bucket and the key with
 * the pattern `s3://([\w._-]+)/([\w./_-]+)`, matched with `re.match`, which
 * anchors at the start of the string only.
 */
module S3Path {
  import opened Wrappers

  const Scheme: string := "s3://"

  /** The pattern did not match: `m` is `None` and `m.group` raises AttributeError. */
  datatype S3Error = NoMatch

  /** `\w` on ASCII text: a letter, a digit or the underscore. */
  predicate IsWordChar(c: char)
  {
    'a' <= c <= 'z' || 'A' <= c <= 'Z' || '0' <= c <= '9' || c == '_'
  }

  /** The class `[\w._-]` of the bucket group. */
  predicate IsBucketChar(c: char) { IsWordChar(c) || c == '.' || c == '_' || c == '-' }

  /** The class `[\w./_-]` of the path group: the bucket class plus `/`. */
  predicate IsPathChar(c: char) { IsBucketChar(c) || c == '/' }

  predicate AllIn(s: string, p: char -> bool) { forall i :: 0 <= i < |s| ==> p(s[i]) }

  /** The length of the longest prefix of `s` whose characters satisfy `p` (a greedy `[...]*`). */
  function RunLength(s: string, p: char -> bool): (n: nat)
    ensures n <= |s| && AllIn(s[..n], p)
    ensures n < |s| ==> !p(s[n])
  {
    if |s| == 0 || !p(s[0]) then 0
    else
      var n := 1 + RunLength(s[1..], p);
      assert forall i :: 1 <= i < n ==> s[..n][i] == s[1..][..n - 1][i - 1];
      n
  }

  /**
   * The bucket is the longest run of bucket characters after `s3://`; it
   * must be non-empty and followed by `/`. The path is the longest non-empty
   * run of path characters after that `/`; whatever follows it is ignored.
   */
  function ParseS3(s3path: string): (r: Result<(string, string), S3Error>)
    ensures |s3path| < |Scheme| || s3path[..|Scheme|] != Scheme ==> r == Err(NoMatch)
    ensures r.Ok? ==>
              var (bucket, path) := r.value;
              var n := |Scheme| + |bucket| + 1 + |path|;
              && |bucket| > 0 && AllIn(bucket, IsBucketChar)
              && |path| > 0 && AllIn(path, IsPathChar)
              && n <= |s3path| && s3path[..n] == Scheme + bucket + "/" + path
              && (n == |s3path| || !IsPathChar(s3path[n]))
  {
    if |s3path| < |Scheme| || s3path[..|Scheme|] != Scheme then Err(NoMatch)
    else
      var rest := s3path[|Scheme|..];
      var b := RunLength(rest, IsBucketChar);
      if b == 0 || b == |rest| || rest[b] != '/' then Err(NoMatch)
      else
        var tail := rest[b + 1..];
        var p := RunLength(tail, IsPathChar);
        if p == 0 then Err(NoMatch)
        else
          assert s3path[..|Scheme| + b + 1 + p] == Scheme + rest[..b] + "/" + tail[..p];
          Ok((rest[..b], tail[..p]))
  }

  /**
   * Round trip: a non-empty bucket of bucket characters and a non-empty path
   * of path characters come back out of `s3://bucket/path`, also when the
   * text goes on with a character outside the path class.
   */
  lemma ParseS3RoundTrip(bucket: string, path: string, trailer: string)
    requires |bucket| > 0 && AllIn(bucket, IsBucketChar)
    requires |path| > 0 && AllIn(path, IsPathChar)
    requires |trailer| == 0 || !IsPathChar(trailer[0])
    ensures ParseS3(Scheme + bucket + "/" + path + trailer) == Ok((bucket, path))
  {
    var s := Scheme + bucket + "/" + path + trailer;
    assert s[..|Scheme|] == Scheme;
    var rest := s[|Scheme|..];
    assert rest == bucket + "/" + path + trailer;
    RunLengthOf(rest, bucket, IsBucketChar);
    var tail := rest[|bucket| + 1..];
    assert tail == path + trailer;
    RunLengthOf(tail, path, IsPathChar);
  }

  /** The greedy run over `run + more` is `run` when `more` does not go on with the class. */
  lemma {:induction false} RunLengthOf(s: string, run: string, p: char -> bool)
    requires |run| <= |s| && s[..|run|] == run && AllIn(run, p)
    requires |run| == |s| || !p(s[|run|])
    ensures RunLength(s, p) == |run|
    decreases |run|
  {
    if |run| > 0 {
      assert s[1..][..|run| - 1] == run[1..];
      RunLengthOf(s[1..], run[1..], p);
    }
  }

  /** Without `/` after the bucket there is no match, e.g. a bare `s3://bucket`. */
  lemma ParseS3NeedsSlash(bucket: string)
    requires AllIn(bucket, IsBucketChar)
    ensures ParseS3(Scheme + bucket).Err?
  {
    var s := Scheme + bucket;
    assert s[..|Scheme|] == Scheme;
    assert s[|Scheme|..] == bucket;
    RunLengthOf(bucket, bucket, IsBucketChar);
  }

  /** An empty key (`s3://bucket/`) does not match either. */
  lemma ParseS3NeedsPath(bucket: string)
    requires |bucket| > 0 && AllIn(bucket, IsBucketChar)
    ensures ParseS3(Scheme + bucket + "/").Err?
  {
    var s := Scheme + bucket + "/";
    assert s[..|Scheme|] == Scheme;
    var rest := s[|Scheme|..];
    assert rest == bucket + "/";
    RunLengthOf(rest, bucket, IsBucketChar);
    assert rest[|bucket| + 1..] == [];
  }
}
