/** The records a cleanup run works on: the user's content items as the
    listings return them, the options of one run, the lines the run reports
    and the summary it ends with. Timestamps are whole epoch seconds. */
module Items {

  /** A value that may be absent, such as a comment body the API returns as None. */
  datatype Option<T> = None | Some(value: T)

  /** A post of the user, as the "new" submissions listing returns it. */
  datatype Submission = Submission(id: string, title: string, created: int)

  /** A comment of the user, as the "new" and "top" comment listings return it. */
  datatype Comment = Comment(id: string, body: Option<string>, created: int)

  /** What a delete call is sent to. Ids are unique only within their kind. */
  datatype Target = PostId(id: string) | CommentId(id: string)

  /** One reported line: the item, its display text (post title or comment
      snippet) and its creation time. The dry-run prefix and the date
      formatting are presentation and are not part of the line. */
  datatype Line = Line(target: Target, text: string, created: int)

  /** The command-line options that steer one run. */
  datatype Options = Options(olderThan: int, dryRun: bool, skipSubmissions: bool, skipComments: bool)

  /** What a run produces: the four printed counters, the reported lines in
      the order they were printed and the delete calls in the order they
      were made. */
  datatype Summary = Summary(
    processedPosts: nat,
    deletedPosts: nat,
    processedComments: nat,
    deletedComments: nat,
    reported: seq<Line>,
    deleted: seq<Target>)

  function TargetsOf(lines: seq<Line>): (ts: seq<Target>)
  {
    seq(|lines|, i requires 0 <= i < |lines| => lines[i].target)
  }

  lemma TargetsOfAppend(a: seq<Line>, b: seq<Line>)
    ensures TargetsOf(a + b) == TargetsOf(a) + TargetsOf(b)
  {
    assert forall i :: 0 <= i < |a + b| ==> TargetsOf(a + b)[i] == (TargetsOf(a) + TargetsOf(b))[i];
  }

  /** No element occurs twice. */
  predicate Distinct<T(==)>(s: seq<T>)
  {
    forall i, j :: 0 <= i < j < |s| ==> s[i] != s[j]
  }

  lemma DistinctConcat<T>(a: seq<T>, b: seq<T>)
    requires Distinct(a) && Distinct(b)
    requires forall i, j :: 0 <= i < |a| && 0 <= j < |b| ==> a[i] != b[j]
    ensures Distinct(a + b)
  {
  }
}
