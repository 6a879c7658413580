/** One cleanup run: compute the cutoff, make the submission pass and the
    comment pass (each unless skipped), and produce the summary. */
module Cleanup {
  import opened Items
  import opened Cutoff
  import Submissions
  import Comments

  /** How the program ends: its exit code and, when it got as far as
      processing, the summary of the run. */
  datatype Exit = Exit(code: int, summary: Option<Summary>)

  /** The comment pass as the program makes it: the "new" listing first,
      then the "top" listing, through one shared state. Afterwards it has
      seen every id of both listings and no other. */
  function CommentPass(newest: seq<Comment>, top: seq<Comment>, cutoff: int, dry: bool): (t: Comments.CommentTally)
    ensures t.seen == Comments.IdSet(newest) + Comments.IdSet(top)
  {
    Comments.Pass(Comments.Pass(Comments.Fresh, newest, cutoff, dry), top, cutoff, dry)
  }

  /** What the comment pass over both listings guarantees: one processed
      comment per distinct id across the two listings, only eligible
      comments reported and each at most once, no delete call in a dry run
      and exactly the reported comments deleted in a live run. */
  lemma CommentPassFacts(newest: seq<Comment>, top: seq<Comment>, cutoff: int, dry: bool)
    ensures CommentPass(newest, top, cutoff, dry).processed == |Comments.IdSet(newest) + Comments.IdSet(top)|
    ensures Comments.Sound(CommentPass(newest, top, cutoff, dry), cutoff, dry)
  {
    assert Comments.Consistent(Comments.Fresh, cutoff, dry);
    var afterNew := Comments.Pass(Comments.Fresh, newest, cutoff, dry);
    assert Comments.Consistent(afterNew, cutoff, dry);
    var afterTop := Comments.Pass(afterNew, top, cutoff, dry);
    assert afterTop.seen == Comments.IdSet(newest) + Comments.IdSet(top);
    assert Comments.Consistent(afterTop, cutoff, dry);
  }

  /** The submission part of a run: the pass over the listing, or nothing
      at all when submissions are skipped. */
  function PostsOf(opts: Options, subs: seq<Submission>, cutoff: int): (t: Submissions.PostTally)
    ensures opts.skipSubmissions ==> t == Submissions.NoPosts
    ensures !opts.skipSubmissions ==> t.processed == |subs|
    ensures Submissions.Sound(t, cutoff, opts.dryRun)
  {
    if opts.skipSubmissions then Submissions.NoPosts else Submissions.Pass(subs, cutoff, opts.dryRun)
  }

  /** The comment part of a run: both listings through one shared state,
      or nothing at all when comments are skipped. */
  function CommentsOf(opts: Options, newest: seq<Comment>, top: seq<Comment>, cutoff: int): (t: Comments.CommentTally)
    ensures opts.skipComments ==> t == Comments.Fresh
    ensures !opts.skipComments ==> t.processed == |Comments.IdSet(newest) + Comments.IdSet(top)|
    ensures Comments.Sound(t, cutoff, opts.dryRun)
  {
    CommentPassFacts(newest, top, cutoff, opts.dryRun);
    if opts.skipComments then Comments.Fresh else CommentPass(newest, top, cutoff, opts.dryRun)
  }

  /** The summary of a run from its two parts: posts first, then comments. */
  function Combine(posts: Submissions.PostTally, comments: Comments.CommentTally): Summary
  {
    Summary(posts.processed, posts.deleted, comments.processed, comments.deleted,
            posts.lines + comments.lines, posts.deletions + comments.deletions)
  }

  /** Putting two sound parts together: every reported item is eligible, a
      dry run deletes nothing, a live run deletes exactly what it reports. */
  lemma CombineSound(posts: Submissions.PostTally, comments: Comments.CommentTally, cutoff: int, dry: bool)
    requires Submissions.Sound(posts, cutoff, dry) && Comments.Sound(comments, cutoff, dry)
    ensures var r := Combine(posts, comments);
            && r.deletedPosts <= r.processedPosts && r.deletedComments <= r.processedComments
            && (posts.lines == [] ==> forall i :: 0 <= i < |r.reported| ==> r.reported[i].target.CommentId?)
            && (comments.lines == [] ==> forall i :: 0 <= i < |r.reported| ==> r.reported[i].target.PostId?)
            && (forall i :: 0 <= i < |r.reported| ==> Eligible(r.reported[i].created, cutoff))
            && (dry ==> r.deleted == [] && r.deletedPosts == 0 && r.deletedComments == 0)
            && (!dry ==> r.deleted == TargetsOf(r.reported))
            && r.deletedPosts + r.deletedComments == |r.deleted|
  {
    TargetsOfAppend(posts.lines, comments.lines);
  }

  /** Putting two sound parts together keeps the kinds apart: post lines
      and post deletions of the summary are those of the submission part,
      and no item is deleted twice when no post is. */
  lemma CombineKeepsKindsApart(posts: Submissions.PostTally, comments: Comments.CommentTally, cutoff: int, dry: bool,
                               line: Line, id: string)
    requires Submissions.Sound(posts, cutoff, dry) && Comments.Sound(comments, cutoff, dry)
    requires line.target.PostId?
    ensures line in Combine(posts, comments).reported <==> line in posts.lines
    ensures PostId(id) in Combine(posts, comments).deleted <==> PostId(id) in posts.deletions
    ensures Distinct(posts.deletions) ==> Distinct(Combine(posts, comments).deleted)
  {
    assert forall i :: 0 <= i < |comments.deletions| ==> comments.deletions[i].CommentId?;
    if Distinct(posts.deletions) {
      assert forall i :: 0 <= i < |posts.deletions| ==> posts.deletions[i].PostId?;
      DistinctConcat(posts.deletions, comments.deletions);
    }
  }

  /** The run over the given listings, for options `opts` and clock reading
      `now`: the submission part, then the comment part. A skipped kind
      leaves its counters at zero and reports nothing of that kind. */
  function Run(opts: Options, now: int, subs: seq<Submission>, newest: seq<Comment>, top: seq<Comment>): (r: Summary)
    ensures opts.skipSubmissions ==> r.processedPosts == 0 && r.deletedPosts == 0
    ensures !opts.skipSubmissions ==> r.processedPosts == |subs|
    ensures opts.skipSubmissions ==> forall i :: 0 <= i < |r.reported| ==> r.reported[i].target.CommentId?
    ensures opts.skipComments ==> r.processedComments == 0 && r.deletedComments == 0
    ensures opts.skipComments ==> forall i :: 0 <= i < |r.reported| ==> r.reported[i].target.PostId?
    ensures !opts.skipComments ==> r.processedComments == |Comments.IdSet(newest) + Comments.IdSet(top)|
    ensures r.deletedPosts <= r.processedPosts && r.deletedComments <= r.processedComments
  {
    var cutoff := CutoffTime(now, opts.olderThan);
    var posts := PostsOf(opts, subs, cutoff);
    var comments := CommentsOf(opts, newest, top, cutoff);
    CombineSound(posts, comments, cutoff, opts.dryRun);
    Combine(posts, comments)
  }

  /** Strict cutoff, and dry run against live run: every reported item was
      created strictly before the cutoff, so nothing created at or after it
      is reported or deleted; a dry run makes no delete call and counts no
      deletion; a live run deletes exactly the reported items, in the order
      they were reported. */
  lemma DryRunNeverDeletes(opts: Options, now: int, subs: seq<Submission>, newest: seq<Comment>, top: seq<Comment>)
    ensures var r := Run(opts, now, subs, newest, top);
            && (forall i :: 0 <= i < |r.reported| ==> Eligible(r.reported[i].created, CutoffTime(now, opts.olderThan)))
            && (opts.dryRun ==> r.deleted == [] && r.deletedPosts == 0 && r.deletedComments == 0)
            && (!opts.dryRun ==> r.deleted == TargetsOf(r.reported))
            && r.deletedPosts + r.deletedComments == |r.deleted|
  {
    var cutoff := CutoffTime(now, opts.olderThan);
    CombineSound(PostsOf(opts, subs, cutoff), CommentsOf(opts, newest, top, cutoff), cutoff, opts.dryRun);
  }

  /** The program entry: with no command-line arguments it only shows its
      usage and exits with 0, before any listing is fetched; otherwise it
      makes the run and exits with 0. */
  function Main(argv: seq<string>, opts: Options, now: int,
                subs: seq<Submission>, newest: seq<Comment>, top: seq<Comment>): (e: Exit)
    ensures e.code == 0
    ensures e.summary.None? <==> |argv| == 0
    ensures e.summary.Some? ==> e.summary.value == Run(opts, now, subs, newest, top)
  {
    if |argv| == 0 then Exit(0, None)
    else Exit(0, Some(Run(opts, now, subs, newest, top)))
  }

  /** The submission loop written the way the program does it: counters
      and lists updated in place, post by post. */
  method SubmissionLoop(subs: seq<Submission>, cutoff: int, dry: bool) returns (t: Submissions.PostTally)
    ensures t == Submissions.Pass(subs, cutoff, dry)
  {
    var deletedPosts, processedPosts := 0, 0;
    var lines: seq<Line> := [];
    var deletions: seq<Target> := [];
    var i := 0;
    while i < |subs|
      invariant 0 <= i <= |subs|
      invariant Submissions.PostTally(processedPosts, deletedPosts, lines, deletions)
             == Submissions.Pass(subs[..i], cutoff, dry)
    {
      var submission := subs[i];
      assert subs[..i + 1][..i] == subs[..i];
      processedPosts := processedPosts + 1;
      if Eligible(submission.created, cutoff) {
        lines := lines + [Submissions.PostLine(submission)];
        if !dry {
          deletions := deletions + [PostId(submission.id)];
          deletedPosts := deletedPosts + 1;
        }
      }
      i := i + 1;
    }
    assert subs[..|subs|] == subs;
    t := Submissions.PostTally(processedPosts, deletedPosts, lines, deletions);
  }

  /** One comment listing fed, comment by comment, to the visit procedure,
      starting from the state the previous listing left. */
  method CommentLoop(t0: Comments.CommentTally, cs: seq<Comment>, cutoff: int, dry: bool) returns (t: Comments.CommentTally)
    ensures t == Comments.Pass(t0, cs, cutoff, dry)
  {
    t := t0;
    var i := 0;
    while i < |cs|
      invariant 0 <= i <= |cs|
      invariant t == Comments.Pass(t0, cs[..i], cutoff, dry)
    {
      Comments.PassSnoc(t0, cs, i, cutoff, dry);
      t := Comments.Visit(t, cs[i], cutoff, dry);
      i := i + 1;
    }
    assert cs[..|cs|] == cs;
  }

  /** The run written the way the program does it: the submission loop
      unless skipped, then the "new" and the "top" comment loops over one
      shared state unless skipped. */
  method Execute(opts: Options, now: int, subs: seq<Submission>, newest: seq<Comment>, top: seq<Comment>)
    returns (r: Summary)
    ensures r == Run(opts, now, subs, newest, top)
  {
    var cutoff := CutoffTime(now, opts.olderThan);
    var posts := Submissions.NoPosts;
    if !opts.skipSubmissions {
      posts := SubmissionLoop(subs, cutoff, opts.dryRun);
    }
    assert posts == PostsOf(opts, subs, cutoff);
    var comments := Comments.Fresh;
    if !opts.skipComments {
      comments := CommentLoop(comments, newest, cutoff, opts.dryRun);
      comments := CommentLoop(comments, top, cutoff, opts.dryRun);
    }
    assert comments == CommentsOf(opts, newest, top, cutoff);
    r := Summary(posts.processed, posts.deleted, comments.processed, comments.deleted,
                 posts.lines + comments.lines, posts.deletions + comments.deletions);
  }

  /** A dry run reports the same items and counts the same items as a live
      run with otherwise equal options. */
  lemma DryRunReportsSameAsLive(opts: Options, now: int, subs: seq<Submission>, newest: seq<Comment>, top: seq<Comment>)
    ensures Run(opts.(dryRun := true), now, subs, newest, top).reported
         == Run(opts.(dryRun := false), now, subs, newest, top).reported
    ensures Run(opts.(dryRun := true), now, subs, newest, top).processedPosts
         == Run(opts.(dryRun := false), now, subs, newest, top).processedPosts
    ensures Run(opts.(dryRun := true), now, subs, newest, top).processedComments
         == Run(opts.(dryRun := false), now, subs, newest, top).processedComments
  {
    var cutoff := CutoffTime(now, opts.olderThan);
    Submissions.DryRunReportsSame(subs, cutoff);
    Comments.PassConcat(Comments.Fresh, newest, top, cutoff, true);
    Comments.PassConcat(Comments.Fresh, newest, top, cutoff, false);
    Comments.DryRunReportsSame(newest + top, cutoff);
  }

  /** What a run reports, against the reference definitions: unless
      skipped, the posts created strictly before the cutoff, then, unless
      skipped, the first visit of every comment id across "new" followed by
      "top", kept when created strictly before the cutoff; a live run
      deletes as many of each kind it does not skip. */
  lemma RunReportsOlderItems(opts: Options, now: int, subs: seq<Submission>, newest: seq<Comment>, top: seq<Comment>)
    ensures var cutoff := CutoffTime(now, opts.olderThan);
            var olderPosts := Submissions.OlderPosts(subs, cutoff);
            var older := Comments.OlderComments(Comments.FirstVisits(newest + top), cutoff);
            var r := Run(opts, now, subs, newest, top);
            && r.reported == (if opts.skipSubmissions then [] else Submissions.PostLines(olderPosts))
                           + (if opts.skipComments then [] else Comments.CommentLines(older))
            && (!opts.skipSubmissions ==> r.deletedPosts == (if opts.dryRun then 0 else |olderPosts|))
            && (!opts.skipComments ==> r.deletedComments == (if opts.dryRun then 0 else |older|))
  {
    var cutoff := CutoffTime(now, opts.olderThan);
    Submissions.PassReportsOlderPosts(subs, cutoff, opts.dryRun);
    Comments.PassConcat(Comments.Fresh, newest, top, cutoff, opts.dryRun);
    Comments.PassEvaluatesFirstVisits(newest + top, cutoff, opts.dryRun);
  }

  /** Strict cutoff for posts, both directions: a post is reported iff it is
      listed and created strictly before the cutoff. */
  lemma PostReportedIffOlder(opts: Options, now: int, subs: seq<Submission>, newest: seq<Comment>, top: seq<Comment>,
                             s: Submission)
    requires !opts.skipSubmissions
    ensures Submissions.PostLine(s) in Run(opts, now, subs, newest, top).reported
        <==> s in subs && Eligible(s.created, CutoffTime(now, opts.olderThan))
  {
    var cutoff := CutoffTime(now, opts.olderThan);
    var posts := PostsOf(opts, subs, cutoff);
    var comments := CommentsOf(opts, newest, top, cutoff);
    CombineKeepsKindsApart(posts, comments, cutoff, opts.dryRun, Submissions.PostLine(s), s.id);
    Submissions.ReportedIffOlder(subs, cutoff, opts.dryRun, s);
  }

  /** A live run deletes every listed post created strictly before the cutoff. */
  lemma LiveRunDeletesOlderPosts(opts: Options, now: int, subs: seq<Submission>, newest: seq<Comment>, top: seq<Comment>,
                                 s: Submission)
    requires !opts.skipSubmissions && !opts.dryRun
    requires s in subs && Eligible(s.created, CutoffTime(now, opts.olderThan))
    ensures PostId(s.id) in Run(opts, now, subs, newest, top).deleted
  {
    var r := Run(opts, now, subs, newest, top);
    PostReportedIffOlder(opts, now, subs, newest, top, s);
    DryRunNeverDeletes(opts, now, subs, newest, top);
    var k :| 0 <= k < |r.reported| && r.reported[k] == Submissions.PostLine(s);
    assert r.deleted[k] == PostId(s.id);
  }

  /** No run deletes a post id unless a listed post with that id was
      created strictly before the cutoff. */
  lemma DeletedPostWasOlder(opts: Options, now: int, subs: seq<Submission>, newest: seq<Comment>, top: seq<Comment>,
                            id: string)
    ensures PostId(id) in Run(opts, now, subs, newest, top).deleted
            ==> exists s :: s in subs && s.id == id && Eligible(s.created, CutoffTime(now, opts.olderThan))
  {
    var cutoff := CutoffTime(now, opts.olderThan);
    var posts := PostsOf(opts, subs, cutoff);
    var comments := CommentsOf(opts, newest, top, cutoff);
    CombineKeepsKindsApart(posts, comments, cutoff, opts.dryRun, Submissions.PostLine(Submission(id, "", 0)), id);
    if PostId(id) in posts.deletions {
      var k :| 0 <= k < |posts.deletions| && posts.deletions[k] == PostId(id);
      assert !opts.skipSubmissions && !opts.dryRun;
      Submissions.PassReportsOlderPosts(subs, cutoff, opts.dryRun);
      var older := Submissions.OlderPosts(subs, cutoff);
      Submissions.OlderPostsMembers(subs, cutoff, older[k]);
    }
  }

  /** When the submission listing repeats no id, no item is deleted twice;
      comments never are, whatever the listings repeat. */
  lemma NoItemDeletedTwice(opts: Options, now: int, subs: seq<Submission>, newest: seq<Comment>, top: seq<Comment>)
    requires Submissions.DistinctIds(subs) || opts.skipSubmissions
    ensures Distinct(Run(opts, now, subs, newest, top).deleted)
  {
    var cutoff := CutoffTime(now, opts.olderThan);
    var posts := PostsOf(opts, subs, cutoff);
    var comments := CommentsOf(opts, newest, top, cutoff);
    if !opts.skipSubmissions {
      Submissions.NoPostDeletedTwice(subs, cutoff, opts.dryRun);
    }
    CombineKeepsKindsApart(posts, comments, cutoff, opts.dryRun, Submissions.PostLine(Submission("", "", 0)), "");
  }
}
