/** The submission pass: every post of the "new" listing is counted, and a
    post older than the cutoff is reported and, in a live run, deleted. */
module Submissions {
  import opened Items
  import opened Cutoff

  /** The loop state of the pass: the two counters, the lines printed so far
      and the delete calls made so far. */
  datatype PostTally = PostTally(processed: nat, deleted: nat, lines: seq<Line>, deletions: seq<Target>)

  const NoPosts := PostTally(0, 0, [], [])

  /** The line printed for a reported post. */
  function PostLine(s: Submission): Line
  {
    Line(PostId(s.id), s.title, s.created)
  }

  function PostLines(ss: seq<Submission>): seq<Line>
  {
    seq(|ss|, i requires 0 <= i < |ss| => PostLine(ss[i]))
  }

  /** No two posts of the listing share an id. */
  predicate DistinctIds(ss: seq<Submission>)
  {
    forall i, j :: 0 <= i < j < |ss| ==> ss[i].id != ss[j].id
  }

  /** One iteration of the loop: count the post; if it is eligible, report
      it and, unless this is a dry run, delete it. Earlier lines are kept,
      one line is added exactly when the post is eligible, and a sound state
      stays sound. */
  function Step(t: PostTally, s: Submission, cutoff: int, dry: bool): (r: PostTally)
    ensures r.processed == t.processed + 1
    ensures |r.lines| == |t.lines| + (if Eligible(s.created, cutoff) then 1 else 0)
    ensures r.lines[..|t.lines|] == t.lines
    ensures Eligible(s.created, cutoff) ==> r.lines[|t.lines|] == PostLine(s)
    ensures Sound(t, cutoff, dry) ==> Sound(r, cutoff, dry)
  {
    TargetsOfAppend(t.lines, [PostLine(s)]);
    var counted := t.(processed := t.processed + 1);
    if !Eligible(s.created, cutoff) then counted
    else if dry then counted.(lines := counted.lines + [PostLine(s)])
    else counted.(lines := counted.lines + [PostLine(s)],
                  deleted := counted.deleted + 1,
                  deletions := counted.deletions + [PostId(s.id)])
  }

  /** What the pass guarantees of its state: no more lines than posts
      counted, only eligible posts reported, no delete call in a dry run and
      exactly the reported posts deleted, in order, in a live run. */
  predicate Sound(t: PostTally, cutoff: int, dry: bool)
  {
    && |t.lines| <= t.processed
    && (forall i :: 0 <= i < |t.lines| ==> t.lines[i].target.PostId? && Eligible(t.lines[i].created, cutoff))
    && t.deletions == (if dry then [] else TargetsOf(t.lines))
    && t.deleted == |t.deletions|
  }

  /** The pass over a listing: the state after the last post. Every post is
      counted and the state stays sound. */
  function Pass(subs: seq<Submission>, cutoff: int, dry: bool): (t: PostTally)
    ensures t.processed == |subs|
    ensures Sound(t, cutoff, dry)
    decreases |subs|
  {
    if |subs| == 0 then NoPosts
    else
      var before := Pass(subs[..|subs| - 1], cutoff, dry);
      TargetsOfAppend(before.lines, [PostLine(subs[|subs| - 1])]);
      Step(before, subs[|subs| - 1], cutoff, dry)
  }

  /** Reference: the posts created strictly before the cutoff, in listing order. */
  function OlderPosts(subs: seq<Submission>, cutoff: int): seq<Submission>
    decreases |subs|
  {
    if |subs| == 0 then []
    else
      var last := subs[|subs| - 1];
      OlderPosts(subs[..|subs| - 1], cutoff) + (if Eligible(last.created, cutoff) then [last] else [])
  }

  /** A post is among the older posts exactly when it is in the listing and
      was created strictly before the cutoff. */
  lemma {:induction false} OlderPostsMembers(subs: seq<Submission>, cutoff: int, s: Submission)
    ensures s in OlderPosts(subs, cutoff) <==> s in subs && Eligible(s.created, cutoff)
    decreases |subs|
  {
    if |subs| > 0 {
      var init := subs[..|subs| - 1];
      OlderPostsMembers(init, cutoff, s);
      assert subs == init + [subs[|subs| - 1]];
    }
  }

  /** The pass reports exactly the older posts, in listing order, whatever
      the dry-run flag; a live run deletes as many posts as are older. */
  lemma {:induction false} PassReportsOlderPosts(subs: seq<Submission>, cutoff: int, dry: bool)
    ensures Pass(subs, cutoff, dry).lines == PostLines(OlderPosts(subs, cutoff))
    ensures Pass(subs, cutoff, dry).deleted == (if dry then 0 else |OlderPosts(subs, cutoff)|)
    decreases |subs|
  {
    if |subs| > 0 {
      var init := subs[..|subs| - 1];
      var last := subs[|subs| - 1];
      PassReportsOlderPosts(init, cutoff, dry);
      var before := Pass(init, cutoff, dry);
      assert Pass(subs, cutoff, dry) == Step(before, last, cutoff, dry);
      var older := OlderPosts(init, cutoff);
      if Eligible(last.created, cutoff) {
        assert OlderPosts(subs, cutoff) == older + [last];
        PostLinesSnoc(older, last);
      } else {
        assert OlderPosts(subs, cutoff) == older;
      }
    }
  }

  lemma PostLinesSnoc(ss: seq<Submission>, s: Submission)
    ensures PostLines(ss + [s]) == PostLines(ss) + [PostLine(s)]
  {
    var l, r := PostLines(ss + [s]), PostLines(ss) + [PostLine(s)];
    forall i | 0 <= i < |l|
      ensures l[i] == r[i]
    {
      if i < |ss| {
        assert (ss + [s])[i] == ss[i];
      }
    }
  }

  /** Strict cutoff, both directions: a post is reported iff it is in the
      listing and was created strictly before the cutoff. */
  lemma ReportedIffOlder(subs: seq<Submission>, cutoff: int, dry: bool, s: Submission)
    ensures PostLine(s) in Pass(subs, cutoff, dry).lines <==> s in subs && Eligible(s.created, cutoff)
  {
    PassReportsOlderPosts(subs, cutoff, dry);
    OlderPostsMembers(subs, cutoff, s);
    var older := OlderPosts(subs, cutoff);
    if PostLine(s) in PostLines(older) {
      var i :| 0 <= i < |older| && PostLines(older)[i] == PostLine(s);
      assert older[i] == s;
    }
    if s in older {
      var i :| 0 <= i < |older| && older[i] == s;
      assert PostLines(older)[i] == PostLine(s);
    }
  }

  /** A dry run reports the same posts as a live run over the same listing. */
  lemma DryRunReportsSame(subs: seq<Submission>, cutoff: int)
    ensures Pass(subs, cutoff, true).lines == Pass(subs, cutoff, false).lines
    ensures Pass(subs, cutoff, true).processed == Pass(subs, cutoff, false).processed
  {
    PassReportsOlderPosts(subs, cutoff, true);
    PassReportsOlderPosts(subs, cutoff, false);
  }

  /** The older posts of a listing without repeated ids have distinct ids. */
  lemma {:induction false} OlderPostsDistinct(subs: seq<Submission>, cutoff: int)
    requires DistinctIds(subs)
    ensures DistinctIds(OlderPosts(subs, cutoff))
    decreases |subs|
  {
    if |subs| > 0 {
      var init := subs[..|subs| - 1];
      var last := subs[|subs| - 1];
      OlderPostsDistinct(init, cutoff);
      var older := OlderPosts(init, cutoff);
      forall i | 0 <= i < |older|
        ensures older[i].id != last.id
      {
        OlderPostsMembers(init, cutoff, older[i]);
        var k :| 0 <= k < |init| && init[k] == older[i];
      }
    }
  }

  /** When the listing repeats no id, no post is deleted twice. */
  lemma NoPostDeletedTwice(subs: seq<Submission>, cutoff: int, dry: bool)
    requires DistinctIds(subs)
    ensures Distinct(Pass(subs, cutoff, dry).deletions)
  {
    PassReportsOlderPosts(subs, cutoff, dry);
    OlderPostsDistinct(subs, cutoff);
    var older := OlderPosts(subs, cutoff);
    var ts := TargetsOf(PostLines(older));
    assert forall i :: 0 <= i < |ts| ==> ts[i] == PostId(older[i].id);
  }
}
