/** The comment pass: the "new" listing and then the "top" listing go
    through one visit procedure that carries a set of seen ids, so a comment
    returned more than once is evaluated only the first time. */
module Comments {
  import opened Items
  import opened Cutoff
  import opened Snippets

  /** The state the visit procedure closes over: the seen ids, the two
      counters, the lines printed so far and the delete calls made so far. */
  datatype CommentTally = CommentTally(
    seen: set<string>,
    processed: nat,
    deleted: nat,
    lines: seq<Line>,
    deletions: seq<Target>)

  const Fresh := CommentTally({}, 0, 0, [], [])

  /** The line printed for a reported comment. */
  function CommentLine(c: Comment): Line
  {
    Line(CommentId(c.id), Snippet(c.body), c.created)
  }

  function CommentLines(cs: seq<Comment>): seq<Line>
  {
    seq(|cs|, i requires 0 <= i < |cs| => CommentLine(cs[i]))
  }

  /** The ids occurring in a listing. */
  function IdSet(cs: seq<Comment>): set<string>
  {
    set i | 0 <= i < |cs| :: cs[i].id
  }

  /** What a finished pass guarantees of its state: no more lines than
      comments counted, only eligible comments reported and none twice, no
      delete call in a dry run and exactly the reported comments deleted, in
      order, in a live run. */
  predicate Sound(t: CommentTally, cutoff: int, dry: bool)
  {
    && |t.lines| <= t.processed
    && (forall i :: 0 <= i < |t.lines| ==> t.lines[i].target.CommentId? && Eligible(t.lines[i].created, cutoff))
    && Distinct(TargetsOf(t.lines))
    && t.deletions == (if dry then [] else TargetsOf(t.lines))
    && t.deleted == |t.deletions|
  }

  /** What stays true while the pass runs: the state is sound, one comment
      was processed per seen id, and every reported comment's id is seen. */
  predicate Consistent(t: CommentTally, cutoff: int, dry: bool)
  {
    && Sound(t, cutoff, dry)
    && t.processed == |t.seen|
    && (forall i :: 0 <= i < |t.lines| ==> t.lines[i].target.id in t.seen)
  }

  /** One visit of a comment: an id already seen changes nothing; otherwise
      the id is recorded, the comment counted, and if eligible it is
      reported and, unless this is a dry run, deleted. */
  function Visit(t: CommentTally, c: Comment, cutoff: int, dry: bool): (r: CommentTally)
    ensures c.id in t.seen ==> r == t
    ensures r.seen == t.seen + {c.id}
    ensures c.id !in t.seen ==> r.processed == t.processed + 1
    ensures Consistent(t, cutoff, dry) ==> Consistent(r, cutoff, dry)
  {
    if c.id in t.seen then t
    else
      var counted := t.(seen := t.seen + {c.id}, processed := t.processed + 1);
      TargetsOfAppend(t.lines, [CommentLine(c)]);
      if !Eligible(c.created, cutoff) then counted
      else if dry then counted.(lines := counted.lines + [CommentLine(c)])
      else counted.(lines := counted.lines + [CommentLine(c)],
                    deleted := counted.deleted + 1,
                    deletions := counted.deletions + [CommentId(c.id)])
  }

  /** A listing visited comment by comment from state `t0`. The seen set
      only grows, and by exactly the listing's ids. */
  function Pass(t0: CommentTally, cs: seq<Comment>, cutoff: int, dry: bool): (t: CommentTally)
    ensures t.seen == t0.seen + IdSet(cs)
    ensures t.processed >= t0.processed
    ensures Consistent(t0, cutoff, dry) ==> Consistent(t, cutoff, dry)
    decreases |cs|
  {
    if |cs| == 0 then t0
    else
      var init := cs[..|cs| - 1];
      assert IdSet(cs) == IdSet(init) + {cs[|cs| - 1].id} by {
        assert forall i :: 0 <= i < |init| ==> init[i] == cs[i];
      }
      Visit(Pass(t0, init, cutoff, dry), cs[|cs| - 1], cutoff, dry)
  }

  /** The pass over one more comment is one more visit. */
  lemma PassSnoc(t0: CommentTally, cs: seq<Comment>, i: nat, cutoff: int, dry: bool)
    requires i < |cs|
    ensures Pass(t0, cs[..i + 1], cutoff, dry) == Visit(Pass(t0, cs[..i], cutoff, dry), cs[i], cutoff, dry)
  {
    assert cs[..i + 1][..i] == cs[..i];
  }

  /** Visiting one listing after another is visiting their concatenation. */
  lemma {:induction false} PassConcat(t0: CommentTally, a: seq<Comment>, b: seq<Comment>, cutoff: int, dry: bool)
    ensures Pass(t0, a + b, cutoff, dry) == Pass(Pass(t0, a, cutoff, dry), b, cutoff, dry)
    decreases |b|
  {
    if |b| == 0 {
      assert a + b == a;
    } else {
      var init := b[..|b| - 1];
      assert (a + b)[..|a + b| - 1] == a + init;
      PassConcat(t0, a, init, cutoff, dry);
    }
  }

  /** A listing whose ids were all seen already leaves the state unchanged:
      duplicates are neither counted nor evaluated again. */
  lemma {:induction false} RevisitChangesNothing(t: CommentTally, cs: seq<Comment>, cutoff: int, dry: bool)
    requires IdSet(cs) <= t.seen
    ensures Pass(t, cs, cutoff, dry) == t
    decreases |cs|
  {
    if |cs| > 0 {
      var init := cs[..|cs| - 1];
      assert IdSet(init) <= IdSet(cs) by {
        assert forall i :: 0 <= i < |init| ==> init[i] == cs[i];
      }
      RevisitChangesNothing(t, init, cutoff, dry);
      assert cs[|cs| - 1].id in IdSet(cs);
    }
  }

  /** Position `i` holds the first comment of the listing with its id. */
  predicate FirstOccurrence(cs: seq<Comment>, i: int)
    requires 0 <= i < |cs|
  {
    forall j :: 0 <= j < i ==> cs[j].id != cs[i].id
  }

  /** Reference: the comments that get evaluated, in order, described
      without a seen set: each id at its first occurrence. */
  function FirstVisits(cs: seq<Comment>): seq<Comment>
    decreases |cs|
  {
    if |cs| == 0 then []
    else FirstVisits(cs[..|cs| - 1]) + (if FirstOccurrence(cs, |cs| - 1) then [cs[|cs| - 1]] else [])
  }

  /** Reference: the comments of a sequence created strictly before the cutoff. */
  function OlderComments(cs: seq<Comment>, cutoff: int): seq<Comment>
    decreases |cs|
  {
    if |cs| == 0 then []
    else
      var last := cs[|cs| - 1];
      OlderComments(cs[..|cs| - 1], cutoff) + (if Eligible(last.created, cutoff) then [last] else [])
  }

  /** The id of the last comment is new exactly when it is the first
      occurrence of that id. */
  lemma FirstOccurrenceIffUnseen(cs: seq<Comment>)
    requires |cs| > 0
    ensures FirstOccurrence(cs, |cs| - 1) <==> cs[|cs| - 1].id !in IdSet(cs[..|cs| - 1])
  {
    var init := cs[..|cs| - 1];
    assert forall j :: 0 <= j < |init| ==> init[j] == cs[j];
  }

  lemma IdSetSnoc(cs: seq<Comment>, c: Comment)
    ensures IdSet(cs + [c]) == IdSet(cs) + {c.id}
  {
    assert forall i :: 0 <= i < |cs| ==> (cs + [c])[i] == cs[i];
    assert (cs + [c])[|cs|] == c;
  }

  lemma CommentLinesSnoc(cs: seq<Comment>, c: Comment)
    ensures CommentLines(cs + [c]) == CommentLines(cs) + [CommentLine(c)]
  {
    var l, r := CommentLines(cs + [c]), CommentLines(cs) + [CommentLine(c)];
    forall i | 0 <= i < |l|
      ensures l[i] == r[i]
    {
      if i < |cs| {
        assert (cs + [c])[i] == cs[i];
      }
    }
  }

  /** The effect of visiting a comment whose id is new. */
  lemma VisitUnseen(t: CommentTally, c: Comment, cutoff: int, dry: bool)
    requires c.id !in t.seen
    ensures Visit(t, c, cutoff, dry).processed == t.processed + 1
    ensures Visit(t, c, cutoff, dry).lines == t.lines + (if Eligible(c.created, cutoff) then [CommentLine(c)] else [])
    ensures Visit(t, c, cutoff, dry).deleted == t.deleted + (if Eligible(c.created, cutoff) && !dry then 1 else 0)
  {
  }

  /** Starting from the empty state, the pass evaluates exactly the first
      occurrence of every id: it counts them, reports the older ones among
      them in order, and in a live run deletes as many. */
  lemma {:induction false} PassEvaluatesFirstVisits(cs: seq<Comment>, cutoff: int, dry: bool)
    ensures Pass(Fresh, cs, cutoff, dry).processed == |FirstVisits(cs)|
    ensures Pass(Fresh, cs, cutoff, dry).lines == CommentLines(OlderComments(FirstVisits(cs), cutoff))
    ensures Pass(Fresh, cs, cutoff, dry).deleted == (if dry then 0 else |OlderComments(FirstVisits(cs), cutoff)|)
    decreases |cs|
  {
    if |cs| > 0 {
      var init := cs[..|cs| - 1];
      var last := cs[|cs| - 1];
      PassEvaluatesFirstVisits(init, cutoff, dry);
      FirstOccurrenceIffUnseen(cs);
      var before := Pass(Fresh, init, cutoff, dry);
      assert Pass(Fresh, cs, cutoff, dry) == Visit(before, last, cutoff, dry);
      assert before.seen == IdSet(init);
      var firsts := FirstVisits(init);
      if FirstOccurrence(cs, |cs| - 1) {
        VisitUnseen(before, last, cutoff, dry);
        assert FirstVisits(cs) == firsts + [last];
        assert (firsts + [last])[..|firsts|] == firsts;
        var older := OlderComments(firsts, cutoff);
        if Eligible(last.created, cutoff) {
          assert OlderComments(firsts + [last], cutoff) == older + [last];
          CommentLinesSnoc(older, last);
        } else {
          assert OlderComments(firsts + [last], cutoff) == older;
        }
      } else {
        assert FirstVisits(cs) == firsts;
      }
    }
  }

  /** Every id is evaluated once: the evaluated comments carry pairwise
      distinct ids and between them cover every id of the listing. */
  lemma {:induction false} FirstVisitsCoverIdsOnce(cs: seq<Comment>)
    ensures IdSet(FirstVisits(cs)) == IdSet(cs)
    ensures forall i, j :: 0 <= i < j < |FirstVisits(cs)| ==> FirstVisits(cs)[i].id != FirstVisits(cs)[j].id
    decreases |cs|
  {
    if |cs| > 0 {
      var init := cs[..|cs| - 1];
      var last := cs[|cs| - 1];
      FirstVisitsCoverIdsOnce(init);
      FirstOccurrenceIffUnseen(cs);
      assert cs == init + [last];
      IdSetSnoc(init, last);
      var firsts := FirstVisits(init);
      if FirstOccurrence(cs, |cs| - 1) {
        assert FirstVisits(cs) == firsts + [last];
        IdSetSnoc(firsts, last);
        forall i | 0 <= i < |firsts|
          ensures firsts[i].id != last.id
        {
          assert firsts[i].id in IdSet(firsts);
        }
      } else {
        assert FirstVisits(cs) == firsts;
      }
    }
  }

  /** A dry run reports the same comments as a live run over the same listing. */
  lemma DryRunReportsSame(cs: seq<Comment>, cutoff: int)
    ensures Pass(Fresh, cs, cutoff, true).lines == Pass(Fresh, cs, cutoff, false).lines
    ensures Pass(Fresh, cs, cutoff, true).processed == Pass(Fresh, cs, cutoff, false).processed
  {
    PassEvaluatesFirstVisits(cs, cutoff, true);
    PassEvaluatesFirstVisits(cs, cutoff, false);
  }
}
