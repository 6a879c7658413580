/** The age filter: one cutoff per run and a strict comparison against it. */
module Cutoff {

  const SecondsPerDay: int := 86400

  /** The cutoff of a run started at `now` with `--older-than olderThan`. */
  function CutoffTime(now: int, olderThan: int): (c: int)
    ensures olderThan == 0 ==> c == now
    ensures olderThan > 0 ==> c <= now - SecondsPerDay
    ensures olderThan < 0 ==> c >= now + SecondsPerDay
    ensures now - c == olderThan * SecondsPerDay
  {
    now - olderThan * SecondsPerDay
  }

  /** An item may be reported and deleted only when it was created strictly
      before the cutoff. */
  predicate Eligible(created: int, cutoff: int)
  {
    created < cutoff
  }

  /** Eligibility means "more than `olderThan` whole days old", and an item
      created exactly at the cutoff is kept. */
  lemma EligibleIffOlderThan(now: int, olderThan: int, created: int)
    ensures Eligible(created, CutoffTime(now, olderThan)) <==> now - created > olderThan * SecondsPerDay
    ensures !Eligible(CutoffTime(now, olderThan), CutoffTime(now, olderThan))
    ensures olderThan == 0 ==> (Eligible(created, CutoffTime(now, olderThan)) <==> created < now)
  {
  }

  /** A longer age filter never makes more items eligible. */
  lemma LongerFilterAdmitsFewer(now: int, shorter: int, longer: int, created: int)
    requires shorter <= longer
    ensures Eligible(created, CutoffTime(now, longer)) ==> Eligible(created, CutoffTime(now, shorter))
  {
  }

  /** With a ten-day filter, an item fifteen days old is eligible and one
      five days old is not. */
  lemma TenDayFilterExample(now: int)
    ensures Eligible(now - 15 * SecondsPerDay, CutoffTime(now, 10))
    ensures !Eligible(now - 5 * SecondsPerDay, CutoffTime(now, 10))
  {
  }
}
