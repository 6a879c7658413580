# reddit-cleanup: the cleanup decision procedure in Dafny

`main.py` deletes a user's own Reddit submissions and comments. Nearly all of
it is argument parsing, credential loading and calls into the PRAW API client.
This project models the one piece of real logic, the **cleanup decision
procedure**, and proves what it promises.

- **Cutoff and eligibility** (`Cutoff`). One cutoff per run,
  `now - olderThan * 86400`. An item is eligible only when it was created
  strictly before the cutoff.
- **Submission pass** (`Submissions`). The "new" submission listing is folded
  post by post. Every post is counted. An eligible post is reported, and in a
  live run it is also deleted.
- **Comment pass** (`Comments`). The "new" comment listing and then the "top"
  comment listing go through one visit procedure (`maybe_delete_comment` in
  the source). That procedure carries a set of seen ids, so a comment returned
  more than once is counted and evaluated only the first time.
- **Snippets** (`Snippets`). A reported comment is shown as a one-line excerpt
  of its body. Newlines become spaces, and a body longer than 60 characters is
  cut to 57 characters plus `...`.
- **The run** (`Cleanup`). Options `(olderThan, dryRun, skipSubmissions,
  skipComments)` and the three listings go in. A summary comes out with the
  four printed counters, the reported lines in print order and the delete
  calls in call order. `Execute` is the run as the program writes it, with
  loops, in-place counters and the shared visit procedure. It is proved equal
  to the functional `Run`. `Main` models the early exit when there are no
  command-line arguments.

The outbound `delete()` calls are an output list of targets (`PostId` /
`CommentId`). This makes "a dry run never deletes", "a live run deletes
exactly what it reports" and "nothing is deleted twice" into postconditions.

Reference definitions:
- The folds are checked against reference definitions that carry no state:
  - `OlderPosts`, a filter of the submission listing.
  - `FirstVisits`, the comments at the first occurrence of their id, defined
    by a quantifier over earlier positions and not by a seen set.
  - `OlderComments`.
- The comment pass is proved to keep the invariant `Comments.Consistent`.

The help text of `--older-than` (main.py:25) speaks of items older than N
days and calls 0 "no age filter". Where that text and the code differ, the
model follows the code:
- `--older-than` is parsed as an unrestricted integer, so `olderThan` is an
  `int`. A negative value puts the cutoff in the future.
- With `--older-than 0` the cutoff is the current time, not "no filter".
  Because the comparison is strict, an item stamped exactly "now" is still
  kept.

## Model

| member | source | states |
|---|---|---|
| `Cutoff.CutoffTime` | main.py:55 | The cutoff lies `olderThan` days of 86400 seconds before `now`. With no filter it is `now`. A positive filter puts it at least a day earlier and a negative one at least a day later. |
| `Cutoff.Eligible` | main.py:87 | The age test used for posts and comments alike (also main.py:108): an item qualifies only when created strictly before the cutoff. Its meaning in days is stated by `Cutoff.EligibleIffOlderThan`. |
| `Cutoff.EligibleIffOlderThan` | main.py:87 | An item is eligible iff it is more than `olderThan` whole days old. An item created exactly at the cutoff is never eligible. With no filter, eligible means created before `now`. |
| `Cutoff.LongerFilterAdmitsFewer` | main.py:55 | Raising `--older-than` never makes an item eligible that was not eligible before. |
| `Cutoff.TenDayFilterExample` | main.py:55 | With a ten-day filter an item 15 days old is eligible and one 5 days old is not. |
| `Snippets.BodyText` | main.py:109 | The text a comment is shown with: its body, or the empty text when the body is missing. |
| `Snippets.Flatten` | main.py:109 | Same length as the input. Each newline becomes a space and every other character is kept. No newline remains. |
| `Snippets.Snippet` | main.py:109-111 | No newline. A body of at most 60 characters keeps its length. A longer one gives exactly 60 characters. Each kept character is the body's own character with a newline read as a space: all of them for a short body, the first 57 for a long one. A long body ends in `...`. |
| `Snippets.SnippetBounds` | main.py:109-111 | The excerpt never exceeds 60 characters. A missing or empty body gives the empty excerpt. A single-line body of at most 60 characters is shown unchanged. |
| `Snippets.TwoLineBodyExample` | main.py:109-111 | A concrete two-line 78-character body becomes one line of exactly 60 characters: the newline is a space and the tail is replaced by `...`. |
| `Submissions.PostLine` | main.py:88-91 | The line reported for a post: the post itself, its title and its creation time. |
| `Submissions.Step` | main.py:86-94 | One iteration of the submission loop: the post is counted. Earlier lines stay as they are. One line, the post's own, is added exactly when the post is eligible. A sound state stays sound: a dry run deletes nothing and a live run deletes exactly the reported posts. |
| `Submissions.Pass` | main.py:85-94 | Every post of the listing is counted. Only posts created before the cutoff are reported. A dry run makes no delete call. A live run deletes exactly the reported posts, in order, and counts each deletion. |
| `Submissions.PassReportsOlderPosts` | main.py:85-94 | The reported lines are exactly the lines of the posts older than the cutoff, in listing order. The deleted count is 0 in a dry run and the number of older posts in a live run. |
| `Submissions.ReportedIffOlder` | main.py:87-91 | A post is reported iff it is in the listing and was created strictly before the cutoff. |
| `Submissions.DryRunReportsSame` | main.py:87-94 | Dry and live passes over one listing report the same lines and count the same posts. |
| `Submissions.NoPostDeletedTwice` | main.py:92-94 | If the listing repeats no id, the delete calls hit distinct posts. |
| `Comments.CommentLine` | main.py:109-115 | The line reported for a comment: the comment's id, the one-line excerpt of its body given by `Snippets.Snippet`, and its creation time. |
| `Comments.Visit` | main.py:101-118 | Revisiting a seen id changes nothing. The seen set grows by exactly the visited id. A new id is counted once. The invariant `Consistent` is preserved: one count per seen id, only eligible comments reported, none twice, no delete calls in a dry run, and in a live run exactly the reported comments deleted. |
| `Comments.VisitUnseen` | main.py:106-118 | For a new id: the count goes up by one. One line is appended iff the comment is eligible. One deletion is counted iff it is eligible and the run is live. |
| `Comments.Pass` | main.py:121-122 | The seen set only grows, and by exactly the ids of the listing. The count never drops. The invariant `Consistent` is preserved over the whole listing. |
| `Comments.PassConcat` | main.py:120-124 | Running the "new" loop and then the "top" loop over one shared state is the same as one pass over the two listings concatenated. |
| `Comments.RevisitChangesNothing` | main.py:103-105 | A listing whose ids were all seen already leaves the state entirely unchanged. |
| `Comments.PassEvaluatesFirstVisits` | main.py:101-124 | From the empty state, the processed count is the number of first occurrences of ids. The reported lines are those first occurrences that are older than the cutoff, in order. The deleted count is 0 in a dry run and their number in a live run. |
| `Comments.FirstVisitsCoverIdsOnce` | main.py:103-107 | The evaluated comments have pairwise distinct ids. Between them they cover every id of the listing. |
| `Comments.DryRunReportsSame` | main.py:108-118 | Dry and live passes over one listing report the same lines and count the same comments. |
| `Cleanup.CommentPass` | main.py:120-124 | The "new" loop then the "top" loop over one shared state. Afterwards the seen ids are exactly the ids of the two listings. That this equals one pass over the joined listings is `Comments.PassConcat`. |
| `Cleanup.CommentPassFacts` | main.py:97-124 | After "new" then "top": the processed count equals the number of distinct ids across both listings. Only eligible comments are reported, none twice. A dry run deletes nothing and a live run deletes exactly the reported comments. |
| `Cleanup.PostsOf` | main.py:84-94 | With `--skip-submissions` the submission part is empty, with zero counters. Otherwise every post is counted and the part is sound. |
| `Cleanup.CommentsOf` | main.py:120-124 | With `--skip-comments` the comment part is empty, with zero counters. Otherwise the count is the number of distinct ids across both listings and the part is sound. |
| `Cleanup.Combine` | main.py:80-99 | The summary is assembled from the two parts: post counters from the submission part and comment counters from the comment part. Post lines and deletions come before comment ones. Its guarantees are stated by `Cleanup.CombineSound`. |
| `Cleanup.CombineSound` | main.py:80-124 | Joining the two parts: deleted ≤ processed for each kind. Every reported item is eligible. A dry run deletes nothing. A live run deletes exactly the reported items, in report order. |
| `Cleanup.Run` | main.py:80-124 | Skipping submissions zeroes both post counters and reports no post. Skipping comments zeroes both comment counters and reports no comment. Otherwise `processedPosts` is the submission count and `processedComments` the number of distinct comment ids. Deleted never exceeds processed. |
| `Cleanup.DryRunNeverDeletes` | main.py:86-118 | Every reported item was created strictly before the cutoff. A dry run makes no delete call and both deleted counters are 0. A live run deletes exactly the reported items in order, and the counters add up to the number of delete calls. |
| `Cleanup.Main` | main.py:48-52 | With no command-line argument the program exits 0 before any processing. With arguments that parse and credentials that load, it performs the run and exits 0. |
| `Cleanup.SubmissionLoop` | main.py:80-94 | The in-place loop with its counters computes exactly the submission pass. |
| `Cleanup.CommentLoop` | main.py:120-124 | Feeding one listing to the visit procedure in a loop computes exactly the pass over that listing from the given state. |
| `Cleanup.Execute` | main.py:55-124 | The imperative run (cutoff, guarded submission loop, guarded "new" and "top" comment loops) produces exactly the summary of `Run`. |
| `Cleanup.DryRunReportsSameAsLive` | main.py:84-124 | Given the same listings, a dry run reports the same lines and processes the same counts as a live run with otherwise equal options. |
| `Cleanup.RunReportsOlderItems` | main.py:84-124 | A run reports the older posts unless submissions are skipped. After them it reports the older first visits of comment ids across "new" followed by "top", unless comments are skipped. For each kind not skipped, a live run deletes as many as it reports and a dry run deletes none. |
| `Cleanup.PostReportedIffOlder` | main.py:87-91 | Strict cutoff, both directions: a post is reported iff it is listed and created strictly before the cutoff. |
| `Cleanup.LiveRunDeletesOlderPosts` | main.py:92-94 | A live run deletes every listed post created strictly before the cutoff. |
| `Cleanup.DeletedPostWasOlder` | main.py:87-94 | A post id is deleted only if a listed post with that id was created strictly before the cutoff. So no post at or after the cutoff is deleted on its own account. |
| `Cleanup.NoItemDeletedTwice` | main.py:85-118 | No comment is ever deleted twice, whatever the listings repeat. No post is deleted twice when the submission listing repeats no id. |

## Left out

- PRAW: authentication, `reddit.user.me()`, the listings with their pagination, and the `delete()` network calls (main.py:68-76, 85, 93, 117, 121, 123). These are calls into a client library. The listings are input sequences and the delete calls are an output list of targets.
- Listings as they change during a run. The program reads each listing lazily while it deletes (main.py:85-93, 121-122). The "top" listing is only requested after the "new" loop has deleted (main.py:123). So a live run reads from an account its own deletions have already changed, and a dry run does not. The model takes the three listings as fixed inputs that the run's deletions do not affect. `Cleanup.DryRunReportsSameAsLive` and the `DryRunReportsSame` lemmas compare a dry and a live run over the same listings.
- Failures while listing or deleting: an exception would abort the rest of the run. The model drains every listing and treats every delete as successful, because failures come from the client library, which is not modelled.
- Reading `secrets.json` and its exit code 2 for a missing or malformed file (main.py:58-66). This is file I/O and the JSON library.
- Cleanup.Main: the run branch assumes that argument parsing succeeds and `secrets.json` loads. These exits are not modelled: `-h`/`--help` prints help and exits 0 without a run (main.py:54). Malformed arguments exit 2 (main.py:54). A missing or invalid `secrets.json` exits 2 (main.py:58-66). For any non-empty `argv` the model performs the run.
- The interleaving of printing and deleting. The program prints an item's line and then deletes that item, item by item (main.py:88-93, 112-117). The model keeps the reported lines and the delete calls as two separate lists. Each list keeps its own order, and a live run deletes exactly the reported items in report order. Which print comes before which delete is not represented. With failures left out this loses no outcome.
- argparse: building the parser, help text, and argparse's own exit on malformed arguments (main.py:11-42, 54). The parsed options are a parameter of `Main`. `argv` only decides the no-argument exit.
- All printing: the help text, `human_utc` date formatting, the `[DRY-RUN] ` prefix, the summary block with its "(simulated)" marks, and the notes (main.py:8-9, 51, 78, 88-91, 112-115, 126-138). This is presentation. A reported line keeps the item, its title or snippet and its creation time. So, given the same listings, dry and live runs print the same lines up to the prefix.
- Float timestamps from `time.time()` and `created_utc` are whole seconds (`int`). Sub-second comparisons are not modelled.
- Character counting: `len` in Python counts code points and a Dafny `char` is a Unicode scalar value. Strings holding lone surrogates are not considered.
- Cleanup.NoItemDeletedTwice: for posts it assumes the submission listing repeats no id. The program does not deduplicate submissions, and the API promises unique ids.
