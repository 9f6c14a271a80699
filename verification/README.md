# Kaoyan study-notes generators, modelled in Dafny

This project models the three small programs of the Obsidian study-vault
repository that carry real logic:

- **The minimal daily-plan generator** (`community/scripts/auto_daily_plan_min.py`).
  - It picks the study phase that covers the day and the weekday name.
  - It skips the run when today's note exists.
  - Otherwise it reads yesterday's note for the unfinished tasks and the completion rate.
  - It orders the phase's subjects by weight and spreads them over six fixed time windows, with the review forced into the last one.
  - It writes the Markdown note.
- **The minimal arXiv digest generator** (`community/scripts/paper_digest_min.py`).
  - It condenses each fetched Atom entry: title, abstract, authors and categories.
  - It clips the abstract into a quoted callout.
  - It lays out the digest as numbered sections.
  - It skips an existing digest and fails without writing when the fetch fails.
- **The Obsidian MCP launcher** (`start_obsidian.py`).
  - It loads a `.env` file into the environment, line by line.
  - It stops with status 1 when `OBSIDIAN_API_KEY` is still unset afterwards.

Everything is pure functions over immutable data:

- Dates are Python day ordinals.
- The note directory is a map from file name to content, plus the order of its listing.
- The environment is a map.
- Every run returns an outcome: skipped, generated with a name and content, or failed with the error message.

Files, in dependency order:

- `wrappers.dfy`: `Option` and `Result`.
- `text.dfy`: the Python `str` behaviour the scripts rely on.
  - `strip` with the exact `str.isspace` set.
  - Splitting and joining on a separator.
  - Universal-newline translation.
  - Code-point order.
  - Decimal formatting.
  - `s[:k]` slicing, including negative `k`.
- `calendar.dfy`: `weekday()`, `isoformat()` and `strftime('%m.%d')` on ordinals, following CPython's `_ord2ymd`.
- `notes.dfy`: the note directory, run outcomes, exit status and what a run writes.
- `plan_phase.dfy`, `plan_stats.dfy`, `plan_blocks.dfy`, `plan_render.dfy`, `daily_plan.dfy`: the daily-plan generator.
- `paper_digest.dfy`: the digest generator.
- `env_loader.dfy`: the launcher.

## Model

| member | source | states |
|---|---|---|
| PlanPhase.ChoosePhase | community/scripts/auto_daily_plan_min.py:50-58 | An empty phase list is the "config missing phases" error. Otherwise the result is the first phase in list order whose inclusive range holds the day. When no phase covers the day, the result is the last phase of the list. |
| PlanPhase.ChosenPhaseCoversDate | community/scripts/auto_daily_plan_min.py:53-57 | With non-overlapping phases, a day inside phase k's range selects exactly phase k. |
| PlanPhase.EarlyDateFallsBackToLast | community/scripts/auto_daily_plan_min.py:58 | A day before every phase selects the last phase of the list, not the earliest. |
| PlanRender.WeekdayName | community/scripts/auto_daily_plan_min.py:61-63 | An empty or absent list means the seven default names. Otherwise the configured name for the day's weekday is used, and a list too short for the weekday is an error. |
| Calendar.Weekday | community/scripts/auto_daily_plan_min.py:63 | `weekday()` lies in 0..6, so it always indexes the seven default names. |
| Calendar.WeekdayCycle | community/scripts/auto_daily_plan_min.py:63 | Ordinal 1 is a Monday (0), and weekdays advance by one modulo seven each day. |
| PlanStats.SmallestMatch | community/scripts/auto_daily_plan_min.py:68-69 | Returns none exactly when no name matches "<day> *.md". Otherwise it returns a listed matching name that is code-point-least among all matching names. |
| PlanStats.FindYesterdayFile | community/scripts/auto_daily_plan_min.py:66-69 | The same choice, made with yesterday's ISO date. |
| PlanStats.YesterdayFileIgnoresListingOrder | community/scripts/auto_daily_plan_min.py:68 | The chosen file depends only on which names exist, not on the listing order. |
| PlanStats.PendingText | community/scripts/auto_daily_plan_min.py:13 | A line yields a task exactly when it starts with "- [ ]" and has non-blank text after it. The task is that text, stripped: non-empty and stripped. |
| PlanStats.PendingTasks | community/scripts/auto_daily_plan_min.py:77 | The unfinished tasks are at most one per line, each non-empty and stripped. |
| PlanStats.PendingTasksFromLines | community/scripts/auto_daily_plan_min.py:77 | Every unfinished task is the stripped text after an unchecked box on some line of the note. |
| PlanStats.MatchesDayShape | community/scripts/auto_daily_plan_min.py:68 | A name matches the glob "<day> *.md" exactly when it is the day, a space, any text and ".md". |
| PlanStats.CheckedLineShape | community/scripts/auto_daily_plan_min.py:14 | A line is a finished task exactly when it starts with "- [x]" or "- [X]" and has at least one more character. |
| PlanStats.CheckedCount | community/scripts/auto_daily_plan_min.py:78 | At most one finished task per line, and none exactly when no line is a checked box. |
| PlanStats.StatsOfConcatenation | community/scripts/auto_daily_plan_min.py:77-78 | The tasks and the finished count of a note are those of its parts, concatenated and added in file order. |
| PlanStats.MarkersExclusive | community/scripts/auto_daily_plan_min.py:13-14 | No line is both an unchecked and a checked item, so the markers never outnumber the lines. |
| PlanStats.StatsOfLines | community/scripts/auto_daily_plan_min.py:77-81 | The carry list is a prefix of the unfinished tasks, cut as `todo[:carry_limit]` cuts, with no blank entries. The rate is done/(todo+done), lies in [0,1], and is 0.0 without markers. |
| PlanStats.ParseYesterdayStats | community/scripts/auto_daily_plan_min.py:72-81 | With no file the result is ([], 0.0). With a file, the statistics summarise its lines, read with universal newlines. |
| PlanStats.Ratio | community/scripts/auto_daily_plan_min.py:80 | The completion rate lies in [0,1]. It is done/total, or 0.0 when total is 0. |
| PlanBlocks.SortByWeight | community/scripts/auto_daily_plan_min.py:85 | The result is a permutation of the allocation with non-increasing weights. The entries of each weight keep their input order. |
| PlanBlocks.StableSortUnique | community/scripts/auto_daily_plan_min.py:85 | Two weight-ordered lists with the same entries per weight, in the same order, are equal, so the stable descending sort has exactly one result. |
| PlanBlocks.SortByWeightIsStableSort | community/scripts/auto_daily_plan_min.py:85 | Any stable descending sort of the allocation is what SortByWeight returns. |
| PlanBlocks.Ranked | community/scripts/auto_daily_plan_min.py:85-86 | The known-subject entries in non-increasing weight order, each taken from the allocation. It is empty exactly when no key is a known subject. |
| PlanBlocks.BuildSubjectSequence | community/scripts/auto_daily_plan_min.py:84-89 | The sequence is never empty and holds only known subjects. With no known key it is the default list; otherwise it is the ranked known keys. |
| PlanBlocks.SubjectWeightsNonIncreasing | community/scripts/auto_daily_plan_min.py:85-86 | With distinct keys, the allocation weights along the subject sequence never increase. |
| PlanBlocks.DefaultListAlsoFromAllocation | community/scripts/auto_daily_plan_min.py:87-88 | An allocation that ranks math, major, english, review in that order also yields the default list, so the default does not mean no known key. |
| PlanBlocks.BuildPlanBlocks | community/scripts/auto_daily_plan_min.py:92-110 | Six blocks on the six fixed windows, in order. The last block is the review when the sequence holds it; every other block i takes subject i mod n. Each block has its subject's label and emoji, and its task is the template or "<label>重点任务". |
| PlanBlocks.SubjectsScheduled | community/scripts/auto_daily_plan_min.py:92-110 | No subject is starved: each of the first five subjects of the sequence gets the window of its own position, and review, when present, gets the last window. |
| PlanRender.NoteDatesOf | community/scripts/auto_daily_plan_min.py:121-124 | The date texts of a note, including the previous and next day's link labels, are single lines. |
| PlanRender.CarryLines | community/scripts/auto_daily_plan_min.py:126 | One "- [ ] task" line per carried task, in order; with no tasks, the single placeholder line. |
| PlanRender.BlockLines | community/scripts/auto_daily_plan_min.py:127-130 | One "- [ ] start - end \| emoji label \| task" line per block, in order. With no blocks, the joined text is empty and still fills one line. |
| PlanRender.HeadLines | community/scripts/auto_daily_plan_min.py:133-147 | The eighteen head lines: the date and weekday frontmatter lines at fixed places, closed by the completion-rate line. |
| PlanRender.TailLines | community/scripts/auto_daily_plan_min.py:151-159 | The review table, then the links to the previous and next day's notes as the last two lines. |
| PlanRender.RenderLines | community/scripts/auto_daily_plan_min.py:132-160 | The note's lines: head, carry section, block heading, one line per block (one empty line when there are none), then tail, each at its computed position. |
| PlanRender.Render | community/scripts/auto_daily_plan_min.py:132-160 | The note text ends with a newline. |
| PlanRender.RenderReadsBack | community/scripts/auto_daily_plan_min.py:132-160 | With single-line inputs, splitting the note on "\n" gives back exactly its lines plus the empty text after the final newline. |
| PlanRender.RenderedCarry | community/scripts/auto_daily_plan_min.py:146-148 | Read back line by line, the note has the rate line, then one unchecked line per carried task, or the placeholder. |
| DailyPlan.OutputName | community/scripts/auto_daily_plan_min.py:186 | The note's name is the ISO date, a space, the weekday name and ".md", with nothing else between. |
| DailyPlan.NoteNameMatchesDay | community/scripts/auto_daily_plan_min.py:68 | A note's name matches the pattern the next day's run uses to find yesterday's note. |
| DailyPlan.YesterdaysNoteIsRead | community/scripts/auto_daily_plan_min.py:191-192 | When yesterday's generated note is in the directory, the run reads a note of yesterday. |
| DailyPlan.YesterdayText | community/scripts/auto_daily_plan_min.py:191 | None exactly when no file matches yesterday's pattern. Otherwise it is the content of the matching file whose name is code-point-least among the matching names, as `sorted(...)[0]` picks. |
| DailyPlan.Run | community/scripts/auto_daily_plan_min.py:176-197 | A failure is one of three errors: no phases, weekday names too short, or a neighbouring day out of range, the last only when a neighbour is outside the calendar. The run skips exactly when phases and the name exist, today's note exists, and there is no --force. With phases and a name, a run that does not skip writes exactly when both neighbouring days are in range. A written note has today's name and ends with a newline. |
| DailyPlan.SecondRunSkips | community/scripts/auto_daily_plan_min.py:186-189 | Running again for the same day without --force skips and changes nothing. |
| DailyPlan.RunIgnoresListingOrder | community/scripts/auto_daily_plan_min.py:191-192 | The outcome does not depend on the directory's listing order. |
| DailyPlan.NoteReadsBack | community/scripts/auto_daily_plan_min.py:191-195 | With single-line configuration texts, the written note splits into exactly the lines it was rendered from. |
| DailyPlan.NoteCarriesYesterday | community/scripts/auto_daily_plan_min.py:191-195 | Read back, a written note has yesterday's rate line and then yesterday's first unfinished tasks, as "- [ ]" lines. That carry list is a prefix of yesterday's unfinished tasks. |
| Notes.Persist | community/scripts/auto_daily_plan_min.py:195 | Writing a note adds or replaces that one file. A skip or a failure leaves the directory unchanged. |
| Notes.ExitCode | community/scripts/auto_daily_plan_min.py:187-197 | The exit status is 1 exactly for a failure, and 0 for a skip or a write. |
| PaperDigest.KeptNames | community/scripts/paper_digest_min.py:51 | The stripped texts of the truthy author nodes; empty exactly when no node has text. |
| PaperDigest.KeptNamesOfConcatenation | community/scripts/paper_digest_min.py:51 | The names kept from two runs of nodes are those of the first run, then those of the second. |
| PaperDigest.KeptNamesOfOne | community/scripts/paper_digest_min.py:51 | A single node contributes its stripped text when that text is truthy, and nothing otherwise. |
| PaperDigest.KeptNamesFromNodes | community/scripts/paper_digest_min.py:51 | Every kept name is the stripped text of some truthy node. |
| PaperDigest.CondenseAuthors | community/scripts/paper_digest_min.py:50-63 | Never empty. Over six nodes, it is the names of the first six joined by ", " plus ", et al.". Otherwise it is the joined names, or "Unknown" when that is empty. |
| PaperDigest.AuthorsAfterSixthIgnored | community/scripts/paper_digest_min.py:51-53 | Author nodes after the sixth do not change the authors field. |
| PaperDigest.KeptTerms | community/scripts/paper_digest_min.py:55 | One backtick-wrapped term per category node with a truthy term; empty exactly when there is none. |
| PaperDigest.KeptTermsOfConcatenation | community/scripts/paper_digest_min.py:55 | The terms kept from two runs of category nodes are those of the first run, then those of the second. |
| PaperDigest.KeptTermsOfOne | community/scripts/paper_digest_min.py:55 | A single category node contributes its term in backticks when the term is truthy, and nothing otherwise. |
| PaperDigest.CondenseCategories | community/scripts/paper_digest_min.py:54-64 | "`N/A`" when no category has a term; otherwise the wrapped terms joined by spaces. |
| PaperDigest.CategoriesReadBack | community/scripts/paper_digest_min.py:55 | With space-free terms, splitting the field on spaces gives back the wrapped terms, or just "`N/A`". |
| PaperDigest.MakeEntry | community/scripts/paper_digest_min.py:45-65 | The title is the stripped raw title with each newline replaced by a space, character by character, so it holds no newline. The abstract and id are the stripped raw texts. The date is the first min(10, length) characters of "published". The authors and categories fields are the condensed ones. |
| PaperDigest.Clipped | community/scripts/paper_digest_min.py:70-72 | The abstract's first 800 characters, stripped, with " ..." exactly when the abstract is longer than 800. |
| PaperDigest.CalloutLines | community/scripts/paper_digest_min.py:73-75 | One "> " line per wrapped line, in order. An empty wrap result gives exactly "> N/A". |
| PaperDigest.SummaryCallout | community/scripts/paper_digest_min.py:75 | The callout starts with ">". |
| PaperDigest.CalloutLinesQuoted | community/scripts/paper_digest_min.py:74-75 | When the wrapped lines are single lines, every line of the callout text starts with "> ". |
| PaperDigest.HeaderLines | community/scripts/paper_digest_min.py:79-97 | The seventeen fixed header lines, with the paper_count line at position 4. |
| PaperDigest.Heading | community/scripts/paper_digest_min.py:112 | "## k. title" is a numbered heading. |
| PaperDigest.Section | community/scripts/paper_digest_min.py:111-124 | Twelve items: the heading first, the abstract callout at position 8, and no other numbered heading. |
| PaperDigest.SectionsAt | community/scripts/paper_digest_min.py:109-125 | Item j of the k-th section sits at 12k+j and is item j of that entry's section, numbered from the start index plus k. |
| PaperDigest.SectionsHeadings | community/scripts/paper_digest_min.py:109-125 | Among the sections' items, exactly those at positions divisible by 12 are numbered headings. |
| PaperDigest.DigestLines | community/scripts/paper_digest_min.py:78-125 | The items of the `lines` list: the header first; then, with no entries, the warning callout; otherwise the numbered sections, ending with an empty item. |
| PaperDigest.RenderDigest | community/scripts/paper_digest_min.py:99-127 | The digest text ends with a newline, with or without entries. |
| PaperDigest.DigestCount | community/scripts/paper_digest_min.py:78-84 | The paper_count line of the front matter reads back as the number of entries listed. |
| PaperDigest.DigestTitles | community/scripts/paper_digest_min.py:109-125 | With n entries the `lines` list has n sections of twelve items after the header, the k-th opening with "## k. title" for the k-th entry. |
| PaperDigest.DigestHeadings | community/scripts/paper_digest_min.py:109-125 | With entries, after the header, an item of the `lines` list is a numbered heading exactly when it opens a section. |
| PaperDigest.EmptyDigestHasNoHeadings | community/scripts/paper_digest_min.py:99-107 | Without entries, the `lines` list has the warning callout and no numbered heading. |
| PaperDigest.CalloutReadsBack | community/scripts/paper_digest_min.py:74-75 | With single-line wrapped lines, the callout text splits on "\n" into exactly its quoted lines. |
| PaperDigest.SectionText | community/scripts/paper_digest_min.py:111-124 | The text lines of a section open with its "## k. title" heading, and no later line is a numbered heading. |
| PaperDigest.SectionReadsBack | community/scripts/paper_digest_min.py:111-124 | With single-line fields and wrapped lines, a section's items split on "\n" into the section's text lines: the callout item becomes its quoted lines. |
| PaperDigest.SectionsText | community/scripts/paper_digest_min.py:109-125 | The numbered headings among the sections' text lines are "## k. title" for each entry, numbered in order. |
| PaperDigest.DigestText | community/scripts/paper_digest_min.py:78-127 | The digest's text lines have the paper_count line at position 4 and, as numbered headings, exactly "## k. title" for the k-th entry. |
| PaperDigest.DigestReadsBack | community/scripts/paper_digest_min.py:78-127 | With single-line fields, query and wrapped lines, splitting the rendered digest on "\n" gives its text lines: the header, then the warning and a final empty line, or the sections with each callout line on its own. |
| PaperDigest.DigestName | community/scripts/paper_digest_min.py:142 | The name is the ISO date followed by ".md", and nothing else. |
| PaperDigest.RunDigest | community/scripts/paper_digest_min.py:139-156 | Skips exactly when the digest exists and there is no --force. Otherwise it fails exactly when the fetch failed, with its message. Otherwise it writes, under the day's name, the newline-terminated digest of the entries built from the fetched ones. |
| PaperDigest.WrittenDigestReadsBack | community/scripts/paper_digest_min.py:139-156 | A written digest, read back line by line, has a paper_count line whose digits read as the number of fetched entries, and one numbered heading per fetched entry, in order, under its title. This holds for single-line fields and query. |
| PaperDigest.DigestWritesOnlyOnSuccess | community/scripts/paper_digest_min.py:144-152 | Only a successful fetch changes the directory. The exit status is 1 exactly when a run that was not skipped had a failed fetch. |
| PaperDigest.DigestSecondRunSkips | community/scripts/paper_digest_min.py:144-146 | Once written, the day's digest is skipped without --force, whatever a new fetch would return, and that run leaves the directory unchanged. |
| EnvLoader.ParseLine | start_obsidian.py:12-15 | A line assigns something exactly when, stripped, it is non-empty, does not start with "#" and holds "=". The key is the stripped line before its first "=", with no "=" in it. The value is the stripped rest. |
| EnvLoader.ParseLineRoundTrip | start_obsidian.py:12-15 | A line written "key=value", with a stripped value and a key without "=" that starts with neither whitespace nor "#", reads back as that assignment. |
| EnvLoader.CommentsAssignNothing | start_obsidian.py:13 | Blank lines and lines starting with "#" after stripping assign nothing. |
| EnvLoader.ErrorOf | start_obsidian.py:15 | A refused assignment is reported as the `ValueError` "embedded null byte" when either side holds a NUL character. Otherwise the name is empty, and the refusal is the `OSError` "[Errno 22] Invalid argument" of `setenv`. |
| EnvLoader.SetVar | start_obsidian.py:15 | Succeeds exactly for a legal assignment, which sets that one name and keeps every other name. |
| EnvLoader.LastValue | start_obsidian.py:11-15 | None exactly when no assignment sets the name. Otherwise the value comes from an assignment to the name with no later one. |
| EnvLoader.FirstIllegal | start_obsidian.py:15 | The position of a refused assignment that has only legal ones before it. |
| EnvLoader.Apply | start_obsidian.py:10-15 | Loading lines only adds or overwrites names, never removes one. A refused line stops the loop with the `ValueError` or the `OSError` message. |
| EnvLoader.ApplyMeaning | start_obsidian.py:10-15 | The loop over the lines ends with the reference environment when every assignment is legal: each set name has its last value and the other names are kept. Otherwise it fails with the error of the first refused assignment. |
| EnvLoader.LoadEnv | start_obsidian.py:9 | A missing file leaves the environment unchanged. |
| EnvLoader.LoadEnvLastWins | start_obsidian.py:9-15 | After loading a file of legal lines, a name the file sets has the value of its last assignment. A name the file does not mention keeps its value, or stays unset. |
| EnvLoader.Start | start_obsidian.py:9-20 | The server starts exactly when loading succeeded and the key is set, using the loaded environment. A load error, or a missing key with its message, stops the program with status 1. |
| EnvLoader.StartWithoutFile | start_obsidian.py:9-20 | Without a file, the server starts with the unchanged environment exactly when the key was already set. |
| EnvLoader.FileKeyLaunches | start_obsidian.py:10-20 | A legal file that sets the key starts the server, with the key's last value from the file. |
| Text.Strip | start_obsidian.py:12 | The result starts and ends with non-whitespace, and is the text between the leading and trailing whitespace runs. It is empty exactly for all-whitespace text. |
| Text.StripIdempotent | community/scripts/auto_daily_plan_min.py:77 | Stripping twice is stripping once. |
| Text.SplitJoin | community/scripts/auto_daily_plan_min.py:126-130 | Joining separator-free parts and splitting on the separator gives the parts back. |
| Text.JoinSplit | community/scripts/auto_daily_plan_min.py:126-130 | Splitting on a separator and joining with it gives the text back. |
| Text.PyPrefix | community/scripts/auto_daily_plan_min.py:81 | `s[:k]` is a prefix of s: min(k, \|s\|) items for k >= 0, and \|s\|+k items (never fewer than 0) for negative k. |
| Text.Lines | community/scripts/auto_daily_plan_min.py:76 | The lines of a file read in text mode contain no "\n" and no "\r". |
| Text.DecimalRoundTrip | community/scripts/paper_digest_min.py:83 | The decimal digits of n read back as n. |
| Calendar.Iso | community/scripts/auto_daily_plan_min.py:134 | `isoformat()` of a representable day contains no newline and no space. |
| Calendar.MonthDot | community/scripts/auto_daily_plan_min.py:143 | `strftime('%m.%d')` of a representable day contains no newline. |
| Text.SplitConcat | community/scripts/paper_digest_min.py:127 | Splitting two texts joined by the separator gives the parts of the first, then those of the second. |
| Text.SplitJoinEach | community/scripts/paper_digest_min.py:127 | Splitting a join gives the parts of each joined text in turn, even when the texts hold the separator. |

## Left out

- Argument and configuration parsing are left out: `argparse`, `json.loads` of the configuration, `strptime` and `fromisoformat`. Dates arrive as ordinals and configurations as datatypes.
- The daily plan's `{:.1%}` rate formatting is not modelled. Callers pass it as a function from the rate to a text.
- The digest's `textwrap.wrap(width=90)` is not modelled. Callers pass it as a function; the only property of it used is, where stated, that its lines hold no newline.
- Fetching and XML parsing are left out, because they are network I/O and a foreign library. A digest run receives the extracted entries (`RawEntry`) or the message of the `RuntimeError`. The `max_results` parameter only shapes the request, so it is left out with the fetch.
- The launcher's start of the MCP server through `asyncio` is foreign code. The model stops at the decision to launch and the environment handed over.
- Filesystem effects are not modelled: `mkdir`, the write itself, and the file-versus-directory distinctions of `exists` and `glob`. The note directory is a map of names to contents. `path.exists()` is name membership, and the `glob` is a pattern test over the listed names.
- The `.env` file's UTF-8 decoding errors are not modelled. Windows environment semantics are not modelled either; the model follows CPython on POSIX, where a NUL is refused with a `ValueError` and an empty name by `setenv` with an `OSError`.
- A configured weekday name holding "/" or a NUL is not modelled as a path. In the code such a name makes the note's path point into a subdirectory, or be refused, so the write raises and the run exits with status 1 (community/scripts/auto_daily_plan_min.py:186, 195); the next day's glob would not find such a note either. The model treats every name as a flat key of the note directory, so Run, NoteNameMatchesDay and YesterdaysNoteIsRead hold only for names without a path separator or NUL.
- `TODO_RE` and `DONE_RE` are applied line by line. The case where `\s*` after the box crosses into the next line is not modelled.
- PlanRender.RenderLines: the note's dates enter as `NoteDates` texts, and only their single-line property is proved from the calendar arithmetic. That `isoformat()` and `strftime` produce the exact digits is not re-proved.
- PlanBlocks.BuildSubjectSequence: the default list is stated as following from "no known subject key", not as an equivalence. The equivalence does not hold; see DefaultListAlsoFromAllocation.
- PlanRender.CarryLines: the placeholder line is stated as following from an empty carry list, not as an equivalence. A single carried task with the placeholder's own text renders the same line.
- Calendar.Iso: the contract states only the single-line property used by the note layout. The digits themselves follow CPython's `_ord2ymd` in the body.
- Calendar.MonthDot: the contract states only the single-line property, for the same reason as Calendar.Iso.
- Reading yesterday's note is not modelled as able to fail: a note that is not valid UTF-8 makes `read_text` raise, and the run exits with status 1 without writing (community/scripts/auto_daily_plan_min.py:76). The model gives every file a decoded text.
- PaperDigest.WrittenDigestReadsBack: the read-back needs single-line titles, ids, dates, authors, categories and query. An author name or term holding a newline would add text lines that the statement does not describe.

## Minimal vs full generator

- When a day lies outside every phase, the minimal generator returns the last phase of the configured list (community/scripts/auto_daily_plan_min.py:58). The full generator sorts the phases by start date and returns the earliest one for a day before them all, else the latest-starting one (.scripts/auto_daily_plan.py:106-109). The model follows the minimal generator (ChoosePhase, EarlyDateFallsBackToLast).
- Running the daily plan for 9999-12-31 or 0001-01-01 fails when the neighbouring day is computed. The code does this only after the skip check, so an existing note is still skipped; the model keeps that order.
