# Local cron inventory: line parser and source readers

This project models the part of the cron inventory service that turns what
is on the local host into `CronJob` records. It has two parts.

- **The system-crontab line parser** (`parse_system_cron_line`, module
  `CronParsing`). It takes one line of `/etc/crontab` or of a file in
  `/etc/cron.d` and returns a schedule, the user the job runs as and the
  command, or nothing. Blank lines, comments and a lone `KEY=VALUE` token
  are ignored. A line whose first token starts with `@` is a shortcut line
  and needs three tokens. Any other line needs five time fields, a user and
  a command, so at least seven tokens. Python's `strip()`, `split()`,
  `" ".join(...)` and `str.isspace` are modelled in module `Text`.
- **`LocalCronReader`** (module `LocalCronReader`). It returns the two fixed
  example jobs, then one job per executable script in `/etc/cron.hourly`,
  then one job per accepted line of `/etc/crontab`, then one job per
  accepted line of each file in `/etc/cron.d`, with the files in name
  order. Each reader is a method with the source's loop and `continue`s,
  proved equal to a specification function. The lemmas state what those
  functions guarantee:
  - which entries and lines become jobs;
  - 1-based line numbers that do not shift when lines are skipped;
  - how ids are built and that they are unique;
  - that unreadable files are skipped without stopping the read;
  - that every job runs on `localhost` and carries the next runs of its own
    schedule.

The host is passed in as data: `FileSystem` holds `/etc/crontab` as
`Option<seq<string>>` and each directory listing as `Option<seq<Entry>>`.
For `/etc/crontab`, `None` means it is not a file or could not be read. A
listing is `None` only when its path is not a directory, and an entry's
lines are `None` when reading that file fails.
The next-runs calculator is a function-typed parameter (`NextRunsFn`), and
every lemma holds for every such function. The current time is the
parameter `now`.

The code differs from the system's wider design, and the model follows the
code. The code has no user-crontab dialect and no `crontab -l` reader. It
does not infer a schedule from `run-parts` lines, filter out dispatcher
lines, sort the final output or classify a line three ways. The hourly
schedule is the fixed `0 * * * *`.

## Model

| member | source | states |
|---|---|---|
| CronParsing.ParseSystemCronLine | app/services/cron_parsing.py:14-31 | the parser itself: strip, the blank and comment checks, then the token stage; what it does is stated by `CronParsing.IgnoredLines`, `CronParsing.ShortcutForm`, `CronParsing.StandardForm` and the lemmas below them |
| CronParsing.ParseParts | app/services/cron_parsing.py:33-53 | the token stage of the parser: the `KEY=VALUE` rule, then the shortcut and standard forms; its results are stated by `CronParsing.TooFewTokens`, `CronParsing.ShortcutForm` and `CronParsing.StandardForm` |
| CronParsing.IgnoredLines | app/services/cron_parsing.py:27-29 | a line with no tokens, or whose first non-whitespace character is `#`, yields no job, however many tokens follow |
| CronParsing.TooFewTokens | app/services/cron_parsing.py:34-48 | a line of fewer than three tokens yields no job; this includes a lone `KEY=VALUE` token |
| CronParsing.AssignmentExample | app/services/cron_parsing.py:33-35 | the environment line `PATH=/usr/bin` yields no job |
| CronParsing.CommentExample | app/services/cron_parsing.py:27-29 | the line `# comment` yields no job |
| CronParsing.ShortcutForm | app/services/cron_parsing.py:38-44 | when the first token starts with `@`, the line is accepted exactly when it has at least three tokens; the schedule is that token, the user the second token, and the command the remaining tokens joined by single spaces |
| CronParsing.ShortcutTokens | app/services/cron_parsing.py:38-44 | a line made of three or more tokens, the first starting with `@`, parses to (first token, second token, the rest joined) |
| CronParsing.ShortcutExample | app/services/cron_parsing.py:20 | `@daily root <command>` parses to schedule `@daily`, user `root` and the command, for any command of one or more tokens |
| CronParsing.StandardExample | app/services/cron_parsing.py:47-53 | `0 3 * * * root <command>` parses to schedule `0 3 * * *`, user `root` and the command, for any command of one or more tokens, `/usr/bin/foo bar` among them |
| CronParsing.StandardForm | app/services/cron_parsing.py:47-53 | when the first token starts with neither `@` nor `#`, the line is accepted exactly when it has at least seven tokens; the schedule is the first five tokens joined and splits back into exactly those five, the user is the sixth token, and the command is the rest joined |
| CronParsing.StandardTokens | app/services/cron_parsing.py:47-53 | a line made of seven or more tokens, the first starting with neither `@` nor `#`, parses to (first five joined, sixth, the rest joined) |
| CronParsing.ParsedShape | app/services/cron_parsing.py:41-52 | an accepted line has a user that is one non-empty token without whitespace; schedule and command are non-empty, with no leading, trailing or doubled whitespace; the schedule is one `@` token or five fields, the first of which does not start with `@` |
| CronParsing.SameTokensSameParse | app/services/cron_parsing.py:27-31 | two lines with the same tokens get the same result |
| CronParsing.WhitespaceInsensitive | app/services/cron_parsing.py:27-31 | a line's tokens rejoined with single spaces parse exactly as the line itself |
| CronParsing.RoundTrip | app/services/cron_parsing.py:38-53 | an accepted result `p`, printed as `schedule user command`, parses back to exactly `p` |
| LocalCronReader.ReadCronHourlyJobs | app/services/local_cron_reader.py:63-100 | a missing directory gives no jobs; otherwise the loop yields the hourly jobs of the listing, in listing order |
| LocalCronReader.ScriptJobsMembers | app/services/local_cron_reader.py:78-98 | a job comes from `/etc/cron.hourly` exactly when it is the job of an entry that is both a regular file and executable: id `cron.hourly-<name>`, user `root`, schedule `0 * * * *`, command `/etc/cron.hourly/<name>` |
| LocalCronReader.ScriptJobsAppend | app/services/local_cron_reader.py:78-98 | the hourly jobs of two listings, one after the other, are the jobs of each, concatenated in that order |
| LocalCronReader.ScriptJobIdsDistinct | app/services/local_cron_reader.py:86-90 | entries with different names get different hourly ids |
| LocalCronReader.ReadEtcCrontabJobs | app/services/local_cron_reader.py:102-137 | a missing or unreadable `/etc/crontab` gives no jobs; otherwise the loop yields the jobs of its accepted lines |
| LocalCronReader.AcceptedLinesNumbering | app/services/local_cron_reader.py:120-123 | the numbers of the lines that yield jobs increase strictly; each is the 1-based number of a line the parser accepted, and every accepted line is among them |
| LocalCronReader.EtcCrontabAcceptedLines | app/services/local_cron_reader.py:120-123 | the lines of `/etc/crontab` that yield jobs are exactly the lines the parser accepts, listed in increasing line order |
| LocalCronReader.LineJobsByLine | app/services/local_cron_reader.py:120-135 | a crontab-style file yields exactly one job per accepted line; the k-th job belongs to the k-th accepted line and carries that line's own number, so skipped lines do not renumber later ones |
| LocalCronReader.EtcCrontabByLine | app/services/local_cron_reader.py:120-135 | the k-th `/etc/crontab` job has id `etc-crontab:<n>`, where n is the k-th accepted line's number; its schedule, user and command are the parse result unchanged; its next runs are those of that schedule from `now` with count 3; it is described as `Quelle: /etc/crontab` |
| LocalCronReader.LineJobsShape | app/services/local_cron_reader.py:125-135 | every job of a crontab-style file runs on `localhost`, has its own schedule's next runs, and has an id that is the prefix followed by a line number |
| LocalCronReader.LineJobIdsDistinct | app/services/local_cron_reader.py:120-127 | ids within one crontab-style file are pairwise distinct |
| LocalCronReader.ReadCronDJobs | app/services/local_cron_reader.py:139-178 | a missing directory gives no jobs; otherwise the loop visits the files in name order, skips entries that are not regular files or cannot be read, and yields each file's jobs |
| LocalCronReader.CronDFileByLine | app/services/local_cron_reader.py:161-176 | for a readable regular file in `/etc/cron.d`, the k-th job has id `cron.d:<file name>:<n>`, where n is the k-th accepted line's number; its schedule, user and command are the parse result unchanged; its next runs are those of that schedule from `now` with count 3; it is described as `Quelle: /etc/cron.d/<file name>` |
| LocalCronReader.AppendCronDLines | app/services/local_cron_reader.py:161-176 | the inner loop appends one job per accepted line of the file to the jobs read so far |
| LocalCronReader.SortByName | app/services/local_cron_reader.py:152 | the order in which cron.d files are visited is a permutation of the listing |
| LocalCronReader.SortByNameSorted | app/services/local_cron_reader.py:152 | cron.d files are visited in code-point order of their names |
| LocalCronReader.SortByNameKeepsNamesDistinct | app/services/local_cron_reader.py:152 | sorting keeps a listing's names distinct |
| LocalCronReader.SkippedFile | app/services/local_cron_reader.py:153-159 | a cron.d entry that is not a regular file, or whose read fails, adds no jobs, and the files after it still contribute theirs |
| LocalCronReader.FileGroupJobsAppend | app/services/local_cron_reader.py:152-176 | the jobs are grouped by file: the jobs of two runs of files are the jobs of each, concatenated |
| LocalCronReader.FileGroupJobsMembers | app/services/local_cron_reader.py:152-176 | a job comes from cron.d exactly when it is a job of one of its files |
| LocalCronReader.CronDJobShape | app/services/local_cron_reader.py:166-173 | every cron.d job runs on `localhost`, has its own schedule's next runs, and has an id `cron.d:<file name>:<line number>` for one of the files |
| LocalCronReader.CronDIdsDistinct | app/services/local_cron_reader.py:161-167 | cron.d ids are pairwise distinct when the file names are |
| LocalCronReader.ExampleJobs | app/services/local_cron_reader.py:31-50 | the two fixed example jobs with the source's ids, users, schedules, commands and descriptions; what they guarantee is stated by `LocalCronReader.ExampleJobsFacts` and `LocalCronReader.CronJobsOrder` |
| LocalCronReader.CronJobs | app/services/local_cron_reader.py:28-61 | the whole inventory as a function of the host's contents; its order and length are stated by `LocalCronReader.CronJobsOrder`, and its stamping and unique ids by `LocalCronReader.CronJobsStampedAndUnique` |
| LocalCronReader.GetCronJobs | app/services/local_cron_reader.py:28-61 | the three `extend`s yield the examples, then the hourly, `/etc/crontab` and cron.d jobs, all from one `now` |
| LocalCronReader.CronJobsOrder | app/services/local_cron_reader.py:31-61 | the result starts with `local-root-system-update` and `local-user-backup-home`; the hourly, `/etc/crontab` and cron.d jobs follow in that order; its length is two plus the three sources' lengths |
| LocalCronReader.ExampleJobsFacts | app/services/local_cron_reader.py:31-50 | the two example jobs run on `localhost`, have their own schedules' next runs, and have distinct `local-` ids |
| LocalCronReader.CronHourlyFacts | app/services/local_cron_reader.py:86-98 | hourly jobs are stamped with `localhost` and their own schedule's next runs; their ids start with `cron.h` and are distinct |
| LocalCronReader.EtcCrontabFacts | app/services/local_cron_reader.py:125-135 | `/etc/crontab` jobs are stamped the same way; their ids start with `etc-cr` and are distinct |
| LocalCronReader.CronDFacts | app/services/local_cron_reader.py:161-176 | cron.d jobs are stamped the same way; their ids start with `cron.d` and are distinct |
| LocalCronReader.CronJobsStampedAndUnique | app/services/local_cron_reader.py:29-61 | in the whole inventory every job runs on `localhost` and carries the next runs of its own schedule, asked for with count 3 from the call's single `now`, and all ids are distinct |
| LocalCronReader.GetLocalCronJobs | app/services/local_cron_reader.py:180-187 | the convenience function returns exactly what a fresh reader's `get_cron_jobs` returns |

## Left out

- Filesystem access is not modelled. `Path.is_dir`, `is_file`, `iterdir`, `os.access` and `read_text` are replaced by the `FileSystem` and `Entry` values: flags, listings and `Option` line lists.
- `splitlines()` and UTF-8 decoding with `errors="replace"` are not modelled. A file's contents arrive already split into lines.
- The order of `iterdir()` belongs to the operating system. The hourly listing is taken in the order given.
- `compute_next_runs` in app/services/schedule.py wraps the `croniter` library, which is not part of this model. It is the uninterpreted parameter `nextRuns`, and nothing is known of its result, not even its length.
- `datetime.now()` is the parameter `now`, and a time instant is an integer.
- `command=str(entry)` is written out as `/etc/cron.hourly/<name>`, the path of a direct child of that directory.
- `sorted()` on paths of one directory is modelled as a stable sort by name in code-point order. Python compares paths of one directory that way.
- The id uniqueness lemmas (`LocalCronReader.ScriptJobIdsDistinct`, `LocalCronReader.CronDIdsDistinct`, `LocalCronReader.CronJobsStampedAndUnique`) require that a directory listing names each entry once, as a real directory does.
- app/main.py, the HTTP layer, is not part of this model.
- The pydantic validation and serialisation of app/models.py is not part of this model. Only the field layout of `CronJob` is kept, as `Models.CronJob`.
- LocalCronReader.ReadCronHourlyJobs / LocalCronReader.ReadCronDJobs: a directory that exists but cannot be listed, or an entry whose `is_file()` check raises, cannot be represented. In the source, `iterdir()` and `is_file()` (app/services/local_cron_reader.py:78-79 and 152-153) sit outside any `try`, so such an error propagates and ends the whole `get_cron_jobs` call instead of yielding no jobs.
