/**
 * The local cron inventory: two fixed example jobs, then the scripts in
 * `/etc/cron.hourly`, the lines of `/etc/crontab` and the lines of the files
 * in `/etc/cron.d`, each mapped to a `CronJob`.
 *
 * The host is not read here: a `FileSystem` value holds what the three
 * well-known paths contain, `now` is the one instant taken per call, and the
 * next-runs calculator is a parameter. Each reader is a method with the
 * source's loop, proved equal to a specification function; the lemmas after
 * them state what those functions guarantee.
 */
module LocalCronReader {
  import opened Wrappers
  import opened Text
  import opened CronParsing
  import opened Models

  /** One entry of a directory listing: its name, whether it is a regular
      file, whether it is executable, and its lines, `None` when reading it
      fails. */
  datatype Entry = Entry(name: string, isFile: bool, isExecutable: bool, lines: Option<seq<string>>)

  /** What the readers see of the host. `etcCrontab` is `None` when
      `/etc/crontab` is not a file or cannot be read; a listing is `None`
      when its path is not a directory. */
  datatype FileSystem = FileSystem(
    etcCrontab: Option<seq<string>>,
    cronHourly: Option<seq<Entry>>,
    cronD: Option<seq<Entry>>)

  const LocalSystem: string := "localhost"
  const RunsAhead: nat := 3
  const HourlySchedule: string := "0 * * * *"
  const HourlyDescription: string := "Quelle: /etc/cron.hourly (Schedule aktuell pauschal: stündlich)."
  const EtcCrontabIdPrefix: string := "etc-crontab:"
  const EtcCrontabDescription: string := "Quelle: /etc/crontab"

  function CronDIdPrefix(name: string): string { "cron.d:" + name + ":" }

  function CronDDescription(name: string): string { "Quelle: /etc/cron.d/" + name }

  /** Every job runs on the local host and carries the next runs of its own
      schedule from the call's single `now`. */
  predicate Stamped(j: CronJob, now: Instant, nextRuns: NextRunsFn) {
    j.system == LocalSystem && j.nextRuns == nextRuns(j.schedule, now, RunsAhead)
  }

  predicate IdsDistinct(jobs: seq<CronJob>) {
    forall i, k :: 0 <= i < k < |jobs| ==> jobs[i].id != jobs[k].id
  }

  /** A directory names each of its entries once. */
  predicate NamesDistinct(entries: seq<Entry>) {
    forall i, k :: 0 <= i < k < |entries| ==> entries[i].name != entries[k].name
  }

  // ----- the fixed example jobs -----

  function ExampleJobs(now: Instant, nextRuns: NextRunsFn): seq<CronJob> {
    [ CronJob("local-root-system-update", LocalSystem, "root", "0 3 * * *",
              "/usr/bin/pacman -Syu --noconfirm", nextRuns("0 3 * * *", now, RunsAhead),
              Some("Beispiel: nächtliches System-Update (Dummy-Daten).")),
      CronJob("local-user-backup-home", LocalSystem, "tortillachip", "30 2 * * 1-5",
              "/home/tortillachip/bin/backup-home.sh", nextRuns("30 2 * * 1-5", now, RunsAhead),
              Some("Beispiel: User-Backup des Home-Verzeichnisses (Dummy-Daten).")) ]
  }

  // ----- /etc/cron.hourly -----

  predicate IsScript(e: Entry) { e.isFile && e.isExecutable }

  /** The job for one hourly script: run as root, every hour, the command
      being the script's path. */
  function HourlyJob(e: Entry, now: Instant, nextRuns: NextRunsFn): CronJob {
    CronJob("cron.hourly-" + e.name, LocalSystem, "root", HourlySchedule,
            "/etc/cron.hourly/" + e.name, nextRuns(HourlySchedule, now, RunsAhead),
            Some(HourlyDescription))
  }

  /** The jobs of the executable regular files among `entries`, in listing
      order. */
  function ScriptJobs(entries: seq<Entry>, now: Instant, nextRuns: NextRunsFn): seq<CronJob> {
    if entries == [] then []
    else
      var last := entries[|entries| - 1];
      ScriptJobs(entries[..|entries| - 1], now, nextRuns)
        + (if IsScript(last) then [HourlyJob(last, now, nextRuns)] else [])
  }

  function CronHourlyJobs(dir: Option<seq<Entry>>, now: Instant, nextRuns: NextRunsFn): seq<CronJob> {
    match dir
    case None => []
    case Some(entries) => ScriptJobs(entries, now, nextRuns)
  }

  // ----- lines of a crontab-style file -----

  /** The parser's result for each line, in order. */
  function Verdicts(lines: seq<string>): (v: seq<Option<ParsedCronLine>>)
    ensures |v| == |lines|
  {
    seq(|lines|, i requires 0 <= i < |lines| => ParseSystemCronLine(lines[i]))
  }

  /** The job for an accepted line with 1-based number `lineno`. */
  function LineJob(idPrefix: string, description: string, lineno: nat, p: ParsedCronLine,
                   now: Instant, nextRuns: NextRunsFn): CronJob {
    CronJob(idPrefix + NatToString(lineno), LocalSystem, p.user, p.schedule, p.command,
            nextRuns(p.schedule, now, RunsAhead), Some(description))
  }

  /** The jobs of the accepted lines, in line order, from the parser's
      results; a line's number is its position in the file, so rejected
      lines shift nothing. */
  function LineJobs(idPrefix: string, description: string, verdicts: seq<Option<ParsedCronLine>>,
                    now: Instant, nextRuns: NextRunsFn): seq<CronJob> {
    if verdicts == [] then []
    else
      var n := |verdicts|;
      LineJobs(idPrefix, description, verdicts[..n - 1], now, nextRuns)
        + match verdicts[n - 1]
          case None => []
          case Some(p) => [LineJob(idPrefix, description, n, p, now, nextRuns)]
  }

  /** The 1-based numbers of the accepted lines, in order. */
  function AcceptedLines(verdicts: seq<Option<ParsedCronLine>>): seq<nat> {
    if verdicts == [] then []
    else
      var n := |verdicts|;
      AcceptedLines(verdicts[..n - 1]) + (if verdicts[n - 1].Some? then [n] else [])
  }

  function EtcCrontabJobs(crontab: Option<seq<string>>, now: Instant, nextRuns: NextRunsFn): seq<CronJob> {
    match crontab
    case None => []
    case Some(lines) => LineJobs(EtcCrontabIdPrefix, EtcCrontabDescription, Verdicts(lines), now, nextRuns)
  }

  // ----- /etc/cron.d -----

  /** The jobs one cron.d entry contributes: none unless it is a regular file
      that could be read. */
  function CronDFileJobs(f: Entry, now: Instant, nextRuns: NextRunsFn): seq<CronJob> {
    if f.isFile && f.lines.Some? then
      LineJobs(CronDIdPrefix(f.name), CronDDescription(f.name), Verdicts(f.lines.value), now, nextRuns)
    else []
  }

  /** The jobs of `files`, file after file. */
  function FileGroupJobs(files: seq<Entry>, now: Instant, nextRuns: NextRunsFn): seq<CronJob> {
    if files == [] then []
    else FileGroupJobs(files[..|files| - 1], now, nextRuns) + CronDFileJobs(files[|files| - 1], now, nextRuns)
  }

  predicate SortedByName(s: seq<Entry>) {
    forall i, k :: 0 <= i < k < |s| ==> LexLe(s[i].name, s[k].name)
  }

  function InsertByName(e: Entry, sorted: seq<Entry>): (r: seq<Entry>)
    ensures multiset(r) == multiset(sorted) + multiset{e}
  {
    if sorted == [] || LexLe(e.name, sorted[0].name) then [e] + sorted
    else
      assert sorted == [sorted[0]] + sorted[1..];
      [sorted[0]] + InsertByName(e, sorted[1..])
  }

  /** `sorted` on a listing of one directory: by name, stable. */
  function SortByName(entries: seq<Entry>): (r: seq<Entry>)
    ensures multiset(r) == multiset(entries)
  {
    if entries == [] then []
    else
      assert entries == [entries[0]] + entries[1..];
      InsertByName(entries[0], SortByName(entries[1..]))
  }

  function CronDJobs(dir: Option<seq<Entry>>, now: Instant, nextRuns: NextRunsFn): seq<CronJob> {
    match dir
    case None => []
    case Some(entries) => FileGroupJobs(SortByName(entries), now, nextRuns)
  }

  // ----- the whole inventory -----

  function CronJobs(fs: FileSystem, now: Instant, nextRuns: NextRunsFn): seq<CronJob> {
    ExampleJobs(now, nextRuns)
      + CronHourlyJobs(fs.cronHourly, now, nextRuns)
      + EtcCrontabJobs(fs.etcCrontab, now, nextRuns)
      + CronDJobs(fs.cronD, now, nextRuns)
  }

  /** One more line extends the jobs by that line's job, if it has one. */
  lemma LineJobsStep(idPrefix: string, description: string, lines: seq<string>, j: nat,
                     now: Instant, nextRuns: NextRunsFn)
    requires j < |lines|
    ensures LineJobs(idPrefix, description, Verdicts(lines)[..j + 1], now, nextRuns)
      == LineJobs(idPrefix, description, Verdicts(lines)[..j], now, nextRuns)
         + match ParseSystemCronLine(lines[j])
           case None => []
           case Some(p) => [LineJob(idPrefix, description, j + 1, p, now, nextRuns)]
  {
    var v := Verdicts(lines);
    assert v[..j + 1][..j] == v[..j];
    assert v[..j + 1][j] == ParseSystemCronLine(lines[j]);
  }

  // ----- the readers -----

  method ReadCronHourlyJobs(dir: Option<seq<Entry>>, now: Instant, nextRuns: NextRunsFn)
    returns (jobs: seq<CronJob>)
    ensures dir.None? ==> jobs == []
    ensures jobs == CronHourlyJobs(dir, now, nextRuns)
  {
    if dir.None? {
      return [];
    }
    var entries := dir.value;
    jobs := [];
    for i := 0 to |entries|
      invariant jobs == ScriptJobs(entries[..i], now, nextRuns)
    {
      assert entries[..i + 1][..i] == entries[..i];
      var entry := entries[i];
      if !entry.isFile {
        continue;
      }
      if !entry.isExecutable {
        continue;
      }
      var name := entry.name;
      jobs := jobs + [CronJob("cron.hourly-" + name, LocalSystem, "root", HourlySchedule,
                              "/etc/cron.hourly/" + name, nextRuns(HourlySchedule, now, RunsAhead),
                              Some(HourlyDescription))];
    }
    assert entries[..|entries|] == entries;
  }

  method ReadEtcCrontabJobs(crontab: Option<seq<string>>, now: Instant, nextRuns: NextRunsFn)
    returns (jobs: seq<CronJob>)
    ensures crontab.None? ==> jobs == []
    ensures jobs == EtcCrontabJobs(crontab, now, nextRuns)
  {
    if crontab.None? {
      return [];
    }
    var lines := crontab.value;
    jobs := [];
    for i := 0 to |lines|
      invariant jobs == LineJobs(EtcCrontabIdPrefix, EtcCrontabDescription, Verdicts(lines)[..i], now, nextRuns)
    {
      LineJobsStep(EtcCrontabIdPrefix, EtcCrontabDescription, lines, i, now, nextRuns);
      var lineno := i + 1;
      var parsed := ParseSystemCronLine(lines[i]);
      if parsed.None? {
        continue;
      }
      var p := parsed.value;
      jobs := jobs + [CronJob("etc-crontab:" + NatToString(lineno), LocalSystem, p.user, p.schedule,
                              p.command, nextRuns(p.schedule, now, RunsAhead),
                              Some(EtcCrontabDescription))];
    }
    assert Verdicts(lines)[..|lines|] == Verdicts(lines);
  }

  method ReadCronDJobs(dir: Option<seq<Entry>>, now: Instant, nextRuns: NextRunsFn)
    returns (jobs: seq<CronJob>)
    ensures dir.None? ==> jobs == []
    ensures jobs == CronDJobs(dir, now, nextRuns)
  {
    if dir.None? {
      return [];
    }
    var files := SortByName(dir.value);
    jobs := [];
    for i := 0 to |files|
      invariant jobs == FileGroupJobs(files[..i], now, nextRuns)
    {
      assert files[..i + 1][..i] == files[..i];
      var file := files[i];
      if !file.isFile {
        continue;
      }
      if file.lines.None? {
        continue;
      }
      jobs := AppendCronDLines(jobs, file.name, file.lines.value, now, nextRuns);
    }
    assert files[..|files|] == files;
  }

  /** The inner loop of `_read_cron_d_jobs`: one job per accepted line of
      the file `name`, appended to the jobs read so far. */
  method AppendCronDLines(before: seq<CronJob>, name: string, lines: seq<string>, now: Instant, nextRuns: NextRunsFn)
    returns (jobs: seq<CronJob>)
    ensures jobs == before + LineJobs(CronDIdPrefix(name), CronDDescription(name), Verdicts(lines), now, nextRuns)
  {
    jobs := before;
    for j := 0 to |lines|
      invariant jobs == before + LineJobs(CronDIdPrefix(name), CronDDescription(name), Verdicts(lines)[..j], now, nextRuns)
    {
      LineJobsStep(CronDIdPrefix(name), CronDDescription(name), lines, j, now, nextRuns);
      var lineno := j + 1;
      var parsed := ParseSystemCronLine(lines[j]);
      if parsed.None? {
        continue;
      }
      var p := parsed.value;
      jobs := jobs + [CronJob("cron.d:" + name + ":" + NatToString(lineno), LocalSystem, p.user,
                              p.schedule, p.command, nextRuns(p.schedule, now, RunsAhead),
                              Some("Quelle: /etc/cron.d/" + name))];
    }
    assert Verdicts(lines)[..|lines|] == Verdicts(lines);
  }

  /** `get_cron_jobs`: the examples first, then the hourly scripts,
      `/etc/crontab` and `/etc/cron.d`, in that order. */
  method GetCronJobs(fs: FileSystem, now: Instant, nextRuns: NextRunsFn) returns (jobs: seq<CronJob>)
    ensures jobs == CronJobs(fs, now, nextRuns)
  {
    jobs := ExampleJobs(now, nextRuns);
    var hourly := ReadCronHourlyJobs(fs.cronHourly, now, nextRuns);
    jobs := jobs + hourly;
    var crontab := ReadEtcCrontabJobs(fs.etcCrontab, now, nextRuns);
    jobs := jobs + crontab;
    var cronD := ReadCronDJobs(fs.cronD, now, nextRuns);
    jobs := jobs + cronD;
  }

  /** `get_local_cron_jobs`: what a fresh reader's `get_cron_jobs` returns. */
  method GetLocalCronJobs(fs: FileSystem, now: Instant, nextRuns: NextRunsFn) returns (jobs: seq<CronJob>)
    ensures jobs == CronJobs(fs, now, nextRuns)
  {
    jobs := GetCronJobs(fs, now, nextRuns);
  }

  // ----- what the readers guarantee -----

  /** The hourly scripts keep listing order: the jobs of a concatenated
      listing are the jobs of its parts, concatenated. */
  lemma {:induction false} ScriptJobsAppend(a: seq<Entry>, b: seq<Entry>, now: Instant, nextRuns: NextRunsFn)
    ensures ScriptJobs(a + b, now, nextRuns) == ScriptJobs(a, now, nextRuns) + ScriptJobs(b, now, nextRuns)
    decreases |b|
  {
    if b == [] {
      assert a + b == a;
    } else {
      assert (a + b)[..|a + b| - 1] == a + b[..|b| - 1];
      ScriptJobsAppend(a, b[..|b| - 1], now, nextRuns);
    }
  }

  /** A job comes from `/etc/cron.hourly` exactly when it is the job of an
      entry that is both a regular file and executable. */
  lemma {:induction false} ScriptJobsMembers(entries: seq<Entry>, now: Instant, nextRuns: NextRunsFn, j: CronJob)
    ensures j in ScriptJobs(entries, now, nextRuns)
      <==> exists e :: e in entries && IsScript(e) && j == HourlyJob(e, now, nextRuns)
  {
    if entries != [] {
      var init, last := entries[..|entries| - 1], entries[|entries| - 1];
      ScriptJobsMembers(init, now, nextRuns, j);
      assert entries == init + [last];
    }
  }

  /** Different script names give different ids. */
  lemma {:induction false} ScriptJobIdsDistinct(entries: seq<Entry>, now: Instant, nextRuns: NextRunsFn)
    requires NamesDistinct(entries)
    ensures IdsDistinct(ScriptJobs(entries, now, nextRuns))
  {
    if entries != [] {
      var init, last := entries[..|entries| - 1], entries[|entries| - 1];
      ScriptJobIdsDistinct(init, now, nextRuns);
      var prev := ScriptJobs(init, now, nextRuns);
      var added := if IsScript(last) then [HourlyJob(last, now, nextRuns)] else [];
      forall x, y | x in prev && y in added ensures x.id != y.id {
        ScriptJobsMembers(init, now, nextRuns, x);
        var e :| e in init && IsScript(e) && x == HourlyJob(e, now, nextRuns);
        var i :| 0 <= i < |init| && init[i] == e;
        assert e.name != last.name by { assert entries[i] == e; }
        PrefixKeepsDifference("cron.hourly-", e.name, last.name);
      }
      DistinctAppend(prev, added);
    }
  }

  /** Which lines are accepted: the numbers are increasing, each names a line
      the parser accepted, and every accepted line is numbered. */
  lemma {:induction false} AcceptedLinesNumbering(verdicts: seq<Option<ParsedCronLine>>)
    ensures forall k :: 0 <= k < |AcceptedLines(verdicts)| ==>
      1 <= AcceptedLines(verdicts)[k] <= |verdicts| && verdicts[AcceptedLines(verdicts)[k] - 1].Some?
    ensures forall k, l :: 0 <= k < l < |AcceptedLines(verdicts)| ==> AcceptedLines(verdicts)[k] < AcceptedLines(verdicts)[l]
    ensures forall i :: 0 <= i < |verdicts| && verdicts[i].Some? ==> i + 1 in AcceptedLines(verdicts)
  {
    if verdicts != [] {
      var n := |verdicts|;
      var init := verdicts[..n - 1];
      AcceptedLinesNumbering(init);
      var ns0, ns := AcceptedLines(init), AcceptedLines(verdicts);
      assert ns == ns0 + (if verdicts[n - 1].Some? then [n] else []);
      forall k | 0 <= k < |ns0|
        ensures ns[k] == ns0[k] && 1 <= ns[k] < n && verdicts[ns[k] - 1] == init[ns[k] - 1]
      {
      }
      forall i | 0 <= i < n - 1 ensures verdicts[i] == init[i] {
      }
    }
  }

  /** A crontab-style file yields exactly one job per accepted line, in line
      order: the k-th job is the job of the k-th accepted line, its id the
      prefix and the line's 1-based number, its schedule, user and command
      those the parser returned. */
  lemma {:induction false} LineJobsByLine(idPrefix: string, description: string,
                                          verdicts: seq<Option<ParsedCronLine>>,
                                          now: Instant, nextRuns: NextRunsFn)
    ensures var ns := AcceptedLines(verdicts);
      var jobs := LineJobs(idPrefix, description, verdicts, now, nextRuns);
      && |jobs| == |ns|
      && forall k :: 0 <= k < |ns| ==>
           && 1 <= ns[k] <= |verdicts|
           && verdicts[ns[k] - 1].Some?
           && jobs[k] == LineJob(idPrefix, description, ns[k], verdicts[ns[k] - 1].value, now, nextRuns)
  {
    if verdicts != [] {
      var n := |verdicts|;
      var init := verdicts[..n - 1];
      LineJobsByLine(idPrefix, description, init, now, nextRuns);
      var ns0, ns := AcceptedLines(init), AcceptedLines(verdicts);
      var jobs0 := LineJobs(idPrefix, description, init, now, nextRuns);
      var jobs := LineJobs(idPrefix, description, verdicts, now, nextRuns);
      assert ns == ns0 + (if verdicts[n - 1].Some? then [n] else []);
      forall k | 0 <= k < |ns0|
        ensures ns[k] == ns0[k] && jobs[k] == jobs0[k] && verdicts[ns0[k] - 1] == init[ns0[k] - 1]
      {
      }
    }
  }

  /** Every job of a crontab-style file is stamped and has an id made of the
      prefix and a line number. */
  lemma LineJobsShape(idPrefix: string, description: string, verdicts: seq<Option<ParsedCronLine>>,
                      now: Instant, nextRuns: NextRunsFn, j: CronJob)
    requires j in LineJobs(idPrefix, description, verdicts, now, nextRuns)
    ensures Stamped(j, now, nextRuns)
    ensures exists n: nat :: j.id == idPrefix + NatToString(n)
  {
    LineJobsByLine(idPrefix, description, verdicts, now, nextRuns);
    var jobs := LineJobs(idPrefix, description, verdicts, now, nextRuns);
    var k :| 0 <= k < |jobs| && jobs[k] == j;
    assert j.id == idPrefix + NatToString(AcceptedLines(verdicts)[k]);
  }

  /** Ids within one crontab-style file are pairwise distinct. */
  lemma LineJobIdsDistinct(idPrefix: string, description: string, verdicts: seq<Option<ParsedCronLine>>,
                           now: Instant, nextRuns: NextRunsFn)
    ensures IdsDistinct(LineJobs(idPrefix, description, verdicts, now, nextRuns))
  {
    var ns := AcceptedLines(verdicts);
    var jobs := LineJobs(idPrefix, description, verdicts, now, nextRuns);
    AcceptedLinesNumbering(verdicts);
    LineJobsByLine(idPrefix, description, verdicts, now, nextRuns);
    forall i, k | 0 <= i < k < |jobs| ensures jobs[i].id != jobs[k].id {
      NatToStringInjective(ns[i], ns[k]);
      PrefixKeepsDifference(idPrefix, NatToString(ns[i]), NatToString(ns[k]));
    }
  }

  /** The lines of `/etc/crontab` that yield jobs: exactly those the parser
      accepts (`Verdicts(lines)[i]` is its verdict on line i + 1), listed by
      their 1-based numbers in increasing order. */
  lemma EtcCrontabAcceptedLines(lines: seq<string>)
    ensures var v, ns := Verdicts(lines), AcceptedLines(Verdicts(lines));
      && (forall k, l :: 0 <= k < l < |ns| ==> ns[k] < ns[l])
      && (forall k :: 0 <= k < |ns| ==> 1 <= ns[k] <= |lines| && v[ns[k] - 1].Some?)
      && (forall i :: 0 <= i < |lines| && v[i].Some? ==> i + 1 in ns)
  {
    AcceptedLinesNumbering(Verdicts(lines));
  }

  /** What `/etc/crontab` yields: the k-th job comes from the k-th accepted
      line, numbered by its position in the file, with the schedule, user
      and command the parser returned for it. */
  lemma EtcCrontabByLine(lines: seq<string>, now: Instant, nextRuns: NextRunsFn)
    ensures var v, ns := Verdicts(lines), AcceptedLines(Verdicts(lines));
      var jobs := EtcCrontabJobs(Some(lines), now, nextRuns);
      && |jobs| == |ns|
      && forall k :: 0 <= k < |ns| ==>
           && 1 <= ns[k] <= |lines|
           && v[ns[k] - 1].Some?
           && var p := v[ns[k] - 1].value;
              jobs[k] == CronJob("etc-crontab:" + NatToString(ns[k]), "localhost", p.user, p.schedule,
                                 p.command, nextRuns(p.schedule, now, 3), Some("Quelle: /etc/crontab"))
  {
    LineJobsByLine(EtcCrontabIdPrefix, EtcCrontabDescription, Verdicts(lines), now, nextRuns);
  }

  /** What one readable regular file in `/etc/cron.d` yields: the k-th job
      comes from the k-th accepted line of that file, its id the file's name
      and the line's 1-based number, with the schedule, user and command the
      parser returned for it. */
  lemma CronDFileByLine(f: Entry, now: Instant, nextRuns: NextRunsFn)
    requires f.isFile && f.lines.Some?
    ensures var lines := f.lines.value;
      var v, ns := Verdicts(lines), AcceptedLines(Verdicts(lines));
      var jobs := CronDFileJobs(f, now, nextRuns);
      && |jobs| == |ns|
      && forall k :: 0 <= k < |ns| ==>
           && 1 <= ns[k] <= |lines|
           && v[ns[k] - 1].Some?
           && var p := v[ns[k] - 1].value;
              jobs[k] == CronJob("cron.d:" + f.name + ":" + NatToString(ns[k]), "localhost", p.user, p.schedule,
                                 p.command, nextRuns(p.schedule, now, 3), Some("Quelle: /etc/cron.d/" + f.name))
  {
    var v := Verdicts(f.lines.value);
    assert CronDFileJobs(f, now, nextRuns) == LineJobs(CronDIdPrefix(f.name), CronDDescription(f.name), v, now, nextRuns);
    LineJobsByLine(CronDIdPrefix(f.name), CronDDescription(f.name), v, now, nextRuns);
  }

  /** cron.d files contribute their jobs file after file. */
  lemma {:induction false} FileGroupJobsAppend(a: seq<Entry>, b: seq<Entry>, now: Instant, nextRuns: NextRunsFn)
    ensures FileGroupJobs(a + b, now, nextRuns) == FileGroupJobs(a, now, nextRuns) + FileGroupJobs(b, now, nextRuns)
    decreases |b|
  {
    if b == [] {
      assert a + b == a;
    } else {
      var ab, b0, f := a + b, b[..|b| - 1], b[|b| - 1];
      assert ab[..|ab| - 1] == a + b0;
      assert ab[|ab| - 1] == f;
      FileGroupJobsAppend(a, b0, now, nextRuns);
      var x, y, z := FileGroupJobs(a, now, nextRuns), FileGroupJobs(b0, now, nextRuns), CronDFileJobs(f, now, nextRuns);
      calc {
        FileGroupJobs(ab, now, nextRuns);
        FileGroupJobs(a + b0, now, nextRuns) + z;
        (x + y) + z;
        { SeqAssoc(x, y, z); }
        x + (y + z);
        x + FileGroupJobs(b, now, nextRuns);
      }
    }
  }

  /** A cron.d entry that is not a regular file, or whose read failed, adds
      nothing, and the files after it are still read. */
  lemma SkippedFile(a: seq<Entry>, f: Entry, b: seq<Entry>, now: Instant, nextRuns: NextRunsFn)
    requires !f.isFile || f.lines.None?
    ensures FileGroupJobs(a + [f] + b, now, nextRuns) == FileGroupJobs(a, now, nextRuns) + FileGroupJobs(b, now, nextRuns)
  {
    var af := a + [f];
    FileGroupJobsAppend(af, b, now, nextRuns);
    assert af[..|af| - 1] == a;
    assert af[|af| - 1] == f;
    assert CronDFileJobs(f, now, nextRuns) == [];
    assert FileGroupJobs(af, now, nextRuns) == FileGroupJobs(a, now, nextRuns);
  }

  /** A job comes from cron.d exactly when it is a job of one of its files. */
  lemma {:induction false} FileGroupJobsMembers(files: seq<Entry>, now: Instant, nextRuns: NextRunsFn, j: CronJob)
    ensures j in FileGroupJobs(files, now, nextRuns)
      <==> exists f :: f in files && j in CronDFileJobs(f, now, nextRuns)
  {
    if files != [] {
      var init, last := files[..|files| - 1], files[|files| - 1];
      FileGroupJobsMembers(init, now, nextRuns, j);
      assert files == init + [last];
    }
  }

  /** Every cron.d job carries its file's name and a line number in its id. */
  lemma CronDJobShape(files: seq<Entry>, now: Instant, nextRuns: NextRunsFn, j: CronJob)
    requires j in FileGroupJobs(files, now, nextRuns)
    ensures Stamped(j, now, nextRuns)
    ensures exists f, n: nat :: f in files && j.id == CronDIdPrefix(f.name) + NatToString(n)
  {
    FileGroupJobsMembers(files, now, nextRuns, j);
    var f :| f in files && j in CronDFileJobs(f, now, nextRuns);
    LineJobsShape(CronDIdPrefix(f.name), CronDDescription(f.name), Verdicts(f.lines.value), now, nextRuns, j);
  }

  /** Ids across cron.d are pairwise distinct when the file names are. */
  lemma {:induction false} CronDIdsDistinct(files: seq<Entry>, now: Instant, nextRuns: NextRunsFn)
    requires NamesDistinct(files)
    ensures IdsDistinct(FileGroupJobs(files, now, nextRuns))
  {
    if files != [] {
      var init, last := files[..|files| - 1], files[|files| - 1];
      CronDIdsDistinct(init, now, nextRuns);
      var prev := FileGroupJobs(init, now, nextRuns);
      var added := CronDFileJobs(last, now, nextRuns);
      if last.isFile && last.lines.Some? {
        LineJobIdsDistinct(CronDIdPrefix(last.name), CronDDescription(last.name), Verdicts(last.lines.value), now, nextRuns);
      }
      forall x, y | x in prev && y in added ensures x.id != y.id {
        CronDJobShape(init, now, nextRuns, x);
        var f, m: nat :| f in init && x.id == CronDIdPrefix(f.name) + NatToString(m);
        CronDJobShape([last], now, nextRuns, y);
        var n: nat :| y.id == CronDIdPrefix(last.name) + NatToString(n);
        var i :| 0 <= i < |init| && init[i] == f;
        assert f.name != last.name by { assert files[i] == f; }
        ColonNumberInjective("cron.d:" + f.name, m, "cron.d:" + last.name, n);
        PrefixKeepsDifference("cron.d:", f.name, last.name);
      }
      DistinctAppend(prev, added);
    }
  }

  lemma {:induction false} InsertByNameSorted(e: Entry, s: seq<Entry>)
    requires SortedByName(s)
    ensures SortedByName(InsertByName(e, s))
  {
    if s == [] || LexLe(e.name, s[0].name) {
      forall k | 0 < k < |s| ensures LexLe(e.name, s[k].name) {
        LexLeTransitive(e.name, s[0].name, s[k].name);
      }
    } else {
      InsertByNameSorted(e, s[1..]);
      var rest := InsertByName(e, s[1..]);
      LexLeTotal(e.name, s[0].name);
      forall k | 0 <= k < |rest| ensures LexLe(s[0].name, rest[k].name) {
        assert rest[k] in multiset(rest);
        assert rest[k] == e || rest[k] in s[1..];
      }
    }
  }

  /** cron.d files are visited in name order. */
  lemma {:induction false} SortByNameSorted(entries: seq<Entry>)
    ensures SortedByName(SortByName(entries))
  {
    if entries != [] {
      SortByNameSorted(entries[1..]);
      InsertByNameSorted(entries[0], SortByName(entries[1..]));
    }
  }

  lemma {:induction false} InsertByNameKeepsNamesDistinct(e: Entry, s: seq<Entry>)
    requires NamesDistinct(s)
    requires forall x :: x in s ==> x.name != e.name
    ensures NamesDistinct(InsertByName(e, s))
  {
    if s != [] && !LexLe(e.name, s[0].name) {
      InsertByNameKeepsNamesDistinct(e, s[1..]);
      var rest := InsertByName(e, s[1..]);
      forall k | 0 <= k < |rest| ensures s[0].name != rest[k].name {
        assert rest[k] in multiset(rest);
        assert rest[k] == e || rest[k] in s[1..];
      }
    }
  }

  /** Sorting a listing keeps its names distinct. */
  lemma {:induction false} SortByNameKeepsNamesDistinct(entries: seq<Entry>)
    requires NamesDistinct(entries)
    ensures NamesDistinct(SortByName(entries))
  {
    if entries != [] {
      SortByNameKeepsNamesDistinct(entries[1..]);
      var sorted := SortByName(entries[1..]);
      forall x | x in sorted ensures x.name != entries[0].name {
        assert x in multiset(sorted);
        var i :| 0 <= i < |entries[1..]| && entries[1..][i] == x;
        assert entries[i + 1] == x;
      }
      InsertByNameKeepsNamesDistinct(entries[0], sorted);
    }
  }

  /** `get_cron_jobs` puts the two examples first, then the hourly scripts,
      `/etc/crontab` and cron.d, so its length is two plus the three
      sources' lengths. */
  lemma CronJobsOrder(fs: FileSystem, now: Instant, nextRuns: NextRunsFn)
    ensures var jobs := CronJobs(fs, now, nextRuns);
      var h := CronHourlyJobs(fs.cronHourly, now, nextRuns);
      var c := EtcCrontabJobs(fs.etcCrontab, now, nextRuns);
      var d := CronDJobs(fs.cronD, now, nextRuns);
      && |jobs| == 2 + |h| + |c| + |d|
      && jobs[0].id == "local-root-system-update"
      && jobs[1].id == "local-user-backup-home"
      && jobs[2..2 + |h|] == h
      && jobs[2 + |h|..2 + |h| + |c|] == c
      && jobs[2 + |h| + |c|..] == d
  {
    var e := ExampleJobs(now, nextRuns);
    var h := CronHourlyJobs(fs.cronHourly, now, nextRuns);
    var c := EtcCrontabJobs(fs.etcCrontab, now, nextRuns);
    var d := CronDJobs(fs.cronD, now, nextRuns);
    ConcatSlices(e, h, c, d);
  }

  /** Where each part of a four-part concatenation sits. */
  lemma ConcatSlices(e: seq<CronJob>, h: seq<CronJob>, c: seq<CronJob>, d: seq<CronJob>)
    ensures var s := e + h + c + d;
      && |s| == |e| + |h| + |c| + |d|
      && s[..|e|] == e
      && s[|e|..|e| + |h|] == h
      && s[|e| + |h|..|e| + |h| + |c|] == c
      && s[|e| + |h| + |c|..] == d
  {
  }

  /** The first six characters of an id tell its source apart. */
  function Tag(id: string): string { if |id| >= 6 then id[..6] else id }

  /** Every job from one source is stamped, its id carries that source's
      tag, and no two of its ids are equal. */
  predicate SourceJobs(jobs: seq<CronJob>, tag: string, now: Instant, nextRuns: NextRunsFn) {
    && IdsDistinct(jobs)
    && forall j :: j in jobs ==> Stamped(j, now, nextRuns) && Tag(j.id) == tag
  }

  lemma ExampleJobsFacts(now: Instant, nextRuns: NextRunsFn)
    ensures SourceJobs(ExampleJobs(now, nextRuns), "local-", now, nextRuns)
  {
  }

  lemma CronHourlyFacts(dir: Option<seq<Entry>>, now: Instant, nextRuns: NextRunsFn)
    requires dir.Some? ==> NamesDistinct(dir.value)
    ensures SourceJobs(CronHourlyJobs(dir, now, nextRuns), "cron.h", now, nextRuns)
  {
    if dir.Some? {
      ScriptJobIdsDistinct(dir.value, now, nextRuns);
      forall x | x in ScriptJobs(dir.value, now, nextRuns)
        ensures Stamped(x, now, nextRuns) && Tag(x.id) == "cron.h"
      {
        ScriptJobsMembers(dir.value, now, nextRuns, x);
      }
    }
  }

  lemma EtcCrontabFacts(crontab: Option<seq<string>>, now: Instant, nextRuns: NextRunsFn)
    ensures SourceJobs(EtcCrontabJobs(crontab, now, nextRuns), "etc-cr", now, nextRuns)
  {
    if crontab.Some? {
      var v := Verdicts(crontab.value);
      LineJobIdsDistinct(EtcCrontabIdPrefix, EtcCrontabDescription, v, now, nextRuns);
      forall x | x in LineJobs(EtcCrontabIdPrefix, EtcCrontabDescription, v, now, nextRuns)
        ensures Stamped(x, now, nextRuns) && Tag(x.id) == "etc-cr"
      {
        LineJobsShape(EtcCrontabIdPrefix, EtcCrontabDescription, v, now, nextRuns, x);
      }
    }
  }

  lemma CronDFacts(dir: Option<seq<Entry>>, now: Instant, nextRuns: NextRunsFn)
    requires dir.Some? ==> NamesDistinct(dir.value)
    ensures SourceJobs(CronDJobs(dir, now, nextRuns), "cron.d", now, nextRuns)
  {
    if dir.Some? {
      var files := SortByName(dir.value);
      SortByNameKeepsNamesDistinct(dir.value);
      CronDIdsDistinct(files, now, nextRuns);
      forall x | x in FileGroupJobs(files, now, nextRuns)
        ensures Stamped(x, now, nextRuns) && Tag(x.id) == "cron.d"
      {
        CronDJobShape(files, now, nextRuns, x);
      }
    }
  }

  /** Over the whole inventory every job runs on the local host, its next
      runs are those of its own schedule from the call's single `now` (three
      asked for), and its id is unique, provided each directory names its
      entries once. */
  lemma CronJobsStampedAndUnique(fs: FileSystem, now: Instant, nextRuns: NextRunsFn)
    requires fs.cronHourly.Some? ==> NamesDistinct(fs.cronHourly.value)
    requires fs.cronD.Some? ==> NamesDistinct(fs.cronD.value)
    ensures forall j :: j in CronJobs(fs, now, nextRuns) ==> Stamped(j, now, nextRuns)
    ensures IdsDistinct(CronJobs(fs, now, nextRuns))
  {
    var e := ExampleJobs(now, nextRuns);
    var h := CronHourlyJobs(fs.cronHourly, now, nextRuns);
    var c := EtcCrontabJobs(fs.etcCrontab, now, nextRuns);
    var d := CronDJobs(fs.cronD, now, nextRuns);
    ExampleJobsFacts(now, nextRuns);
    CronHourlyFacts(fs.cronHourly, now, nextRuns);
    EtcCrontabFacts(fs.etcCrontab, now, nextRuns);
    CronDFacts(fs.cronD, now, nextRuns);
    DistinctAppend(e, h);
    DistinctAppend(e + h, c);
    DistinctAppend(e + h + c, d);
  }

  // ----- helpers -----

  lemma SeqAssoc<T>(x: seq<T>, y: seq<T>, z: seq<T>)
    ensures (x + y) + z == x + (y + z)
  {
  }

  lemma PrefixKeepsDifference(p: string, a: string, b: string)
    ensures a != b ==> p + a != p + b
  {
    assert (p + a)[|p|..] == a && (p + b)[|p|..] == b;
  }

  lemma DistinctAppend(a: seq<CronJob>, b: seq<CronJob>)
    requires IdsDistinct(a) && IdsDistinct(b)
    requires forall x, y :: x in a && y in b ==> x.id != y.id
    ensures IdsDistinct(a + b)
  {
    forall i, k | 0 <= i < k < |a + b| ensures (a + b)[i].id != (a + b)[k].id {
      if k >= |a| && i < |a| {
        assert (a + b)[i] in a && (a + b)[k] in b;
      }
    }
  }
}
