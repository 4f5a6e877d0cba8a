/**
 * The system-crontab line parser: one line of `/etc/crontab` or of a file in
 * `/etc/cron.d` becomes a schedule, the user the job runs as, and the
 * command, or nothing. The line format is crontab(5)'s system form: five
 * time fields, a user and a command, or an `@shortcut`, a user and a command.
 */
module CronParsing {
  import opened Wrappers
  import opened Text

  /** The three fields of an accepted line. */
  datatype ParsedCronLine = ParsedCronLine(schedule: string, user: string, command: string)

  /** Parses one system-crontab line. Blank lines and comments are ignored;
      the rest is decided on its whitespace-separated tokens. */
  function ParseSystemCronLine(line: string): Option<ParsedCronLine> {
    var raw := Strip(line);
    if raw == [] || raw[0] == '#' then None
    else
      SplitHead(raw);
      ParseParts(Split(raw))
  }

  /** The token stage of the parser: a single `KEY=VALUE` token is ignored;
      a shortcut line needs at least three tokens, a standard line at least
      seven. */
  function ParseParts(parts: seq<string>): Option<ParsedCronLine>
    requires parts != [] && AllWords(parts)
  {
    if |parts| == 1 && '=' in parts[0] then None
    else if parts[0][0] == '@' then
      if |parts| < 3 then None
      else Some(ParsedCronLine(parts[0], parts[1], Join(parts[2..])))
    else if |parts| < 7 then None
    else Some(ParsedCronLine(Join(parts[..5]), parts[5], Join(parts[6..])))
  }

  /** The parser sees a line only through its tokens. */
  lemma SameTokensSameParse(a: string, b: string)
    requires Split(a) == Split(b)
    ensures ParseSystemCronLine(a) == ParseSystemCronLine(b)
  {
    SplitStrip(a);
    SplitStrip(b);
  }

  /** Blank lines and lines whose first non-whitespace character is `#` are
      ignored, whatever follows. */
  lemma IgnoredLines(line: string)
    requires var t := Split(line); t == [] || t[0][0] == '#'
    ensures ParseSystemCronLine(line) == None
  {
    SplitStrip(line);
  }

  /** A line of fewer than three tokens, a lone `KEY=VALUE` among them, is
      never a job. */
  lemma TooFewTokens(line: string)
    requires |Split(line)| < 3
    ensures ParseSystemCronLine(line) == None
  {
    SplitStrip(line);
  }

  /** Shortcut form: `@shortcut user command...`. */
  lemma ShortcutForm(line: string)
    requires var t := Split(line); t != [] && t[0][0] == '@'
    ensures var t := Split(line);
      && (ParseSystemCronLine(line).Some? <==> |t| >= 3)
      && (|t| >= 3 ==> ParseSystemCronLine(line) == Some(ParsedCronLine(t[0], t[1], Join(t[2..]))))
  {
    SplitStrip(line);
  }

  /** Standard form: five time fields, a user, then the command; the
      schedule holds exactly the five fields. */
  lemma StandardForm(line: string)
    requires var t := Split(line); t != [] && t[0][0] != '@' && t[0][0] != '#'
    ensures var t := Split(line);
      && (ParseSystemCronLine(line).Some? <==> |t| >= 7)
      && (|t| >= 7 ==> ParseSystemCronLine(line) == Some(ParsedCronLine(Join(t[..5]), t[5], Join(t[6..]))))
      && (|t| >= 7 ==> Split(ParseSystemCronLine(line).value.schedule) == t[..5])
  {
    var t := Split(line);
    SplitStrip(line);
    if |t| >= 7 {
      SplitJoin(t[..5]);
    }
  }

  /** On success the user is one token and schedule and command are
      single-space-joined tokens; the schedule is one `@` token or five
      fields, the first not an `@` token. */
  lemma ParsedShape(line: string)
    requires ParseSystemCronLine(line).Some?
    ensures var p := ParseSystemCronLine(line).value;
      && IsWord(p.user)
      && Normalized(p.command)
      && Normalized(p.schedule)
      && ((|Split(p.schedule)| == 1 && p.schedule[0] == '@')
          || (|Split(p.schedule)| == 5 && p.schedule[0] != '@' && p.schedule[0] != '#'))
  {
    var t := Split(line);
    SplitStrip(line);
    if t[0][0] == '@' {
      JoinNormalized(t[2..]);
      SplitWord(t[0]);
    } else {
      JoinNormalized(t[..5]);
      JoinNormalized(t[6..]);
      SplitJoin(t[..5]);
      assert Join(t[..5])[0] == t[0][0] by {
        assert t[..5] == [t[0]] + t[1..5];
      }
    }
  }

  /** Whitespace-insensitivity: the tokens rejoined with single spaces parse
      exactly as the line does. */
  lemma WhitespaceInsensitive(line: string)
    ensures ParseSystemCronLine(Join(Split(line))) == ParseSystemCronLine(line)
  {
    SplitJoin(Split(line));
    SameTokensSameParse(Join(Split(line)), line);
  }

  /** Printing a parse result back as `schedule user command` and parsing
      that gives the same result. */
  lemma RoundTrip(line: string)
    requires ParseSystemCronLine(line).Some?
    ensures var p := ParseSystemCronLine(line).value;
      ParseSystemCronLine(p.schedule + " " + p.user + " " + p.command) == Some(p)
  {
    var t := Split(line);
    var p := ParseSystemCronLine(line).value;
    SplitStrip(line);
    var printed := p.schedule + " " + p.user + " " + p.command;
    if t[0][0] == '@' {
      JoinAppend([t[0], t[1]], t[2..]);
      assert [t[0], t[1]] + t[2..] == t;
    } else {
      JoinAppend(t[..5], [t[5]]);
      JoinAppend(t[..6], t[6..]);
      assert t[..5] + [t[5]] == t[..6];
      assert t[..6] + t[6..] == t;
    }
    assert printed == Join(t);
    SplitJoin(t);
    SameTokensSameParse(printed, line);
  }

  /** A line printed from standard-form tokens parses back to them. */
  lemma StandardTokens(line: string, t: seq<string>)
    requires AllWords(t) && Join(t) == line
    requires |t| >= 7 && t[0][0] != '@' && t[0][0] != '#'
    ensures ParseSystemCronLine(line) == Some(ParsedCronLine(Join(t[..5]), t[5], Join(t[6..])))
  {
    SplitJoin(t);
    StandardForm(line);
  }

  /** A line printed from shortcut-form tokens parses back to them. */
  lemma ShortcutTokens(line: string, t: seq<string>)
    requires AllWords(t) && Join(t) == line
    requires |t| >= 3 && t[0][0] == '@'
    ensures ParseSystemCronLine(line) == Some(ParsedCronLine(t[0], t[1], Join(t[2..])))
  {
    SplitJoin(t);
    ShortcutForm(line);
  }

  /** The standard sample line `0 3 * * * root <command>`, for any command
      of one or more tokens; `/usr/bin/foo bar` is the tokens
      `["/usr/bin/foo", "bar"]`. */
  lemma StandardExample(args: seq<string>)
    requires args != [] && AllWords(args)
    ensures ParseSystemCronLine("0 3 * * * root " + Join(args))
      == Some(ParsedCronLine("0 3 * * *", "root", Join(args)))
  {
    var t := NightlyRootTokens(args);
    StandardTokens("0 3 * * * root " + Join(args), t);
  }

  /** The tokens of `0 3 * * * root <command>`. */
  lemma NightlyRootTokens(args: seq<string>) returns (t: seq<string>)
    requires args != [] && AllWords(args)
    ensures AllWords(t) && |t| >= 7 && t[0][0] != '@' && t[0][0] != '#'
    ensures Join(t) == "0 3 * * * root " + Join(args)
    ensures Join(t[..5]) == "0 3 * * *" && t[5] == "root" && t[6..] == args
  {
    var fields := ["0", "3", "*", "*", "*"];
    var head := fields + ["root"];
    t := head + args;
    assert AllWords(t) by {
      assert AllWords(head);
    }
    assert Join(head) == "0 3 * * * root" by {
      NightlyFields();
      JoinAppend(fields, ["root"]);
    }
    JoinAppend(head, args);
    assert t[..5] == fields && t[6..] == args;
  }

  /** The five time fields of the standard sample, joined. */
  lemma NightlyFields()
    ensures Join(["0", "3", "*", "*", "*"]) == "0 3 * * *"
  {
    var s1 := ["*"];
    var s2 := ["*"] + s1;
    var s3 := ["*"] + s2;
    var s4 := ["3"] + s3;
    var s5 := ["0"] + s4;
    assert s5[1..] == s4 && s4[1..] == s3 && s3[1..] == s2 && s2[1..] == s1;
    assert Join(s2) == "* *";
    assert Join(s3) == "* * *";
    assert Join(s4) == "3 * * *";
    assert s5 == ["0", "3", "*", "*", "*"];
  }

  /** The shortcut sample line `@daily root <command>`, for any command of
      one or more tokens. */
  lemma ShortcutExample(args: seq<string>)
    requires args != [] && AllWords(args)
    ensures ParseSystemCronLine("@daily root " + Join(args))
      == Some(ParsedCronLine("@daily", "root", Join(args)))
  {
    var t := DailyRootTokens(args);
    ShortcutTokens("@daily root " + Join(args), t);
  }

  /** The tokens of `@daily root <command>`. */
  lemma DailyRootTokens(args: seq<string>) returns (t: seq<string>)
    requires args != [] && AllWords(args)
    ensures t == ["@daily", "root"] + args && AllWords(t)
    ensures Join(t) == "@daily root " + Join(args) && t[2..] == args
  {
    var head := ["@daily", "root"];
    t := head + args;
    assert AllWords(head);
    assert Join(head) == "@daily root";
    JoinAppend(head, args);
  }

  /** An environment assignment is not a job. */
  lemma AssignmentExample(line: string)
    requires line == "PATH=/usr/bin"
    ensures ParseSystemCronLine(line) == None
  {
    assert IsWord(line);
    SplitWord(line);
    TooFewTokens(line);
  }

  /** A comment is not a job. */
  lemma CommentExample(line: string)
    requires line == "# comment"
    ensures ParseSystemCronLine(line) == None
  {
    var t := ["#", "comment"];
    assert AllWords(t);
    assert Join(t) == line;
    SplitJoin(t);
    IgnoredLines(line);
  }
}
