/** The reminder filter of `list_reminders` (src/main.rs): a comment line is
    a reminder when it matches the regular expression `^[A-Z]+.*:` and starts
    with one of the allowed verbs. */
module ReminderFilter {
  import opened Strings

  /** `ALLOWED_VERBS`, in the order the source lists them. */
  const AllowedVerbs: seq<String> := ["TODO", "FIXME", "BUG"]

  predicate IsUpper(c: char) {
    'A' <= c <= 'Z'
  }

  ghost predicate UpperPrefix(line: String, k: nat)
    requires k <= |line|
  {
    forall i :: 0 <= i < k ==> IsUpper(line[i])
  }

  ghost predicate NoLineFeedBetween(line: String, lo: nat, hi: nat)
    requires lo <= hi <= |line|
  {
    forall i :: lo <= i < hi ==> line[i] != '\n'
  }

  /** What `^[A-Z]+.*:` accepts under the regular expression language of the
      source: a non-empty run of `A`-`Z` at the very start (`k` characters),
      then any characters but a line feed (the `.` of that language), then a
      colon at index `j`. Anything may follow the colon. */
  ghost predicate RegexMatches(line: String) {
    exists k: nat, j: nat ::
      && 1 <= k <= j < |line|
      && UpperPrefix(line, k)
      && NoLineFeedBetween(line, k, j)
      && line[j] == ':'
  }

  /** A colon at index `i` or later, before any line feed. */
  predicate ColonAhead(line: String, i: nat)
    decreases |line| - i
  {
    i < |line| && line[i] != '\n' && (line[i] == ':' || ColonAhead(line, i + 1))
  }

  /** The executable form of the pattern test: an upper-case first character
      and a colon later on the same line. */
  predicate PatternMatches(line: String) {
    |line| > 0 && IsUpper(line[0]) && ColonAhead(line, 1)
  }

  lemma {:induction false} ColonAheadMeans(line: String, i: nat)
    requires i <= |line|
    ensures ColonAhead(line, i) <==>
      exists j: nat :: i <= j < |line| && line[j] == ':' && NoLineFeedBetween(line, i, j)
    decreases |line| - i
  {
    if i < |line| {
      ColonAheadMeans(line, i + 1);
      if ColonAhead(line, i) && line[i] != ':' {
        var j: nat :| i + 1 <= j < |line| && line[j] == ':' && NoLineFeedBetween(line, i + 1, j);
        assert NoLineFeedBetween(line, i, j);
      }
      if exists j: nat :: i <= j < |line| && line[j] == ':' && NoLineFeedBetween(line, i, j) {
        var j: nat :| i <= j < |line| && line[j] == ':' && NoLineFeedBetween(line, i, j);
        if j > i {
          assert NoLineFeedBetween(line, i + 1, j);
        }
      }
    }
  }

  /** The executable test accepts exactly what the regular expression matches. */
  lemma PatternMatchesRegex(line: String)
    ensures PatternMatches(line) <==> RegexMatches(line)
  {
    if |line| > 0 {
      ColonAheadMeans(line, 1);
    }
    if PatternMatches(line) {
      var j: nat :| 1 <= j < |line| && line[j] == ':' && NoLineFeedBetween(line, 1, j);
      assert UpperPrefix(line, 1);
    }
    if RegexMatches(line) {
      var k: nat, j: nat :| 1 <= k <= j < |line| && UpperPrefix(line, k)
        && NoLineFeedBetween(line, k, j) && line[j] == ':';
      assert IsUpper(line[0]);
      assert NoLineFeedBetween(line, 1, j) by {
        forall i | 1 <= i < j
          ensures line[i] != '\n'
        {
          if i < k {
            assert IsUpper(line[i]);
          }
        }
      }
    }
  }

  /** `verbs.into_iter().any(|v| line.starts_with(v))`. */
  function StartsWithAny(line: String, verbs: seq<String>): (b: bool)
    ensures b <==> exists k :: 0 <= k < |verbs| && StartsWith(line, verbs[k])
  {
    if verbs == [] then false
    else StartsWith(line, verbs[0]) || StartsWithAny(line, verbs[1..])
  }

  /** The two-stage test of one comment line: the pattern pre-filter, then
      the verb allow-list. */
  predicate IsReminderLine(line: String) {
    PatternMatches(line) && StartsWithAny(line, AllowedVerbs)
  }

  /** For a single line (no line feed inside): a reminder line is one that
      starts with `TODO`, `FIXME` or `BUG` and has a colon somewhere after
      its first character. */
  lemma ReminderLineMeans(line: String)
    requires '\n' !in line
    ensures IsReminderLine(line) <==>
      && (StartsWith(line, "TODO") || StartsWith(line, "FIXME") || StartsWith(line, "BUG"))
      && ':' in line[1..]
  {
    var verb := StartsWith(line, "TODO") || StartsWith(line, "FIXME") || StartsWith(line, "BUG");
    assert StartsWithAny(line, AllowedVerbs) <==> verb by {
      assert AllowedVerbs[0] == "TODO" && AllowedVerbs[1] == "FIXME" && AllowedVerbs[2] == "BUG";
    }
    if verb {
      assert IsUpper(line[0]);
      ColonAheadMeans(line, 1);
      if ':' in line[1..] {
        var j :| 1 <= j < |line| && line[j] == ':';
        assert NoLineFeedBetween(line, 1, j);
      }
      if ColonAhead(line, 1) {
        var j: nat :| 1 <= j < |line| && line[j] == ':' && NoLineFeedBetween(line, 1, j);
        assert line[1..][j - 1] == ':';
      }
    }
  }

  /** The lines of one comment that the scanner reports, in order. */
  function KeepReminders(lines: seq<String>): (kept: seq<String>)
  {
    if lines == [] then []
    else (if IsReminderLine(lines[0]) then [lines[0]] else []) + KeepReminders(lines[1..])
  }

  /** The filter is sound and complete: every kept line is a reminder line,
      and each reminder line is kept exactly as often as it occurs. */
  lemma {:induction false} KeepRemindersExact(lines: seq<String>)
    ensures forall k :: 0 <= k < |KeepReminders(lines)| ==> IsReminderLine(KeepReminders(lines)[k])
    ensures forall x :: multiset(KeepReminders(lines))[x] ==
                       (if IsReminderLine(x) then multiset(lines)[x] else 0)
  {
    if lines != [] {
      KeepRemindersExact(lines[1..]);
      assert lines == [lines[0]] + lines[1..];
      var head := if IsReminderLine(lines[0]) then [lines[0]] else [];
      assert KeepReminders(lines) == head + KeepReminders(lines[1..]);
    }
  }

  /** A line whose first character is whitespace is never a reminder: only
      the start of a whole comment is trimmed, so an indented later line of a
      block comment is not reported. */
  lemma IndentedLineRejected(line: String)
    requires |line| > 0 && IsWhitespace(line[0])
    ensures !IsReminderLine(line)
  {
  }

  /** A verb the pattern accepts but the allow-list does not. */
  lemma NoteRejected()
    ensures PatternMatches("NOTE: x") && !IsReminderLine("NOTE: x")
  {
    assert "NOTE: x"[4] == ':';
  }

  /** An allowed verb without a colon. */
  lemma ColonRequired()
    ensures !IsReminderLine("TODO fix")
  {
    ReminderLineMeans("TODO fix");
  }

  /** The allow-list is a prefix test, so a longer word is accepted. */
  lemma PrefixAccepted()
    ensures IsReminderLine("TODOS: x")
  {
    ReminderLineMeans("TODOS: x");
    assert "TODOS: x"[1..][4] == ':';
  }
}
