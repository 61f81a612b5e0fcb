/** Worked examples of the scanner on concrete files. */
module Samples {
  import opened Strings
  import opened Positions
  import opened ReminderFilter
  import opened FileScan

  const Line: String := "TODO: a"
  const Comment: String := " TODO: a"
  const Text: String := "// TODO: a\n// TODO: a"

  lemma LineIsReminder()
    ensures IsReminderLine(Line)
  {
    assert Line[..4] == "TODO";
    assert StartsWith(Line, AllowedVerbs[0]);
    assert Line[4] == ':';
    assert ColonAhead(Line, 4);
  }

  lemma CommentIsOneLine()
    ensures CommentLines(Comment) == [Line]
  {
    assert IsWhitespace(Comment[0]) && Comment[1..] == Line;
    assert !IsWhitespace(Line[0]);
    assert TrimStart(Comment) == TrimStart(Line) == Line;
    assert '\n' !in Line;
    SingleLine(Line);
  }

  /** A non-empty text without a line feed is one line. */
  lemma SingleLine(s: String)
    requires s != [] && '\n' !in s
    ensures Lines(s) == [s]
  {
    assert IndexOf(s, '\n') == None;
  }

  /** No `T` lies in `[lo, hi)`, so `Line` starts nowhere there. */
  lemma NoLineBetween(lo: nat, hi: nat)
    requires hi <= |Text| && forall j :: lo <= j < hi ==> Text[j] != 'T'
    ensures forall j: nat :: lo <= j < hi ==> !OccursAt(Text, Line, j)
  {
    forall j: nat | lo <= j < hi
      ensures !OccursAt(Text, Line, j)
    {
      if j + |Line| <= |Text| {
        assert Text[j..j + |Line|][0] == Text[j];
      }
    }
  }

  /** `line` first occurs at `at` at or after `from`, and `PositionOf`
      there is `pos`: then that is what `Locate` reports. */
  lemma LocatedAt(contents: String, line: String, from: nat, at: nat, pos: RowCol)
    requires from <= |contents| && IsFirstOccurrenceFrom(contents, line, from, at)
    requires PositionOf(contents, at) == pos
    ensures Locate(contents, line, from) == Some(Located(at, Reminder(pos.row, pos.col, line)))
  {
    var r := Locate(contents, line, from);
    assert r.Some?;
    FirstOccurrenceUnique(contents, line, from, r.value.at, at);
    assert Positioned(contents, [r.value]);
    assert [r.value][0] == r.value;
  }

  lemma FirstOccurrence()
    ensures IsFirstOccurrenceFrom(Text, Line, 0, 3)
  {
    assert OccursAt(Text, Line, 3);
    NoLineBetween(0, 3);
  }

  lemma FirstPosition()
    ensures PositionOf(Text, 3) == RowCol(1, 3)
  {
    PositionOfMeans(Text, 3);
    assert Text[..3] == "// ";
    assert '\n' !in Text[..3];
  }

  lemma FirstLocated()
    ensures Locate(Text, Line, 0) == Some(Located(3, Reminder(1, 3, Line)))
  {
    FirstOccurrence();
    FirstPosition();
    LocatedAt(Text, Line, 0, 3, RowCol(1, 3));
  }

  lemma SecondOccurrence()
    ensures IsFirstOccurrenceFrom(Text, Line, 4, 14)
  {
    assert OccursAt(Text, Line, 14);
    NoLineBetween(4, 14);
  }

  lemma NewlinesBeforeSecond()
    ensures multiset(Text[..14])['\n'] == 1
  {
    assert Text[..14] == "// TODO: a" + "\n" + "// ";
    OneNewline("// TODO: a", "// ");
  }

  lemma SecondPosition()
    ensures PositionOf(Text, 14) == RowCol(2, 4)
  {
    PositionOfMeans(Text, 14);
    assert LastNewlineBefore(Text, 14, 10);
    NewlinesBeforeSecond();
  }

  lemma SecondLocated()
    ensures Locate(Text, Line, 4) == Some(Located(14, Reminder(2, 4, Line)))
  {
    SecondOccurrence();
    SecondPosition();
    LocatedAt(Text, Line, 4, 14, RowCol(2, 4));
  }

  lemma OneNewline(a: String, b: String)
    requires '\n' !in a && '\n' !in b
    ensures multiset(a + "\n" + b)['\n'] == 1
  {
    assert multiset(a + "\n" + b) == multiset(a) + multiset{'\n'} + multiset(b);
  }

  /** A comment of one reminder line that `Locate` finds. */
  lemma SingleLineScanned(contents: String, line: String, cursor: nat, loc: Located)
    requires IsReminderLine(line) && Locate(contents, line, cursor) == Some(loc)
    ensures ScanLines(contents, [line], cursor) == Some(Pass([loc], loc.at + 1))
  {
    var lines := [line];
    assert lines[0] == line && lines[1..] == [];
    var rest := ScanLines(contents, lines[1..], loc.at + 1);
    assert rest == Some(Pass([], loc.at + 1));
    assert [loc] + [] == [loc];
  }

  /** A file of two comments, listed by scanning one after the other. */
  lemma TwoCommentsListed(contents: String, c1: String, c2: String, p1: Pass, p2: Pass)
    requires ScanLines(contents, CommentLines(c1), 0) == Some(p1)
    requires ScanLines(contents, CommentLines(c2), p1.cursor) == Some(p2)
    ensures ListReminders(Supported(contents, [c1, c2])) == Listed(Reminders(p1.found + p2.found))
  {
    var comments := [c1, c2];
    assert comments[0] == c1 && comments[1..] == [c2];
    var tail := [c2];
    assert tail[0] == c2 && tail[1..] == [];
    var last := ScanComments(contents, tail[1..], p2.cursor);
    assert last == Some(Pass([], p2.cursor));
    assert p2.found + [] == p2.found;
    assert ScanComments(contents, tail, p1.cursor) == Some(Pass(p2.found, p2.cursor));
    assert ScanComments(contents, comments, 0) == Some(Pass(p1.found + p2.found, p2.cursor));
  }

  lemma FirstCommentScanned()
    ensures ScanLines(Text, CommentLines(Comment), 0) ==
      Some(Pass([Located(3, Reminder(1, 3, Line))], 4))
  {
    LineIsReminder();
    CommentIsOneLine();
    FirstLocated();
    SingleLineScanned(Text, Line, 0, Located(3, Reminder(1, 3, Line)));
  }

  lemma SecondCommentScanned()
    ensures ScanLines(Text, CommentLines(Comment), 4) ==
      Some(Pass([Located(14, Reminder(2, 4, Line))], 15))
  {
    LineIsReminder();
    CommentIsOneLine();
    SecondLocated();
    SingleLineScanned(Text, Line, 4, Located(14, Reminder(2, 4, Line)));
  }

  lemma BothCommentsListed()
    ensures ListReminders(Supported(Text, [Comment, Comment])) ==
      Listed(Reminders([Located(3, Reminder(1, 3, Line))] + [Located(14, Reminder(2, 4, Line))]))
  {
    FirstCommentScanned();
    SecondCommentScanned();
    TwoCommentsListed(Text, Comment, Comment,
      Pass([Located(3, Reminder(1, 3, Line))], 4), Pass([Located(14, Reminder(2, 4, Line))], 15));
  }

  lemma RemindersOfTwo(a: Located, b: Located)
    ensures Reminders([a] + [b]) == [a.reminder, b.reminder]
  {
  }

  /** Two identical reminder lines in one file are reported at their own
      places: the cursor moves past the first before the second is searched,
      and the first-line column counts from 0 while the second counts from 1. */
  lemma RepeatedLineReportedTwice()
    ensures ListReminders(Supported(Text, [Comment, Comment])) ==
      Listed([Reminder(1, 3, Line), Reminder(2, 4, Line)])
  {
    BothCommentsListed();
    RemindersOfTwo(Located(3, Reminder(1, 3, Line)), Located(14, Reminder(2, 4, Line)));
  }

  /** `str::lines` drops a `"\r"` only in front of a `"\n"`: `"a\r\nb"` is
      `a` and `b`, while a final `"\r"` with no `"\n"` after it stays. */
  lemma CarriageReturnLines()
    ensures Lines("a\r\nb") == ["a", "b"]
    ensures Lines("a\r") == ["a\r"]
  {
    var s := "a\r\nb";
    assert IndexOf(s, '\n') == Some(2);
    assert s[..2] == "a\r" && StripCr("a\r") == "a";
    assert s[3..] == "b";
    SingleLine("b");
    SingleLine("a\r");
  }

  /** No empty line follows a final `"\n"`, but an empty line between two
      `"\n"`s is kept. */
  lemma TrailingNewlineLines()
    ensures Lines("a\n\n") == ["a", ""]
  {
    var s := "a\n\n";
    assert IndexOf(s, '\n') == Some(1);
    assert s[..1] == "a" && s[2..] == "\n";
    assert IndexOf("\n", '\n') == Some(0);
    assert "\n"[..0] == "" && "\n"[1..] == [];
  }
}
