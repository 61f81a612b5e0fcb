/** The per-file scan (`list_reminders` in src/main.rs): every comment is
    left-trimmed and split into lines, each line that passes the reminder
    filter is located in the file text from a search cursor, and the cursor
    moves one character past each match, so that identical reminder lines are
    attributed to successive occurrences. The comment parser is an input: a
    file's comments arrive as a sequence of texts. */
module FileScan {
  import opened Strings
  import opened Positions
  import opened ReminderFilter

  /** `struct Reminder`: one reported line and where it was found. */
  datatype Reminder = Reminder(row: nat, col: nat, contents: String)

  /** A reminder together with the offset of the match it was built from. */
  datatype Located = Located(at: nat, reminder: Reminder)

  /** What a scan over some lines yields: the reminders, in order, and the
      search cursor it leaves behind. */
  datatype Pass = Pass(found: seq<Located>, cursor: nat)

  /** What the comment parser knows of a file: `Unsupported` where no comment
      syntax is registered for its path, otherwise the file text and the text
      of each comment in it, in order. */
  datatype Source = Unsupported | Supported(contents: String, comments: seq<String>)

  /** The outcome of `list_reminders`: `None` for an unsupported file, a
      panic where a search result is unwrapped in vain, or the reminders. */
  datatype Listing = NotSource | Panicked | Listed(reminders: seq<Reminder>)

  function Texts(found: seq<Located>): (ts: seq<String>)
    ensures |ts| == |found|
    ensures forall k :: 0 <= k < |found| ==> ts[k] == found[k].reminder.contents
  {
    seq(|found|, k requires 0 <= k < |found| => found[k].reminder.contents)
  }

  function Reminders(found: seq<Located>): (rs: seq<Reminder>)
    ensures |rs| == |found|
    ensures forall k :: 0 <= k < |found| ==> rs[k] == found[k].reminder
  {
    seq(|found|, k requires 0 <= k < |found| => found[k].reminder)
  }

  /** The lines the scanner tests for one comment: only the start of the
      whole comment is trimmed. */
  function CommentLines(comment: String): seq<String> {
    Lines(TrimStart(comment))
  }

  /** Every reminder line of a file's comments, in comment order and then
      line order: what a scan reports, without the positions. */
  function ReminderLinesOf(comments: seq<String>): seq<String> {
    if comments == [] then []
    else KeepReminders(CommentLines(comments[0])) + ReminderLinesOf(comments[1..])
  }

  /** The offsets of `found` are what threading the cursor from `from`
      yields: each is the first occurrence of its line at or after the cursor
      left by the one before, and `to` is one past the last of them. */
  ghost predicate Chained(contents: String, from: nat, found: seq<Located>, to: nat)
    decreases |found|
  {
    if found == [] then to == from
    else
      && IsFirstOccurrenceFrom(contents, found[0].reminder.contents, from, found[0].at)
      && Chained(contents, found[0].at + 1, found[1..], to)
  }

  /** Each reminder of `found` carries the row and column of its offset. */
  ghost predicate Positioned(contents: String, found: seq<Located>) {
    forall k :: 0 <= k < |found| ==>
      found[k].at <= |contents| &&
      RowCol(found[k].reminder.row, found[k].reminder.col) == PositionOf(contents, found[k].at)
  }

  /** One step of the inner loop for a line that passed the filter: the
      position `get_row_and_column` reports and the occurrence the cursor
      update searches for again. `None` where the source panics: the cursor
      lies beyond the text or the line does not occur at or after it. */
  function Locate(contents: String, line: String, cursor: nat): (r: Option<Located>)
    ensures r.None? <==> !(cursor <= |contents| && OccursFrom(contents, line, cursor))
    ensures r.Some? ==> r.value.reminder.contents == line
    ensures r.Some? ==> IsFirstOccurrenceFrom(contents, line, cursor, r.value.at)
    ensures r.Some? ==> Positioned(contents, [r.value])
  {
    if cursor > |contents| then None
    else
      FindInSuffix(contents, line, cursor);
      match Find(contents[cursor..], line)
      case None => None
      case Some(_) =>
        var rc := GetRowAndColumn(contents, line, cursor);
        Some(Located(Occurrence(contents, line, cursor), Reminder(rc.row, rc.col, line)))
  }

  /** The inner loop over the lines of one comment, threading the cursor. */
  function ScanLines(contents: String, lines: seq<String>, cursor: nat): (r: Option<Pass>)
    ensures r.Some? ==> Texts(r.value.found) == KeepReminders(lines)
    ensures r.Some? ==> Chained(contents, cursor, r.value.found, r.value.cursor)
    ensures r.Some? ==> Positioned(contents, r.value.found)
    decreases |lines|
  {
    if lines == [] then Some(Pass([], cursor))
    else if !IsReminderLine(lines[0]) then ScanLines(contents, lines[1..], cursor)
    else match Locate(contents, lines[0], cursor)
      case None => None
      case Some(loc) =>
        match ScanLines(contents, lines[1..], loc.at + 1)
        case None => None
        case Some(rest) =>
          ChainedCons(contents, cursor, loc, rest.found, rest.cursor);
          FoundAppend(contents, [loc], rest.found);
          Some(Pass([loc] + rest.found, rest.cursor))
  }

  /** The outer loop over the comments of one file; the cursor carries over
      from one comment to the next. */
  function ScanComments(contents: String, comments: seq<String>, cursor: nat): (r: Option<Pass>)
    ensures r.Some? ==> Texts(r.value.found) == ReminderLinesOf(comments)
    ensures r.Some? ==> Chained(contents, cursor, r.value.found, r.value.cursor)
    ensures r.Some? ==> Positioned(contents, r.value.found)
    decreases |comments|
  {
    if comments == [] then Some(Pass([], cursor))
    else match ScanLines(contents, CommentLines(comments[0]), cursor)
      case None => None
      case Some(first) =>
        match ScanComments(contents, comments[1..], first.cursor)
        case None => None
        case Some(rest) =>
          ChainedAppend(contents, cursor, first.found, first.cursor, rest.found, rest.cursor);
          FoundAppend(contents, first.found, rest.found);
          Some(Pass(first.found + rest.found, rest.cursor))
  }

  /** `list_reminders`: nothing for a file without comment syntax, otherwise
      the scan of its comments from cursor 0. */
  function ListReminders(source: Source): (r: Listing)
    ensures r.NotSource? <==> source.Unsupported?
    ensures r.Listed? ==> |r.reminders| == |ReminderLinesOf(source.comments)|
    ensures r.Listed? ==> forall k :: 0 <= k < |r.reminders| ==>
      r.reminders[k].contents == ReminderLinesOf(source.comments)[k]
  {
    match source
    case Unsupported => NotSource
    case Supported(contents, comments) =>
      match ScanComments(contents, comments, 0)
      case None => Panicked
      case Some(pass) => Listed(Reminders(pass.found))
  }

  /** Two chained scans, the second starting where the first stopped, form
      one chained scan. */
  lemma {:induction false} ChainedAppend(contents: String, a: nat, first: seq<Located>, b: nat,
                                         second: seq<Located>, c: nat)
    requires Chained(contents, a, first, b) && Chained(contents, b, second, c)
    ensures Chained(contents, a, first + second, c)
    decreases |first|
  {
    if first == [] {
      assert first + second == second;
    } else {
      var x, tail := first[0], first[1..];
      ChainedCons(contents, a, x, tail, b);
      ChainedAppend(contents, x.at + 1, tail, b, second, c);
      ChainedCons(contents, a, x, tail + second, c);
      assert first + second == [x] + (tail + second);
    }
  }

  /** Texts and positions of two runs of reminders carry over to the run
      that joins them. */
  lemma FoundAppend(contents: String, a: seq<Located>, b: seq<Located>)
    ensures Texts(a + b) == Texts(a) + Texts(b)
    ensures Positioned(contents, a) && Positioned(contents, b) ==> Positioned(contents, a + b)
  {
    assert forall k :: |a| <= k < |a + b| ==> (a + b)[k] == b[k - |a|];
  }

  lemma ChainedCons(contents: String, from: nat, x: Located, rest: seq<Located>, to: nat)
    ensures Chained(contents, from, [x] + rest, to) <==>
      && IsFirstOccurrenceFrom(contents, x.reminder.contents, from, x.at)
      && Chained(contents, x.at + 1, rest, to)
  {
    assert ([x] + rest)[0] == x && ([x] + rest)[1..] == rest;
  }

  /** What a chained scan guarantees of each reminder: it lies at or after
      the starting cursor, its text occurs at its offset, and offsets
      strictly increase. */
  lemma {:induction false} ChainedFacts(contents: String, from: nat, found: seq<Located>, to: nat)
    requires Chained(contents, from, found, to)
    ensures forall k :: 0 <= k < |found| ==>
      from <= found[k].at && OccursAt(contents, found[k].reminder.contents, found[k].at)
    ensures forall i, j :: 0 <= i < j < |found| ==> found[i].at < found[j].at
    decreases |found|
  {
    if found != [] {
      ChainedFacts(contents, found[0].at + 1, found[1..], to);
      forall k | 0 < k < |found|
        ensures found[k] == found[1..][k - 1]
      {
      }
    }
  }

  /** Each reported reminder points at a place in the file where its text
      occurs, and successive reminders of a file (for a text shorter than
      `u32::MAX` characters) come in strictly increasing reading order: two
      byte-identical reminder lines never share a position. */
  lemma ListedReminderPositions(contents: String, comments: seq<String>)
    requires ListReminders(Supported(contents, comments)).Listed?
    ensures var rs := ListReminders(Supported(contents, comments)).reminders;
      forall k :: 0 <= k < |rs| ==> exists at: nat ::
        OccursAt(contents, rs[k].contents, at) && PositionOf(contents, at) == RowCol(rs[k].row, rs[k].col)
    ensures var rs := ListReminders(Supported(contents, comments)).reminders;
      |contents| + 1 < U32_MODULUS ==>
        forall i, j :: 0 <= i < j < |rs| ==>
          Precedes(RowCol(rs[i].row, rs[i].col), RowCol(rs[j].row, rs[j].col))
  {
    var pass := ScanComments(contents, comments, 0).value;
    var rs := ListReminders(Supported(contents, comments)).reminders;
    ChainedFacts(contents, 0, pass.found, pass.cursor);
    forall k | 0 <= k < |rs|
      ensures exists at: nat ::
        OccursAt(contents, rs[k].contents, at) && PositionOf(contents, at) == RowCol(rs[k].row, rs[k].col)
    {
      assert OccursAt(contents, rs[k].contents, pass.found[k].at);
    }
    if |contents| + 1 < U32_MODULUS {
      forall i, j | 0 <= i < j < |rs|
        ensures Precedes(RowCol(rs[i].row, rs[i].col), RowCol(rs[j].row, rs[j].col))
      {
        PositionsIncrease(contents, pass.found[i].at, pass.found[j].at);
      }
    }
  }

  /** The reported reminders are exactly what threading the cursor from 0
      yields: each is the first occurrence of its line at or after the cursor
      left by the one before, at the position of that occurrence. */
  lemma ListedFollowsCursor(contents: String, comments: seq<String>)
    requires ListReminders(Supported(contents, comments)).Listed?
    ensures exists found: seq<Located>, to: nat ::
      && Chained(contents, 0, found, to)
      && Positioned(contents, found)
      && Reminders(found) == ListReminders(Supported(contents, comments)).reminders
  {
    var pass := ScanComments(contents, comments, 0).value;
    assert Chained(contents, 0, pass.found, pass.cursor);
  }

  /** The comment texts sit in the file text at `places`, in order and
      without overlapping: what a comment parser yields for the file. */
  ghost predicate Placed(contents: String, comments: seq<String>, places: seq<nat>) {
    && |places| == |comments|
    && (forall k :: 0 <= k < |comments| ==> OccursAt(contents, comments[k], places[k]))
    && (forall k :: 0 <= k < |comments| - 1 ==> places[k] + |comments[k]| <= places[k + 1])
  }

  /** If every line of a comment sits in the text at or after the cursor and
      before `bound`, no search of the inner loop fails and the cursor stays
      within `bound`. */
  lemma {:induction false} ScanLinesSucceeds(contents: String, lines: seq<String>, at: seq<nat>,
                                             cursor: nat, bound: nat)
    requires Anchored(contents, lines, at) && Within(at, cursor, bound) && cursor <= bound
    ensures ScanLines(contents, lines, cursor).Some?
    ensures ScanLines(contents, lines, cursor).value.cursor <= bound
    decreases |lines|
  {
    if lines != [] {
      AnchoredTail(contents, lines, at, cursor, bound);
      if !IsReminderLine(lines[0]) {
        ScanLinesSucceeds(contents, lines[1..], at[1..], cursor, bound);
      } else {
        var loc := Locate(contents, lines[0], cursor).value;
        assert loc.at <= at[0];
        WithinLower(at[1..], at[0] + 1, loc.at + 1, bound);
        ScanLinesSucceeds(contents, lines[1..], at[1..], loc.at + 1, bound);
      }
    }
  }

  /** The first of some anchored pieces, and the anchors of the rest. */
  lemma AnchoredTail(s: String, parts: seq<String>, at: seq<nat>, lo: nat, hi: nat)
    requires parts != [] && Anchored(s, parts, at) && Within(at, lo, hi)
    ensures OccursAt(s, parts[0], at[0]) && lo <= at[0] < hi
    ensures Anchored(s, parts[1..], at[1..]) && Within(at[1..], at[0] + 1, hi)
  {
    assert forall k :: 0 <= k < |at| - 1 ==> at[1..][k] == at[k + 1];
  }

  lemma WithinLower(at: seq<nat>, lo: nat, lower: nat, hi: nat)
    requires Within(at, lo, hi) && lower <= lo
    ensures Within(at, lower, hi)
  {
  }

  /** The lines of a comment placed at `place` sit inside it, past its
      leading whitespace. */
  lemma CommentLinesAnchored(contents: String, comment: String, place: nat)
    returns (at: seq<nat>)
    requires OccursAt(contents, comment, place)
    ensures Anchored(contents, CommentLines(comment), at)
    ensures Within(at, place, place + |comment|)
  {
    var t := TrimStart(comment);
    var off := |comment| - |t|;
    assert OccursAt(comment, t, off);
    OccursInside(contents, comment, place, t, off);
    LinesAnchored(t);
    AnchoredInside(contents, t, place + off, Lines(t), LineStarts(t));
    WithinShift(LineStarts(t), 0, |t|, place + off);
    at := Shift(LineStarts(t), place + off);
  }

  /** The outer loop never fails a search when the comments are placed in
      the text and the cursor starts at or before the first of them. */
  lemma {:induction false} ScanCommentsSucceeds(contents: String, comments: seq<String>,
                                                places: seq<nat>, cursor: nat)
    requires Placed(contents, comments, places)
    requires |comments| > 0 ==> cursor <= places[0]
    ensures ScanComments(contents, comments, cursor).Some?
    decreases |comments|
  {
    if comments != [] {
      var at := CommentLinesAnchored(contents, comments[0], places[0]);
      ScanLinesSucceeds(contents, CommentLines(comments[0]), at, cursor, places[0] + |comments[0]|);
      var first := ScanLines(contents, CommentLines(comments[0]), cursor).value;
      assert Placed(contents, comments[1..], places[1..]);
      ScanCommentsSucceeds(contents, comments[1..], places[1..], first.cursor);
    }
  }

  /** The `unwrap` calls of the scan never panic on the comments a parser
      finds in the file: every reminder line is found at or after the cursor
      because the cursor never passes the line's own place. */
  lemma PlacedCommentsNeverPanic(contents: String, comments: seq<String>, places: seq<nat>)
    requires Placed(contents, comments, places)
    ensures ListReminders(Supported(contents, comments)).Listed?
  {
    ScanCommentsSucceeds(contents, comments, places, 0);
  }
}
