/** The scan over all roots (`main` in src/main.rs). With no argument the
    single root is `"."`. For every root the walker yields entries in order;
    errors and non-files are skipped, and a file whose canonical path was
    already handled is skipped too. Each other file is listed, its reminders
    printed as `path:row:col:text`, and its canonical path remembered, also
    when it has no comment syntax. The walker is an input: a function from a
    root to the entries it yields, each carrying what the file system and the
    comment parser would say about it. */
module Scanner {
  import opened Strings
  import opened FileScan

  /** One item of the walk: an error, or an entry with its displayed path,
      whether it is a regular file, its canonical path and its comments. */
  datatype WalkItem =
    | WalkError
    | Entry(path: String, isFile: bool, canonical: String, source: Source)

  /** One printed line `path:row:col:text`, as its four fields. */
  datatype Printed = Printed(path: String, row: nat, col: nat, text: String)

  /** The state of the run: what has been printed, the canonical paths seen
      so far, and whether a panic ended the process. */
  datatype Run = Run(printed: seq<Printed>, seen: set<String>, aborted: bool)

  const Start: Run := Run([], {}, false)

  /** The roots to walk, from the full argument vector (program name first). */
  function SearchRoots(argv: seq<String>): (roots: seq<String>)
    ensures |roots| >= 1
    ensures |argv| <= 1 ==> roots == ["."]
    ensures |argv| > 1 ==> roots == argv[1..]
  {
    if |argv| > 1 then argv[1..] else ["."]
  }

  predicate IsFile(item: WalkItem) {
    item.Entry? && item.isFile
  }

  function PrintAll(path: String, rs: seq<Reminder>): seq<Printed> {
    seq(|rs|, k requires 0 <= k < |rs| => Printed(path, rs[k].row, rs[k].col, rs[k].contents))
  }

  /** What the file of an entry prints when it is listed. */
  function EntryOutput(item: WalkItem): seq<Printed>
    requires item.Entry?
  {
    match ListReminders(item.source)
    case Listed(rs) => PrintAll(item.path, rs)
    case _ => []
  }

  /** One iteration of the inner loop of `main`. */
  function Visit(item: WalkItem, run: Run): (r: Run)
    requires !run.aborted
    ensures run.seen <= r.seen && run.printed <= r.printed
  {
    if !IsFile(item) || item.canonical in run.seen then run
    else match ListReminders(item.source)
      case Panicked => run.(aborted := true)
      case NotSource => run.(seen := run.seen + {item.canonical})
      case Listed(rs) =>
        Run(run.printed + PrintAll(item.path, rs), run.seen + {item.canonical}, false)
  }

  /** The inner loop of `main` over the entries of one root; a panic ends it. */
  function VisitEntries(items: seq<WalkItem>, run: Run): (r: Run)
    ensures run.seen <= r.seen && run.printed <= r.printed
    ensures run.aborted ==> r == run
  {
    if run.aborted || items == [] then run
    else VisitEntries(items[1..], Visit(items[0], run))
  }

  /** The outer loop of `main` over the roots. */
  function VisitRoots(roots: seq<String>, walk: String -> seq<WalkItem>, run: Run): Run {
    if roots == [] then run
    else VisitRoots(roots[1..], walk, VisitEntries(walk(roots[0]), run))
  }

  /** `main`, given the argument vector and the walker. */
  function Execute(argv: seq<String>, walk: String -> seq<WalkItem>): Run {
    VisitRoots(SearchRoots(argv), walk, Start)
  }

  /** Every entry the walks of `roots` yield, in order. */
  function AllEntries(roots: seq<String>, walk: String -> seq<WalkItem>): seq<WalkItem> {
    if roots == [] then [] else walk(roots[0]) + AllEntries(roots[1..], walk)
  }

  /** The canonical paths of the files among `items`. */
  ghost function FileCanonicals(items: seq<WalkItem>): set<String> {
    set k | 0 <= k < |items| && IsFile(items[k]) :: items[k].canonical
  }

  /** What the run prints, defined without a running set: a file entry
      prints its reminders when no earlier file entry has the same canonical
      path. */
  ghost function Reference(items: seq<WalkItem>): seq<Printed>
    decreases |items|
  {
    if items == [] then []
    else
      var prefix, last := items[..|items| - 1], items[|items| - 1];
      Reference(prefix) +
        (if IsFile(last) && last.canonical !in FileCanonicals(prefix) then EntryOutput(last) else [])
  }

  /** No file of `items` makes the scan panic. */
  ghost predicate NoPanics(items: seq<WalkItem>) {
    forall k :: 0 <= k < |items| && IsFile(items[k]) ==> !ListReminders(items[k].source).Panicked?
  }

  /** Walking the roots one after the other is one walk over all entries. */
  lemma {:induction false} VisitRootsFlat(roots: seq<String>, walk: String -> seq<WalkItem>, run: Run)
    ensures VisitRoots(roots, walk, run) == VisitEntries(AllEntries(roots, walk), run)
    decreases |roots|
  {
    if roots != [] {
      VisitRootsFlat(roots[1..], walk, VisitEntries(walk(roots[0]), run));
      VisitEntriesAppend(walk(roots[0]), AllEntries(roots[1..], walk), run);
    }
  }

  lemma {:induction false} VisitEntriesAppend(a: seq<WalkItem>, b: seq<WalkItem>, run: Run)
    ensures VisitEntries(a + b, run) == VisitEntries(b, VisitEntries(a, run))
    decreases |a|
  {
    if a == [] {
      assert a + b == b;
    } else if !run.aborted {
      assert (a + b)[0] == a[0] && (a + b)[1..] == a[1..] + b;
      VisitEntriesAppend(a[1..], b, Visit(a[0], run));
    }
  }

  lemma FileCanonicalsSnoc(prefix: seq<WalkItem>, item: WalkItem)
    ensures FileCanonicals(prefix + [item]) ==
      FileCanonicals(prefix) + (if IsFile(item) then {item.canonical} else {})
  {
    var items := prefix + [item];
    assert forall k :: 0 <= k < |prefix| ==> items[k] == prefix[k];
    assert items[|prefix|] == item;
  }

  /** Visiting the entries after `prefix`, from the state the reference
      describes for `prefix`, reaches the state it describes for the whole. */
  lemma {:induction false} VisitEntriesFollowsReference(prefix: seq<WalkItem>, items: seq<WalkItem>)
    requires NoPanics(items)
    ensures VisitEntries(items, Run(Reference(prefix), FileCanonicals(prefix), false)) ==
      Run(Reference(prefix + items), FileCanonicals(prefix + items), false)
    decreases |items|
  {
    if items == [] {
      assert prefix + items == prefix;
    } else {
      var next := prefix + [items[0]];
      VisitFollowsReference(prefix, items[0]);
      NoPanicsTail(items);
      VisitEntriesFollowsReference(next, items[1..]);
      AppendCons(prefix, items);
    }
  }

  /** One visit, from the state the reference describes for `prefix`,
      reaches the state it describes for `prefix` and the visited entry. */
  lemma VisitFollowsReference(prefix: seq<WalkItem>, item: WalkItem)
    requires IsFile(item) ==> !ListReminders(item.source).Panicked?
    ensures Visit(item, Run(Reference(prefix), FileCanonicals(prefix), false)) ==
      Run(Reference(prefix + [item]), FileCanonicals(prefix + [item]), false)
  {
    FileCanonicalsSnoc(prefix, item);
    ReferenceSnoc(prefix, item);
  }

  lemma NoPanicsTail(items: seq<WalkItem>)
    requires items != [] && NoPanics(items)
    ensures IsFile(items[0]) ==> !ListReminders(items[0].source).Panicked?
    ensures NoPanics(items[1..])
  {
    assert forall k :: 0 <= k < |items| - 1 ==> items[1..][k] == items[k + 1];
  }

  lemma AppendCons(a: seq<WalkItem>, b: seq<WalkItem>)
    requires b != []
    ensures a + b == (a + [b[0]]) + b[1..]
  {
    assert b == [b[0]] + b[1..];
  }

  lemma AppendSnoc(a: seq<WalkItem>, b: seq<WalkItem>)
    requires b != []
    ensures a + b == (a + b[..|b| - 1]) + [b[|b| - 1]]
  {
    assert b == b[..|b| - 1] + [b[|b| - 1]];
  }

  /** Without a panic, the run prints exactly what the reference prescribes
      for all entries of all roots (in particular, each canonical path is
      listed at most once), and it has remembered the canonical path of every
      file it met, those without comment syntax included. */
  lemma ExecuteMatchesReference(argv: seq<String>, walk: String -> seq<WalkItem>)
    requires NoPanics(AllEntries(SearchRoots(argv), walk))
    ensures var items := AllEntries(SearchRoots(argv), walk);
      Execute(argv, walk) == Run(Reference(items), FileCanonicals(items), false)
  {
    var items := AllEntries(SearchRoots(argv), walk);
    VisitRootsFlat(SearchRoots(argv), walk, Start);
    assert FileCanonicals([]) == {};
    VisitEntriesFollowsReference([], items);
    assert [] + items == items;
  }

  /** Entries whose files were all met before add nothing to the output. */
  lemma {:induction false} SeenEntriesAddNothing(prefix: seq<WalkItem>, items: seq<WalkItem>)
    requires forall k :: 0 <= k < |items| && IsFile(items[k]) ==> items[k].canonical in FileCanonicals(prefix)
    ensures Reference(prefix + items) == Reference(prefix)
    ensures FileCanonicals(prefix + items) == FileCanonicals(prefix)
    decreases |items|
  {
    if items == [] {
      assert prefix + items == prefix;
    } else {
      var init, last := items[..|items| - 1], items[|items| - 1];
      assert forall k :: 0 <= k < |init| ==> init[k] == items[k];
      SeenEntriesAddNothing(prefix, init);
      AppendSnoc(prefix, items);
      FileCanonicalsSnoc(prefix + init, last);
      ReferenceSnoc(prefix + init, last);
    }
  }

  lemma ReferenceSnoc(prefix: seq<WalkItem>, last: WalkItem)
    ensures Reference(prefix + [last]) == Reference(prefix) +
      (if IsFile(last) && last.canonical !in FileCanonicals(prefix) then EntryOutput(last) else [])
  {
    var whole := prefix + [last];
    assert whole[..|whole| - 1] == prefix && whole[|whole| - 1] == last;
  }

  /** The files one walk yields are among the files of all walks of roots
      that contain its root. */
  lemma {:induction false} WalkWithinAll(roots: seq<String>, walk: String -> seq<WalkItem>, r: String)
    requires r in roots
    ensures forall k :: 0 <= k < |walk(r)| && IsFile(walk(r)[k]) ==>
      walk(r)[k].canonical in FileCanonicals(AllEntries(roots, walk))
    decreases |roots|
  {
    var all := AllEntries(roots, walk);
    assert all == walk(roots[0]) + AllEntries(roots[1..], walk);
    if roots[0] == r {
      forall k | 0 <= k < |walk(r)| && IsFile(walk(r)[k])
        ensures walk(r)[k].canonical in FileCanonicals(all)
      {
        assert all[k] == walk(r)[k];
      }
    } else {
      WalkWithinAll(roots[1..], walk, r);
      var rest := AllEntries(roots[1..], walk);
      forall k | 0 <= k < |walk(r)| && IsFile(walk(r)[k])
        ensures walk(r)[k].canonical in FileCanonicals(all)
      {
        var i :| 0 <= i < |rest| && IsFile(rest[i]) && rest[i].canonical == walk(r)[k].canonical;
        assert all[|walk(roots[0])| + i] == rest[i];
      }
    }
  }

  lemma {:induction false} AllEntriesAppend(a: seq<String>, b: seq<String>, walk: String -> seq<WalkItem>)
    ensures AllEntries(a + b, walk) == AllEntries(a, walk) + AllEntries(b, walk)
    decreases |a|
  {
    if a == [] {
      assert a + b == b;
    } else {
      assert (a + b)[0] == a[0] && (a + b)[1..] == a[1..] + b;
      AllEntriesAppend(a[1..], b, walk);
    }
  }

  /** Naming a root a second time (or one whose files another root already
      reaches) prints nothing more: every file it yields was already seen. */
  lemma RepeatedRootAddsNothing(argv: seq<String>, walk: String -> seq<WalkItem>, r: String)
    requires |argv| > 1 && r in argv[1..]
    requires NoPanics(AllEntries(argv[1..] + [r], walk))
    ensures Execute(argv + [r], walk) == Execute(argv, walk)
  {
    var roots := argv[1..];
    assert (argv + [r])[1..] == roots + [r];
    AllEntriesAppend(roots, [r], walk);
    assert AllEntries([r], walk) == walk(r) + AllEntries([], walk);
    assert walk(r) + [] == walk(r);
    WalkWithinAll(roots, walk, r);
    SeenEntriesAddNothing(AllEntries(roots, walk), walk(r));
    var all := AllEntries(roots, walk);
    assert NoPanics(all) by {
      forall k | 0 <= k < |all| && IsFile(all[k])
        ensures !ListReminders(all[k].source).Panicked?
      {
        assert AllEntries(roots + [r], walk)[k] == all[k];
      }
    }
    ExecuteMatchesReference(argv + [r], walk);
    ExecuteMatchesReference(argv, walk);
  }
}
