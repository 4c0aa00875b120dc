/**
 * One level of a generated list: which entries get a line, what title the
 * line shows, which page label it carries, and when the walk descends into
 * an entry's child sections. Shared by the ToC and the four captioned lists.
 */
module Entries {
  import opened Wrappers
  import opened RubyText
  import opened PageLabels

  datatype Context = SectionNode | ImageNode | TableNode | ExampleNode | ListingNode | OtherNode

  /** A node of the document as the list walk sees it. */
  datatype Entry = Entry(
    context: Context,
    level: int,
    tocLevels: Option<string>,      // the entry's own `toclevels` attribute
    trailingNotitle: bool,          // `notitle` option, last child of the document, and empty
    numberedTitle: string,          // a section's title with its number
    title: Option<string>,
    caption: Option<string>,        // e.g. "Figure 3. "; nil on uncaptioned blocks
    xreftext: Option<string>,       // the host's basic cross-reference text
    id: Option<string>,
    pdfAnchor: Option<string>,
    pageStart: Option<PageNumber>,  // `pdf-page-start`, when the page is already known
    children: seq<Entry>)           // the entry's child sections

  /** A printed list line. A measuring (dry) run lays out the title only. */
  datatype Line = Line(title: string, anchor: Option<string>, pageLabel: Option<string>)

  /** The lines of one walk and the entries as they are left afterwards. */
  datatype Outcome = Outcome(lines: seq<Line>, after: seq<Entry>)

  predicate IsCaptionedContext(c: Context) {
    c == ImageNode || c == TableNode || c == ExampleNode || c == ListingNode
  }

  /** The depth limit that applies to an entry: its own `toclevels`, else the caller's. */
  function EntryLevels(e: Entry, numLevels: int): int {
    match e.tocLevels
    case None => numLevels
    case Some(t) => ToI(t)
  }

  predicate SkippedByLevel(e: Entry, numLevels: int) {
    EntryLevels(e, numLevels) < e.level || e.trailingNotitle
  }

  /** A titled figure, table, example or listing is shown at level 2 with its caption. */
  predicate Promoted(e: Entry) { IsCaptionedContext(e.context) && e.title.Some? }

  function ShownTitle(e: Entry): Option<string> {
    if Promoted(e) then Some(e.caption.GetOr("") + e.title.value)
    else if e.context == SectionNode then Some(e.numberedTitle)
    else if e.title.Some? then e.title
    else e.xreftext
  }

  predicate HasShownTitle(e: Entry) { ShownTitle(e).Some? && ShownTitle(e).value != [] }

  /** An entry that gets a line. */
  predicate Eligible(e: Entry, numLevels: int) {
    !SkippedByLevel(e, numLevels) && HasShownTitle(e) && e.id.Some?
  }

  /** Descent into child sections happens when the entry's own level is within its limit. */
  predicate Descends(e: Entry, numLevels: int) { EntryLevels(e, numLevels) >= e.level + 1 }

  /** The physical page of an entry: `pdf-page-start`, else where its anchor's destination lies. */
  function ResolvePage(e: Entry, dest: map<string, PageNumber>): Option<PageNumber>
    requires e.id.Some?
  {
    var anchor := e.pdfAnchor.GetOr(e.id.value);
    if e.pageStart.Some? then e.pageStart
    else if anchor in dest then Some(dest[anchor])
    else None
  }

  function LineFor(e: Entry, dest: map<string, PageNumber>, frontMatter: nat, scratch: bool): Line
    requires HasShownTitle(e) && e.id.Some?
  {
    if scratch then Line(ShownTitle(e).value, None, None)
    else Line(ShownTitle(e).value, Some(e.pdfAnchor.GetOr(e.id.value)),
              Some(PageLabel(ResolvePage(e, dest), frontMatter)))
  }

  /**
   * What one walk prints for one entry and its children, and the entry as the
   * walk leaves it: a promoted entry's level is set to 2 (and stays so),
   * unless the depth limit skipped the entry before the promotion was reached.
   */
  function Visit(e: Entry, numLevels: int, dest: map<string, PageNumber>,
                 frontMatter: nat, scratch: bool): Outcome
    decreases e
  {
    if SkippedByLevel(e, numLevels) then Outcome([], [e])
    else
      var e1 := if Promoted(e) then e.(level := 2) else e;
      if !HasShownTitle(e) || e.id.None? then Outcome([], [e1])
      else if Descends(e, numLevels) then
        var sub := Pass(e.children, EntryLevels(e, numLevels), dest, frontMatter, scratch);
        Outcome([LineFor(e, dest, frontMatter, scratch)] + sub.lines, [e1.(children := sub.after)])
      else Outcome([LineFor(e, dest, frontMatter, scratch)], [e1])
  }

  /** One walk over a sequence of entries, visiting them in order. */
  function Pass(entries: seq<Entry>, numLevels: int, dest: map<string, PageNumber>,
                frontMatter: nat, scratch: bool): Outcome
    decreases entries
  {
    if entries == [] then Outcome([], [])
    else
      var first := Visit(entries[0], numLevels, dest, frontMatter, scratch);
      var rest := Pass(entries[1..], numLevels, dest, frontMatter, scratch);
      Outcome(first.lines + rest.lines, first.after + rest.after)
  }

  lemma PassUnfold(entries: seq<Entry>, numLevels: int, dest: map<string, PageNumber>,
                   frontMatter: nat, scratch: bool)
    requires entries != []
    ensures Pass(entries, numLevels, dest, frontMatter, scratch).lines
         == Visit(entries[0], numLevels, dest, frontMatter, scratch).lines
          + Pass(entries[1..], numLevels, dest, frontMatter, scratch).lines
    ensures Pass(entries, numLevels, dest, frontMatter, scratch).after
         == Visit(entries[0], numLevels, dest, frontMatter, scratch).after
          + Pass(entries[1..], numLevels, dest, frontMatter, scratch).after
  {
  }

  /**
   * The list walk: one line per eligible entry, in order, each followed by
   * the lines of its child sections when the entry descends.
   */
  method InkTocLevel(entries: seq<Entry>, numLevels: int, dest: map<string, PageNumber>,
                     frontMatter: nat, scratch: bool) returns (lines: seq<Line>, after: seq<Entry>)
    ensures Outcome(lines, after) == Pass(entries, numLevels, dest, frontMatter, scratch)
    decreases entries, 1
  {
    lines, after := [], [];
    var i := 0;
    while i < |entries|
      invariant 0 <= i <= |entries|
      invariant Pass(entries, numLevels, dest, frontMatter, scratch).lines
             == lines + Pass(entries[i..], numLevels, dest, frontMatter, scratch).lines
      invariant Pass(entries, numLevels, dest, frontMatter, scratch).after
             == after + Pass(entries[i..], numLevels, dest, frontMatter, scratch).after
    {
      var entryLines, entry := InkEntry(entries[i], numLevels, dest, frontMatter, scratch);
      assert entries[i..][0] == entries[i] && entries[i..][1..] == entries[i + 1..];
      PassUnfold(entries[i..], numLevels, dest, frontMatter, scratch);
      Associative(lines, entryLines, Pass(entries[i + 1..], numLevels, dest, frontMatter, scratch).lines);
      Associative(after, [entry], Pass(entries[i + 1..], numLevels, dest, frontMatter, scratch).after);
      lines := lines + entryLines;
      after := after + [entry];
      i := i + 1;
    }
  }

  /** The body of the walk for one entry. */
  method InkEntry(e: Entry, numLevels: int, dest: map<string, PageNumber>,
                  frontMatter: nat, scratch: bool) returns (entryLines: seq<Line>, entry: Entry)
    ensures Outcome(entryLines, [entry]) == Visit(e, numLevels, dest, frontMatter, scratch)
    decreases e, 0
  {
    entry := e;
    entryLines := [];
    var numLevelsForEntry := EntryLevels(e, numLevels);
    if numLevelsForEntry < e.level || e.trailingNotitle {
      return;
    }
    if Promoted(e) {
      entry := entry.(level := 2);
    }
    var entryTitle := ShownTitle(e);
    if entryTitle.None? || entryTitle.value == [] || e.id.None? {
      return;
    }
    entryLines := [LineFor(e, dest, frontMatter, scratch)];
    if numLevelsForEntry >= e.level + 1 {
      var subLines, subAfter := InkTocLevel(e.children, numLevelsForEntry, dest, frontMatter, scratch);
      entryLines := entryLines + subLines;
      entry := entry.(children := subAfter);
    }
  }

  lemma Associative<T>(a: seq<T>, b: seq<T>, c: seq<T>)
    ensures a + (b + c) == (a + b) + c
  {
  }

  /** The entries of a list of captioned blocks have no child sections. */
  predicate Flat(entries: seq<Entry>) { forall k :: 0 <= k < |entries| ==> entries[k].children == [] }

  /** The entries that get a line, in order. */
  function Selected(entries: seq<Entry>, numLevels: int): (r: seq<Entry>)
    ensures forall k :: 0 <= k < |r| ==> Eligible(r[k], numLevels)
  {
    if entries == [] then []
    else if Eligible(entries[0], numLevels) then [entries[0]] + Selected(entries[1..], numLevels)
    else Selected(entries[1..], numLevels)
  }

  function LinesOf(selected: seq<Entry>, numLevels: int, dest: map<string, PageNumber>,
                   frontMatter: nat, scratch: bool): seq<Line>
    requires forall k :: 0 <= k < |selected| ==> Eligible(selected[k], numLevels)
  {
    if selected == [] then []
    else
      assert Eligible(selected[0], numLevels);
      [LineFor(selected[0], dest, frontMatter, scratch)]
         + LinesOf(selected[1..], numLevels, dest, frontMatter, scratch)
  }

  /**
   * On a flat list (figures, tables, examples, listings) the walk prints
   * exactly one line per eligible entry, in document order, and nothing for
   * an entry that is too deep, has no title to show or has no id.
   */
  lemma {:induction false} FlatPassPrintsEligible(entries: seq<Entry>, numLevels: int,
      dest: map<string, PageNumber>, frontMatter: nat, scratch: bool)
    requires Flat(entries)
    ensures Pass(entries, numLevels, dest, frontMatter, scratch).lines
         == LinesOf(Selected(entries, numLevels), numLevels, dest, frontMatter, scratch)
  {
    if entries != [] {
      FlatPassPrintsEligible(entries[1..], numLevels, dest, frontMatter, scratch);
      if Eligible(entries[0], numLevels) {
        var e := entries[0];
        if Descends(e, numLevels) {
          assert Pass(e.children, EntryLevels(e, numLevels), dest, frontMatter, scratch).lines == [];
        }
      }
    }
  }

  /**
   * On a flat list the walk leaves one entry per entry: a titled captioned
   * entry within the depth limit now has level 2, every other entry is as it was.
   */
  lemma {:induction false} FlatPassPromotes(entries: seq<Entry>, numLevels: int,
      dest: map<string, PageNumber>, frontMatter: nat, scratch: bool)
    requires Flat(entries)
    ensures var after := Pass(entries, numLevels, dest, frontMatter, scratch).after;
      && |after| == |entries|
      && forall k :: 0 <= k < |entries| ==>
           after[k] == if !SkippedByLevel(entries[k], numLevels) && Promoted(entries[k])
                       then entries[k].(level := 2) else entries[k]
  {
    if entries != [] {
      FlatPassPromotes(entries[1..], numLevels, dest, frontMatter, scratch);
      var e := entries[0];
      if !SkippedByLevel(e, numLevels) && HasShownTitle(e) && e.id.Some? && Descends(e, numLevels) {
        assert Pass(e.children, EntryLevels(e, numLevels), dest, frontMatter, scratch).after == [];
      }
      var after := Pass(entries, numLevels, dest, frontMatter, scratch).after;
      var rest := Pass(entries[1..], numLevels, dest, frontMatter, scratch).after;
      var first := Visit(e, numLevels, dest, frontMatter, scratch).after;
      PassUnfold(entries, numLevels, dest, frontMatter, scratch);
      assert |first| == 1;
      assert after == first + rest;
      forall k | 1 <= k < |entries|
        ensures after[k] == if !SkippedByLevel(entries[k], numLevels) && Promoted(entries[k])
                            then entries[k].(level := 2) else entries[k]
      {
        assert after[k] == rest[k - 1] && entries[k] == entries[1..][k - 1];
      }
    }
  }

  function Titles(lines: seq<Line>): seq<string> {
    if lines == [] then [] else [lines[0].title] + Titles(lines[1..])
  }

  lemma {:induction false} TitlesAppend(a: seq<Line>, b: seq<Line>)
    ensures Titles(a + b) == Titles(a) + Titles(b)
  {
    if a != [] {
      assert (a + b)[0] == a[0];
      assert (a + b)[1..] == a[1..] + b;
      TitlesAppend(a[1..], b);
    } else {
      assert a + b == b;
    }
  }

  /**
   * A measuring walk and a printing walk over the same entries show the same
   * titles and leave the entries alike: only anchors and page labels differ.
   */
  lemma {:induction false} PassTitlesIgnoreMode(entries: seq<Entry>, numLevels: int,
      dest1: map<string, PageNumber>, frontMatter1: nat, scratch1: bool,
      dest2: map<string, PageNumber>, frontMatter2: nat, scratch2: bool)
    ensures Titles(Pass(entries, numLevels, dest1, frontMatter1, scratch1).lines)
         == Titles(Pass(entries, numLevels, dest2, frontMatter2, scratch2).lines)
    ensures Pass(entries, numLevels, dest1, frontMatter1, scratch1).after
         == Pass(entries, numLevels, dest2, frontMatter2, scratch2).after
    decreases entries
  {
    if entries != [] {
      VisitTitlesIgnoreMode(entries[0], numLevels, dest1, frontMatter1, scratch1, dest2, frontMatter2, scratch2);
      PassTitlesIgnoreMode(entries[1..], numLevels, dest1, frontMatter1, scratch1, dest2, frontMatter2, scratch2);
      var v1 := Visit(entries[0], numLevels, dest1, frontMatter1, scratch1);
      var v2 := Visit(entries[0], numLevels, dest2, frontMatter2, scratch2);
      var r1 := Pass(entries[1..], numLevels, dest1, frontMatter1, scratch1);
      var r2 := Pass(entries[1..], numLevels, dest2, frontMatter2, scratch2);
      TitlesAppend(v1.lines, r1.lines);
      TitlesAppend(v2.lines, r2.lines);
    }
  }

  lemma {:induction false} VisitTitlesIgnoreMode(e: Entry, numLevels: int,
      dest1: map<string, PageNumber>, frontMatter1: nat, scratch1: bool,
      dest2: map<string, PageNumber>, frontMatter2: nat, scratch2: bool)
    ensures Titles(Visit(e, numLevels, dest1, frontMatter1, scratch1).lines)
         == Titles(Visit(e, numLevels, dest2, frontMatter2, scratch2).lines)
    ensures Visit(e, numLevels, dest1, frontMatter1, scratch1).after
         == Visit(e, numLevels, dest2, frontMatter2, scratch2).after
    decreases e
  {
    if !SkippedByLevel(e, numLevels) && HasShownTitle(e) && e.id.Some? {
      var l1 := LineFor(e, dest1, frontMatter1, scratch1);
      var l2 := LineFor(e, dest2, frontMatter2, scratch2);
      assert Titles([l1]) == [ShownTitle(e).value] == Titles([l2]) by {
        assert [l1][1..] == [] && [l2][1..] == [];
      }
      if Descends(e, numLevels) {
        var n := EntryLevels(e, numLevels);
        var e1 := if Promoted(e) then e.(level := 2) else e;
        var s1 := Pass(e.children, n, dest1, frontMatter1, scratch1);
        var s2 := Pass(e.children, n, dest2, frontMatter2, scratch2);
        assert Visit(e, numLevels, dest1, frontMatter1, scratch1) == Outcome([l1] + s1.lines, [e1.(children := s1.after)]);
        assert Visit(e, numLevels, dest2, frontMatter2, scratch2) == Outcome([l2] + s2.lines, [e1.(children := s2.after)]);
        PassTitlesIgnoreMode(e.children, n, dest1, frontMatter1, scratch1, dest2, frontMatter2, scratch2);
        TitlesAppend([l1], s1.lines);
        TitlesAppend([l2], s2.lines);
      }
    }
  }

  /**
   * As written, the measuring walk runs first and the printing walk then sees
   * the levels the measuring walk wrote back.
   */
  function DryThenReal(entries: seq<Entry>, numLevels: int, dest: map<string, PageNumber>,
                       frontMatter: nat): (seq<Line>, seq<Line>)
  {
    var dry := Pass(entries, numLevels, dest, frontMatter, true);
    (dry.lines, Pass(dry.after, numLevels, dest, frontMatter, false).lines)
  }

  /**
   * With toclevels 1, a titled figure directly in a chapter (level 1) is
   * measured by the dry run, promoted to level 2, and then skipped by the
   * printing run: the list's pages are reserved but the line is never printed.
   */
  lemma PromotionHidesEntryInRealRun()
    ensures var figure := Entry(ImageNode, 1, None, false, "", Some("Chart"), Some("Figure 1. "),
                                None, Some("_chart"), None, Some(3), []);
            var runs := DryThenReal([figure], 1, map[], 0);
            Titles(runs.0) == ["Figure 1. Chart"] && runs.1 == []
  {
    var figure := Entry(ImageNode, 1, None, false, "", Some("Chart"), Some("Figure 1. "),
                        None, Some("_chart"), None, Some(3), []);
    var promoted := figure.(level := 2);
    var line := Line("Figure 1. Chart", None, None);
    assert [figure][1..] == [] && [promoted][1..] == [] && [line][1..] == [];
    assert "Figure 1. " + "Chart" == "Figure 1. Chart";
    assert Visit(figure, 1, map[], 0, true) == Outcome([line], [promoted]);
    assert Pass([figure], 1, map[], 0, true) == Outcome([line], [promoted]);
    assert Visit(promoted, 1, map[], 0, false) == Outcome([], [promoted]);
    assert Titles([line]) == ["Figure 1. Chart"];
  }

  /** Corrected: the printing run walks the entries as they were before the dry run. */
  function DryThenRealFixed(entries: seq<Entry>, numLevels: int, dest: map<string, PageNumber>,
                            frontMatter: nat): (seq<Line>, seq<Line>)
  {
    (Pass(entries, numLevels, dest, frontMatter, true).lines,
     Pass(entries, numLevels, dest, frontMatter, false).lines)
  }

  /** With the correction the dry run measures exactly the lines the real run prints. */
  lemma FixedRunsAgree(entries: seq<Entry>, numLevels: int, dest: map<string, PageNumber>, frontMatter: nat)
    ensures Titles(DryThenRealFixed(entries, numLevels, dest, frontMatter).0)
         == Titles(DryThenRealFixed(entries, numLevels, dest, frontMatter).1)
  {
    PassTitlesIgnoreMode(entries, numLevels, dest, frontMatter, true, dest, frontMatter, false);
  }

  /**
   * As written, the two runs still agree on a flat list when every entry's
   * depth limit is at least 2, the level promoted entries are given.
   */
  lemma {:induction false} RunsAgreeFromLevelTwo(entries: seq<Entry>, numLevels: int,
      dest: map<string, PageNumber>, frontMatter: nat)
    requires Flat(entries)
    requires forall k :: 0 <= k < |entries| ==> EntryLevels(entries[k], numLevels) >= 2
    ensures Titles(DryThenReal(entries, numLevels, dest, frontMatter).0)
         == Titles(DryThenReal(entries, numLevels, dest, frontMatter).1)
  {
    var dry := Pass(entries, numLevels, dest, frontMatter, true);
    FlatPassPromotes(entries, numLevels, dest, frontMatter, true);
    assert Flat(dry.after);
    PassTitlesIgnoreMode(dry.after, numLevels, dest, frontMatter, false, dest, frontMatter, true);
    PromotedSelectSame(entries, dry.after, numLevels, dest, frontMatter);
    FlatPassPrintsEligible(entries, numLevels, dest, frontMatter, true);
    FlatPassPrintsEligible(dry.after, numLevels, dest, frontMatter, true);
  }

  /** Promotion within a depth limit of at least 2 neither adds nor removes a selected entry. */
  lemma {:induction false} PromotedSelectSame(entries: seq<Entry>, after: seq<Entry>, numLevels: int,
      dest: map<string, PageNumber>, frontMatter: nat)
    requires |after| == |entries|
    requires forall k :: 0 <= k < |entries| ==> EntryLevels(entries[k], numLevels) >= 2
    requires forall k :: 0 <= k < |entries| ==>
      after[k] == if !SkippedByLevel(entries[k], numLevels) && Promoted(entries[k])
                  then entries[k].(level := 2) else entries[k]
    ensures LinesOf(Selected(after, numLevels), numLevels, dest, frontMatter, true)
         == LinesOf(Selected(entries, numLevels), numLevels, dest, frontMatter, true)
  {
    if entries != [] {
      forall k | 0 <= k < |entries| - 1
        ensures after[1..][k] == if !SkippedByLevel(entries[1..][k], numLevels) && Promoted(entries[1..][k])
                                 then entries[1..][k].(level := 2) else entries[1..][k]
      {
        assert after[1..][k] == after[k + 1] && entries[1..][k] == entries[k + 1];
      }
      PromotedSelectSame(entries[1..], after[1..], numLevels, dest, frontMatter);
    }
  }
}
