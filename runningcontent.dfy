/**
 * Which part, chapter and section the running header and footer of each
 * physical page name. Sections are indexed by the page they start on; a
 * walk over the pages then carries the current part, chapter and section
 * forward, and pages that belong to one of the generated lists are named
 * after that list instead.
 */
module RunningContent {
  import opened Wrappers
  import opened Lists
  import opened Allocation

  /**
   * A section's `sectname`. The indexing only tells "part" and "appendix"
   * apart; every other name ("chapter", "preface", "section", ...) is kept
   * as it is.
   */
  datatype SectName = PartName | AppendixName | OtherName(name: string)

  /** A section as the running content sees it. */
  datatype Section = Section(
    sectname: SectName,
    level: int,
    pageStart: Option<int>,       // the `pdf-page-start` attribute, the page number recorded when the heading was inked
    title: string,
    isHeader: bool)               // the document header

  /** What the by-page tables hold for a page: nil, a section, or a plain title. */
  datatype Info = NilInfo | SecInfo(section: Section) | TextInfo(text: string)

  /** The chapter being carried: before the first chapter of a book, none, or a chapter. */
  datatype ChapState = Pre | NoChap | Chap(chapter: Section)

  /** The state the page walk carries from one page to the next. */
  datatype Carry = Carry(part: Info, chap: ChapState, sect: Option<Section>, threshold: int)

  /**
   * The page a section starts on: its `pdf-page-start` read with `to_i`,
   * which keeps an integer as it is and reads nil as 0.
   */
  function PageStartOf(s: Section): int {
    match s.pageStart
    case None => 0
    case Some(n) => n
  }

  /** The sections that take part: the header excluded and none deeper than the running-content levels. */
  function SelectSections(all: seq<Section>, sectlevels: int): (r: seq<Section>)
    ensures |r| <= |all|
    ensures forall i :: 0 <= i < |r| ==> r[i].level <= sectlevels && !r[i].isHeader && r[i] in all
    ensures forall s :: s in all && s.level <= sectlevels && !s.isHeader ==> s in r
  {
    if all == [] then []
    else
      var rest := SelectSections(all[1..], sectlevels);
      if all[0].level <= sectlevels && !all[0].isHeader then [all[0]] + rest else rest
  }

  /** A single section is kept exactly when it is not the header and not too deep. */
  lemma SelectOne(s: Section, sectlevels: int)
    ensures SelectSections([s], sectlevels) == if s.level <= sectlevels && !s.isHeader then [s] else []
  {
    assert [s][1..] == [];
  }

  /**
   * Selecting from two runs of the document is selecting from each and
   * joining the results: the kept sections stay in document order, each
   * kept once, as `find_by` walks the document.
   */
  lemma {:induction false} SelectAppend(a: seq<Section>, b: seq<Section>, sectlevels: int)
    ensures SelectSections(a + b, sectlevels) == SelectSections(a, sectlevels) + SelectSections(b, sectlevels)
    decreases |a|
  {
    if a == [] {
      assert a + b == b;
    } else {
      assert (a + b)[0] == a[0];
      assert (a + b)[1..] == a[1..] + b;
      SelectAppend(a[1..], b, sectlevels);
    }
  }

  /** A kept section heads the selection from the run it heads. */
  lemma SelectKeptHead(s: Section, rest: seq<Section>, sectlevels: int)
    requires s.level <= sectlevels && !s.isHeader
    ensures SelectSections([s] + rest, sectlevels) == [s] + SelectSections(rest, sectlevels)
  {
    assert ([s] + rest)[1..] == rest;
  }

  /** A kept section sits in the selection between what is selected before and after it. */
  lemma SelectAround(x: seq<Section>, s: Section, y: seq<Section>, sectlevels: int)
    requires s.level <= sectlevels && !s.isHeader
    ensures SelectSections(x + ([s] + y), sectlevels) == SelectSections(x, sectlevels) + ([s] + SelectSections(y, sectlevels))
  {
    SelectAppend(x, [s] + y, sectlevels);
    SelectKeptHead(s, y, sectlevels);
  }

  /** A sequence cut around two of its positions. */
  lemma SplitAtTwo<T>(xs: seq<T>, i: int, j: int)
    requires 0 <= i < j < |xs|
    ensures xs == xs[..i] + ([xs[i]] + (xs[i + 1..j] + ([xs[j]] + xs[j + 1..])))
  {
    assert xs[j..] == [xs[j]] + xs[j + 1..];
    assert xs[i + 1..] == xs[i + 1..j] + xs[j..];
    assert xs[i..] == [xs[i]] + xs[i + 1..];
    assert xs == xs[..i] + xs[i..];
  }

  /** Sections are kept in the order they come, so of two kept sections the earlier one comes first. */
  lemma SelectKeepsOrder(all: seq<Section>, sectlevels: int, i: int, j: int) returns (m: nat, n: nat)
    requires 0 <= i < j < |all|
    requires all[i].level <= sectlevels && !all[i].isHeader
    requires all[j].level <= sectlevels && !all[j].isHeader
    ensures m < n < |SelectSections(all, sectlevels)|
    ensures SelectSections(all, sectlevels)[m] == all[i] && SelectSections(all, sectlevels)[n] == all[j]
  {
    var a, b, c := all[..i], all[i + 1..j], all[j + 1..];
    var sa, sb, sc := SelectSections(a, sectlevels), SelectSections(b, sectlevels), SelectSections(c, sectlevels);
    var tail := SelectSections(b + ([all[j]] + c), sectlevels);
    assert tail == sb + ([all[j]] + sc) by {
      SelectAround(b, all[j], c, sectlevels);
    }
    assert SelectSections(all, sectlevels) == sa + ([all[i]] + tail) by {
      SplitAtTwo(all, i, j);
      SelectAround(a, all[i], b + ([all[j]] + c), sectlevels);
    }
    assert tail[|sb|] == all[j];
    m, n := |sa|, |sa| + 1 + |sb|;
  }

  // ---------------------------------------------------------------------
  // Indexing sections by start page
  // ---------------------------------------------------------------------

  datatype Role = PartRole | ChapterRole | OtherRole

  /** In a book, parts and level-1 sections are indexed on their own; everything else is a section. */
  function RoleOf(s: Section, isBook: bool): Role {
    if isBook && s.sectname == PartName then PartRole
    else if isBook && s.level == 1 then ChapterRole
    else OtherRole
  }

  /** An appendix chapter, which marks the end of the current part when the book has parts. */
  predicate EndsPart(s: Section, isBook: bool) {
    RoleOf(s, isBook) == ChapterRole && s.sectname == AppendixName
  }

  /** The four start-page tables. */
  datatype Index = Index(parts: map<int, Info>, chapters: map<int, Section>,
                         sections: map<int, Section>, trailing: map<int, Section>)

  const EmptyIndex := Index(map[], map[], map[], map[])

  /** Indexing one more section. */
  function AddSection(idx: Index, s: Section, isBook: bool): Index {
    var p := PageStartOf(s);
    match RoleOf(s, isBook)
    case PartRole =>
      if p in idx.parts then idx else idx.(parts := idx.parts[p := SecInfo(s)])
    case ChapterRole =>
      var chapters := if p in idx.chapters then idx.chapters else idx.chapters[p := s];
      var parts := if s.sectname == AppendixName && idx.parts != map[] then idx.parts[p := TextInfo("")] else idx.parts;
      idx.(chapters := chapters, parts := parts)
    case OtherRole =>
      idx.(trailing := idx.trailing[p := s],
           sections := if p in idx.sections then idx.sections else idx.sections[p := s])
  }

  /** The tables after indexing all sections in order. */
  function IndexAll(ss: seq<Section>, isBook: bool): Index
    decreases |ss|
  {
    if ss == [] then EmptyIndex else AddSection(IndexAll(ss[..|ss| - 1], isBook), ss[|ss| - 1], isBook)
  }

  /**
   * Selects the document's sections that take part, then indexes them by
   * start page, one after another.
   */
  method IndexSections(all: seq<Section>, sectlevels: int, isBook: bool) returns (idx: Index)
    ensures idx == IndexAll(SelectSections(all, sectlevels), isBook)
  {
    var sections := SelectSections(all, sectlevels);
    idx := IndexStartPages(sections, isBook);
  }

  /** The indexing loop proper: each selected section, in order, updates the four tables. */
  method IndexStartPages(ss: seq<Section>, isBook: bool) returns (idx: Index)
    ensures idx == IndexAll(ss, isBook)
  {
    var partStartPages: map<int, Info> := map[];
    var chapterStartPages: map<int, Section> := map[];
    var sectionStartPages: map<int, Section> := map[];
    var trailingSectionStartPages: map<int, Section> := map[];
    var i := 0;
    while i < |ss|
      invariant 0 <= i <= |ss|
      invariant Index(partStartPages, chapterStartPages, sectionStartPages, trailingSectionStartPages)
             == IndexAll(ss[..i], isBook)
    {
      var sect := ss[i];
      var pgnum := PageStartOf(sect);
      if isBook && (sect.sectname == PartName || sect.level == 1) {
        if sect.sectname == PartName {
          if pgnum !in partStartPages {
            partStartPages := partStartPages[pgnum := SecInfo(sect)];
          }
        } else {
          if pgnum !in chapterStartPages {
            chapterStartPages := chapterStartPages[pgnum := sect];
          }
          if sect.sectname == AppendixName && partStartPages != map[] {
            partStartPages := partStartPages[pgnum := TextInfo("")];
          }
        }
      } else {
        trailingSectionStartPages := trailingSectionStartPages[pgnum := sect];
        if pgnum !in sectionStartPages {
          sectionStartPages := sectionStartPages[pgnum := sect];
        }
      }
      assert ss[..i + 1][..i] == ss[..i];
      i := i + 1;
    }
    assert ss[..|ss|] == ss;
    idx := Index(partStartPages, chapterStartPages, sectionStartPages, trailingSectionStartPages);
  }

  /** Whether some section of the given role starts on page `p`. */
  predicate StartsOn(ss: seq<Section>, isBook: bool, role: Role, p: int) {
    exists i :: 0 <= i < |ss| && RoleOf(ss[i], isBook) == role && PageStartOf(ss[i]) == p
  }

  /** The first section of the given role in `ss` starts on page `p`, the one at `i`. */
  predicate FirstOn(ss: seq<Section>, isBook: bool, role: Role, p: int, i: int) {
    0 <= i < |ss| && RoleOf(ss[i], isBook) == role && PageStartOf(ss[i]) == p
    && forall j :: 0 <= j < i ==> !(RoleOf(ss[j], isBook) == role && PageStartOf(ss[j]) == p)
  }

  /** The last section of the given role in `ss` starts on page `p`, the one at `i`. */
  predicate LastOn(ss: seq<Section>, isBook: bool, role: Role, p: int, i: int) {
    0 <= i < |ss| && RoleOf(ss[i], isBook) == role && PageStartOf(ss[i]) == p
    && forall j :: i < j < |ss| ==> !(RoleOf(ss[j], isBook) == role && PageStartOf(ss[j]) == p)
  }

  /** The table that keeps the first chapter, or the first other section, starting on each page. */
  function FirstTable(idx: Index, role: Role): map<int, Section>
    requires role != PartRole
  {
    if role == ChapterRole then idx.chapters else idx.sections
  }

  lemma IndexAllSnoc(ss: seq<Section>, isBook: bool)
    requires ss != []
    ensures IndexAll(ss, isBook) == AddSection(IndexAll(ss[..|ss| - 1], isBook), ss[|ss| - 1], isBook)
  {
  }

  lemma StartsOnSnoc(ss: seq<Section>, isBook: bool, role: Role, p: int)
    requires ss != []
    ensures StartsOn(ss, isBook, role, p) <==> (StartsOn(ss[..|ss| - 1], isBook, role, p)
      || (RoleOf(ss[|ss| - 1], isBook) == role && PageStartOf(ss[|ss| - 1]) == p))
  {
    var init := ss[..|ss| - 1];
    if StartsOn(ss, isBook, role, p) {
      var i :| 0 <= i < |ss| && RoleOf(ss[i], isBook) == role && PageStartOf(ss[i]) == p;
      if i < |init| { assert init[i] == ss[i]; }
    }
    if StartsOn(init, isBook, role, p) {
      var i :| 0 <= i < |init| && RoleOf(init[i], isBook) == role && PageStartOf(init[i]) == p;
      assert ss[i] == init[i];
    }
  }

  lemma AddFirst(idx: Index, s: Section, isBook: bool, role: Role)
    requires role != PartRole
    ensures FirstTable(AddSection(idx, s, isBook), role)
         == if RoleOf(s, isBook) == role && PageStartOf(s) !in FirstTable(idx, role)
            then FirstTable(idx, role)[PageStartOf(s) := s] else FirstTable(idx, role)
  {
  }

  /**
   * The chapter and section tables keep, for each page, the first chapter
   * (the first other section) starting there, and have a key exactly for
   * the pages where one starts.
   */
  lemma {:induction false} FirstWins(ss: seq<Section>, isBook: bool, role: Role, p: int)
    requires role != PartRole
    ensures p in FirstTable(IndexAll(ss, isBook), role) <==> StartsOn(ss, isBook, role, p)
    ensures forall i :: FirstOn(ss, isBook, role, p, i) ==> FirstTable(IndexAll(ss, isBook), role)[p] == ss[i]
    decreases |ss|
  {
    if ss != [] {
      var n := |ss| - 1;
      var init := ss[..n];
      FirstWins(init, isBook, role, p);
      IndexAllSnoc(ss, isBook);
      StartsOnSnoc(ss, isBook, role, p);
      AddFirst(IndexAll(init, isBook), ss[n], isBook, role);
      forall i | FirstOn(ss, isBook, role, p, i) ensures FirstTable(IndexAll(ss, isBook), role)[p] == ss[i] {
        if i < n {
          assert init[i] == ss[i];
          assert FirstOn(init, isBook, role, p, i);
        } else {
          assert !StartsOn(init, isBook, role, p);
        }
      }
    }
  }

  /**
   * The trailing table keeps, for each page, the last section starting
   * there, and has a key exactly for the pages where one starts.
   */
  lemma {:induction false} LastWins(ss: seq<Section>, isBook: bool, p: int)
    ensures p in IndexAll(ss, isBook).trailing <==> StartsOn(ss, isBook, OtherRole, p)
    ensures forall i :: LastOn(ss, isBook, OtherRole, p, i) ==> IndexAll(ss, isBook).trailing[p] == ss[i]
    decreases |ss|
  {
    if ss != [] {
      var n := |ss| - 1;
      var init := ss[..n];
      LastWins(init, isBook, p);
      IndexAllSnoc(ss, isBook);
      StartsOnSnoc(ss, isBook, OtherRole, p);
      AddTrailing(IndexAll(init, isBook), ss[n], isBook);
      forall i | LastOn(ss, isBook, OtherRole, p, i) ensures IndexAll(ss, isBook).trailing[p] == ss[i] {
        if i < n {
          assert !(RoleOf(ss[n], isBook) == OtherRole && PageStartOf(ss[n]) == p);
          assert LastOn(init, isBook, OtherRole, p, i) by {
            assert init[i] == ss[i];
            forall j | i < j < n ensures !(RoleOf(init[j], isBook) == OtherRole && PageStartOf(init[j]) == p) {
              assert init[j] == ss[j];
            }
          }
        }
      }
    }
  }

  lemma AddTrailing(idx: Index, s: Section, isBook: bool)
    ensures AddSection(idx, s, isBook).trailing
         == if RoleOf(s, isBook) == OtherRole then idx.trailing[PageStartOf(s) := s] else idx.trailing
  {
  }

  /** Some appendix chapter starting on page `p` comes after some part. */
  predicate PartEndedOn(ss: seq<Section>, isBook: bool, p: int) {
    exists a, q :: 0 <= q < a < |ss| && EndsPart(ss[a], isBook) && PageStartOf(ss[a]) == p
                   && RoleOf(ss[q], isBook) == PartRole
  }

  predicate HasPart(ss: seq<Section>, isBook: bool) {
    exists q :: 0 <= q < |ss| && RoleOf(ss[q], isBook) == PartRole
  }

  lemma HasPartSnoc(ss: seq<Section>, isBook: bool)
    requires ss != []
    ensures HasPart(ss, isBook) <==> (HasPart(ss[..|ss| - 1], isBook) || RoleOf(ss[|ss| - 1], isBook) == PartRole)
  {
    var init := ss[..|ss| - 1];
    if HasPart(ss, isBook) {
      var q :| 0 <= q < |ss| && RoleOf(ss[q], isBook) == PartRole;
      if q < |init| { assert init[q] == ss[q]; }
    }
    if HasPart(init, isBook) {
      var q :| 0 <= q < |init| && RoleOf(init[q], isBook) == PartRole;
      assert ss[q] == init[q];
    }
  }

  lemma {:induction false} PartEndedSnoc(ss: seq<Section>, isBook: bool, p: int)
    requires ss != []
    ensures PartEndedOn(ss, isBook, p) <==> (PartEndedOn(ss[..|ss| - 1], isBook, p)
      || (EndsPart(ss[|ss| - 1], isBook) && PageStartOf(ss[|ss| - 1]) == p && HasPart(ss[..|ss| - 1], isBook)))
  {
    var n := |ss| - 1;
    var init := ss[..n];
    if PartEndedOn(ss, isBook, p) {
      var a, q :| 0 <= q < a < |ss| && EndsPart(ss[a], isBook) && PageStartOf(ss[a]) == p
                  && RoleOf(ss[q], isBook) == PartRole;
      assert init[q] == ss[q];
      if a < n {
        assert init[a] == ss[a];
        assert PartEndedOn(init, isBook, p);
      } else {
        assert HasPart(init, isBook);
      }
    }
    if PartEndedOn(init, isBook, p) {
      var a, q :| 0 <= q < a < |init| && EndsPart(init[a], isBook) && PageStartOf(init[a]) == p
                  && RoleOf(init[q], isBook) == PartRole;
      assert ss[a] == init[a] && ss[q] == init[q];
      assert PartEndedOn(ss, isBook, p);
    }
    if EndsPart(ss[n], isBook) && PageStartOf(ss[n]) == p && HasPart(init, isBook) {
      var q :| 0 <= q < |init| && RoleOf(init[q], isBook) == PartRole;
      assert ss[q] == init[q];
      assert PartEndedOn(ss, isBook, p);
    }
  }

  lemma AddSectionParts(idx: Index, s: Section, isBook: bool)
    ensures AddSection(idx, s, isBook).parts != map[] <==> (idx.parts != map[] || RoleOf(s, isBook) == PartRole)
  {
    var p := PageStartOf(s);
    var after := AddSection(idx, s, isBook).parts;
    match RoleOf(s, isBook)
    case PartRole =>
      assert p in after;
    case ChapterRole =>
      if s.sectname == AppendixName && idx.parts != map[] {
        assert p in after;
      } else {
        assert after == idx.parts;
      }
    case OtherRole =>
  }

  /** The part table has keys exactly when some part has been indexed. */
  lemma {:induction false} PartsNonEmpty(ss: seq<Section>, isBook: bool)
    ensures IndexAll(ss, isBook).parts != map[] <==> HasPart(ss, isBook)
    decreases |ss|
  {
    if ss != [] {
      var n := |ss| - 1;
      PartsNonEmpty(ss[..n], isBook);
      IndexAllSnoc(ss, isBook);
      HasPartSnoc(ss, isBook);
      AddSectionParts(IndexAll(ss[..n], isBook), ss[n], isBook);
    }
  }

  /**
   * The part table holds, for each page, the empty title when an appendix
   * chapter after some part starts there (the part has ended), and the
   * first part starting there otherwise; no other page has a key.
   */
  lemma {:induction false} PartTable(ss: seq<Section>, isBook: bool, p: int)
    ensures p in IndexAll(ss, isBook).parts <==> (StartsOn(ss, isBook, PartRole, p) || PartEndedOn(ss, isBook, p))
    ensures PartEndedOn(ss, isBook, p) ==> IndexAll(ss, isBook).parts[p] == TextInfo("")
    ensures forall i :: FirstOn(ss, isBook, PartRole, p, i) && !PartEndedOn(ss, isBook, p) ==>
      IndexAll(ss, isBook).parts[p] == SecInfo(ss[i])
    decreases |ss|
  {
    if ss != [] {
      var n := |ss| - 1;
      var init := ss[..n];
      PartTable(init, isBook, p);
      IndexAllSnoc(ss, isBook);
      StartsOnSnoc(ss, isBook, PartRole, p);
      PartEndedSnoc(ss, isBook, p);
      PartsNonEmpty(init, isBook);
      forall i | FirstOn(ss, isBook, PartRole, p, i) && !PartEndedOn(ss, isBook, p)
        ensures IndexAll(ss, isBook).parts[p] == SecInfo(ss[i])
      {
        if i < n {
          assert init[i] == ss[i];
          assert FirstOn(init, isBook, PartRole, p, i);
        } else {
          assert !StartsOn(init, isBook, PartRole, p);
        }
      }
    }
  }

  // ---------------------------------------------------------------------
  // The page walk
  // ---------------------------------------------------------------------

  /**
   * The section recorded in the trailing table on the latest page from `hi`
   * down to `lo`, if any.
   */
  function LookBack(trailing: map<int, Section>, lo: int, hi: int): (r: Option<Section>)
    ensures r.None? <==> forall q :: lo <= q <= hi ==> q !in trailing
    ensures r.Some? ==> exists q :: lo <= q <= hi && q in trailing && trailing[q] == r.value
                          && forall q' :: q < q' <= hi ==> q' !in trailing
    decreases hi - lo
  {
    if hi < lo then None
    else if hi in trailing then Some(trailing[hi])
    else LookBack(trailing, lo, hi - 1)
  }

  /** The walk's state before page 1: no part, the chapter before the first one in a book. */
  function Initial(isBook: bool): Carry {
    Carry(NilInfo, if isBook then Pre else NoChap, None, 1)
  }

  /**
   * The carried state after page `p`: a part start sets the part and clears
   * chapter and section; a chapter start sets the chapter and clears the
   * section; a section start sets the section; a page with a part or chapter
   * start but no section start moves the look-back threshold to itself;
   * any other page, while a section is carried, takes the section that
   * started last on the latest earlier page since the threshold.
   */
  function StepCarry(c: Carry, p: int, idx: Index): Carry {
    var part := if p in idx.parts then idx.parts[p] else NilInfo;
    var c1 := if part != NilInfo then Carry(part, NoChap, None, c.threshold) else c;
    var c2 := if p in idx.chapters then c1.(chap := Chap(idx.chapters[p]), sect := None) else c1;
    if p in idx.sections then c2.(sect := Some(idx.sections[p]))
    else if part != NilInfo || p in idx.chapters then c2.(threshold := p)
    else if c2.sect.Some? then
      match LookBack(idx.trailing, c2.threshold, p - 1)
      case Some(s) => c2.(sect := Some(s))
      case None => c2
    else c2
  }

  /** The carried state after pages 1 to `p`. */
  function CarryAfter(p: nat, idx: Index, isBook: bool): Carry {
    if p == 0 then Initial(isBook) else StepCarry(CarryAfter(p - 1, idx, isBook), p, idx)
  }

  /** The document facts the attribution of a page needs. */
  datatype Doc = Doc(isBook: bool, doctitle: string, attrs: Attributes, bodyStart: int)

  /** A list's heading as the running content shows it: the attribute, or "" when unset. */
  function ListTitle(k: ListKind, attrs: Attributes): string {
    Attr(attrs, TitleAttribute(k)).GetOr("")
  }

  /**
   * The first list, in the order ToC, LoF, LoT, LoE, LoL, whose page range
   * covers page `p`.
   */
  function FirstCovering(ranges: map<ListKind, PageRange>, p: int): (r: Option<ListKind>)
    ensures r.Some? ==> (r.value in ranges && ranges[r.value].Covers(p)
      && forall j :: 0 <= j < IndexOf(r.value) && Order[j] in ranges ==> !ranges[Order[j]].Covers(p))
    ensures r.None? <==> forall k :: k in ranges ==> !ranges[k].Covers(p)
  {
    assert forall k :: k in ranges ==> (k.Toc? || k.Lof? || k.Lot? || k.Loe? || k.Lol?);
    if Toc in ranges && ranges[Toc].Covers(p) then Some(Toc)
    else if Lof in ranges && ranges[Lof].Covers(p) then Some(Lof)
    else if Lot in ranges && ranges[Lot].Covers(p) then Some(Lot)
    else if Loe in ranges && ranges[Loe].Covers(p) then Some(Loe)
    else if Lol in ranges && ranges[Lol].Covers(p) then Some(Lol)
    else None
  }

  /** What the by-page tables hold for one page. */
  datatype PageInfo = PageInfo(part: Info, chapter: Info, section: Info)

  function SectInfo(s: Option<Section>): Info {
    match s
    case None => NilInfo
    case Some(x) => SecInfo(x)
  }

  /** The attribution of page `p`, given the carried state and the list covering the page. */
  function Attribute(c: Carry, p: int, cover: Option<ListKind>, idx: Index, doc: Doc): PageInfo {
    match cover
    case Some(k) =>
      if doc.isBook then PageInfo(c.part, TextInfo(ListTitle(k, doc.attrs)), NilInfo)
      else PageInfo(c.part, NilInfo,
                    if p in idx.sections then SecInfo(idx.sections[p]) else TextInfo(ListTitle(k, doc.attrs)))
    case None =>
      match c.chap
      case Pre =>
        PageInfo(c.part,
                 TextInfo(if p < doc.bodyStart then doc.doctitle else Attr(doc.attrs, "preface-title").GetOr("Preface")),
                 SectInfo(c.sect))
      case NoChap => PageInfo(c.part, NilInfo, SectInfo(c.sect))
      case Chap(s) => PageInfo(c.part, SecInfo(s), SectInfo(c.sect))
  }

  /** What the running content of page `p` names. */
  function PageInfoAt(p: nat, idx: Index, ranges: map<ListKind, PageRange>, doc: Doc): PageInfo {
    Attribute(CarryAfter(p, idx, doc.isBook), p, FirstCovering(ranges, p), idx, doc)
  }

  /**
   * The look-back loop: from page `hi` down to `lo`, the first page with a
   * trailing section gives the section.
   */
  method LookBackLoop(trailing: map<int, Section>, lo: int, hi: int) returns (found: Option<Section>)
    ensures found == LookBack(trailing, lo, hi)
  {
    found := None;
    var prev := hi;
    while prev >= lo
      invariant prev <= hi && (prev >= lo - 1 || prev == hi)
      invariant LookBack(trailing, lo, hi) == LookBack(trailing, lo, prev)
      decreases prev - lo
    {
      if prev in trailing {
        found := Some(trailing[prev]);
        return;
      }
      prev := prev - 1;
    }
  }

  /** The walk's update of the carried state on page `pgnum`. */
  method Advance(c: Carry, pgnum: int, idx: Index) returns (next: Carry)
    ensures next == StepCarry(c, pgnum, idx)
  {
    var lastPart, lastChap, lastSect, threshold := c.part, c.chap, c.sect, c.threshold;
    var part := if pgnum in idx.parts then idx.parts[pgnum] else NilInfo;
    if part != NilInfo {
      lastPart := part;
      lastChap := NoChap;
      lastSect := None;
    }
    if pgnum in idx.chapters {
      lastChap := Chap(idx.chapters[pgnum]);
      lastSect := None;
    }
    if pgnum in idx.sections {
      lastSect := Some(idx.sections[pgnum]);
    } else if part != NilInfo || pgnum in idx.chapters {
      threshold := pgnum;
    } else if lastSect.Some? {
      var found := LookBackLoop(idx.trailing, threshold, pgnum - 1);
      if found.Some? {
        lastSect := found;
      }
    }
    next := Carry(lastPart, lastChap, lastSect, threshold);
  }

  /**
   * The list ranges still live on page `p`: a range is dropped after its
   * last page once it has been used; a dropped range no longer covers `p`.
   */
  predicate LiveRanges(live: map<ListKind, PageRange>, ranges: map<ListKind, PageRange>, p: int) {
    && (forall k :: k in live ==> k in ranges && live[k] == ranges[k])
    && (forall k :: k in ranges && k !in live ==> ranges[k].last < p)
  }

  lemma LiveCoversAlike(live: map<ListKind, PageRange>, ranges: map<ListKind, PageRange>, p: int)
    requires LiveRanges(live, ranges, p)
    ensures FirstCovering(live, p) == FirstCovering(ranges, p)
  {
  }

  /**
   * Walks the pages 1 to `numPages`, filling the part, chapter and section
   * tables. A list's range is dropped once its last page has been named
   * after it; every page gets an entry in all three tables, and each entry is
   * what the page's carried state and the first list covering it (over the
   * ranges as given) determine, so dropping ranges changes nothing.
   */
  method Walk(numPages: nat, idx: Index, ranges: map<ListKind, PageRange>, doc: Doc)
      returns (partsByPage: map<int, Info>, chaptersByPage: map<int, Info>, sectionsByPage: map<int, Info>)
    ensures forall p :: (p in partsByPage <==> 1 <= p <= numPages)
                     && (p in chaptersByPage <==> 1 <= p <= numPages)
                     && (p in sectionsByPage <==> 1 <= p <= numPages)
    ensures forall p :: 1 <= p <= numPages ==>
      PageInfo(partsByPage[p], chaptersByPage[p], sectionsByPage[p]) == PageInfoAt(p, idx, ranges, doc)
  {
    partsByPage, chaptersByPage, sectionsByPage := map[], map[], map[];
    var carry := Initial(doc.isBook);
    var live := ranges;
    var pgnum := 1;
    while pgnum <= numPages
      invariant 1 <= pgnum <= numPages + 1
      invariant carry == CarryAfter(pgnum - 1, idx, doc.isBook)
      invariant LiveRanges(live, ranges, pgnum)
      invariant forall p :: (p in partsByPage <==> 1 <= p < pgnum)
                       && (p in chaptersByPage <==> 1 <= p < pgnum)
                       && (p in sectionsByPage <==> 1 <= p < pgnum)
      invariant forall p :: 1 <= p < pgnum ==>
        PageInfo(partsByPage[p], chaptersByPage[p], sectionsByPage[p]) == PageInfoAt(p, idx, ranges, doc)
    {
      carry := Advance(carry, pgnum, idx);
      LiveCoversAlike(live, ranges, pgnum);
      var cover := FirstCovering(live, pgnum);
      var info := Attribute(carry, pgnum, cover, idx, doc);
      partsByPage := partsByPage[pgnum := info.part];
      chaptersByPage := chaptersByPage[pgnum := info.chapter];
      sectionsByPage := sectionsByPage[pgnum := info.section];
      if cover.Some? && live[cover.value].last == pgnum {
        live := live - {cover.value};
      }
      pgnum := pgnum + 1;
    }
  }

  /**
   * Reserves nothing of the ranges: with the ranges kept as given after
   * their last page, every page is named the same way.
   */
  lemma DroppingRangesIsRedundant(live: map<ListKind, PageRange>, ranges: map<ListKind, PageRange>,
                                  p: int, idx: Index, doc: Doc)
    requires p >= 0 && LiveRanges(live, ranges, p)
    ensures Attribute(CarryAfter(p, idx, doc.isBook), p, FirstCovering(live, p), idx, doc)
         == PageInfoAt(p, idx, ranges, doc)
  {
    LiveCoversAlike(live, ranges, p);
  }

  // ---------------------------------------------------------------------
  // Properties of the walk
  // ---------------------------------------------------------------------

  /** A part start on page `p` sets the part and clears the chapter, unless a chapter also starts there. */
  lemma PartStartClears(p: nat, idx: Index, isBook: bool)
    requires p >= 1 && p in idx.parts && idx.parts[p] != NilInfo
    ensures CarryAfter(p, idx, isBook).part == idx.parts[p]
    ensures CarryAfter(p, idx, isBook).chap == if p in idx.chapters then Chap(idx.chapters[p]) else NoChap
    ensures CarryAfter(p, idx, isBook).sect == if p in idx.sections then Some(idx.sections[p]) else None
    ensures p !in idx.sections ==> CarryAfter(p, idx, isBook).threshold == p
  {
  }

  /** A chapter start on page `p` sets the chapter and clears the section. */
  lemma ChapterStartClears(p: nat, idx: Index, isBook: bool)
    requires p >= 1 && p in idx.chapters
    ensures CarryAfter(p, idx, isBook).chap == Chap(idx.chapters[p])
    ensures CarryAfter(p, idx, isBook).sect == if p in idx.sections then Some(idx.sections[p]) else None
  {
  }

  /** The part every page names is the part carried to it. */
  lemma PartIsCarried(p: nat, idx: Index, ranges: map<ListKind, PageRange>, doc: Doc)
    ensures PageInfoAt(p, idx, ranges, doc).part == CarryAfter(p, idx, doc.isBook).part
  {
  }

  /**
   * A page inside a list's range is named after the first list covering
   * it: in a book the list's heading is the chapter and there is no
   * section; otherwise there is no chapter and the section is the one
   * starting on the page, else the list's heading.
   */
  lemma ListPagesNamedAfterList(p: nat, idx: Index, ranges: map<ListKind, PageRange>, doc: Doc, k: ListKind)
    requires k in ranges && ranges[k].Covers(p)
    requires forall j :: 0 <= j < IndexOf(k) && Order[j] in ranges ==> !ranges[Order[j]].Covers(p)
    ensures doc.isBook ==> (PageInfoAt(p, idx, ranges, doc).chapter == TextInfo(ListTitle(k, doc.attrs))
                            && PageInfoAt(p, idx, ranges, doc).section == NilInfo)
    ensures !doc.isBook ==> (PageInfoAt(p, idx, ranges, doc).chapter == NilInfo
      && PageInfoAt(p, idx, ranges, doc).section
         == if p in idx.sections then SecInfo(idx.sections[p]) else TextInfo(ListTitle(k, doc.attrs)))
  {
    var r := FirstCovering(ranges, p);
    assert Order[IndexOf(k)] == k;
    if r.Some? {
      assert Order[IndexOf(r.value)] == r.value;
    }
    assert r == Some(k);
  }

  /**
   * In a book, until the first part or chapter starts, the pages outside
   * the lists name the document title before the body starts and the
   * preface title afterwards.
   */
  lemma {:induction false} BeforeFirstChapter(p: nat, idx: Index, ranges: map<ListKind, PageRange>, doc: Doc)
    requires doc.isBook
    requires forall q :: 1 <= q <= p ==> q !in idx.chapters && (q !in idx.parts || idx.parts[q] == NilInfo)
    requires FirstCovering(ranges, p).None?
    ensures CarryAfter(p, idx, true).chap == Pre
    ensures PageInfoAt(p, idx, ranges, doc).chapter
         == TextInfo(if p < doc.bodyStart then doc.doctitle else Attr(doc.attrs, "preface-title").GetOr("Preface"))
  {
    StillPre(p, idx);
  }

  lemma {:induction false} StillPre(p: nat, idx: Index)
    requires forall q :: 1 <= q <= p ==> q !in idx.chapters && (q !in idx.parts || idx.parts[q] == NilInfo)
    ensures CarryAfter(p, idx, true).chap == Pre
  {
    if p > 0 {
      StillPre(p - 1, idx);
    }
  }

  /**
   * Outside a book there are no parts or chapters, so on every page the
   * carried section is the first section starting on that page, or else the
   * last section started on the latest earlier page.
   */
  lemma {:induction false} ArticleSections(ss: seq<Section>, p: nat)
    requires p >= 1
    ensures var idx := IndexAll(ss, false);
      CarryAfter(p, idx, false).sect
        == if p in idx.sections then Some(idx.sections[p]) else LookBack(idx.trailing, 1, p - 1)
  {
    var idx := IndexAll(ss, false);
    ArticleIndex(ss);
    ArticleCarry(idx, p);
  }

  /** Outside a book only the section tables have keys, and on the same pages. */
  lemma {:induction false} ArticleIndex(ss: seq<Section>)
    ensures IndexAll(ss, false).parts == map[] && IndexAll(ss, false).chapters == map[]
    ensures forall p :: p in IndexAll(ss, false).sections <==> p in IndexAll(ss, false).trailing
    decreases |ss|
  {
    if ss != [] {
      ArticleIndex(ss[..|ss| - 1]);
    }
  }

  lemma {:induction false} ArticleCarry(idx: Index, p: nat)
    requires idx.parts == map[] && idx.chapters == map[]
    requires forall q :: q in idx.sections <==> q in idx.trailing
    requires p >= 1
    ensures CarryAfter(p, idx, false).threshold == 1
    ensures CarryAfter(p, idx, false).sect
         == if p in idx.sections then Some(idx.sections[p]) else LookBack(idx.trailing, 1, p - 1)
  {
    if p > 1 {
      ArticleCarry(idx, p - 1);
      var before := CarryAfter(p - 1, idx, false);
      if p !in idx.sections {
        if before.sect.Some? {
          assert (p - 1) in idx.trailing || LookBack(idx.trailing, 1, p - 2).Some?;
          assert LookBack(idx.trailing, 1, p - 1).Some?;
        } else {
          assert LookBack(idx.trailing, 1, p - 1) == None;
        }
      }
    }
  }

  // ---------------------------------------------------------------------
  // The first content page
  // ---------------------------------------------------------------------

  /**
   * The first page after the `skip` leading pages that was not imported,
   * as a 1-based page number; none when every later page was imported (the
   * running content is then not drawn at all).
   */
  method FirstContentPage(imported: seq<bool>, skip: nat) returns (r: Option<int>)
    requires skip <= |imported|
    ensures r.None? <==> forall i :: skip <= i < |imported| ==> imported[i]
    ensures r.Some? ==> skip < r.value <= |imported| && !imported[r.value - 1]
                        && forall i :: skip <= i < r.value - 1 ==> imported[i]
  {
    var pages := imported[skip..];
    var i := 0;
    while i < |pages|
      invariant 0 <= i <= |pages|
      invariant forall j :: 0 <= j < i ==> pages[j]
    {
      if !pages[i] {
        assert forall j :: skip <= j < skip + i ==> imported[j] by {
          forall j | skip <= j < skip + i ensures imported[j] { assert pages[j - skip] == imported[j]; }
        }
        return Some(i + skip + 1);
      }
      i := i + 1;
    }
    assert forall j :: skip <= j < |imported| ==> imported[j] by {
      forall j | skip <= j < |imported| ensures imported[j] { assert pages[j - skip] == imported[j]; }
    }
    return None;
  }
}
