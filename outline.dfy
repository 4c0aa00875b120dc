/**
 * The sections the extension adds to the document so that the ToC and the
 * lists appear in the table of contents and in the PDF outline: where they
 * are inserted, in which order, and when they are taken out again.
 */
module Outline {
  import opened Wrappers
  import opened Lists
  import opened Allocation

  /** Where an added section points: the top of a page, or a named destination (possibly nil). */
  datatype Dest = PageTop(page: int) | Named(name: Option<string>)

  /** A block of a section or of the document: one of the document's own, or an added list section. */
  datatype Block =
    | Content(serial: nat)
    | Added(kind: ListKind, title: Option<string>, level: int, dest: Dest, id: Option<string>)

  // ---------------------------------------------------------------------
  // Block sequences
  // ---------------------------------------------------------------------

  /** Array#insert within bounds. */
  function Inserted(blocks: seq<Block>, i: nat, b: Block): (r: seq<Block>)
    requires i <= |blocks|
    ensures |r| == |blocks| + 1 && r[i] == b
    ensures r[..i] == blocks[..i] && r[i + 1..] == blocks[i..]
  {
    blocks[..i] + [b] + blocks[i..]
  }

  /** Array#delete: every occurrence of `b` removed, the rest kept in order. */
  function Without(blocks: seq<Block>, b: Block): (r: seq<Block>)
    ensures |r| <= |blocks|
    ensures forall x :: x in r <==> x in blocks && x != b
    decreases |blocks|
  {
    if blocks == [] then []
    else Without(blocks[..|blocks| - 1], b) + (if blocks[|blocks| - 1] == b then [] else [blocks[|blocks| - 1]])
  }

  lemma {:induction false} WithoutAbsent(blocks: seq<Block>, b: Block)
    requires b !in blocks
    ensures Without(blocks, b) == blocks
    decreases |blocks|
  {
    if blocks != [] {
      assert b !in blocks[..|blocks| - 1];
      WithoutAbsent(blocks[..|blocks| - 1], b);
    }
  }

  lemma {:induction false} WithoutAppend(a: seq<Block>, c: seq<Block>, b: Block)
    ensures Without(a + c, b) == Without(a, b) + Without(c, b)
    decreases |c|
  {
    if c == [] {
      assert a + c == a;
    } else {
      var n := |c| - 1;
      assert (a + c)[..|a + c| - 1] == a + c[..n];
      WithoutAppend(a, c[..n], b);
    }
  }

  /** Deleting a section from around it leaves the blocks on either side. */
  lemma {:induction false} WithoutAround(pre: seq<Block>, b: Block, post: seq<Block>)
    requires b !in pre && b !in post
    ensures Without(pre + [b] + post, b) == pre + post
  {
    calc {
      Without(pre + [b] + post, b);
    == { WithoutAppend(pre + [b], post, b); }
      Without(pre + [b], b) + Without(post, b);
    == { WithoutAppend(pre, [b], b); }
      Without(pre, b) + Without([b], b) + Without(post, b);
    == { WithoutAbsent(pre, b); WithoutAbsent(post, b); assert [b][..0] == []; }
      pre + [] + post;
    == { assert pre + [] == pre; }
      pre + post;
    }
  }

  /** Removing a section that was not there before undoes its insertion. */
  lemma {:induction false} RemoveUndoesInsert(blocks: seq<Block>, i: nat, b: Block)
    requires i <= |blocks| && b !in blocks
    ensures Without(Inserted(blocks, i, b), b) == blocks
  {
    assert b !in blocks[..i] && b !in blocks[i..];
    WithoutAround(blocks[..i], b, blocks[i..]);
    assert blocks[..i] + blocks[i..] == blocks;
  }

  /** A document section or the document itself, holding its blocks. */
  class Container {
    var blocks: seq<Block>

    constructor(blocks: seq<Block>)
      ensures this.blocks == blocks
    {
      this.blocks := blocks;
    }

    method Insert(i: nat, b: Block)
      requires i <= |blocks|
      modifies this
      ensures blocks == Inserted(old(blocks), i, b)
    {
      blocks := blocks[..i] + [b] + blocks[i..];
    }

    /** Section#remove of `b` when it is present (`&.remove`: nothing for nil). */
    method Remove(b: Option<Block>)
      modifies this
      ensures b.None? ==> blocks == old(blocks)
      ensures b.Some? ==> blocks == Without(old(blocks), b.value)
    {
      if b.Some? {
        var kept: seq<Block> := [];
        var i := 0;
        while i < |blocks|
          invariant 0 <= i <= |blocks|
          invariant kept == Without(blocks[..i], b.value)
        {
          assert blocks[..i + 1][..i] == blocks[..i];
          if blocks[i] != b.value {
            kept := kept + [blocks[i]];
          }
          i := i + 1;
        }
        assert blocks[..|blocks|] == blocks;
        blocks := kept;
      }
    }
  }

  // ---------------------------------------------------------------------
  // Where the ToC's section goes
  // ---------------------------------------------------------------------

  /** The parent of the `toc::[]` macro's node: a section (with its level, and whether it sits directly in the document), or something else. */
  datatype TocParent = SectionParent(section: Block, level: int, inDocument: bool) | OtherParent

  datatype TocNode = TocNode(parent: TocParent, dest: Option<string>)

  /** Whether the insertion follows the `toc::[]` macro's node. */
  predicate FollowsMacro(attrs: Attributes, node: Option<TocNode>) {
    Attr(attrs, "toc-placement") == Some("macro") && node.Some?
  }

  predicate AfterParentSection(attrs: Attributes, node: Option<TocNode>) {
    FollowsMacro(attrs, node) && node.value.parent.SectionParent?
  }

  /** Whether the section goes into the document itself rather than into the macro's grandparent section. */
  predicate IntoDocument(attrs: Attributes, node: Option<TocNode>) {
    !AfterParentSection(attrs, node) || node.value.parent.inDocument
  }

  function FirstIndex(xs: seq<Block>, x: Block): (i: nat)
    requires x in xs
    ensures i < |xs| && xs[i] == x && x !in xs[..i]
  {
    if xs[0] == x then 0 else FirstIndex(xs[1..], x) + 1
  }

  lemma {:induction false} FirstIndexAt(xs: seq<Block>, x: Block, k: nat)
    requires k < |xs| && xs[k] == x && x !in xs[..k]
    ensures FirstIndex(xs, x) == k
  {
    if k > 0 {
      assert xs[..k][0] == xs[0];
      assert xs[1..][..k - 1] == xs[1..k];
      assert forall y :: y in xs[1..k] ==> y in xs[..k];
      FirstIndexAt(xs[1..], x, k - 1);
    }
  }

  /**
   * The insertion position among the blocks of the target: right after the
   * macro's parent section when the ToC is placed by the macro inside a
   * section, else the very start.
   */
  function InsertIndex(attrs: Attributes, node: Option<TocNode>, siblings: seq<Block>): (i: nat)
    requires AfterParentSection(attrs, node) ==> node.value.parent.section in siblings
    ensures i <= |siblings|
    ensures i == 0 <==> !AfterParentSection(attrs, node)
    ensures i > 0 ==> siblings[i - 1] == node.value.parent.section && node.value.parent.section !in siblings[..i - 1]
  {
    if AfterParentSection(attrs, node) then FirstIndex(siblings, node.value.parent.section) + 1 else 0
  }

  function SectionLevel(attrs: Attributes, node: Option<TocNode>, firstLevel: int): int {
    if AfterParentSection(attrs, node) then node.value.parent.level else firstLevel
  }

  function SectionDest(attrs: Attributes, node: Option<TocNode>, pages: PageRange): Dest {
    if FollowsMacro(attrs, node) then Named(node.value.dest) else PageTop(pages.first)
  }

  /**
   * The inserted section sits directly after the macro's parent section,
   * which keeps its place, so computing the position again after more
   * sections were inserted there gives the same position.
   */
  lemma InsertIndexStable(attrs: Attributes, node: Option<TocNode>, siblings: seq<Block>, b: Block)
    requires AfterParentSection(attrs, node) ==> node.value.parent.section in siblings
    requires AfterParentSection(attrs, node) ==> b != node.value.parent.section
    ensures var i := InsertIndex(attrs, node, siblings);
      (AfterParentSection(attrs, node) ==> node.value.parent.section in Inserted(siblings, i, b))
      && InsertIndex(attrs, node, Inserted(siblings, i, b)) == i
  {
    var i := InsertIndex(attrs, node, siblings);
    if AfterParentSection(attrs, node) {
      var s := node.value.parent.section;
      var after := Inserted(siblings, i, b);
      assert after[i - 1] == s;
      assert after[..i - 1] == siblings[..i - 1];
      FirstIndexAt(after, s, i - 1);
    }
  }

  // ---------------------------------------------------------------------
  // Inking the ToC: the lists' sections join the ToC's section
  // ---------------------------------------------------------------------

  /** The section a list (or the ToC) adds while the ToC is inked. */
  function TocSection(k: ListKind, attrs: Attributes, node: Option<TocNode>, firstLevel: int, pages: PageRange): Block {
    Added(k, Attr(attrs, TitleAttribute(k)), SectionLevel(attrs, node, firstLevel),
          SectionDest(attrs, node, pages), Some(ListId(k)))
  }

  /** The section a list adds while the ToC is inked: only with `include-lists-in-toc` set and an extent held. */
  function Joining(k: ListKind, attrs: Attributes, node: Option<TocNode>, firstLevel: int,
                   ranges: map<ListKind, PageRange>): seq<Block>
  {
    if "include-lists-in-toc" in attrs && k in ranges then [TocSection(k, attrs, node, firstLevel, ranges[k])] else []
  }

  /** The sections joining the ToC, in document order: ToC, LoF, LoT, LoE, LoL. */
  function OrderedSections(attrs: Attributes, node: Option<TocNode>, firstLevel: int,
                           ranges: map<ListKind, PageRange>): (r: seq<Block>)
    ensures |r| <= 5
  {
    Joining(Toc, attrs, node, firstLevel, ranges) + (Joining(Lof, attrs, node, firstLevel, ranges)
    + (Joining(Lot, attrs, node, firstLevel, ranges) + (Joining(Loe, attrs, node, firstLevel, ranges)
    + Joining(Lol, attrs, node, firstLevel, ranges))))
  }

  /** Added sections whose kinds are in the converter's order, with positions in that order from `lo` to below `hi`. */
  predicate KindsBetween(r: seq<Block>, lo: nat, hi: nat) {
    (forall j :: 0 <= j < |r| ==> r[j].Added? && lo <= IndexOf(r[j].kind) < hi)
    && forall a, b :: 0 <= a < b < |r| ==> IndexOf(r[a].kind) < IndexOf(r[b].kind)
  }

  lemma KindsBetweenAppend(x: seq<Block>, y: seq<Block>, lo: nat, mid: nat, hi: nat)
    requires lo <= mid <= hi
    requires KindsBetween(x, lo, mid) && KindsBetween(y, mid, hi)
    ensures KindsBetween(x + y, lo, hi)
  {
    var r := x + y;
    forall j | 0 <= j < |r| ensures r[j].Added? && lo <= IndexOf(r[j].kind) < hi {
      if j < |x| { assert r[j] == x[j]; } else { assert r[j] == y[j - |x|]; }
    }
    forall a, b | 0 <= a < b < |r| ensures IndexOf(r[a].kind) < IndexOf(r[b].kind) {
      if b < |x| {
        assert r[a] == x[a] && r[b] == x[b];
      } else if a >= |x| {
        assert r[a] == y[a - |x|] && r[b] == y[b - |x|];
      } else {
        assert r[a] == x[a] && r[b] == y[b - |x|];
      }
    }
  }

  lemma JoiningKinds(k: ListKind, attrs: Attributes, node: Option<TocNode>, firstLevel: int,
                     ranges: map<ListKind, PageRange>)
    ensures KindsBetween(Joining(k, attrs, node, firstLevel, ranges), IndexOf(k), IndexOf(k) + 1)
    ensures forall x :: x in Joining(k, attrs, node, firstLevel, ranges) ==>
      x.Added? && x.kind in ranges && x.id == Some(ListId(x.kind))
  {
    var r := Joining(k, attrs, node, firstLevel, ranges);
    if r != [] {
      assert r[0].kind == k;
    }
  }

  /**
   * The sections joining the ToC are those of the lists that hold an
   * extent, each once, in the converter's order, each with its list's
   * anchor id; without `include-lists-in-toc` there are none.
   */
  lemma OrderedSectionsFacts(attrs: Attributes, node: Option<TocNode>, firstLevel: int, ranges: map<ListKind, PageRange>)
    ensures var r := OrderedSections(attrs, node, firstLevel, ranges);
      (forall a, b :: 0 <= a < b < |r| ==> r[a].Added? && r[b].Added? && IndexOf(r[a].kind) < IndexOf(r[b].kind))
      && (forall x :: x in r ==> x.Added? && x.kind in ranges && x.id == Some(ListId(x.kind)))
      && (forall k :: TocSection(k, attrs, node, firstLevel, ranges[k]) in r <== k in ranges && "include-lists-in-toc" in attrs)
      && ("include-lists-in-toc" !in attrs ==> r == [])
  {
    var t, f, b, e, l := Joining(Toc, attrs, node, firstLevel, ranges), Joining(Lof, attrs, node, firstLevel, ranges),
      Joining(Lot, attrs, node, firstLevel, ranges), Joining(Loe, attrs, node, firstLevel, ranges),
      Joining(Lol, attrs, node, firstLevel, ranges);
    JoiningKinds(Toc, attrs, node, firstLevel, ranges);
    JoiningKinds(Lof, attrs, node, firstLevel, ranges);
    JoiningKinds(Lot, attrs, node, firstLevel, ranges);
    JoiningKinds(Loe, attrs, node, firstLevel, ranges);
    JoiningKinds(Lol, attrs, node, firstLevel, ranges);
    KindsBetweenAppend(e, l, 3, 4, 5);
    KindsBetweenAppend(b, e + l, 2, 3, 5);
    KindsBetweenAppend(f, b + (e + l), 1, 2, 5);
    KindsBetweenAppend(t, f + (b + (e + l)), 0, 1, 5);
    var r := OrderedSections(attrs, node, firstLevel, ranges);
    forall x | x in r ensures x.Added? && x.kind in ranges && x.id == Some(ListId(x.kind)) {
      assert x in t || x in f || x in b || x in e || x in l;
    }
    forall k | k in ranges && "include-lists-in-toc" in attrs
      ensures TocSection(k, attrs, node, firstLevel, ranges[k]) in r
    {
      var s := TocSection(k, attrs, node, firstLevel, ranges[k]);
      match k
      case Toc => assert s in t;
      case Lof => assert s in f;
      case Lot => assert s in b;
      case Loe => assert s in e;
      case Lol => assert s in l;
    }
  }
  /** Inserting at one position twice puts the later blocks in front of the earlier ones. */
  lemma InsertTwice(blocks: seq<Block>, i: nat, x: seq<Block>, y: seq<Block>)
    requires i <= |blocks|
    ensures var once := blocks[..i] + x + blocks[i..];
      once[..i] + y + once[i..] == blocks[..i] + (y + x) + blocks[i..]
  {
    var once := blocks[..i] + x + blocks[i..];
    assert once[..i] == blocks[..i];
    assert once[i..] == x + blocks[i..];
  }

  /**
   * One link of the ink chain: with `include-lists-in-toc` set and an
   * extent held, the list's section goes to the ToC's position `i`, which
   * the insertion does not move.
   */
  method InkListSection(target: Container, k: ListKind, attrs: Attributes, node: Option<TocNode>, firstLevel: int,
                        ranges: map<ListKind, PageRange>, ghost i: nat)
    modifies target
    requires AfterParentSection(attrs, node) ==>
      node.value.parent.section in target.blocks && node.value.parent.section.Content?
    requires InsertIndex(attrs, node, target.blocks) == i
    ensures AfterParentSection(attrs, node) ==> node.value.parent.section in target.blocks
    ensures InsertIndex(attrs, node, target.blocks) == i
    ensures target.blocks == old(target.blocks)[..i] + Joining(k, attrs, node, firstLevel, ranges) + old(target.blocks)[i..]
  {
    if k in ranges && Attr(attrs, "include-lists-in-toc").Some? {
      var b := TocSection(k, attrs, node, firstLevel, ranges[k]);
      InsertIndexStable(attrs, node, target.blocks, b);
      target.Insert(InsertIndex(attrs, node, target.blocks), b);
    } else {
      assert target.blocks[..i] + [] + target.blocks[i..] == target.blocks;
    }
  }

  /**
   * Inking the ToC runs the chain from the last registered list to the
   * ToC, each link inserting at the same position, so the sections end up
   * together at the ToC's position in the order ToC, LoF, LoT, LoE, LoL.
   */
  method InkTocSections(target: Container, attrs: Attributes, node: Option<TocNode>, firstLevel: int,
                        ranges: map<ListKind, PageRange>)
    modifies target
    requires AfterParentSection(attrs, node) ==>
      node.value.parent.section in target.blocks && node.value.parent.section.Content?
    ensures var i := InsertIndex(attrs, node, old(target.blocks));
      target.blocks == old(target.blocks)[..i] + OrderedSections(attrs, node, firstLevel, ranges) + old(target.blocks)[i..]
  {
    ghost var start := target.blocks;
    ghost var i := InsertIndex(attrs, node, start);
    ghost var l, e, b, f, t := Joining(Lol, attrs, node, firstLevel, ranges), Joining(Loe, attrs, node, firstLevel, ranges),
      Joining(Lot, attrs, node, firstLevel, ranges), Joining(Lof, attrs, node, firstLevel, ranges),
      Joining(Toc, attrs, node, firstLevel, ranges);
    InkListSection(target, Lol, attrs, node, firstLevel, ranges, i);
    ghost var x := l;
    assert target.blocks == start[..i] + x + start[i..];
    InkListSection(target, Loe, attrs, node, firstLevel, ranges, i);
    InsertTwice(start, i, x, e);
    x := e + x;
    assert target.blocks == start[..i] + x + start[i..];
    InkListSection(target, Lot, attrs, node, firstLevel, ranges, i);
    InsertTwice(start, i, x, b);
    x := b + x;
    assert target.blocks == start[..i] + x + start[i..];
    InkListSection(target, Lof, attrs, node, firstLevel, ranges, i);
    InsertTwice(start, i, x, f);
    x := f + x;
    assert target.blocks == start[..i] + x + start[i..];
    InkListSection(target, Toc, attrs, node, firstLevel, ranges, i);
    InsertTwice(start, i, x, t);
    x := t + x;
    assert x == OrderedSections(attrs, node, firstLevel, ranges);
  }

  // ---------------------------------------------------------------------
  // The outline: sections added when the lists are not in the ToC
  // ---------------------------------------------------------------------

  /** The fixed position each list's outline section is inserted at in the document. */
  function FixedIndex(k: ListKind): (i: nat)
    ensures i == IndexOf(k)
  {
    match k
    case Toc => 0
    case Lof => 1
    case Lot => 2
    case Loe => 3
    case Lol => 4
  }

  /** Array#insert; a position past the end, where Ruby pads with nil, gives None. */
  function InsertAt(blocks: Option<seq<Block>>, i: nat, b: Block): (r: Option<seq<Block>>)
    ensures r.Some? <==> blocks.Some? && i <= |blocks.value|
    ensures r.Some? ==> r.value == Inserted(blocks.value, i, b)
  {
    if blocks.Some? && i <= |blocks.value| then Some(Inserted(blocks.value, i, b)) else None
  }

  /** A list's outline section: at the first section's level, pointing at the list's first page. */
  function OutlineSection(k: ListKind, attrs: Attributes, firstLevel: int, pages: PageRange): Block {
    Added(k, Attr(attrs, TitleAttribute(k)), firstLevel, PageTop(pages.first), None)
  }

  predicate HasOutlineSection(k: ListKind, attrs: Attributes, ranges: map<ListKind, PageRange>) {
    k in ranges && !Blank(Attr(attrs, TitleAttribute(k)))
  }

  /** Whether the ToC gets an outline section: its pages are not empty and it has a title. */
  predicate TocInOutline(attrs: Attributes, tocPages: PageRange) {
    tocPages.first <= tocPages.last && !Blank(Attr(attrs, "toc-title"))
  }

  function TocOutlineSection(attrs: Attributes, node: Option<TocNode>, firstLevel: int, tocPages: PageRange): Block {
    Added(Toc, Attr(attrs, "toc-title"), SectionLevel(attrs, node, firstLevel), SectionDest(attrs, node, tocPages), None)
  }

  predicate TocInDocument(attrs: Attributes, node: Option<TocNode>, tocPages: PageRange) {
    "include-lists-in-toc" !in attrs && TocInOutline(attrs, tocPages) && IntoDocument(attrs, node)
  }

  /** Where the ToC's outline section sits in the document, when it goes there. */
  predicate TocPlaceable(attrs: Attributes, node: Option<TocNode>, blocks: seq<Block>) {
    AfterParentSection(attrs, node) && node.value.parent.inDocument ==> node.value.parent.section in blocks
  }

  /** The document's blocks once the ToC's outline section is in, when it goes into the document. */
  function TocStep(attrs: Attributes, node: Option<TocNode>, firstLevel: int, tocPages: PageRange,
                   blocks: seq<Block>): (r: seq<Block>)
    requires TocPlaceable(attrs, node, blocks)
    ensures TocInDocument(attrs, node, tocPages) ==>
      r == Inserted(blocks, InsertIndex(attrs, node, blocks), TocOutlineSection(attrs, node, firstLevel, tocPages))
    ensures !TocInDocument(attrs, node, tocPages) ==> r == blocks
  {
    if TocInDocument(attrs, node, tocPages)
    then Inserted(blocks, InsertIndex(attrs, node, blocks), TocOutlineSection(attrs, node, firstLevel, tocPages))
    else blocks
  }

  /** As written: a list's outline section goes to its fixed position in the document. */
  function ListStep(k: ListKind, attrs: Attributes, firstLevel: int, ranges: map<ListKind, PageRange>,
                    blocks: Option<seq<Block>>): Option<seq<Block>>
  {
    if HasOutlineSection(k, attrs, ranges)
    then InsertAt(blocks, FixedIndex(k), OutlineSection(k, attrs, firstLevel, ranges[k]))
    else blocks
  }

  /** The document's blocks after the outline's sections are added, as written. */
  function OutlineAsWritten(attrs: Attributes, node: Option<TocNode>, firstLevel: int, tocPages: PageRange,
                            ranges: map<ListKind, PageRange>, blocks: seq<Block>): Option<seq<Block>>
    requires TocPlaceable(attrs, node, blocks)
  {
    if "include-lists-in-toc" in attrs then Some(blocks)
    else
      var withToc := Some(TocStep(attrs, node, firstLevel, tocPages, blocks));
      ListStep(Lol, attrs, firstLevel, ranges,
        ListStep(Loe, attrs, firstLevel, ranges,
          ListStep(Lot, attrs, firstLevel, ranges,
            ListStep(Lof, attrs, firstLevel, ranges, withToc))))
  }

  /** Adds one list's outline section at its fixed position; returns the section when it added one. */
  method AddListSection(doc: Container, k: ListKind, attrs: Attributes, firstLevel: int,
                        ranges: map<ListKind, PageRange>) returns (added: Option<Block>)
    modifies doc
    requires ListStep(k, attrs, firstLevel, ranges, Some(doc.blocks)).Some?
    ensures Some(doc.blocks) == ListStep(k, attrs, firstLevel, ranges, Some(old(doc.blocks)))
    ensures added.Some? <==> HasOutlineSection(k, attrs, ranges)
  {
    added := None;
    if k in ranges && !Blank(Attr(attrs, TitleAttribute(k))) {
      var b := OutlineSection(k, attrs, firstLevel, ranges[k]);
      doc.Insert(FixedIndex(k), b);
      added := Some(b);
    }
  }

  /**
   * Adds the outline's sections. Only when `include-lists-in-toc` is absent
   * does it insert anything: the ToC's section where the ToC goes (into the
   * document or into the macro's grandparent section) and each titled list
   * holding an extent at its fixed position in the document. The sections
   * are taken out again only when that attribute is non-blank; the
   * sections to take out are only ever set when it is absent, so nothing
   * is taken out and the document keeps exactly the insertions.
   */
  method AddOutlineSections(doc: Container, grandparent: Container, attrs: Attributes, node: Option<TocNode>,
                            firstLevel: int, tocPages: PageRange, ranges: map<ListKind, PageRange>)
    modifies doc, grandparent
    requires doc != grandparent
    requires TocPlaceable(attrs, node, doc.blocks)
    requires AfterParentSection(attrs, node) && !node.value.parent.inDocument ==>
      node.value.parent.section in grandparent.blocks
    requires OutlineAsWritten(attrs, node, firstLevel, tocPages, ranges, doc.blocks).Some?
    ensures Some(doc.blocks) == OutlineAsWritten(attrs, node, firstLevel, tocPages, ranges, old(doc.blocks))
    ensures grandparent.blocks ==
      if "include-lists-in-toc" !in attrs && TocInOutline(attrs, tocPages) && !IntoDocument(attrs, node)
      then Inserted(old(grandparent.blocks), InsertIndex(attrs, node, old(grandparent.blocks)),
                    TocOutlineSection(attrs, node, firstLevel, tocPages))
      else old(grandparent.blocks)
  {
    var tocSection: Option<Block> := None;
    var lofSection, lotSection, loeSection, lolSection: Option<Block> := None, None, None, None;
    var tocInDocument := IntoDocument(attrs, node);
    if Attr(attrs, "include-lists-in-toc").None? {
      if TocInOutline(attrs, tocPages) {
        var b := TocOutlineSection(attrs, node, firstLevel, tocPages);
        if tocInDocument {
          doc.Insert(InsertIndex(attrs, node, doc.blocks), b);
        } else {
          grandparent.Insert(InsertIndex(attrs, node, grandparent.blocks), b);
        }
        tocSection := Some(b);
      }
      lofSection := AddListSection(doc, Lof, attrs, firstLevel, ranges);
      lotSection := AddListSection(doc, Lot, attrs, firstLevel, ranges);
      loeSection := AddListSection(doc, Loe, attrs, firstLevel, ranges);
      lolSection := AddListSection(doc, Lol, attrs, firstLevel, ranges);
    }
    if !Blank(Attr(attrs, "include-lists-in-toc")) {
      if tocInDocument {
        doc.Remove(tocSection);
      } else {
        grandparent.Remove(tocSection);
      }
      doc.Remove(lofSection);
      doc.Remove(lotSection);
      doc.Remove(loeSection);
      doc.Remove(lolSection);
    }
  }

  // ---------------------------------------------------------------------
  // The fixed positions, and consecutive positions instead
  // ---------------------------------------------------------------------

  /** Where the lists' outline sections belong: right after the ToC's, or at the top when the document has none. */
  function ListsStart(attrs: Attributes, node: Option<TocNode>, tocPages: PageRange, blocks: seq<Block>): nat
    requires TocPlaceable(attrs, node, blocks)
  {
    if TocInDocument(attrs, node, tocPages) then InsertIndex(attrs, node, blocks) + 1 else 0
  }

  /** A list's outline section when it gets one, else nothing. */
  function Listed(k: ListKind, attrs: Attributes, firstLevel: int, ranges: map<ListKind, PageRange>): seq<Block> {
    if HasOutlineSection(k, attrs, ranges) then [OutlineSection(k, attrs, firstLevel, ranges[k])] else []
  }

  function ListedSections(attrs: Attributes, firstLevel: int, ranges: map<ListKind, PageRange>): seq<Block> {
    Listed(Lof, attrs, firstLevel, ranges) + Listed(Lot, attrs, firstLevel, ranges)
    + Listed(Loe, attrs, firstLevel, ranges) + Listed(Lol, attrs, firstLevel, ranges)
  }

  /** Corrected: a list's outline section goes to the next position after the previous one. */
  function NextStep(k: ListKind, attrs: Attributes, firstLevel: int, ranges: map<ListKind, PageRange>,
                    state: (Option<seq<Block>>, nat)): (Option<seq<Block>>, nat)
  {
    if HasOutlineSection(k, attrs, ranges)
    then (InsertAt(state.0, state.1, OutlineSection(k, attrs, firstLevel, ranges[k])), state.1 + 1)
    else state
  }

  function OutlineCorrected(attrs: Attributes, node: Option<TocNode>, firstLevel: int, tocPages: PageRange,
                            ranges: map<ListKind, PageRange>, blocks: seq<Block>): Option<seq<Block>>
    requires TocPlaceable(attrs, node, blocks)
  {
    if "include-lists-in-toc" in attrs then Some(blocks)
    else
      var start := (Some(TocStep(attrs, node, firstLevel, tocPages, blocks)), ListsStart(attrs, node, tocPages, blocks));
      NextStep(Lol, attrs, firstLevel, ranges,
        NextStep(Loe, attrs, firstLevel, ranges,
          NextStep(Lot, attrs, firstLevel, ranges,
            NextStep(Lof, attrs, firstLevel, ranges, start)))).0
  }

  /** Corrected: adds one list's outline section at position `at`; returns the position after it. */
  method AddListSectionAt(doc: Container, k: ListKind, attrs: Attributes, firstLevel: int,
                          ranges: map<ListKind, PageRange>, at: nat) returns (next: nat)
    modifies doc
    requires at <= |doc.blocks|
    ensures (Some(doc.blocks), next) == NextStep(k, attrs, firstLevel, ranges, (Some(old(doc.blocks)), at))
    ensures next <= |doc.blocks|
  {
    next := at;
    if k in ranges && !Blank(Attr(attrs, TitleAttribute(k))) {
      doc.Insert(at, OutlineSection(k, attrs, firstLevel, ranges[k]));
      next := at + 1;
    }
  }

  /**
   * Corrected outline step: the ToC's section goes where it did, and each
   * list's section goes to the position right after the previous one. The
   * removal is left out, since as written it never removes anything.
   */
  method AddOutlineSectionsCorrected(doc: Container, grandparent: Container, attrs: Attributes,
                                     node: Option<TocNode>, firstLevel: int, tocPages: PageRange,
                                     ranges: map<ListKind, PageRange>)
    modifies doc, grandparent
    requires doc != grandparent
    requires TocPlaceable(attrs, node, doc.blocks)
    requires AfterParentSection(attrs, node) && !node.value.parent.inDocument ==>
      node.value.parent.section in grandparent.blocks
    ensures Some(doc.blocks) == OutlineCorrected(attrs, node, firstLevel, tocPages, ranges, old(doc.blocks))
    ensures grandparent.blocks ==
      if "include-lists-in-toc" !in attrs && TocInOutline(attrs, tocPages) && !IntoDocument(attrs, node)
      then Inserted(old(grandparent.blocks), InsertIndex(attrs, node, old(grandparent.blocks)),
                    TocOutlineSection(attrs, node, firstLevel, tocPages))
      else old(grandparent.blocks)
  {
    if Attr(attrs, "include-lists-in-toc").None? {
      var at := 0;
      if TocInOutline(attrs, tocPages) {
        var b := TocOutlineSection(attrs, node, firstLevel, tocPages);
        if IntoDocument(attrs, node) {
          var i := InsertIndex(attrs, node, doc.blocks);
          doc.Insert(i, b);
          at := i + 1;
        } else {
          grandparent.Insert(InsertIndex(attrs, node, grandparent.blocks), b);
        }
      }
      assert doc.blocks == TocStep(attrs, node, firstLevel, tocPages, old(doc.blocks));
      assert at == ListsStart(attrs, node, tocPages, old(doc.blocks));
      at := AddListSectionAt(doc, Lof, attrs, firstLevel, ranges, at);
      at := AddListSectionAt(doc, Lot, attrs, firstLevel, ranges, at);
      at := AddListSectionAt(doc, Loe, attrs, firstLevel, ranges, at);
      at := AddListSectionAt(doc, Lol, attrs, firstLevel, ranges, at);
    }
  }

  /** Inserting right after blocks inserted together extends them. */
  lemma NextStepExtends(k: ListKind, attrs: Attributes, firstLevel: int, ranges: map<ListKind, PageRange>,
                        blocks: seq<Block>, s: nat, x: seq<Block>)
    requires s <= |blocks|
    ensures NextStep(k, attrs, firstLevel, ranges, (Some(blocks[..s] + x + blocks[s..]), s + |x|))
         == (Some(blocks[..s] + (x + Listed(k, attrs, firstLevel, ranges)) + blocks[s..]),
             s + |x + Listed(k, attrs, firstLevel, ranges)|)
  {
    var once := blocks[..s] + x + blocks[s..];
    assert once[..s + |x|] == blocks[..s] + x;
    assert once[s + |x|..] == blocks[s..];
    var y := Listed(k, attrs, firstLevel, ranges);
    if y == [] {
      assert x + y == x;
    } else {
      assert blocks[..s] + x + y + blocks[s..] == blocks[..s] + (x + y) + blocks[s..];
    }
  }

  /**
   * With consecutive positions, the lists' outline sections always fit and
   * always sit together, in the order LoF, LoT, LoE, LoL, directly after
   * the ToC's section (or at the top when the document has none).
   */
  lemma CorrectedKeepsListsTogether(attrs: Attributes, node: Option<TocNode>, firstLevel: int, tocPages: PageRange,
                                    ranges: map<ListKind, PageRange>, blocks: seq<Block>)
    requires TocPlaceable(attrs, node, blocks)
    requires "include-lists-in-toc" !in attrs
    ensures var withToc := TocStep(attrs, node, firstLevel, tocPages, blocks);
      var s := ListsStart(attrs, node, tocPages, blocks);
      s <= |withToc|
      && OutlineCorrected(attrs, node, firstLevel, tocPages, ranges, blocks)
         == Some(withToc[..s] + ListedSections(attrs, firstLevel, ranges) + withToc[s..])
      && (TocInDocument(attrs, node, tocPages) ==> withToc[s - 1] == TocOutlineSection(attrs, node, firstLevel, tocPages))
  {
    var withToc := TocStep(attrs, node, firstLevel, tocPages, blocks);
    var s := ListsStart(attrs, node, tocPages, blocks);
    NextStepsFrom(attrs, firstLevel, ranges, withToc, s);
  }

  lemma NextStepsFrom(attrs: Attributes, firstLevel: int, ranges: map<ListKind, PageRange>, withToc: seq<Block>, s: nat)
    requires s <= |withToc|
    ensures NextStep(Lol, attrs, firstLevel, ranges,
              NextStep(Loe, attrs, firstLevel, ranges,
                NextStep(Lot, attrs, firstLevel, ranges,
                  NextStep(Lof, attrs, firstLevel, ranges, (Some(withToc), s))))).0
         == Some(withToc[..s] + ListedSections(attrs, firstLevel, ranges) + withToc[s..])
  {
    var f, t := Listed(Lof, attrs, firstLevel, ranges), Listed(Lot, attrs, firstLevel, ranges);
    assert withToc[..s] + [] + withToc[s..] == withToc;
    TwoStepsExtend(Lof, Lot, attrs, firstLevel, ranges, withToc, s, []);
    assert [] + f + t == f + t;
    TwoStepsExtend(Loe, Lol, attrs, firstLevel, ranges, withToc, s, f + t);
  }

  /** Two lists inserted right after blocks inserted together extend them in turn. */
  lemma TwoStepsExtend(k1: ListKind, k2: ListKind, attrs: Attributes, firstLevel: int, ranges: map<ListKind, PageRange>,
                       blocks: seq<Block>, s: nat, x: seq<Block>)
    requires s <= |blocks|
    ensures var y := x + Listed(k1, attrs, firstLevel, ranges) + Listed(k2, attrs, firstLevel, ranges);
      NextStep(k2, attrs, firstLevel, ranges, NextStep(k1, attrs, firstLevel, ranges, (Some(blocks[..s] + x + blocks[s..]), s + |x|)))
         == (Some(blocks[..s] + y + blocks[s..]), s + |y|)
  {
    NextStepExtends(k1, attrs, firstLevel, ranges, blocks, s, x);
    NextStepExtends(k2, attrs, firstLevel, ranges, blocks, s, x + Listed(k1, attrs, firstLevel, ranges));
  }

  /**
   * When the ToC's section is first in the document and every list has a
   * section, the fixed positions 1 to 4 are the consecutive ones.
   */
  lemma FixedIndicesAgreeWhenAllListed(attrs: Attributes, node: Option<TocNode>, firstLevel: int, tocPages: PageRange,
                                       ranges: map<ListKind, PageRange>, blocks: seq<Block>)
    requires TocPlaceable(attrs, node, blocks)
    requires TocInDocument(attrs, node, tocPages) && InsertIndex(attrs, node, blocks) == 0
    requires HasOutlineSection(Lof, attrs, ranges) && HasOutlineSection(Lot, attrs, ranges)
    requires HasOutlineSection(Loe, attrs, ranges) && HasOutlineSection(Lol, attrs, ranges)
    ensures OutlineAsWritten(attrs, node, firstLevel, tocPages, ranges, blocks)
         == OutlineCorrected(attrs, node, firstLevel, tocPages, ranges, blocks)
  {
  }

  /**
   * As written, a suppressed list leaves a gap: with two top-level sections,
   * a ToC and only a list of tables, the tables' outline section lands
   * after the first chapter instead of next to the ToC's.
   */
  lemma FixedIndicesSplitLists()
    ensures var attrs := map["toc-title" := "Contents", "lot-title" := "Tables"];
      var ranges := map[Toc := PageRange(2, 2), Lot := PageRange(3, 3)];
      var toc := TocOutlineSection(attrs, None, 1, PageRange(2, 2));
      var lot := OutlineSection(Lot, attrs, 1, PageRange(3, 3));
      OutlineAsWritten(attrs, None, 1, PageRange(2, 2), ranges, [Content(1), Content(2)])
        == Some([toc, Content(1), lot, Content(2)])
      && OutlineCorrected(attrs, None, 1, PageRange(2, 2), ranges, [Content(1), Content(2)])
        == Some([toc, lot, Content(1), Content(2)])
  {
    var attrs := map["toc-title" := "Contents", "lot-title" := "Tables"];
    var ranges := map[Toc := PageRange(2, 2), Lot := PageRange(3, 3)];
    var toc := TocOutlineSection(attrs, None, 1, PageRange(2, 2));
    var lot := OutlineSection(Lot, attrs, 1, PageRange(3, 3));
    var blocks := [Content(1), Content(2)];
    assert Attr(attrs, "toc-placement") == None;
    assert !Blank(Attr(attrs, "toc-title")) && !Blank(Attr(attrs, "lot-title"));
    assert Attr(attrs, "lof-title") == None && Attr(attrs, "loe-title") == None && Attr(attrs, "lol-title") == None;
    var withToc := TocStep(attrs, None, 1, PageRange(2, 2), blocks);
    assert withToc == [toc] + blocks;
    assert Inserted(withToc, 2, lot) == [toc, Content(1), lot, Content(2)];
    assert Inserted(withToc, 1, lot) == [toc, lot, Content(1), Content(2)];
  }
}
