/**
 * The five generated lists, the document attributes that switch them on,
 * the blocks each list collects, and the rule that decides whether a list
 * gets any pages at all.
 */
module Lists {
  import opened Wrappers
  import opened Entries

  /** The lists, in the order the converter chain allocates and places them. */
  datatype ListKind = Toc | Lof | Lot | Loe | Lol

  const Order: seq<ListKind> := [Toc, Lof, Lot, Loe, Lol]

  /** Document attributes by name; a missing name is Ruby's nil. */
  type Attributes = map<string, string>

  function Attr(attrs: Attributes, name: string): (v: Option<string>)
    ensures v.Some? <==> name in attrs
    ensures v.Some? ==> v.value == attrs[name]
  {
    if name in attrs then Some(attrs[name]) else None
  }

  /** Ruby's `nil_or_empty?` on an attribute value. */
  predicate Blank(v: Option<string>) { v.None? || v.value == [] }

  /** The attribute holding a list's heading. */
  function TitleAttribute(k: ListKind): string {
    match k
    case Toc => "toc-title"
    case Lof => "lof-title"
    case Lot => "lot-title"
    case Loe => "loe-title"
    case Lol => "lol-title"
  }

  /** The anchor id of a list's heading. */
  function ListId(k: ListKind): string {
    match k
    case Toc => "_toc"
    case Lof => "_lof"
    case Lot => "_lot"
    case Loe => "_loe"
    case Lol => "_lol"
  }

  /** The kind of block a captioned list collects. */
  function Collects(k: ListKind): Context
    requires k != Toc
  {
    match k
    case Lof => ImageNode
    case Lot => TableNode
    case Loe => ExampleNode
    case Lol => ListingNode
  }

  /** Figures, examples and listings without a title are given the empty title; tables are left as they are. */
  function Collected(k: ListKind, e: Entry): (c: Entry)
    requires k != Toc
    ensures c.title.Some? <==> (e.title.Some? || k != Lot)
    ensures e.title.Some? ==> c == e
    ensures e.title.None? && k != Lot ==> c == e.(title := Some(""))
  {
    if k != Lot && e.title.None? then e.(title := Some("")) else e
  }

  /**
   * The blocks a captioned list collects, in document order, from the
   * document's blocks listed in traversal order.
   */
  function EntriesFor(k: ListKind, blocks: seq<Entry>): (r: seq<Entry>)
    requires k != Toc
    ensures |r| <= |blocks|
    ensures forall i :: 0 <= i < |r| ==> r[i].context == Collects(k)
    ensures k != Lot ==> forall i :: 0 <= i < |r| ==> r[i].title.Some?
    ensures r == [] <==> forall i :: 0 <= i < |blocks| ==> blocks[i].context != Collects(k)
  {
    if blocks == [] then []
    else
      var rest := EntriesFor(k, blocks[1..]);
      assert forall i :: 1 <= i < |blocks| ==> blocks[i] == blocks[1..][i - 1];
      if blocks[0].context == Collects(k) then [Collected(k, blocks[0])] + rest else rest
  }

  /** Whether one collected block counts for the list: it has a caption. */
  function Captioned(entries: seq<Entry>): (r: seq<Entry>)
    ensures |r| <= |entries|
    ensures forall i :: 0 <= i < |r| ==> r[i].caption.Some?
    ensures r == [] <==> forall i :: 0 <= i < |entries| ==> entries[i].caption.None?
  {
    if entries == [] then []
    else
      var rest := Captioned(entries[1..]);
      assert forall i :: 1 <= i < |entries| ==> entries[i] == entries[1..][i - 1];
      if entries[0].caption.Some? then [entries[0]] + rest else rest
  }

  /**
   * A list gets no pages when its heading attribute is blank, when it
   * collects nothing, or when none of what it collects has a caption.
   */
  predicate Suppressed(k: ListKind, attrs: Attributes, blocks: seq<Entry>)
    requires k != Toc
  {
    Blank(Attr(attrs, TitleAttribute(k))) || EntriesFor(k, blocks) == [] || Captioned(EntriesFor(k, blocks)) == []
  }

  /**
   * A list is allocated exactly when its heading attribute is set and non-empty
   * and at least one block of its kind has a caption; the emptiness test on
   * the collected blocks adds nothing to the caption test.
   */
  lemma SuppressedIff(k: ListKind, attrs: Attributes, blocks: seq<Entry>)
    requires k != Toc
    ensures Suppressed(k, attrs, blocks) <==>
      (TitleAttribute(k) !in attrs || attrs[TitleAttribute(k)] == []
       || forall i :: 0 <= i < |blocks| && blocks[i].context == Collects(k) ==> blocks[i].caption.None?)
  {
    var r := EntriesFor(k, blocks);
    if !forall i :: 0 <= i < |blocks| && blocks[i].context == Collects(k) ==> blocks[i].caption.None? {
      var i :| 0 <= i < |blocks| && blocks[i].context == Collects(k) && blocks[i].caption.Some?;
      CollectedCaption(k, blocks, i);
    } else {
      NoCaptionCollected(k, blocks);
    }
  }

  lemma {:induction false} CollectedCaption(k: ListKind, blocks: seq<Entry>, i: int)
    requires k != Toc
    requires 0 <= i < |blocks| && blocks[i].context == Collects(k) && blocks[i].caption.Some?
    ensures Captioned(EntriesFor(k, blocks)) != []
  {
    var r := EntriesFor(k, blocks);
    if i == 0 {
      assert r[0].caption.Some?;
    } else {
      CollectedCaption(k, blocks[1..], i - 1);
      var rest := EntriesFor(k, blocks[1..]);
      var j :| 0 <= j < |rest| && rest[j].caption.Some?;
      if blocks[0].context == Collects(k) {
        assert r[j + 1] == rest[j];
      } else {
        assert r[j] == rest[j];
      }
    }
  }

  lemma {:induction false} NoCaptionCollected(k: ListKind, blocks: seq<Entry>)
    requires k != Toc
    requires forall i :: 0 <= i < |blocks| && blocks[i].context == Collects(k) ==> blocks[i].caption.None?
    ensures Captioned(EntriesFor(k, blocks)) == []
  {
    if blocks != [] {
      assert forall i :: 1 <= i < |blocks| ==> blocks[i] == blocks[1..][i - 1];
      NoCaptionCollected(k, blocks[1..]);
      var r := EntriesFor(k, blocks);
      var rest := EntriesFor(k, blocks[1..]);
      forall i | 0 <= i < |r| ensures r[i].caption.None? {
        if blocks[0].context == Collects(k) {
          if i > 0 { assert r[i] == rest[i - 1]; }
        } else {
          assert r[i] == rest[i];
        }
      }
    }
  }

  /**
   * The extent field a suppressed list clears, as written: the figure and
   * table lists clear the examples' field rather than their own.
   */
  function ClearedBy(k: ListKind): (cleared: ListKind)
    requires k != Toc
    ensures cleared == k || cleared == Loe
    ensures cleared != Toc
  {
    match k
    case Lof => Loe
    case Lot => Loe
    case Loe => Loe
    case Lol => Lol
  }
}
