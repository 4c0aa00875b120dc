/**
 * Reserving pages for the lists before the body is laid out. Each list is
 * first laid out in a measuring run; the pages it covers are then skipped in
 * the real document, and the list is inked into them once the body's page
 * numbers are known.
 */
module Allocation {
  import opened Entries
  import opened Lists

  /** A place in the document: a page and a vertical cursor on it. */
  datatype Position = Position(page: int, cursor: int)

  /** The region a list occupies, from its first to its last position. */
  datatype Extent = Extent(from: Position, to: Position)

  /** A Ruby inclusive range of page numbers. */
  datatype PageRange = PageRange(first: int, last: int) {
    predicate Covers(p: int) { first <= p <= last }
  }

  function PagesOf(e: Extent): PageRange { PageRange(e.from.page, e.to.page) }

  /**
   * What the layout engine reports after a measuring run of a list: how many
   * pages past the first one the run's extent spans, where its cursor ended,
   * and how many pages the list's own inking advanced.
   */
  datatype DryRun = DryRun(span: nat, endCursor: int, inked: nat)

  /** The pages one inking of a list covers: from its first page to where the inking left off. */
  function InkPageRange(first: int, advanced: nat): (r: PageRange)
    ensures r.Covers(first) && r.Covers(first + advanced)
    ensures forall p :: r.Covers(p) <==> first <= p <= first + advanced
  {
    PageRange(first, first + advanced)
  }

  /**
   * The extent reserved for a list that starts on `first`: the measuring
   * run's extent, pushed out to the end of the inked range when that runs
   * further, with the cursor then at the top of a full page.
   */
  function Measured(first: int, startCursor: int, dry: DryRun, height: int): Extent {
    var extent := Extent(Position(first, startCursor), Position(first + dry.span, dry.endCursor));
    var toPage := InkPageRange(first, dry.inked).last;
    if toPage > extent.to.page then extent.(to := Position(toPage, height)) else extent
  }

  /**
   * The reserved extent starts on the list's first page, covers both the
   * measuring run and the inked range, and ends on the later of the two.
   */
  lemma MeasuredCoversInk(first: int, startCursor: int, dry: DryRun, height: int, p: int)
    ensures Measured(first, startCursor, dry, height).from == Position(first, startCursor)
    ensures Measured(first, startCursor, dry, height).to.page == first + if dry.inked > dry.span then dry.inked else dry.span
    ensures InkPageRange(first, dry.inked).Covers(p) ==> PagesOf(Measured(first, startCursor, dry, height)).Covers(p)
    ensures first <= p <= first + dry.span ==> PagesOf(Measured(first, startCursor, dry, height)).Covers(p)
    ensures dry.inked > dry.span ==> Measured(first, startCursor, dry, height).to.cursor == height
    ensures dry.inked <= dry.span ==> Measured(first, startCursor, dry, height).to.cursor == dry.endCursor
  {
  }

  /** Where the converter is after reserving an extent: past it with a page break, on its last page without. */
  function After(extent: Extent, height: int, breakAfter: bool): Position {
    if breakAfter then Position(extent.to.page + 1, height) else extent.to
  }

  /** The converter's writing position and the extents it holds, one field per list. */
  class Converter {
    var page: int
    var cursor: int
    var extents: map<ListKind, Extent>
    const height: int

    constructor(startPage: int, height: int)
      ensures page == startPage && cursor == height && extents == map[] && this.height == height
    {
      page := startPage;
      cursor := height;
      extents := map[];
      this.height := height;
    }

    method StartNewPage()
      modifies this`page, this`cursor
      ensures page == old(page) + 1 && cursor == height
    {
      page := page + 1;
      cursor := height;
    }

    /**
     * Reserves the pages of one list starting on the current page: extends
     * the measured extent to the inked range, then starts a new page for
     * every page of the extent, leaving out the first one when no page
     * break follows the list.
     */
    method AllocateList(startCursor: int, dry: DryRun, breakAfter: bool) returns (extent: Extent)
      modifies this`page, this`cursor
      ensures extent == Measured(old(page), startCursor, dry, height)
      ensures Position(page, cursor) == After(extent, height, breakAfter)
    {
      var firstPage := page;
      extent := Extent(Position(firstPage, startCursor), Position(firstPage + dry.span, dry.endCursor));
      var toPage := InkPageRange(firstPage, dry.inked).last;
      if toPage > extent.to.page {
        extent := extent.(to := Position(toPage, height));
      }
      var p := extent.from.page;
      while p <= extent.to.page
        invariant extent.from.page <= p <= extent.to.page + 1
        invariant page == firstPage + (p - extent.from.page) - (if !breakAfter && p > extent.from.page then 1 else 0)
        invariant breakAfter && p > extent.from.page ==> cursor == height
      {
        if breakAfter || p != extent.from.page {
          StartNewPage();
        }
        p := p + 1;
      }
      if !breakAfter {
        cursor := extent.to.cursor;
      }
    }

    /**
     * One link of the allocation chain: a suppressed list clears an extent
     * field (for the figure and table lists, the examples' one), any other
     * list reserves its pages and keeps its extent.
     */
    method AllocateKind(k: ListKind, attrs: Attributes, blocks: seq<Entry>, startCursor: int,
                        dry: DryRun, breakAfter: bool)
      modifies this
      requires k != Toc
      ensures Suppressed(k, attrs, blocks) ==>
        Position(page, cursor) == old(Position(page, cursor)) && extents == old(extents) - {ClearedBy(k)}
      ensures !Suppressed(k, attrs, blocks) ==>
        var e := Measured(old(page), startCursor, dry, height);
        Position(page, cursor) == After(e, height, breakAfter) && extents == old(extents)[k := e]
    {
      if Blank(Attr(attrs, TitleAttribute(k))) || EntriesFor(k, blocks) == [] || Captioned(EntriesFor(k, blocks)) == [] {
        extents := extents - {ClearedBy(k)};
      } else {
        var e := AllocateList(startCursor, dry, breakAfter);
        extents := extents[k := e];
      }
    }

    /**
     * The whole chain on a fresh converter: the ToC's pages first, then each
     * list in turn; the result is the allocation plan.
     */
    method AllocateAll(setup: Setup)
      modifies this
      requires extents == map[]
      ensures State(page, cursor, extents) == Plan(old(State(page, cursor, extents)), Order, setup, height)
    {
      ghost var s0 := State(page, cursor, extents);
      var e := AllocateList(setup.startCursor, setup.measure(Toc), setup.breakAfter);
      extents := extents[Toc := e];
      assert State(page, cursor, extents) == Step(s0, Toc, setup, height);
      var i := 1;
      while i < |Order|
        invariant 1 <= i <= |Order|
        invariant State(page, cursor, extents) == Plan(s0, Order[..i], setup, height)
      {
        AllocateKind(Order[i], setup.attrs, setup.blocks, setup.startCursor, setup.measure(Order[i]), setup.breakAfter);
        assert Order[..i + 1] == Order[..i] + [Order[i]];
        PlanAppend(s0, Order[..i], Order[i], setup, height);
        i := i + 1;
      }
      assert Order[..|Order|] == Order;
    }
  }

  /** The document and layout facts the allocation depends on. */
  datatype Setup = Setup(attrs: Attributes, blocks: seq<Entry>, measure: ListKind -> DryRun,
                         startCursor: int, breakAfter: bool)

  /** The converter's allocation state as a value. */
  datatype State = State(page: int, cursor: int, extents: map<ListKind, Extent>)

  predicate Allocates(k: ListKind, setup: Setup) {
    k == Toc || !Suppressed(k, setup.attrs, setup.blocks)
  }

  /** One link of the chain on the state as a value. */
  function Step(s: State, k: ListKind, setup: Setup, height: int): State {
    if Allocates(k, setup) then
      var e := Measured(s.page, setup.startCursor, setup.measure(k), height);
      var at := After(e, height, setup.breakAfter);
      State(at.page, at.cursor, s.extents[k := e])
    else s.(extents := s.extents - {ClearedBy(k)})
  }

  /** The chain over a sequence of lists, in order. */
  function Plan(s: State, kinds: seq<ListKind>, setup: Setup, height: int): State
    decreases |kinds|
  {
    if kinds == [] then s else Step(Plan(s, kinds[..|kinds| - 1], setup, height), kinds[|kinds| - 1], setup, height)
  }

  lemma PlanAppend(s: State, kinds: seq<ListKind>, k: ListKind, setup: Setup, height: int)
    ensures Plan(s, kinds + [k], setup, height) == Step(Plan(s, kinds, setup, height), k, setup, height)
  {
    assert (kinds + [k])[..|kinds|] == kinds;
  }

  /** The correction: a suppressed list clears its own field. */
  function StepCorrected(s: State, k: ListKind, setup: Setup, height: int): State {
    if Allocates(k, setup) then Step(s, k, setup, height)
    else s.(extents := s.extents - {k})
  }

  function PlanCorrected(s: State, kinds: seq<ListKind>, setup: Setup, height: int): State
    decreases |kinds|
  {
    if kinds == [] then s
    else StepCorrected(PlanCorrected(s, kinds[..|kinds| - 1], setup, height), kinds[|kinds| - 1], setup, height)
  }

  /** The chain over all five lists, link by link. */
  lemma PlanOfOrder(s: State, setup: Setup, height: int)
    ensures Plan(s, Order, setup, height)
         == Step(Step(Step(Step(Step(s, Toc, setup, height), Lof, setup, height), Lot, setup, height),
                      Loe, setup, height), Lol, setup, height)
    ensures PlanCorrected(s, Order, setup, height)
         == StepCorrected(StepCorrected(StepCorrected(StepCorrected(StepCorrected(s, Toc, setup, height),
              Lof, setup, height), Lot, setup, height), Loe, setup, height), Lol, setup, height)
  {
    assert [Toc, Lof, Lot, Loe, Lol][..4] == [Toc, Lof, Lot, Loe];
    assert [Toc, Lof, Lot, Loe][..3] == [Toc, Lof, Lot];
    assert [Toc, Lof, Lot][..2] == [Toc, Lof];
    assert [Toc, Lof][..1] == [Toc];
    assert [Toc][..0] == [];
  }

  /** The states the chain passes through, one per link. */
  lemma ChainStates(s: State, setup: Setup, height: int) returns (states: seq<State>)
    ensures |states| == 6 && states[0] == s && states[5] == Plan(s, Order, setup, height)
    ensures forall n :: 0 <= n < 5 ==> states[n + 1] == Step(states[n], Order[n], setup, height)
  {
    PlanOfOrder(s, setup, height);
    var s1 := Step(s, Toc, setup, height);
    var s2 := Step(s1, Lof, setup, height);
    var s3 := Step(s2, Lot, setup, height);
    var s4 := Step(s3, Loe, setup, height);
    states := [s, s1, s2, s3, s4, Step(s4, Lol, setup, height)];
    assert Order[0] == Toc && Order[1] == Lof && Order[2] == Lot && Order[3] == Loe && Order[4] == Lol;
  }

  lemma ChainStatesCorrected(s: State, setup: Setup, height: int) returns (states: seq<State>)
    ensures |states| == 6 && states[0] == s && states[5] == PlanCorrected(s, Order, setup, height)
    ensures forall n :: 0 <= n < 5 ==> states[n + 1] == StepCorrected(states[n], Order[n], setup, height)
  {
    PlanOfOrder(s, setup, height);
    var s1 := StepCorrected(s, Toc, setup, height);
    var s2 := StepCorrected(s1, Lof, setup, height);
    var s3 := StepCorrected(s2, Lot, setup, height);
    var s4 := StepCorrected(s3, Loe, setup, height);
    states := [s, s1, s2, s3, s4, StepCorrected(s4, Lol, setup, height)];
    assert Order[0] == Toc && Order[1] == Lof && Order[2] == Lot && Order[3] == Loe && Order[4] == Lol;
  }

  /** What one link guarantees about the converter's page and the extents. */
  predicate StepFacts(s: State, t: State, k: ListKind, setup: Setup, height: int) {
    var b := if setup.breakAfter then 1 else 0;
    && s.page <= t.page
    && (forall j :: j != k && j in t.extents ==> j in s.extents && t.extents[j] == s.extents[j])
    && (forall j :: j != k && j != FieldClearedBy(k) ==> (j in t.extents <==> j in s.extents))
    && (Allocates(k, setup) ==> k in t.extents)
    && (k in t.extents ==> Allocates(k, setup) || k in s.extents)
    && (Allocates(k, setup) ==> t.extents[k].from.page == s.page && t.extents[k].to.page + b == t.page
                                 && t.extents[k].from.page <= t.extents[k].to.page)
  }

  /** The field a link may clear, the ToC's link included (it clears none). */
  function FieldClearedBy(k: ListKind): ListKind { if k == Toc then Toc else ClearedBy(k) }

  lemma StepKeeps(s: State, k: ListKind, setup: Setup, height: int)
    ensures StepFacts(s, Step(s, k, setup, height), k, setup, height)
  {
  }

  /** A chain of links, as facts about consecutive states. */
  predicate Chain(states: seq<State>, setup: Setup, height: int) {
    |states| == 6 && states[0].extents == map[]
    && forall n :: 0 <= n < 5 ==> StepFacts(states[n], states[n + 1], Order[n], setup, height)
  }

  lemma ChainFacts(s: State, setup: Setup, height: int) returns (states: seq<State>)
    requires s.extents == map[]
    ensures Chain(states, setup, height) && states[0] == s && states[5] == Plan(s, Order, setup, height)
    ensures forall n :: 0 <= n < 5 ==> states[n + 1] == Step(states[n], Order[n], setup, height)
  {
    states := ChainStates(s, setup, height);
    forall n | 0 <= n < 5
      ensures StepFacts(states[n], states[n + 1], Order[n], setup, height)
    {
      StepKeeps(states[n], Order[n], setup, height);
    }
  }

  function IndexOf(k: ListKind): (i: nat)
    ensures i < |Order| && Order[i] == k
  {
    match k
    case Toc => 0
    case Lof => 1
    case Lot => 2
    case Loe => 3
    case Lol => 4
  }

  /**
   * From a fresh converter every list holds an extent at the end of the
   * chain exactly when it is not suppressed (the ToC always does).
   */
  lemma AllocatedIffNotSuppressed(s: State, setup: Setup, height: int)
    requires s.extents == map[]
    ensures forall k :: k in Plan(s, Order, setup, height).extents <==> Allocates(k, setup)
  {
    var states := ChainFacts(s, setup, height);
    forall k ensures k in states[5].extents <==> Allocates(k, setup) {
      KeyFate(states, IndexOf(k), setup, height);
    }
  }

  /** A list's field is settled by its own link, and no later link touches it. */
  lemma KeyFate(states: seq<State>, i: nat, setup: Setup, height: int)
    requires Chain(states, setup, height) && i < 5
    ensures Order[i] in states[5].extents <==> Allocates(Order[i], setup)
  {
    var k := Order[i];
    NotBefore(states, i, setup, height);
    assert k in states[i + 1].extents <==> Allocates(k, setup);
    var n := i + 1;
    while n < 5
      invariant i + 1 <= n <= 5
      invariant k in states[n].extents <==> Allocates(k, setup)
    {
      assert Order[n] != k && FieldClearedBy(Order[n]) != k;
      n := n + 1;
    }
  }

  /**
   * The figure and table lists clearing the examples' field is harmless
   * from a fresh converter: the examples' field is still empty then, and
   * the examples' own link, later in the chain, sets or clears it.
   */
  lemma SlipHarmless(s: State, setup: Setup, height: int)
    requires s.extents == map[]
    ensures Plan(s, Order, setup, height) == PlanCorrected(s, Order, setup, height)
  {
    var states := ChainFacts(s, setup, height);
    var fixed := ChainStatesCorrected(s, setup, height);
    NotBefore(states, 3, setup, height);
    var n := 0;
    while n < 5
      invariant 0 <= n <= 5 && states[n] == fixed[n]
    {
      NotBefore(states, n, setup, height);
      assert FieldClearedBy(Order[n]) == Order[n] || (FieldClearedBy(Order[n]) == Loe && n <= 3);
      StepAgrees(states[n], Order[n], setup, height);
      n := n + 1;
    }
  }

  lemma StepAgrees(s: State, k: ListKind, setup: Setup, height: int)
    requires k !in s.extents && FieldClearedBy(k) !in s.extents
    ensures Step(s, k, setup, height) == StepCorrected(s, k, setup, height)
  {
    if !Allocates(k, setup) {
      assert s.extents - {FieldClearedBy(k)} == s.extents;
      assert s.extents - {k} == s.extents;
    }
  }

  predicate Ordered(extents: map<ListKind, Extent>, breakAfter: bool) {
    forall i, j :: 0 <= i < j < |Order| && Order[i] in extents && Order[j] in extents ==>
      extents[Order[i]].to.page + (if breakAfter then 1 else 0) <= extents[Order[j]].from.page
  }

  /**
   * The reserved lists follow one another in the order ToC, LoF, LoT, LoE,
   * LoL, each starting where the previous one left the converter: on the
   * page after its last page with a page break, and on that same last page
   * without one, so lists share a page exactly when no break is asked for.
   */
  lemma ListsInOrder(s: State, setup: Setup, height: int)
    requires s.extents == map[]
    ensures var plan := Plan(s, Order, setup, height).extents;
      && (forall k :: k in plan ==> plan[k].from.page <= plan[k].to.page)
      && Ordered(plan, setup.breakAfter)
      && forall i :: 0 <= i < |Order| - 1 && Order[i] in plan && Order[i + 1] in plan ==>
           plan[Order[i + 1]].from.page == plan[Order[i]].to.page + (if setup.breakAfter then 1 else 0)
  {
    var states := ChainFacts(s, setup, height);
    Placement(states, setup, height);
    PagesMonotone(states, setup, height);
    var plan := states[5].extents;
    forall k | k in plan ensures plan[k].from.page <= plan[k].to.page {
      assert Order[IndexOf(k)] == k;
    }
    forall i, j | 0 <= i < j < |Order| && Order[i] in plan && Order[j] in plan
      ensures plan[Order[i]].to.page + (if setup.breakAfter then 1 else 0) <= plan[Order[j]].from.page
    {
      assert states[i + 1].page <= states[j].page;
    }
  }

  lemma Placement(states: seq<State>, setup: Setup, height: int)
    requires Chain(states, setup, height)
    ensures forall i :: 0 <= i < 5 && Order[i] in states[5].extents ==>
      && states[5].extents[Order[i]].from.page == states[i].page
      && states[5].extents[Order[i]].to.page + (if setup.breakAfter then 1 else 0) == states[i + 1].page
      && states[5].extents[Order[i]].from.page <= states[5].extents[Order[i]].to.page
  {
    forall i | 0 <= i < 5 && Order[i] in states[5].extents
      ensures && states[5].extents[Order[i]].from.page == states[i].page
        && states[5].extents[Order[i]].to.page + (if setup.breakAfter then 1 else 0) == states[i + 1].page
        && states[5].extents[Order[i]].from.page <= states[5].extents[Order[i]].to.page
    {
      Settled(states, i, setup, height);
    }
  }

  lemma PagesMonotone(states: seq<State>, setup: Setup, height: int)
    requires Chain(states, setup, height)
    ensures forall i, j :: 0 <= i <= j < 6 ==> states[i].page <= states[j].page
  {
    var pages := seq(6, n requires 0 <= n < 6 => states[n].page);
    forall n | 0 <= n < 5 ensures pages[n] <= pages[n + 1] {
      assert StepFacts(states[n], states[n + 1], Order[n], setup, height);
    }
    Monotone(pages);
    forall i, j | 0 <= i <= j < 6 ensures states[i].page <= states[j].page {
      assert pages[i] == states[i].page && pages[j] == states[j].page;
    }
  }

  /**
   * An extent present at the end of the chain was set by its own link and
   * survived the later ones untouched.
   */
  lemma Settled(states: seq<State>, i: int, setup: Setup, height: int)
    requires Chain(states, setup, height)
    requires 0 <= i < 5 && Order[i] in states[5].extents
    ensures var b := if setup.breakAfter then 1 else 0;
      && states[5].extents[Order[i]].from.page == states[i].page
      && states[5].extents[Order[i]].to.page + b == states[i + 1].page
      && states[5].extents[Order[i]].from.page <= states[5].extents[Order[i]].to.page
  {
    var k := Order[i];
    var n := 5;
    while n > i + 1
      invariant i + 1 <= n <= 5
      invariant k in states[n].extents && states[n].extents[k] == states[5].extents[k]
    {
      assert Order[n - 1] != k;
      assert StepFacts(states[n - 1], states[n], Order[n - 1], setup, height);
      n := n - 1;
    }
    NotBefore(states, i, setup, height);
    assert StepFacts(states[i], states[i + 1], k, setup, height);
  }

  /** No list holds an extent before its own link in the chain. */
  lemma NotBefore(states: seq<State>, i: int, setup: Setup, height: int)
    requires Chain(states, setup, height)
    requires 0 <= i < 5
    ensures forall n :: 0 <= n <= i ==> Order[i] !in states[n].extents
  {
    var n := 0;
    while n < i
      invariant 0 <= n <= i
      invariant forall m :: 0 <= m <= n ==> Order[i] !in states[m].extents
    {
      assert StepFacts(states[n], states[n + 1], Order[n], setup, height);
      n := n + 1;
    }
  }

  lemma {:induction false} Monotone(xs: seq<int>)
    requires forall n :: 0 <= n < |xs| - 1 ==> xs[n] <= xs[n + 1]
    ensures forall i, j :: 0 <= i <= j < |xs| ==> xs[i] <= xs[j]
  {
    if |xs| > 1 {
      Monotone(xs[1..]);
      forall i, j | 0 <= i <= j < |xs| ensures xs[i] <= xs[j] {
        if 0 < i {
          assert xs[i] == xs[1..][i - 1] && xs[j] == xs[1..][j - 1];
        } else if 0 < j {
          assert xs[1] == xs[1..][0] && xs[j] == xs[1..][j - 1];
        }
      }
    }
  }
}
