/** The reference-counted objects of native code. Addresses may be reused once freed. */
module Heap {
  import opened Wrappers
  import opened NativeTypes
  import opened Shapes

  type Ref = nat
  /** A 64-bit slot: a scalar's bits, or an address. */
  type Word = nat

  const WORDS := 0x1_0000_0000_0000_0000

  datatype Content = Text(text: string) | Items(words: seq<Word>) | Fields(words: seq<Word>)

  /** An object. `ty` is the static type the compiler knows: it is not stored at run time, and
      nothing below reads it to decide what to do. */
  datatype Cell = Cell(count: nat, ty: Ty, content: Content)

  type Cells = map<Ref, Cell>

  function Words(content: Content): seq<Word> { if content.Text? then [] else content.words }

  function FieldTypes(fields: seq<(string, Ty)>): (r: seq<Ty>)
    ensures |r| == |fields| && forall i :: 0 <= i < |r| ==> r[i] == fields[i].1
  {
    if fields == [] then [] else [fields[0].1] + FieldTypes(fields[1..])
  }

  /** The types of the `n` slots of an object of type `ty`. */
  function SlotTypes(s: Structs, ty: Ty, n: nat): seq<Ty> {
    match ty
    case Array(elem) => seq(n, i => elem.Type().GetOr(Int))
    case Struct(id) => if id < |s.defs| then FieldTypes(s.defs[id].fields) else []
    case _ => []
  }

  // ── Well-typed heaps ─────────────────────────────────────

  predicate WordFits(cells: Cells, w: Word, ty: Ty) {
    if ty.IsHeap() then w in cells && cells[w].ty == ty else w < WORDS
  }

  predicate WordsFit(cells: Cells, words: seq<Word>, tys: seq<Ty>) {
    |words| == |tys| && forall k :: 0 <= k < |words| ==> WordFits(cells, words[k], tys[k])
  }

  predicate Shaped(s: Structs, cells: Cells, cell: Cell) {
    && cell.ty.IsHeap() && InProgram(cell.ty, |s.defs|)
    && (match cell.ty
        case Str => cell.content.Text?
        case Array(elem) => cell.content.Items?
        case _ => cell.content.Fields?)
    && WordsFit(cells, Words(cell.content), SlotTypes(s, cell.ty, |Words(cell.content)|))
  }

  ghost predicate WellTyped(s: Structs, cells: Cells) {
    forall r :: r in cells ==> Shaped(s, cells, cells[r]) && cells[r].count >= 1
  }

  // ── References ───────────────────────────────────────────

  /** The references among `words`, of types `tys`. */
  function Refs(words: seq<Word>, tys: seq<Ty>): multiset<Ref>
    requires |words| == |tys|
  {
    if words == [] then multiset{}
    else (if tys[0].IsHeap() then multiset{words[0]} else multiset{}) + Refs(words[1..], tys[1..])
  }

  function Kids(s: Structs, cell: Cell): multiset<Ref> {
    var words := Words(cell.content);
    var tys := SlotTypes(s, cell.ty, |words|);
    if |words| == |tys| then Refs(words, tys) else multiset{}
  }

  /** Slot `k` of `cell` holds a reference to `r`. */
  predicate SlotHolds(s: Structs, cell: Cell, k: nat, r: Ref) {
    var words := Words(cell.content);
    var tys := SlotTypes(s, cell.ty, |words|);
    k < |words| && k < |tys| && tys[k].IsHeap() && words[k] == r
  }

  ghost function SlotsOf(s: Structs, cells: Cells, r: Ref): set<(Ref, nat)> {
    set o, k | o in cells && 0 <= k < |Words(cells[o].content)| && SlotHolds(s, cells[o], k, r) :: (o, k)
  }

  /** The number of slots that hold `r`. */
  ghost function Holders(s: Structs, cells: Cells, r: Ref): nat { |SlotsOf(s, cells, r)| }

  /** Every count is the number of slots and of `roots` that hold the object. */
  ghost predicate Balanced(s: Structs, cells: Cells, roots: multiset<Ref>) {
    && WellTyped(s, cells)
    && (forall r :: r in roots ==> r in cells)
    && (forall r :: r in cells ==> cells[r].count == Holders(s, cells, r) + roots[r])
  }

  ghost function OwnSlots(s: Structs, o: Ref, cell: Cell, r: Ref, from: nat): set<(Ref, nat)> {
    set k | from <= k < |Words(cell.content)| && SlotHolds(s, cell, k, r) :: (o, k)
  }

  lemma {:induction false} OwnSlotsCount(s: Structs, o: Ref, cell: Cell, r: Ref, from: nat)
    requires var words := Words(cell.content); from <= |words| && |words| == |SlotTypes(s, cell.ty, |words|)|
    ensures var words := Words(cell.content); var tys := SlotTypes(s, cell.ty, |words|);
      |OwnSlots(s, o, cell, r, from)| == Refs(words[from..], tys[from..])[r]
    decreases |Words(cell.content)| - from
  {
    var words := Words(cell.content);
    var tys := SlotTypes(s, cell.ty, |words|);
    var here := OwnSlots(s, o, cell, r, from);
    if from == |words| {
      assert here == {};
    } else {
      OwnSlotsCount(s, o, cell, r, from + 1);
      var rest := OwnSlots(s, o, cell, r, from + 1);
      assert words[from..][1..] == words[from + 1..] && tys[from..][1..] == tys[from + 1..];
      if SlotHolds(s, cell, from, r) {
        assert here == rest + {(o, from)};
      } else {
        assert here == rest;
      }
    }
  }

  lemma OwnSlotsAreKids(s: Structs, cells: Cells, o: Ref, cell: Cell, r: Ref)
    requires Shaped(s, cells, cell)
    ensures |OwnSlots(s, o, cell, r, 0)| == Kids(s, cell)[r]
  {
    OwnSlotsCount(s, o, cell, r, 0);
    var words := Words(cell.content);
    var tys := SlotTypes(s, cell.ty, |words|);
    assert words[0..] == words && tys[0..] == tys;
  }

  /** What `o` holds, apart from what the others hold. */
  lemma SlotsSplit(s: Structs, cells: Cells, o: Ref, r: Ref)
    requires o in cells && Shaped(s, cells, cells[o])
    ensures Holders(s, cells, r) == Holders(s, cells - {o}, r) + Kids(s, cells[o])[r]
  {
    hide SlotHolds, Kids, Shaped, Words;
    var own := OwnSlots(s, o, cells[o], r, 0);
    var others := SlotsOf(s, cells - {o}, r);
    OwnSlotsAreKids(s, cells, o, cells[o], r);
    assert SlotsOf(s, cells, r) == others + own;
    assert others !! own;
  }

  lemma SlotRefIsLive(s: Structs, cells: Cells, o: Ref, k: nat, r: Ref)
    requires o in cells && Shaped(s, cells, cells[o]) && SlotHolds(s, cells[o], k, r)
    ensures r in cells && cells[r].ty == SlotTypes(s, cells[o].ty, |Words(cells[o].content)|)[k]
  {
    var words := Words(cells[o].content);
    assert WordFits(cells, words[k], SlotTypes(s, cells[o].ty, |words|)[k]);
  }

  lemma KidHasSlot(s: Structs, o: Ref, cell: Cell, r: Ref)
    requires r in Kids(s, cell)
    ensures exists k: nat :: SlotHolds(s, cell, k, r)
  {
    var words := Words(cell.content);
    var tys := SlotTypes(s, cell.ty, |words|);
    assert words[0..] == words && tys[0..] == tys;
    OwnSlotsCount(s, o, cell, r, 0);
    var slot :| slot in OwnSlots(s, o, cell, r, 0);
    assert SlotHolds(s, cell, slot.1, r);
  }

  /** Freeing an object whose last reference is a root turns its own references into roots. */
  lemma FreeCell(s: Structs, cells: Cells, roots: multiset<Ref>, o: Ref)
    requires Balanced(s, cells, roots) && o in roots && cells[o].count == 1
    ensures Balanced(s, cells - {o}, roots - multiset{o} + Kids(s, cells[o]))
  {
    var after := cells - {o};
    assert SlotsOf(s, cells, o) == {} by {
      assert Holders(s, cells, o) == 0;
    }
    WellTypedWithout(s, cells, o);
    forall r | r in after ensures
      after[r].count == Holders(s, after, r) + (roots - multiset{o} + Kids(s, cells[o]))[r]
    {
      SlotsSplit(s, cells, o, r);
    }
    forall r | r in Kids(s, cells[o]) ensures r in after {
      KidHasSlot(s, o, cells[o], r);
      var k: nat :| SlotHolds(s, cells[o], k, r);
      SlotRefIsLive(s, cells, o, k, r);
      assert (o, k) in SlotsOf(s, cells, r);
    }
    assert roots[o] == 1;
  }

  lemma WellTypedWithout(s: Structs, cells: Cells, o: Ref)
    requires WellTyped(s, cells) && o in cells && SlotsOf(s, cells, o) == {}
    ensures WellTyped(s, cells - {o})
  {
    var after := cells - {o};
    forall r | r in after ensures Shaped(s, after, after[r]) {
      var words := Words(after[r].content);
      var tys := SlotTypes(s, after[r].ty, |words|);
      forall k | 0 <= k < |words| ensures WordFits(after, words[k], tys[k]) {
        assert WordFits(cells, words[k], tys[k]);
        assert (r, k) !in SlotsOf(s, cells, o);
      }
    }
  }

  /** A new object takes over the references it is filled with, and is itself held once. */
  lemma AddCell(s: Structs, cells: Cells, roots: multiset<Ref>, r: Ref, cell: Cell, held: multiset<Ref>)
    requires Balanced(s, cells, roots) && r !in cells && cell.count == 1 && Shaped(s, cells, cell)
    requires held + Kids(s, cell) == roots + multiset{r}
    ensures Balanced(s, cells[r := cell], held)
  {
    var after := cells[r := cell];
    var kids := Kids(s, cell);
    WellTypedWith(s, cells, r, cell);
    assert after - {r} == cells;
    NothingPointsOutside(s, cells, r);
    assert r !in roots;
    forall x | x in after ensures after[x].count == Holders(s, after, x) + held[x] {
      SlotsSplit(s, after, r, x);
      AddedRoot(s, cells, roots, r, cell, held, x);
    }
    forall x | x in held ensures x in after {
      assert x in roots + multiset{r};
    }
  }

  lemma AddedRoot(s: Structs, cells: Cells, roots: multiset<Ref>, r: Ref, cell: Cell, held: multiset<Ref>, x: Ref)
    requires WellTyped(s, cells) && r !in cells && r !in roots && Shaped(s, cells, cell)
    requires held + Kids(s, cell) == roots + multiset{r}
    ensures held[x] + Kids(s, cell)[x] == roots[x] + (if x == r then 1 else 0)
    ensures Kids(s, cell)[r] == 0
  {
    assert (held + Kids(s, cell))[x] == (roots + multiset{r})[x];
    if r in Kids(s, cell) {
      KidHasSlot(s, r, cell, r);
    }
  }

  lemma WellTypedWith(s: Structs, cells: Cells, r: Ref, cell: Cell)
    requires WellTyped(s, cells) && r !in cells && cell.count >= 1 && Shaped(s, cells, cell)
    ensures WellTyped(s, cells[r := cell])
  {
    var after := cells[r := cell];
    forall x | x in after ensures Shaped(s, after, after[x]) {
      var words := Words(after[x].content);
      var tys := SlotTypes(s, after[x].ty, |words|);
      forall k | 0 <= k < |words| ensures WordFits(after, words[k], tys[k]) {
        assert WordFits(cells, words[k], tys[k]);
      }
    }
  }

  lemma NothingPointsOutside(s: Structs, cells: Cells, r: Ref)
    requires WellTyped(s, cells) && r !in cells
    ensures Holders(s, cells, r) == 0
  {
    forall o, k | (o, k) in SlotsOf(s, cells, r) ensures false {
      SlotRefIsLive(s, cells, o, k, r);
    }
  }

  ghost predicate SameObject(a: Cells, b: Cells, r: Ref)
    requires r in a && r in b
  {
    a[r].ty == b[r].ty && a[r].content == b[r].content
  }

  /** The objects in both heaps are the same, but for their counts. */
  ghost predicate Agree(a: Cells, b: Cells) {
    forall r :: r in a && r in b ==> SameObject(a, b, r)
  }

  lemma SameSlots(s: Structs, a: Cells, b: Cells, r: Ref)
    requires a.Keys == b.Keys && Agree(a, b)
    ensures Holders(s, a, r) == Holders(s, b, r)
  {
    assert SlotsOf(s, a, r) == SlotsOf(s, b, r) by {
    forall o, k ensures (o, k) in SlotsOf(s, a, r) <==> (o, k) in SlotsOf(s, b, r) {
      if o in a {
        assert SameObject(a, b, o);
      }
    }
    }
  }

  lemma WellTypedRecounted(s: Structs, a: Cells, b: Cells)
    requires WellTyped(s, a) && a.Keys == b.Keys && Agree(a, b)
    requires forall r :: r in b ==> b[r].count >= 1
    ensures WellTyped(s, b)
  {
    forall r | r in b ensures Shaped(s, b, b[r]) {
      assert SameObject(a, b, r);
      var words := Words(a[r].content);
      var tys := SlotTypes(s, a[r].ty, |words|);
      forall k | 0 <= k < |words| ensures WordFits(b, words[k], tys[k]) {
        assert WordFits(a, words[k], tys[k]);
        assert words[k] in a && words[k] in b ==> SameObject(a, b, words[k]);
      }
    }
  }

  /** A count follows the references the boundary holds. */
  lemma Recount(s: Structs, cells: Cells, roots: multiset<Ref>, r: Ref, n: nat, held: multiset<Ref>)
    requires Balanced(s, cells, roots) && r in cells && n >= 1
    requires n + roots[r] == cells[r].count + held[r] && forall x :: x != r ==> held[x] == roots[x]
    ensures Balanced(s, cells[r := cells[r].(count := n)], held)
  {
    hide Shaped, Holders;
    var after := cells[r := cells[r].(count := n)];
    WellTypedRecounted(s, cells, after);
    forall x | x in after ensures after[x].count == Holders(s, after, x) + held[x] {
      SameSlots(s, cells, after, x);
    }
    forall x | x in held ensures x in after {
      assert x == r || roots[x] == held[x];
    }
  }

  // ── Only what is held exists ─────────────────────────────

  function MaxRank(ranks: seq<nat>): (m: nat)
    ensures forall i :: 0 <= i < |ranks| ==> ranks[i] <= m
  {
    if ranks == [] then 0
    else var m := MaxRank(ranks[1..]); if ranks[0] > m then ranks[0] else m
  }

  lemma RankIsBounded(s: Structs, ty: Ty)
    ensures s.Rank(ty) <= MaxRank(s.rank) + 2
  {}

  /** What a slot holds is of a lower rank than the object. */
  lemma SlotRank(s: Structs, cells: Cells, cell: Cell, k: nat, r: Ref)
    requires s.Valid() && Shaped(s, cells, cell) && SlotHolds(s, cell, k, r)
    ensures var ty := SlotTypes(s, cell.ty, |Words(cell.content)|)[k];
      s.Rank(ty) < s.Rank(cell.ty) && InProgram(ty, |s.defs|)
  {
    if cell.ty.Struct? {
      assert s.FieldFits(cell.ty.id, s.defs[cell.ty.id].fields[k].1);
    }
  }

  /** No object of one heap is missing from the other: its holders, of ever higher ranks, would
      be missing as well. */
  lemma {:induction false} NoStray(s: Structs, a: Cells, b: Cells, roots: multiset<Ref>, r: Ref)
    requires s.Valid() && Balanced(s, a, roots) && Balanced(s, b, roots) && Agree(a, b)
    requires r in a
    ensures r in b
    decreases MaxRank(s.rank) + 2 - s.Rank(a[r].ty)
  {
    if r !in b {
      assert Holders(s, a, r) > 0;
      var slot :| slot in SlotsOf(s, a, r);
      var (o, k) := slot;
      SlotRefIsLive(s, a, o, k, r);
      SlotRank(s, a, a[o], k, r);
      RankIsBounded(s, a[o].ty);
      NoStray(s, a, b, roots, o);
      assert SameObject(a, b, o);
      SlotRefIsLive(s, b, o, k, r);
    }
  }

  /** Two heaps with the same references from outside, agreeing on the objects they share, are the
      same: no object leaked, none was lost, and every count is right. */
  lemma SameRootsSameHeap(s: Structs, a: Cells, b: Cells, roots: multiset<Ref>)
    requires s.Valid() && Balanced(s, a, roots) && Balanced(s, b, roots) && Agree(a, b)
    ensures a == b
  {
    hide Shaped, Holders;
    forall r | r in a ensures r in b {
      NoStray(s, a, b, roots, r);
    }
    forall r | r in b ensures r in a {
      NoStray(s, b, a, roots, r);
    }
    assert a.Keys == b.Keys;
    forall r | r in a ensures a[r] == b[r] {
      assert SameObject(a, b, r);
      SameSlots(s, a, b, r);
    }
  }

  // ── Operations ───────────────────────────────────────────

  /** What is left of a heap after releases: no new object, none changed. */
  ghost predicate Shrunk(before: Cells, after: Cells) {
    after.Keys <= before.Keys && Agree(before, after)
  }

  lemma KidsFrom(s: Structs, cells: Cells, cell: Cell)
    requires Shaped(s, cells, cell)
    ensures var words := Words(cell.content); var tys := SlotTypes(s, cell.ty, |words|);
      |words| == |tys| && Refs(words[0..], tys[0..]) == Kids(s, cell)
      && Refs(words[|words|..], tys[|words|..]) == multiset{}
  {
    var words := Words(cell.content);
    assert words[0..] == words && SlotTypes(s, cell.ty, |words|)[0..] == SlotTypes(s, cell.ty, |words|);
  }

  lemma ShrunkByOne(cells: Cells, r: Ref)
    ensures Shrunk(cells, cells - {r})
  {}

  lemma ShrunkByNothing(cells: Cells)
    ensures Shrunk(cells, cells)
  {}

  lemma RootIsLive(s: Structs, cells: Cells, roots: multiset<Ref>, r: Ref)
    requires Balanced(s, cells, roots) && r in roots
    ensures r in cells && Shaped(s, cells, cells[r]) && cells[r].count >= 1
  {}

  lemma ShrunkTwice(a: Cells, b: Cells, c: Cells)
    requires Shrunk(a, b) && Shrunk(b, c)
    ensures Shrunk(a, c)
  {
    forall r | r in a && r in c ensures SameObject(a, c, r) {
      assert r in b.Keys;
      assert SameObject(a, b, r) && SameObject(b, c, r);
    }
  }

  lemma RefsFrom(words: seq<Word>, tys: seq<Ty>, k: nat)
    requires k < |words| == |tys|
    ensures Refs(words[k..], tys[k..])
      == (if tys[k].IsHeap() then multiset{words[k]} else multiset{}) + Refs(words[k + 1..], tys[k + 1..])
  {
    assert words[k..][1..] == words[k + 1..] && tys[k..][1..] == tys[k + 1..];
  }

  /** The described slot of an object's shape is that of the type its slot has. */
  lemma SlotOfShape(s: Structs, cells: Cells, cell: Cell, k: nat)
    requires s.Valid() && Shaped(s, cells, cell) && k < |Words(cell.content)|
    ensures var shape := ShapeOf(cell.ty, s);
      var ty := SlotTypes(s, cell.ty, |Words(cell.content)|)[k];
      var slot := if shape.kind.ArrayShape? then 0 else k;
      slot < |shape.slots| && InProgram(ty, |s.defs|) && shape.slots[slot] == Slot(Some(ty), |s.defs|)
  {
    if cell.ty.Struct? {
      assert s.FieldFits(cell.ty.id, s.defs[cell.ty.id].fields[k].1);
    }
  }

  /** While the children of a freed object are released, the next one is still there. */
  lemma HeldChild(s: Structs, before: Cells, now: Cells, r: Ref, k: nat, held: multiset<Ref>)
    requires s.Valid() && r in before && Shaped(s, before, before[r]) && k < |Words(before[r].content)|
    requires Shrunk(before, now) && Balanced(s, now, held)
    requires SlotHolds(s, before[r], k, Words(before[r].content)[k]) && Words(before[r].content)[k] in held
    ensures var child := Words(before[r].content)[k];
      child in now && now[child].ty == SlotTypes(s, before[r].ty, |Words(before[r].content)|)[k]
      && s.Rank(now[child].ty) < s.Rank(before[r].ty)
  {
    var child := Words(before[r].content)[k];
    SlotRefIsLive(s, before, r, k, child);
    SlotRank(s, before, before[r], k, child);
    assert SameObject(before, now, child);
  }

  lemma FreshAddress(used: set<Ref>) returns (r: Ref)
    ensures forall x :: x in used ==> x < r
  {
    if used == {} {
      r := 0;
    } else {
      var x :| x in used;
      var above := FreshAddress(used - {x});
      r := if x < above then above else x + 1;
      assert forall y :: y in used ==> y == x || y in used - {x};
    }
  }

  class Objects {
    const structs: Structs
    var cells: Cells

    constructor (structs: Structs)
      ensures this.structs == structs && cells == map[]
    {
      this.structs := structs;
      cells := map[];
    }

    /** A new object, with a count of 1, anywhere memory is free. */
    method Alloc(ty: Ty, content: Content) returns (r: Ref)
      modifies this`cells
      ensures r !in old(cells) && cells == old(cells)[r := Cell(1, ty, content)]
    {
      ghost var free := FreshAddress(cells.Keys);
      assert free !in cells;
      r :| r !in cells;
      cells := cells[r := Cell(1, ty, content)];
    }

    /** Adds a reference held outside of the heap. */
    method Retain(r: Ref, ghost roots: multiset<Ref>)
      requires Balanced(structs, cells, roots) && r in cells
      modifies this`cells
      ensures Balanced(structs, cells, roots + multiset{r})
      ensures cells == old(cells)[r := old(cells[r]).(count := old(cells[r]).count + 1)]
    {
      hide Balanced;
      Recount(structs, cells, roots, r, cells[r].count + 1, roots + multiset{r});
      cells := cells[r := cells[r].(count := cells[r].count + 1)];
    }

    /** Drops a reference held outside of the heap; with the last one, the object and what it
        alone held are gone. */
    method Release(r: Ref, shape: nat, ghost roots: multiset<Ref>)
      requires structs.Valid() && Balanced(structs, cells, roots) && r in roots
      requires shape == Index(cells[r].ty, |structs.defs|)
      modifies this`cells
      ensures Balanced(structs, cells, roots - multiset{r}) && Shrunk(old(cells), cells)
      decreases structs.Rank(cells[r].ty), 1
    {
      hide Balanced;
      RootIsLive(structs, cells, roots, r);
      var cell := cells[r];
      if cell.count == 1 {
        Free(r, shape, roots);
      } else {
        Recount(structs, cells, roots, r, cell.count - 1, roots - multiset{r});
        cells := cells[r := cell.(count := cell.count - 1)];
      }
    }

    /** Frees an object whose last reference goes. */
    method Free(r: Ref, shape: nat, ghost roots: multiset<Ref>)
      requires structs.Valid() && Balanced(structs, cells, roots) && r in roots && cells[r].count == 1
      requires shape == Index(cells[r].ty, |structs.defs|)
      modifies this`cells
      ensures Balanced(structs, cells, roots - multiset{r}) && Shrunk(old(cells), cells)
      decreases structs.Rank(cells[r].ty), 0
    {
      hide Balanced, Shrunk, Refs, Describe, WordsFit;
      RootIsLive(structs, cells, roots, r);
      ghost var before := cells;
      var cell := cells[r];
      IndexDescribes(cell.ty, structs);
      var described := Describe(shape, structs);
      var words := Words(cell.content);
      ghost var tys := SlotTypes(structs, cell.ty, |words|);
      FreeCell(structs, cells, roots, r);
      cells := cells - {r};
      ghost var others := roots - multiset{r};
      KidsFrom(structs, before, cell);
      ShrunkByOne(before, r);
      for k := 0 to |words|
        invariant Balanced(structs, cells, others + Refs(words[k..], tys[k..]))
        invariant Shrunk(before, cells)
      {
        ghost var now, held := cells, others + Refs(words[k..], tys[k..]);
        RefsFrom(words, tys, k);
        SlotOfShape(structs, before, cell, k);
        var slot := described.slots[if described.kind.ArrayShape? then 0 else k];
        if slot.Some? {
          HeldChild(structs, before, now, r, k, held);
          Release(words[k], slot.value, held);
          ShrunkTwice(before, now, cells);
          assert held - multiset{words[k]} == others + Refs(words[k + 1..], tys[k + 1..]);
        } else {
          assert held == others + Refs(words[k + 1..], tys[k + 1..]);
        }
      }
      assert others + multiset{} == others;
    }
  }
}
