/** Values crossing the boundary between the interpreter and native code. */
module Marshal {
  import opened NativeTypes
  import opened Shapes
  import opened Heap

  type I64 = n: int | -0x8000_0000_0000_0000 <= n < 0x8000_0000_0000_0000
  type Bits = n: nat | n < WORDS

  /** A value of the interpreter; a float is its bits. `Alias(i)` is the very array given as
      argument `i`. */
  datatype Data =
    | IntData(n: I64)
    | FloatData(bits: Bits)
    | BoolData(b: bool)
    | StrData(text: string)
    | ArrayData(items: seq<Data>)
    | RecordData(ty: string, names: seq<string>, values: seq<Data>)
    | Alias(index: nat)

  /** `d` has exactly type `ty`. */
  predicate Fits(s: Structs, d: Data, ty: Ty)
    decreases d
  {
    match d
    case IntData(_) => ty.Int?
    case FloatData(_) => ty.Float?
    case BoolData(_) => ty.Bool?
    case StrData(_) => ty.Str?
    case ArrayData(items) =>
      ty.Array? &&
      ((ty.elem.Type().Some? && forall i :: 0 <= i < |items| ==> Fits(s, items[i], ty.elem.Type().value)) || items == [])
    case RecordData(name, names, values) =>
      ty.Struct? && ty.id < |s.defs| &&
      var fields := s.defs[ty.id].fields;
      name == s.defs[ty.id].name && |names| == |values| == |fields| &&
      forall i :: 0 <= i < |values| ==> names[i] == fields[i].0 && Fits(s, values[i], fields[i].1)
    case Alias(_) => false
  }

  function FieldNames(fields: seq<(string, Ty)>): (r: seq<string>)
    ensures |r| == |fields| && forall i :: 0 <= i < |r| ==> r[i] == fields[i].0
  {
    if fields == [] then [] else [fields[0].0] + FieldNames(fields[1..])
  }

  function Unsigned(n: I64): (w: Word) { if n < 0 then n + WORDS else n }

  function Signed(w: Word): I64
    requires w < WORDS
  {
    if w < WORDS / 2 then w else w - WORDS
  }

  /** What a slot of an object can be: in the program, and of a lower rank. */
  predicate Below(s: Structs, tys: seq<Ty>, bound: nat) {
    forall i :: 0 <= i < |tys| ==> InProgram(tys[i], |s.defs|) && s.Rank(tys[i]) < bound
  }

  lemma SlotsAreBelow(s: Structs, ty: Ty, n: nat)
    requires s.Valid() && InProgram(ty, |s.defs|) && (ty.Array? || ty.Struct?)
    ensures Below(s, SlotTypes(s, ty, n), s.Rank(ty))
  {
    if ty.Struct? {
      var fields := s.defs[ty.id].fields;
      forall i | 0 <= i < |fields| ensures InProgram(fields[i].1, |s.defs|) && s.Rank(fields[i].1) < s.Rank(ty) {
        assert s.FieldFits(ty.id, fields[i].1);
      }
    }
  }

  /** Reads a native value. */
  function Read(s: Structs, cells: Cells, bits: Word, ty: Ty): (d: Data)
    requires s.Valid() && WellTyped(s, cells) && WordFits(cells, bits, ty) && InProgram(ty, |s.defs|)
    decreases s.Rank(ty), 1
  {
    match ty
    case Int => IntData(Signed(bits))
    case Float => FloatData(bits)
    case Bool => BoolData(bits % 256 != 0)
    case Str => assert Shaped(s, cells, cells[bits]); StrData(cells[bits].content.text)
    case Array(elem) => ArrayData(Items(s, cells, bits, elem))
    case Struct(id) =>
      assert Shaped(s, cells, cells[bits]);
      SlotsAreBelow(s, ty, 0);
      var fields := s.defs[id].fields;
      RecordData(s.defs[id].name, FieldNames(fields),
                 ReadAll(s, cells, cells[bits].content.words, FieldTypes(fields), s.Rank(ty)))
  }

  /** The elements of a native array. */
  function Items(s: Structs, cells: Cells, bits: Word, elem: Elem): seq<Data>
    requires s.Valid() && WellTyped(s, cells) && WordFits(cells, bits, Array(elem)) && InProgram(Array(elem), |s.defs|)
    decreases s.Rank(Array(elem)), 0, 1
  {
    assert Shaped(s, cells, cells[bits]);
    var words := cells[bits].content.words;
    SlotsAreBelow(s, Array(elem), |words|);
    ReadAll(s, cells, words, SlotTypes(s, Array(elem), |words|), s.Rank(Array(elem)))
  }

  function ReadAll(s: Structs, cells: Cells, words: seq<Word>, tys: seq<Ty>, bound: nat): (ds: seq<Data>)
    requires s.Valid() && WellTyped(s, cells) && WordsFit(cells, words, tys) && Below(s, tys, bound)
    ensures |ds| == |words| && forall i :: 0 <= i < |words| ==> ds[i] == Read(s, cells, words[i], tys[i])
    decreases bound, 0, 0
  {
    seq(|words|, i requires 0 <= i < |words| => Read(s, cells, words[i], tys[i]))
  }

  /** What a native value is read as, whatever is in the heap: integers modulo 2⁶⁴, booleans by their low
      byte, texts, and element by element or field by field what the slots of an object are read as. */
  lemma ReadBySlots(s: Structs, cells: Cells, bits: Word, ty: Ty)
    requires s.Valid() && WellTyped(s, cells) && WordFits(cells, bits, ty) && InProgram(ty, |s.defs|)
    ensures var d := Read(s, cells, bits, ty);
      match ty
      case Int => d.IntData? && (bits - d.n) % WORDS == 0
      case Float => d == FloatData(bits)
      case Bool => d.BoolData? && (d.b <==> bits % 256 > 0)
      case Str => d.StrData? && cells[bits].content == Text(d.text)
      case Array(elem) =>
        var slot := elem.Type().GetOr(Int);
        d.ArrayData? && InProgram(slot, |s.defs|) && |d.items| == |Words(cells[bits].content)| &&
        forall i :: 0 <= i < |d.items| ==>
          var w := Words(cells[bits].content)[i]; WordFits(cells, w, slot) && d.items[i] == Read(s, cells, w, slot)
      case Struct(id) =>
        var fields := s.defs[id].fields;
        d.RecordData? && d.ty == s.defs[id].name
        && |d.names| == |d.values| == |fields| == |Words(cells[bits].content)| &&
        forall i :: 0 <= i < |fields| ==>
          var w := Words(cells[bits].content)[i];
          d.names[i] == fields[i].0 && WordFits(cells, w, fields[i].1) && InProgram(fields[i].1, |s.defs|)
          && d.values[i] == Read(s, cells, w, fields[i].1)
  {
    if ty.IsHeap() {
      assert Shaped(s, cells, cells[bits]);
      var words := Words(cells[bits].content);
      if !ty.Str? {
        SlotsAreBelow(s, ty, |words|);
        var tys := SlotTypes(s, ty, |words|);
        SlotsFit(s, cells, words, tys, s.Rank(ty));
        if ty.Array? {
          assert Read(s, cells, bits, ty) == ArrayData(Items(s, cells, bits, ty.elem));
          assert Items(s, cells, bits, ty.elem) == ReadAll(s, cells, words, tys, s.Rank(ty));
          assert forall i :: 0 <= i < |words| ==> tys[i] == ty.elem.Type().GetOr(Int);
        }
      }
    }
  }

  lemma SlotsFit(s: Structs, cells: Cells, words: seq<Word>, tys: seq<Ty>, bound: nat)
    requires s.Valid() && WellTyped(s, cells) && WordsFit(cells, words, tys) && Below(s, tys, bound)
    ensures forall i :: 0 <= i < |words| ==>
      WordFits(cells, words[i], tys[i]) && InProgram(tys[i], |s.defs|)
      && ReadAll(s, cells, words, tys, bound)[i] == Read(s, cells, words[i], tys[i])
  {}

  /** What is read fits its type: with `Write`, exactly the values that fit are those native code can
      give back. The one exception is an array of unknown elements that is not empty. */
  lemma {:induction false} ReadFits(s: Structs, cells: Cells, bits: Word, ty: Ty)
    requires s.Valid() && WellTyped(s, cells) && WordFits(cells, bits, ty) && InProgram(ty, |s.defs|)
    ensures Fits(s, Read(s, cells, bits, ty), ty) <==>
      (ty.Array? && ty.elem.Type().None? ==> Words(cells[bits].content) == [])
    decreases s.Rank(ty)
  {
    ReadBySlots(s, cells, bits, ty);
    var d := Read(s, cells, bits, ty);
    if ty.Array? && ty.elem.Type().Some? {
      var words, slot := Words(cells[bits].content), ty.elem.Type().value;
      SlotsAreBelow(s, ty, |words|);
      forall i | 0 <= i < |d.items| ensures Fits(s, d.items[i], slot) {
        assert SlotTypes(s, ty, |words|)[i] == slot;
        ReadFits(s, cells, words[i], slot);
      }
    } else if ty.Struct? {
      var words, fields := Words(cells[bits].content), s.defs[ty.id].fields;
      SlotsAreBelow(s, ty, 0);
      forall i | 0 <= i < |d.values| ensures Fits(s, d.values[i], fields[i].1) {
        assert SlotTypes(s, ty, 0)[i] == fields[i].1 && s.FieldFits(ty.id, fields[i].1);
        ReadFits(s, cells, words[i], fields[i].1);
      }
    }
  }

  // ── What a growing or shrinking heap still reads ─────────

  /** Every object of `a` is in `b` with the same content. */
  ghost predicate Preserves(a: Cells, b: Cells) {
    forall r :: r in a ==> r in b && SameObject(a, b, r)
  }

  /** Only new objects were added, and they hold new ones only. */
  ghost predicate Grown(s: Structs, before: Cells, after: Cells) {
    && (forall r :: r in before ==> r in after && after[r] == before[r])
    && (forall o, k: nat, r :: o in after && o !in before && SlotHolds(s, after[o], k, r) ==> r !in before)
  }

  lemma GrownTwice(s: Structs, a: Cells, b: Cells, c: Cells)
    requires Grown(s, a, b) && Grown(s, b, c)
    ensures Grown(s, a, c)
  {
    forall o, k: nat, r | o in c && o !in a && SlotHolds(s, c[o], k, r) ensures r !in a {
      if o in b {
        assert SlotHolds(s, b[o], k, r);
      } else {
        assert r !in b;
      }
    }
  }

  lemma GrownPreserves(s: Structs, a: Cells, b: Cells)
    requires Grown(s, a, b)
    ensures Preserves(a, b)
  {}

  lemma StillFits(a: Cells, b: Cells, w: Word, ty: Ty)
    requires Preserves(a, b) && WordFits(a, w, ty)
    ensures WordFits(b, w, ty)
  {
    if ty.IsHeap() {
      assert SameObject(a, b, w);
    }
  }

  /** A value reads the same in a heap that preserves its objects. */
  lemma {:induction false} ReadFrame(s: Structs, a: Cells, b: Cells, bits: Word, ty: Ty)
    requires s.Valid() && WellTyped(s, a) && WellTyped(s, b) && Preserves(a, b)
    requires WordFits(a, bits, ty) && InProgram(ty, |s.defs|)
    ensures WordFits(b, bits, ty) && Read(s, b, bits, ty) == Read(s, a, bits, ty)
    decreases s.Rank(ty)
  {
    StillFits(a, b, bits, ty);
    if ty.IsHeap() {
      assert SameObject(a, b, bits) && Shaped(s, a, a[bits]);
      if !ty.Str? {
        var words := a[bits].content.words;
        var tys := SlotTypes(s, ty, |words|);
        SlotsAreBelow(s, ty, |words|);
        ReadAllFrame(s, a, b, words, tys, s.Rank(ty));
      }
    }
  }

  lemma {:induction false} ReadAllFrame(s: Structs, a: Cells, b: Cells, words: seq<Word>, tys: seq<Ty>, bound: nat)
    requires s.Valid() && WellTyped(s, a) && WellTyped(s, b) && Preserves(a, b)
    requires WordsFit(a, words, tys) && Below(s, tys, bound)
    ensures WordsFit(b, words, tys) && ReadAll(s, b, words, tys, bound) == ReadAll(s, a, words, tys, bound)
    decreases bound, 0
  {
    forall i | 0 <= i < |words|
      ensures WordFits(b, words[i], tys[i]) && Read(s, b, words[i], tys[i]) == Read(s, a, words[i], tys[i])
    {
      ReadFrame(s, a, b, words[i], tys[i]);
    }
  }

  // ── Writing ──────────────────────────────────────────────

  /** The reference a value of type `ty` is. */
  function RefOf(bits: Word, ty: Ty): multiset<Ref> { if ty.IsHeap() then multiset{bits} else multiset{} }

  lemma {:induction false} RefsAppend(words: seq<Word>, tys: seq<Ty>, w: Word, ty: Ty)
    requires |words| == |tys|
    ensures Refs(words + [w], tys + [ty]) == Refs(words, tys) + RefOf(w, ty)
  {
    if words == [] {
      assert [] + [w] == [w] && [] + [ty] == [ty] && [w][1..] == [] && [ty][1..] == [];
      assert Refs([w], [ty]) == RefOf(w, ty) + Refs([], []);
    } else {
      assert (words + [w])[1..] == words[1..] + [w] && (tys + [ty])[1..] == tys[1..] + [ty];
      RefsAppend(words[1..], tys[1..], w, ty);
    }
  }

  /** `words` are the values of `ds`, all their objects new since `before`. */
  ghost predicate Written(s: Structs, before: Cells, cells: Cells, words: seq<Word>, ds: seq<Data>, tys: seq<Ty>)
    requires s.Valid() && WellTyped(s, cells)
  {
    && |words| == |ds| == |tys|
    && forall i :: 0 <= i < |words| ==> WrittenOne(s, before, cells, words[i], ds[i], tys[i])
  }

  ghost predicate WrittenOne(s: Structs, before: Cells, cells: Cells, bits: Word, d: Data, ty: Ty)
    requires s.Valid() && WellTyped(s, cells)
  {
    && InProgram(ty, |s.defs|) && WordFits(cells, bits, ty) && (ty.IsHeap() ==> bits !in before)
    && Read(s, cells, bits, ty) == d
  }

  lemma WrittenFrame(s: Structs, before: Cells, a: Cells, b: Cells, words: seq<Word>, ds: seq<Data>, tys: seq<Ty>)
    requires s.Valid() && WellTyped(s, a) && WellTyped(s, b) && Preserves(a, b)
    requires Written(s, before, a, words, ds, tys)
    ensures Written(s, before, b, words, ds, tys)
  {
    forall i | 0 <= i < |words| ensures WrittenOne(s, before, b, words[i], ds[i], tys[i]) {
      assert WrittenOne(s, before, a, words[i], ds[i], tys[i]);
      ReadFrame(s, a, b, words[i], tys[i]);
    }
  }

  /** A new object over written slots: the heap it makes, and what reading it gives. */
  lemma Wraps(s: Structs, before: Cells, cells: Cells, roots: multiset<Ref>, r: Ref, ty: Ty, content: Content,
              ds: seq<Data>)
    requires s.Valid() && (ty.Array? || ty.Struct?) && InProgram(ty, |s.defs|) && r !in cells
    requires content == if ty.Array? then Content.Items(Words(content)) else Fields(Words(content))
    requires !content.Text? && |SlotTypes(s, ty, |Words(content)|)| == |Words(content)|
    requires Balanced(s, cells, roots + Refs(Words(content), SlotTypes(s, ty, |Words(content)|)))
    requires Grown(s, before, cells) && Written(s, before, cells, Words(content), ds, SlotTypes(s, ty, |Words(content)|))
    ensures var after := cells[r := Cell(1, ty, content)];
      && Balanced(s, after, roots + multiset{r}) && Grown(s, before, after) && WordFits(after, r, ty)
      && Read(s, after, r, ty) == if ty.Array? then ArrayData(ds)
                                  else RecordData(s.defs[ty.id].name, FieldNames(s.defs[ty.id].fields), ds)
  {
    hide Balanced, Read, Grown;
    var cell := Cell(1, ty, content);
    var after := cells[r := cell];
    var words := Words(content);
    var tys := SlotTypes(s, ty, |words|);
    BalancedIsTyped(s, cells, roots + Refs(words, tys));
    forall k | 0 <= k < |words| ensures WordFits(cells, words[k], tys[k]) {
      assert WrittenOne(s, before, cells, words[k], ds[k], tys[k]);
    }
    AddCell(s, cells, roots + Refs(words, tys), r, cell, roots + multiset{r});
    BalancedIsTyped(s, after, roots + multiset{r});
    assert Preserves(cells, after);
    WrittenFrame(s, before, cells, after, words, ds, tys);
    assert forall k: nat, x :: SlotHolds(s, cell, k, x) ==> x !in before by {
      forall k: nat, x | SlotHolds(s, cell, k, x) ensures x !in before {
        assert WrittenOne(s, before, cells, words[k], ds[k], tys[k]);
      }
    }
    NewHoldsNew(s, before, cells, r, cell);
    ReadsWrapped(s, before, after, r, ty, ds);
  }

  lemma ReadsWrapped(s: Structs, before: Cells, cells: Cells, r: Ref, ty: Ty, ds: seq<Data>)
    requires s.Valid() && WellTyped(s, cells) && (ty.Array? || ty.Struct?) && InProgram(ty, |s.defs|)
    requires WordFits(cells, r, ty)
    requires var words := Words(cells[r].content);
      Written(s, before, cells, words, ds, SlotTypes(s, ty, |words|))
    ensures Read(s, cells, r, ty) == if ty.Array? then ArrayData(ds)
                                     else RecordData(s.defs[ty.id].name, FieldNames(s.defs[ty.id].fields), ds)
  {
    assert Shaped(s, cells, cells[r]);
    var words := cells[r].content.words;
    var tys := SlotTypes(s, ty, |words|);
    forall k | 0 <= k < |words| ensures WordFits(cells, words[k], tys[k]) && Read(s, cells, words[k], tys[k]) == ds[k] {
      assert WrittenOne(s, before, cells, words[k], ds[k], tys[k]);
    }
    SlotsAreBelow(s, ty, |words|);
    assert ReadAll(s, cells, words, tys, s.Rank(ty)) == ds;
  }

  lemma NewHoldsNew(s: Structs, before: Cells, cells: Cells, r: Ref, cell: Cell)
    requires Grown(s, before, cells) && r !in cells
    requires forall k: nat, x :: SlotHolds(s, cell, k, x) ==> x !in before
    ensures Grown(s, before, cells[r := cell])
  {
    var after := cells[r := cell];
    forall o, k: nat, x | o in after && o !in before && SlotHolds(s, after[o], k, x) ensures x !in before {
      if o == r {
        assert SlotHolds(s, cell, k, x);
      } else {
        assert SlotHolds(s, cells[o], k, x);
      }
    }
  }

  lemma BitsRoundTrip(n: I64, b: bool)
    ensures Unsigned(n) < WORDS && Signed(Unsigned(n)) == n && (Unsigned(n) - n) % WORDS == 0
    ensures ((if b then 1 else 0) % 256 != 0) == b
  {}

  lemma NothingGrown(s: Structs, cells: Cells)
    ensures Grown(s, cells, cells)
  {}

  lemma GrownByText(s: Structs, before: Cells, r: Ref, cell: Cell)
    requires r !in before && cell.content.Text?
    ensures Grown(s, before, before[r := cell])
  {
    assert forall k: nat, x :: !SlotHolds(s, cell, k, x);
    NewHoldsNew(s, before, before, r, cell);
  }

  /** A native value for `d`: an integer modulo 2⁶⁴, a boolean as 0 or 1, a float as its bits. Its objects
      are new and held once; reading it gives `d` back. */
  method Write(heap: Objects, d: Data, ty: Ty, ghost roots: multiset<Ref>) returns (bits: Word)
    requires heap.structs.Valid() && Balanced(heap.structs, heap.cells, roots)
    requires InProgram(ty, |heap.structs.defs|) && Fits(heap.structs, d, ty)
    modifies heap`cells
    ensures Balanced(heap.structs, heap.cells, roots + RefOf(bits, ty))
    ensures Grown(heap.structs, old(heap.cells), heap.cells)
    ensures WrittenOne(heap.structs, old(heap.cells), heap.cells, bits, d, ty)
    ensures d.IntData? ==> bits < WORDS && (bits - d.n) % WORDS == 0
    ensures (d.BoolData? ==> bits == if d.b then 1 else 0) && (d.FloatData? ==> bits == d.bits)
    decreases d, 1
  {
    hide Balanced;
    ghost var before := heap.cells;
    if d.StrData? {
      bits := WriteText(heap, d.text, roots);
    } else if d.ArrayData? {
      bits := WriteArray(heap, d, ty, roots);
    } else if d.RecordData? {
      bits := WriteRecord(heap, d, ty, roots);
    } else {
      NothingGrown(heap.structs, heap.cells);
      assert roots + multiset{} == roots;
      if d.IntData? {
        bits := Unsigned(d.n);
        BitsRoundTrip(d.n, true);
      } else if d.FloatData? {
        bits := d.bits;
      } else {
        bits := if d.b then 1 else 0;
        BitsRoundTrip(0, d.b);
      }
    }
  }

  method WriteText(heap: Objects, text: string, ghost roots: multiset<Ref>) returns (bits: Word)
    requires heap.structs.Valid() && Balanced(heap.structs, heap.cells, roots)
    modifies heap`cells
    ensures Balanced(heap.structs, heap.cells, roots + RefOf(bits, Str))
    ensures Grown(heap.structs, old(heap.cells), heap.cells)
    ensures WrittenOne(heap.structs, old(heap.cells), heap.cells, bits, StrData(text), Str)
  {
    hide Balanced;
    ghost var before := heap.cells;
    bits := heap.Alloc(Str, Text(text));
    AddCell(heap.structs, before, roots, bits, Cell(1, Str, Text(text)), roots + multiset{bits});
    GrownByText(heap.structs, before, bits, Cell(1, Str, Text(text)));
  }

  method WriteArray(heap: Objects, d: Data, ty: Ty, ghost roots: multiset<Ref>) returns (bits: Word)
    requires heap.structs.Valid() && Balanced(heap.structs, heap.cells, roots) && d.ArrayData?
    requires InProgram(ty, |heap.structs.defs|) && Fits(heap.structs, d, ty)
    modifies heap`cells
    ensures Balanced(heap.structs, heap.cells, roots + RefOf(bits, ty))
    ensures Grown(heap.structs, old(heap.cells), heap.cells)
    ensures WrittenOne(heap.structs, old(heap.cells), heap.cells, bits, d, ty)
    decreases d, 0
  {
    hide Balanced;
    ghost var before := heap.cells;
    var tys := seq(|d.items|, i => ty.elem.Type().GetOr(Int));
    var words := WriteAll(heap, d.items, tys, roots);
    assert tys == SlotTypes(heap.structs, ty, |words|);
    ghost var filled := heap.cells;
    bits := heap.Alloc(ty, Content.Items(words));
    Wraps(heap.structs, before, filled, roots, bits, ty, Content.Items(words), d.items);
  }

  method WriteRecord(heap: Objects, d: Data, ty: Ty, ghost roots: multiset<Ref>) returns (bits: Word)
    requires heap.structs.Valid() && Balanced(heap.structs, heap.cells, roots) && d.RecordData?
    requires InProgram(ty, |heap.structs.defs|) && Fits(heap.structs, d, ty)
    modifies heap`cells
    ensures Balanced(heap.structs, heap.cells, roots + RefOf(bits, ty))
    ensures Grown(heap.structs, old(heap.cells), heap.cells)
    ensures WrittenOne(heap.structs, old(heap.cells), heap.cells, bits, d, ty)
    decreases d, 0
  {
    hide Balanced;
    ghost var before := heap.cells;
    var fields := heap.structs.defs[ty.id].fields;
    var words := WriteAll(heap, d.values, FieldTypes(fields), roots);
    ghost var filled := heap.cells;
    bits := heap.Alloc(ty, Fields(words));
    Wraps(heap.structs, before, filled, roots, bits, ty, Fields(words), d.values);
    assert d.names == FieldNames(fields);
  }

  method WriteAll(heap: Objects, ds: seq<Data>, tys: seq<Ty>, ghost roots: multiset<Ref>) returns (words: seq<Word>)
    requires heap.structs.Valid() && Balanced(heap.structs, heap.cells, roots) && |ds| == |tys|
    requires forall i :: 0 <= i < |ds| ==> InProgram(tys[i], |heap.structs.defs|) && Fits(heap.structs, ds[i], tys[i])
    modifies heap`cells
    ensures |words| == |ds| && Balanced(heap.structs, heap.cells, roots + Refs(words, tys))
    ensures Grown(heap.structs, old(heap.cells), heap.cells)
    ensures Written(heap.structs, old(heap.cells), heap.cells, words, ds, tys)
    decreases ds, 0
  {
    hide Balanced, Grown, WellTyped, WrittenOne, Fits;
    ghost var before := heap.cells;
    words := [];
    NothingGrown(heap.structs, before);
    assert roots + multiset{} == roots;
    BalancedIsTyped(heap.structs, heap.cells, roots);
    for i := 0 to |ds|
      invariant |words| == i && Balanced(heap.structs, heap.cells, roots + Refs(words, tys[..i]))
      invariant WellTyped(heap.structs, heap.cells)
      invariant Grown(heap.structs, before, heap.cells)
      invariant Written(heap.structs, before, heap.cells, words, ds[..i], tys[..i])
    {
      ghost var now, held := heap.cells, roots + Refs(words, tys[..i]);
      var bits := Write(heap, ds[i], tys[i], held);
      BalancedIsTyped(heap.structs, heap.cells, held + RefOf(bits, tys[i]));
      GrownPreserves(heap.structs, now, heap.cells);
      WrittenFrame(heap.structs, before, now, heap.cells, words, ds[..i], tys[..i]);
      StaysNew(heap.structs, before, now, heap.cells, bits, ds[i], tys[i]);
      GrownTwice(heap.structs, before, now, heap.cells);
      RefsAppend(words, tys[..i], bits, tys[i]);
      assert tys[..i + 1] == tys[..i] + [tys[i]] && ds[..i + 1] == ds[..i] + [ds[i]];
      assert held + RefOf(bits, tys[i]) == roots + Refs(words + [bits], tys[..i + 1]);
      words := words + [bits];
    }
    assert ds[..|ds|] == ds && tys[..|ds|] == tys;
  }

  lemma BalancedIsTyped(s: Structs, cells: Cells, roots: multiset<Ref>)
    requires Balanced(s, cells, roots)
    ensures WellTyped(s, cells)
  {}

  lemma StaysNew(s: Structs, before: Cells, now: Cells, cells: Cells, bits: Word, d: Data, ty: Ty)
    requires s.Valid() && WellTyped(s, cells) && Grown(s, before, now)
    requires WrittenOne(s, now, cells, bits, d, ty)
    ensures WrittenOne(s, before, cells, bits, d, ty)
  {}

  lemma GrownAgrees(s: Structs, before: Cells, mid: Cells, after: Cells)
    requires Grown(s, before, mid) && Shrunk(mid, after)
    ensures Agree(before, after)
  {
    forall r | r in before && r in after ensures SameObject(before, after, r) {
      assert SameObject(mid, after, r);
    }
  }

  /** Drops the reference `bits` is, if it is one, through the shape of its type. */
  method Release(heap: Objects, bits: Word, ty: Ty, ghost roots: multiset<Ref>)
    requires heap.structs.Valid() && InProgram(ty, |heap.structs.defs|) && WordFits(heap.cells, bits, ty)
    requires Balanced(heap.structs, heap.cells, roots + RefOf(bits, ty))
    modifies heap`cells
    ensures Balanced(heap.structs, heap.cells, roots) && Shrunk(old(heap.cells), heap.cells)
  {
    hide Balanced, Shrunk, Index;
    ShrunkByNothing(heap.cells);
    assert roots + multiset{} == roots;
    if ty.IsHeap() {
      assert roots + multiset{bits} - multiset{bits} == roots;
      heap.Release(bits, Index(ty, |heap.structs.defs|), roots + multiset{bits});
    }
  }

  /** A value written, read and released: it comes back, and exactly what was allocated for it is
      freed. */
  method ThereAndBack(heap: Objects, d: Data, ty: Ty, ghost roots: multiset<Ref>) returns (back: Data)
    requires heap.structs.Valid() && Balanced(heap.structs, heap.cells, roots)
    requires InProgram(ty, |heap.structs.defs|) && Fits(heap.structs, d, ty)
    modifies heap`cells
    ensures back == d && heap.cells == old(heap.cells)
  {
    hide Balanced, Shrunk, Grown, Fits, Read;
    ghost var s, before := heap.structs, heap.cells;
    var bits := Write(heap, d, ty, roots);
    ghost var written := heap.cells;
    BalancedIsTyped(s, written, roots + RefOf(bits, ty));
    back := Read(heap.structs, heap.cells, bits, ty);
    Release(heap, bits, ty, roots);
    GrownAgrees(s, before, written, heap.cells);
    SameRootsSameHeap(s, before, heap.cells, roots);
  }
}
