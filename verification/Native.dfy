/** Calls of native code from the interpreter. */
module Native {
  import opened Wrappers
  import opened NativeTypes
  import opened Shapes
  import opened Heap
  import opened Marshal

  type Failure = nat

  /** A compiled function: hosted functions return a value. */
  datatype Entry = Entry(params: seq<Ty>, ret: Ty, mutates: bool)

  /** A successful call: the result, and the content of the array arguments after it. */
  datatype Returned = Returned(value: Data, arrays: seq<Option<seq<Data>>>)

  /** What native code leaves: the heap, and a result or a failure. */
  datatype Outcome = Outcome(cells: Cells, result: Result<Word, Failure>)

  type Code = (Cells, seq<Word>) -> Outcome

  ghost predicate InProgramAll(s: Structs, entry: Entry) {
    InProgram(entry.ret, |s.defs|) && forall i :: 0 <= i < |entry.params| ==> InProgram(entry.params[i], |s.defs|)
  }

  predicate ArgFits(s: Structs, params: seq<Ty>, args: seq<Data>, i: nat)
    requires i < |args| == |params|
  {
    match args[i]
    case Alias(j) => j < i && params[j] == params[i] && args[j].ArrayData?
    case d => Marshal.Fits(s, d, params[i])
  }

  predicate ArgsFit(s: Structs, params: seq<Ty>, args: seq<Data>) {
    |args| == |params| && forall i :: 0 <= i < |args| ==> ArgFits(s, params, args, i)
  }

  // ── What native code promises ────────────────────────────

  /** A set of objects that hold nothing outside of it. */
  ghost predicate Closed(s: Structs, cells: Cells, reach: set<Ref>) {
    forall o, k: nat, r :: o in reach && o in cells && SlotHolds(s, cells[o], k, r) ==> r in reach
  }

  ghost predicate Ready(s: Structs, cells: Cells, bits: seq<Word>, params: seq<Ty>, held: multiset<Ref>) {
    Balanced(s, cells, held) && WordsFit(cells, bits, params) && Refs(bits, params) <= held
  }

  /** Objects that are still held keep their type; those out of reach of the arguments are left
      alone. */
  ghost predicate KeepsOthers(s: Structs, before: Cells, after: Cells, handed: multiset<Ref>, others: multiset<Ref>) {
    && (forall r :: r in others && r in before ==> r in after && after[r].ty == before[r].ty)
    && (forall reach: set<Ref>, r ::
          Closed(s, before, reach) && (forall x :: x in handed ==> x in reach) && r in before && r !in reach ==>
          r in after && after[r] == before[r])
  }

  /** The references of the arguments are consumed; a success gives one reference to its result. */
  ghost predicate Consumes(s: Structs, entry: Entry, before: Cells, bits: seq<Word>, held: multiset<Ref>, out: Outcome)
    requires |bits| == |entry.params|
  {
    var others := held - Refs(bits, entry.params);
    && Balanced(s, out.cells, others + (if out.result.Ok? then RefOf(out.result.value, entry.ret) else multiset{}))
    && (out.result.Ok? ==> WordFits(out.cells, out.result.value, entry.ret))
    && KeepsOthers(s, before, out.cells, Refs(bits, entry.params), others)
  }

  ghost predicate Conforms(s: Structs, entry: Entry, code: Code) {
    forall cells, bits, held :: |bits| == |entry.params| && Ready(s, cells, bits, entry.params, held) ==>
      Consumes(s, entry, cells, bits, held, code(cells, bits))
  }

  /** Native code that gives its argument back keeps the promise. */
  lemma GivingBackConforms(s: Structs, ty: Ty, mutates: bool)
    ensures Conforms(s, Entry([ty], ty, mutates),
                     (cells, bits: seq<Word>) => Outcome(cells, if bits == [] then Err(0) else Ok(bits[0])))
  {
    var code: Code := (cells, bits: seq<Word>) => Outcome(cells, if bits == [] then Err(0) else Ok(bits[0]));
    forall cells, bits: seq<Word>, held | |bits| == 1 && Ready(s, cells, bits, [ty], held)
      ensures Consumes(s, Entry([ty], ty, mutates), cells, bits, held, code(cells, bits))
    {
      GivesBackOne(s, ty, mutates, cells, bits, held);
    }
  }

  lemma GivesBackOne(s: Structs, ty: Ty, mutates: bool, cells: Cells, bits: seq<Word>, held: multiset<Ref>)
    requires |bits| == 1 && Ready(s, cells, bits, [ty], held)
    ensures Consumes(s, Entry([ty], ty, mutates), cells, bits, held, Outcome(cells, Ok(bits[0])))
  {
    hide Balanced, WordFits;
    assert [ty][1..] == [] && bits[1..] == [];
    assert Refs(bits, [ty]) == RefOf(bits[0], ty) + Refs([], []);
    assert held - Refs(bits, [ty]) + RefOf(bits[0], ty) == held;
    RootsAreLive(s, cells, held);
  }

  lemma RootsAreLive(s: Structs, cells: Cells, roots: multiset<Ref>)
    requires Balanced(s, cells, roots)
    ensures forall r :: r in roots ==> r in cells
  {}

  // ── Arguments ────────────────────────────────────────────

  /** Argument `i` is an array of its own, kept by the boundary to read it back. */
  predicate IsKept(params: seq<Ty>, args: seq<Data>, i: nat)
    requires |args| == |params|
  {
    i < |args| && params[i].Array? && !args[i].Alias?
  }

  function Kept(params: seq<Ty>, args: seq<Data>, n: nat): (kept: seq<nat>)
    requires n <= |args| == |params|
    ensures forall k :: 0 <= k < |kept| ==> kept[k] < n && IsKept(params, args, kept[k])
    ensures forall i: nat :: i < n && IsKept(params, args, i) ==> i in kept
    ensures forall j, k :: 0 <= j < k < |kept| ==> kept[j] < kept[k]
  {
    if n == 0 then []
    else Kept(params, args, n - 1) + if IsKept(params, args, n - 1) then [n - 1] else []
  }

  function At(bits: seq<Word>, kept: seq<nat>): (r: seq<Word>)
    requires forall k :: 0 <= k < |kept| ==> kept[k] < |bits|
    ensures |r| == |kept| && forall k :: 0 <= k < |kept| ==> r[k] == bits[kept[k]]
  {
    seq(|kept|, k requires 0 <= k < |kept| => bits[kept[k]])
  }

  /** The words handed over for the first arguments: new values, the same word for an alias. */
  ghost predicate Handed(s: Structs, before: Cells, cells: Cells, bits: seq<Word>, params: seq<Ty>, args: seq<Data>)
    requires s.Valid() && WellTyped(s, cells)
  {
    && |bits| <= |params| == |args|
    && forall i :: 0 <= i < |bits| ==>
         if args[i].Alias? then
           params[i].Array? && WordFits(cells, bits[i], params[i]) && bits[i] !in before
           && args[i].index < i && bits[args[i].index] == bits[i]
         else WrittenOne(s, before, cells, bits[i], args[i], params[i])
  }

  /** What the boundary reads once native code returned `word`. */
  ghost predicate ReadsBack(s: Structs, entry: Entry, args: seq<Data>, bits: seq<Word>, cells: Cells, word: Word,
                            r: Returned)
    requires s.Valid() && InProgramAll(s, entry) && WellTyped(s, cells)
    requires |args| == |bits| == |entry.params| && WordFits(cells, word, entry.ret)
    requires forall i: nat :: IsKept(entry.params, args, i) ==> WordFits(cells, bits[i], entry.params[i])
  {
    && (r.value.Alias? <==> entry.ret.Array? && exists i: nat :: IsKept(entry.params, args, i) && bits[i] == word)
    && (if r.value.Alias? then IsKept(entry.params, args, r.value.index) && bits[r.value.index] == word
        else r.value == Read(s, cells, word, entry.ret))
    && |r.arrays| == |args|
    && (forall i: nat :: i < |args| ==>
          r.arrays[i] == if entry.mutates && IsKept(entry.params, args, i)
                         then Some(Marshal.Items(s, cells, bits[i], entry.params[i].elem)) else None)
  }

  // ── Handing the arguments over ───────────────────────────

  ghost predicate HandedOne(s: Structs, before: Cells, cells: Cells, bits: seq<Word>, w: Word, ty: Ty, d: Data)
    requires s.Valid() && WellTyped(s, cells)
  {
    if d.Alias? then
      ty.Array? && WordFits(cells, w, ty) && w !in before && d.index < |bits| && bits[d.index] == w
    else WrittenOne(s, before, cells, w, d, ty)
  }

  lemma HandedFrame(s: Structs, before: Cells, a: Cells, b: Cells, bits: seq<Word>, params: seq<Ty>, args: seq<Data>)
    requires s.Valid() && WellTyped(s, a) && WellTyped(s, b) && Preserves(a, b)
    requires Handed(s, before, a, bits, params, args)
    ensures Handed(s, before, b, bits, params, args)
  {
    forall i | 0 <= i < |bits| && !args[i].Alias? ensures WrittenOne(s, before, b, bits[i], args[i], params[i]) {
      ReadFrame(s, a, b, bits[i], params[i]);
    }
    forall i | 0 <= i < |bits| && args[i].Alias? ensures WordFits(b, bits[i], params[i]) {
      StillFits(a, b, bits[i], params[i]);
    }
  }

  lemma HandedAppend(s: Structs, before: Cells, cells: Cells, bits: seq<Word>, w: Word, params: seq<Ty>, args: seq<Data>)
    requires s.Valid() && WellTyped(s, cells) && Handed(s, before, cells, bits, params, args) && |bits| < |args|
    requires HandedOne(s, before, cells, bits, w, params[|bits|], args[|bits|])
    ensures Handed(s, before, cells, bits + [w], params, args)
  {}

  lemma HandedFits(s: Structs, before: Cells, cells: Cells, bits: seq<Word>, params: seq<Ty>, args: seq<Data>)
    requires s.Valid() && WellTyped(s, cells) && Handed(s, before, cells, bits, params, args)
    ensures forall i :: 0 <= i < |bits| ==> WordFits(cells, bits[i], params[i]) && (params[i].IsHeap() ==> bits[i] !in before)
  {
    forall i | 0 <= i < |bits| ensures WordFits(cells, bits[i], params[i]) && (params[i].IsHeap() ==> bits[i] !in before) {
      if !args[i].Alias? {
        assert WrittenOne(s, before, cells, bits[i], args[i], params[i]);
      }
    }
  }

  /** One more reference to a new object. */
  lemma RetainedStays(s: Structs, before: Cells, now: Cells, r: Ref, n: nat)
    requires r in now && r !in before && Grown(s, before, now)
    ensures var after := now[r := now[r].(count := n)];
      Grown(s, before, after) && Preserves(now, after)
  {
    var after := now[r := now[r].(count := n)];
    forall o, k: nat, x | o in after && o !in before && SlotHolds(s, after[o], k, x) ensures x !in before {
      assert SlotHolds(s, now[o], k, x);
    }
  }

  /** Argument `i`: a new reference handed over to the function. */
  method HandOverOne(heap: Objects, params: seq<Ty>, args: seq<Data>, bits: seq<Word>, ghost before: Cells,
                     ghost roots: multiset<Ref>)
    returns (w: Word)
    requires heap.structs.Valid() && Balanced(heap.structs, heap.cells, roots) && WellTyped(heap.structs, heap.cells)
    requires ArgsFit(heap.structs, params, args) && |bits| < |args| && InProgram(params[|bits|], |heap.structs.defs|)
    requires Grown(heap.structs, before, heap.cells)
    requires Handed(heap.structs, before, heap.cells, bits, params, args)
    modifies heap`cells
    ensures Balanced(heap.structs, heap.cells, roots + RefOf(w, params[|bits|])) && WellTyped(heap.structs, heap.cells)
    ensures Grown(heap.structs, before, heap.cells)
    ensures Handed(heap.structs, before, heap.cells, bits + [w], params, args)
  {
    hide Balanced, Grown, WellTyped, Handed, Read;
    ghost var s, now := heap.structs, heap.cells;
    var i := |bits|;
    assert ArgFits(s, params, args, i);
    HandedFits(s, before, now, bits, params, args);
    if args[i].Alias? {
      assert ArgFits(s, params, args, args[i].index);
      w := bits[args[i].index];
      heap.Retain(w, roots);
      RetainedStays(s, before, now, w, now[w].count + 1);
      BalancedIsTyped(s, heap.cells, roots + multiset{w});
      StillFits(now, heap.cells, w, params[i]);
    } else {
      w := Write(heap, args[i], params[i], roots);
      BalancedIsTyped(s, heap.cells, roots + RefOf(w, params[i]));
      GrownPreserves(s, now, heap.cells);
      StaysNew(s, before, now, heap.cells, w, args[i], params[i]);
      GrownTwice(s, before, now, heap.cells);
    }
    HandedFrame(s, before, now, heap.cells, bits, params, args);
    HandedAppend(s, before, heap.cells, bits, w, params, args);
  }

  method HandOver(heap: Objects, params: seq<Ty>, args: seq<Data>, ghost roots: multiset<Ref>) returns (bits: seq<Word>)
    requires heap.structs.Valid() && Balanced(heap.structs, heap.cells, roots)
    requires ArgsFit(heap.structs, params, args)
    requires forall i :: 0 <= i < |params| ==> InProgram(params[i], |heap.structs.defs|)
    modifies heap`cells
    ensures |bits| == |args| && Balanced(heap.structs, heap.cells, roots + Refs(bits, params))
    ensures WellTyped(heap.structs, heap.cells) && Grown(heap.structs, old(heap.cells), heap.cells)
    ensures Handed(heap.structs, old(heap.cells), heap.cells, bits, params, args)
  {
    hide Balanced, Grown, WellTyped, WrittenOne;
    ghost var s, before := heap.structs, heap.cells;
    bits := [];
    NothingGrown(s, before);
    BalancedIsTyped(s, before, roots);
    assert roots + multiset{} == roots;
    while |bits| < |args|
      invariant |bits| <= |args| && WellTyped(s, heap.cells)
      invariant Balanced(s, heap.cells, roots + Refs(bits, params[..|bits|]))
      invariant Grown(s, before, heap.cells)
      invariant Handed(s, before, heap.cells, bits, params, args)
    {
      ghost var held, i := roots + Refs(bits, params[..|bits|]), |bits|;
      var w := HandOverOne(heap, params, args, bits, before, held);
      RefsAppend(bits, params[..i], w, params[i]);
      assert params[..i + 1] == params[..i] + [params[i]];
      assert held + RefOf(w, params[i]) == roots + Refs(bits + [w], params[..i + 1]);
      bits := bits + [w];
    }
    assert params[..|bits|] == params;
  }

  // ── Kept arrays ──────────────────────────────────────────

  /** Keeps a second reference to every array argument. */
  method Keep(heap: Objects, words: seq<Word>, ghost before: Cells, ghost roots: multiset<Ref>)
    requires Balanced(heap.structs, heap.cells, roots)
    requires Grown(heap.structs, before, heap.cells)
    requires forall k :: 0 <= k < |words| ==> words[k] in heap.cells && words[k] !in before
    modifies heap`cells
    ensures Balanced(heap.structs, heap.cells, roots + multiset(words))
    ensures Grown(heap.structs, before, heap.cells) && Preserves(old(heap.cells), heap.cells)
  {
    hide Balanced, Grown;
    ghost var s, start := heap.structs, heap.cells;
    assert roots + multiset{} == roots;
    for k := 0 to |words|
      invariant Balanced(s, heap.cells, roots + multiset(words[..k]))
      invariant Grown(s, before, heap.cells) && Preserves(start, heap.cells)
    {
      ghost var now, held := heap.cells, roots + multiset(words[..k]);
      heap.Retain(words[k], held);
      RetainedStays(s, before, now, words[k], now[words[k]].count + 1);
      assert words[..k + 1] == words[..k] + [words[k]];
      assert held + multiset{words[k]} == roots + multiset(words[..k + 1]);
    }
    assert words[..|words|] == words;
  }

  /** Drops the references the boundary kept. */
  method Drop(heap: Objects, words: seq<Word>, tys: seq<Ty>, ghost roots: multiset<Ref>)
    requires heap.structs.Valid() && |words| == |tys|
    requires Balanced(heap.structs, heap.cells, roots + multiset(words))
    requires forall k :: 0 <= k < |words| ==> tys[k].IsHeap() && InProgram(tys[k], |heap.structs.defs|) && WordFits(heap.cells, words[k], tys[k])
    modifies heap`cells
    ensures Balanced(heap.structs, heap.cells, roots) && Shrunk(old(heap.cells), heap.cells)
  {
    hide Balanced, Shrunk;
    ghost var s, start := heap.structs, heap.cells;
    ShrunkByNothing(start);
    assert words[0..] == words;
    for k := 0 to |words|
      invariant Balanced(s, heap.cells, roots + multiset(words[k..]))
      invariant Shrunk(start, heap.cells)
    {
      ghost var now, held := heap.cells, roots + multiset(words[k..]);
      assert words[k..] == [words[k]] + words[k + 1..];
      RootIsLive(s, now, held, words[k]);
      ShrunkTypes(start, now, words[k]);
      heap.Release(words[k], Index(tys[k], |heap.structs.defs|), held);
      ShrunkTwice(start, now, heap.cells);
      assert held - multiset{words[k]} == roots + multiset(words[k + 1..]);
    }
    assert words[|words|..] == [] && roots + multiset{} == roots;
  }

  lemma ShrunkTypes(a: Cells, b: Cells, r: Ref)
    requires Shrunk(a, b) && r in b
    ensures r in a && a[r].ty == b[r].ty
  {
    assert SameObject(a, b, r);
  }

  // ── The call ─────────────────────────────────────────────

  lemma OldUntouched(s: Structs, before: Cells, entered: Cells, after: Cells, handed: multiset<Ref>,
                     others: multiset<Ref>)
    requires WellTyped(s, entered) && Grown(s, before, entered) && KeepsOthers(s, entered, after, handed, others)
    requires forall r :: r in handed ==> r in entered && r !in before
    ensures forall r :: r in before ==> r in after && after[r] == before[r]
  {
    var reach := entered.Keys - before.Keys;
    forall o, k: nat, r | o in reach && o in entered && SlotHolds(s, entered[o], k, r) ensures r in reach {
      SlotRefIsLive(s, entered, o, k, r);
    }
    assert Closed(s, entered, reach);
    forall r | r in before ensures r in after && after[r] == before[r] {
      assert r in entered && r !in reach;
    }
  }

  lemma {:induction false} RefIsWord(words: seq<Word>, tys: seq<Ty>, r: Ref)
    requires |words| == |tys| && r in Refs(words, tys)
    ensures exists i :: 0 <= i < |words| && words[i] == r && tys[i].IsHeap()
  {
    if !(tys[0].IsHeap() && words[0] == r) {
      RefIsWord(words[1..], tys[1..], r);
      var i :| 0 <= i < |words[1..]| && words[1..][i] == r && tys[1..][i].IsHeap();
      assert words[i + 1] == r && tys[i + 1].IsHeap();
    }
  }

  lemma HandedRefsAreNew(s: Structs, before: Cells, cells: Cells, bits: seq<Word>, params: seq<Ty>, args: seq<Data>)
    requires s.Valid() && WellTyped(s, cells) && Handed(s, before, cells, bits, params, args) && |bits| == |params|
    ensures forall r :: r in Refs(bits, params) ==> r in cells && r !in before
  {
    HandedFits(s, before, cells, bits, params, args);
    forall r | r in Refs(bits, params) ensures r in cells && r !in before {
      RefIsWord(bits, params, r);
      var i :| 0 <= i < |bits| && bits[i] == r && params[i].IsHeap();
      assert WordFits(cells, bits[i], params[i]);
    }
  }

  /** The kept arrays are in the heap, with their types. */
  ghost predicate KeptFit(cells: Cells, bits: seq<Word>, params: seq<Ty>, args: seq<Data>)
    requires |bits| == |args| == |params|
  {
    forall i: nat :: IsKept(params, args, i) ==> WordFits(cells, bits[i], params[i])
  }

  lemma KeptStillFit(s: Structs, a: Cells, b: Cells, bits: seq<Word>, params: seq<Ty>, args: seq<Data>,
                     others: multiset<Ref>, rest: multiset<Ref>)
    requires |bits| == |args| == |params| && KeptFit(a, bits, params, args)
    requires Balanced(s, b, rest) && multiset(At(bits, Kept(params, args, |args|))) <= others <= rest
    requires forall r :: r in others && r in a && r in b ==> a[r].ty == b[r].ty
    ensures KeptFit(b, bits, params, args)
  {
    var kept := Kept(params, args, |args|);
    forall i: nat | IsKept(params, args, i) ensures WordFits(b, bits[i], params[i]) {
      assert WordFits(a, bits[i], params[i]);
      var k :| 0 <= k < |kept| && kept[k] == i;
      assert At(bits, kept)[k] == bits[i];
      assert bits[i] in multiset(At(bits, kept));
      assert bits[i] in others && bits[i] in rest;
    }
  }

  lemma ShrunkKeepsTypes(a: Cells, b: Cells, held: multiset<Ref>)
    requires Shrunk(a, b)
    ensures forall r :: r in held && r in a && r in b ==> a[r].ty == b[r].ty
  {
    forall r | r in held && r in a && r in b ensures a[r].ty == b[r].ty {
      assert SameObject(a, b, r);
    }
  }

  lemma ShrunkReads(s: Structs, a: Cells, b: Cells, bits: Word, elem: Elem)
    requires s.Valid() && WellTyped(s, a) && WellTyped(s, b) && Shrunk(a, b)
    requires WordFits(b, bits, Array(elem)) && InProgram(Array(elem), |s.defs|)
    ensures WordFits(a, bits, Array(elem)) && Marshal.Items(s, b, bits, elem) == Marshal.Items(s, a, bits, elem)
  {
    assert Preserves(b, a) by {
      forall r | r in b ensures r in a && SameObject(b, a, r) {
        assert SameObject(a, b, r);
      }
    }
    ReadFrame(s, b, a, bits, Array(elem));
  }

  /** The content of the array arguments, when the function may have changed them. */
  method Collect(heap: Objects, entry: Entry, args: seq<Data>, bits: seq<Word>) returns (arrays: seq<Option<seq<Data>>>)
    requires heap.structs.Valid() && InProgramAll(heap.structs, entry) && WellTyped(heap.structs, heap.cells)
    requires |args| == |bits| == |entry.params| && KeptFit(heap.cells, bits, entry.params, args)
    ensures |arrays| == |args|
    ensures forall i: nat :: i < |args| ==>
      arrays[i] == if entry.mutates && IsKept(entry.params, args, i)
                   then Some(Marshal.Items(heap.structs, heap.cells, bits[i], entry.params[i].elem)) else None
  {
    hide WellTyped, Marshal.Items;
    var kept := Kept(entry.params, args, |args|);
    arrays := seq(|args|, _ => None);
    if entry.mutates {
      for k := 0 to |kept|
        invariant |arrays| == |args|
        invariant forall i: nat :: i < |args| && i !in kept[..k] ==> arrays[i] == None
        invariant forall j :: 0 <= j < k ==>
          arrays[kept[j]] == Some(Marshal.Items(heap.structs, heap.cells, bits[kept[j]], entry.params[kept[j]].elem))
      {
        var i := kept[k];
        assert kept[..k + 1] == kept[..k] + [i];
        arrays := arrays[i := Some(Marshal.Items(heap.structs, heap.cells, bits[i], entry.params[i].elem))];
      }
      assert kept[..|kept|] == kept;
    }
  }

  method FindKept(bits: seq<Word>, kept: seq<nat>, word: Word) returns (found: Option<nat>)
    requires forall k :: 0 <= k < |kept| ==> kept[k] < |bits|
    ensures found.Some? ==> found.value in kept && bits[found.value] == word
    ensures found.None? ==> forall k :: 0 <= k < |kept| ==> bits[kept[k]] != word
  {
    for k := 0 to |kept|
      invariant forall j :: 0 <= j < k ==> bits[kept[j]] != word
    {
      if bits[kept[k]] == word {
        return Some(kept[k]);
      }
    }
    return None;
  }

  /** What a successful call gives, its result released. */
  method Success(heap: Objects, entry: Entry, args: seq<Data>, bits: seq<Word>, word: Word, ghost others: multiset<Ref>)
    returns (r: Returned)
    requires heap.structs.Valid() && InProgramAll(heap.structs, entry) && WellTyped(heap.structs, heap.cells)
    requires Balanced(heap.structs, heap.cells, others + RefOf(word, entry.ret))
    requires WordFits(heap.cells, word, entry.ret)
    requires |args| == |bits| == |entry.params| && KeptFit(heap.cells, bits, entry.params, args)
    requires multiset(At(bits, Kept(entry.params, args, |args|))) <= others
    modifies heap`cells
    ensures Balanced(heap.structs, heap.cells, others) && Shrunk(old(heap.cells), heap.cells)
    ensures old(ReadsBack(heap.structs, entry, args, bits, heap.cells, word, r))
    ensures KeptFit(heap.cells, bits, entry.params, args)
  {
    hide Balanced, Shrunk, WellTyped, Read, Marshal.Items, ReadsBack, KeptFit, At;
    ghost var s, start := heap.structs, heap.cells;
    var kept := Kept(entry.params, args, |args|);
    var found := FindKept(bits, kept, word);
    var value := if found.Some? && entry.ret.Array? then Alias(found.value)
                 else Read(heap.structs, heap.cells, word, entry.ret);
    Marshal.Release(heap, word, entry.ret, others);
    BalancedIsTyped(s, heap.cells, others);
    ShrunkKeepsTypes(start, heap.cells, others);
    KeptStillFit(s, start, heap.cells, bits, entry.params, args, others, others);
    var arrays := Collect(heap, entry, args, bits);
    r := Returned(value, arrays);
    GivesBack(s, start, heap.cells, entry, args, bits, word, found, r);
  }

  /** Reading the kept arrays after the result is released gives what they held before. */
  lemma GivesBack(s: Structs, a: Cells, b: Cells, entry: Entry, args: seq<Data>, bits: seq<Word>, word: Word,
                  found: Option<nat>, r: Returned)
    requires s.Valid() && InProgramAll(s, entry) && WellTyped(s, a) && WellTyped(s, b) && Shrunk(a, b)
    requires |args| == |bits| == |entry.params| && WordFits(a, word, entry.ret)
    requires KeptFit(a, bits, entry.params, args) && KeptFit(b, bits, entry.params, args)
    requires found.Some? ==> IsKept(entry.params, args, found.value) && bits[found.value] == word
    requires found.None? ==> forall i: nat :: IsKept(entry.params, args, i) ==> bits[i] != word
    requires r.value == if found.Some? && entry.ret.Array? then Alias(found.value) else Read(s, a, word, entry.ret)
    requires |r.arrays| == |args|
    requires forall i: nat :: i < |args| ==>
      r.arrays[i] == if entry.mutates && IsKept(entry.params, args, i)
                     then Some(Marshal.Items(s, b, bits[i], entry.params[i].elem)) else None
    ensures ReadsBack(s, entry, args, bits, a, word, r)
  {
    ReadIsNoAlias(s, a, word, entry.ret);
    CollectedAlike(s, a, b, entry, args, bits);
  }

  lemma CollectedAlike(s: Structs, a: Cells, b: Cells, entry: Entry, args: seq<Data>, bits: seq<Word>)
    requires s.Valid() && InProgramAll(s, entry) && WellTyped(s, a) && WellTyped(s, b) && Shrunk(a, b)
    requires |args| == |bits| == |entry.params| && KeptFit(b, bits, entry.params, args)
    ensures KeptFit(a, bits, entry.params, args)
    ensures forall i: nat :: IsKept(entry.params, args, i) ==>
      Marshal.Items(s, a, bits[i], entry.params[i].elem) == Marshal.Items(s, b, bits[i], entry.params[i].elem)
  {
    forall i: nat | IsKept(entry.params, args, i)
      ensures WordFits(a, bits[i], entry.params[i])
      ensures Marshal.Items(s, a, bits[i], entry.params[i].elem) == Marshal.Items(s, b, bits[i], entry.params[i].elem)
    {
      assert WordFits(b, bits[i], entry.params[i]);
      ShrunkReads(s, a, b, bits[i], entry.params[i].elem);
    }
  }

  lemma ReadIsNoAlias(s: Structs, cells: Cells, bits: Word, ty: Ty)
    requires s.Valid() && WellTyped(s, cells) && WordFits(cells, bits, ty) && InProgram(ty, |s.defs|)
    ensures !Read(s, cells, bits, ty).Alias?
  {}

  /** The arguments that are arrays are in the heap. */
  ghost predicate ArraysFit(cells: Cells, bits: seq<Word>, params: seq<Ty>, args: seq<Data>)
    requires |bits| == |args| == |params|
  {
    forall i: nat :: i < |args| && args[i].ArrayData? ==> params[i].Array? && WordFits(cells, bits[i], params[i])
  }

  /** What a call gives back once native code returned `word`: an alias exactly for an array that is
      one of the arrays given, and otherwise the value `word` is; and, if the function modifies arrays,
      what each array given now holds. */
  ghost predicate GivenBack(s: Structs, entry: Entry, args: seq<Data>, bits: seq<Word>, cells: Cells, word: Word,
                            r: Returned)
    requires s.Valid() && InProgramAll(s, entry) && WellTyped(s, cells)
    requires |args| == |bits| == |entry.params| && WordFits(cells, word, entry.ret)
    requires ArraysFit(cells, bits, entry.params, args)
  {
    && (r.value.Alias? <==> entry.ret.Array? && exists i: nat :: i < |args| && args[i].ArrayData? && bits[i] == word)
    && (if r.value.Alias?
        then r.value.index < |args| && args[r.value.index].ArrayData? && bits[r.value.index] == word
        else r.value == Read(s, cells, word, entry.ret))
    && |r.arrays| == |args|
    && (forall i: nat :: i < |args| ==>
          r.arrays[i] == if entry.mutates && args[i].ArrayData?
                         then Some(Marshal.Items(s, cells, bits[i], entry.params[i].elem)) else None)
  }

  /** The arguments kept are the arrays given, aliases apart. */
  lemma KeptAreArrays(s: Structs, params: seq<Ty>, args: seq<Data>, i: nat)
    requires ArgsFit(s, params, args)
    ensures IsKept(params, args, i) <==> i < |args| && args[i].ArrayData?
  {
    if i < |args| {
      assert ArgFits(s, params, args, i);
    }
  }

  lemma ArraysAreKept(s: Structs, cells: Cells, params: seq<Ty>, args: seq<Data>, bits: seq<Word>)
    requires ArgsFit(s, params, args) && |bits| == |args| && KeptFit(cells, bits, params, args)
    ensures ArraysFit(cells, bits, params, args)
  {
    forall i: nat | i < |args| && args[i].ArrayData? ensures params[i].Array? && WordFits(cells, bits[i], params[i]) {
      KeptAreArrays(s, params, args, i);
    }
  }

  lemma ReadIsGiven(s: Structs, entry: Entry, args: seq<Data>, bits: seq<Word>, cells: Cells, word: Word, r: Returned)
    requires s.Valid() && InProgramAll(s, entry) && WellTyped(s, cells) && ArgsFit(s, entry.params, args)
    requires |args| == |bits| == |entry.params| && WordFits(cells, word, entry.ret)
    requires KeptFit(cells, bits, entry.params, args) && ArraysFit(cells, bits, entry.params, args)
    requires ReadsBack(s, entry, args, bits, cells, word, r)
    ensures GivenBack(s, entry, args, bits, cells, word, r)
  {
    hide WellTyped, Read, Marshal.Items, WordFits, ArgsFit;
    forall i: nat ensures IsKept(entry.params, args, i) <==> i < |args| && args[i].ArrayData? {
      KeptAreArrays(s, entry.params, args, i);
    }
  }

  /** What holds of a call: the words handed over are the arguments, and what is given back is what
      the heap held when native code returned. */
  ghost predicate Called(s: Structs, entry: Entry, code: Code, args: seq<Data>, before: Cells, entered: Cells,
                         bits: seq<Word>, r: Result<Returned, Failure>)
    requires s.Valid() && InProgramAll(s, entry)
  {
    var out := code(entered, bits);
    && |bits| == |args| == |entry.params| && WellTyped(s, entered) && Grown(s, before, entered)
    && Handed(s, before, entered, bits, entry.params, args)
    && WellTyped(s, out.cells) && ArraysFit(out.cells, bits, entry.params, args)
    && match out.result
       case Err(failure) => r == Err(failure)
       case Ok(word) =>
         r.Ok? && WordFits(out.cells, word, entry.ret) && GivenBack(s, entry, args, bits, out.cells, word, r.value)
  }

  lemma ArgsCount(s: Structs, params: seq<Ty>, args: seq<Data>)
    requires ArgsFit(s, params, args)
    ensures |args| == |params|
  {}

  lemma KeptAreNew(s: Structs, before: Cells, cells: Cells, bits: seq<Word>, params: seq<Ty>, args: seq<Data>)
    requires s.Valid() && WellTyped(s, cells) && Handed(s, before, cells, bits, params, args) && |bits| == |args|
    ensures KeptFit(cells, bits, params, args)
    ensures forall w :: w in At(bits, Kept(params, args, |args|)) ==> w in cells && w !in before
  {
    HandedFits(s, before, cells, bits, params, args);
    forall i: nat | IsKept(params, args, i) ensures WordFits(cells, bits[i], params[i]) {
      assert WordFits(cells, bits[i], params[i]);
    }
  }

  /** The arguments are ready, beside the references the boundary keeps. */
  lemma EntersReady(s: Structs, before: Cells, written: Cells, entered: Cells, params: seq<Ty>, args: seq<Data>,
                    bits: seq<Word>, held: multiset<Ref>)
    requires s.Valid() && WellTyped(s, written) && Handed(s, before, written, bits, params, args) && |bits| == |args|
    requires Balanced(s, entered, held) && Preserves(written, entered) && Refs(bits, params) <= held
    ensures WellTyped(s, entered) && Handed(s, before, entered, bits, params, args)
    ensures Ready(s, entered, bits, params, held) && KeptFit(entered, bits, params, args)
    ensures forall r :: r in Refs(bits, params) ==> r in entered && r !in before
  {
    HandedFrame(s, before, written, entered, bits, params, args);
    HandedFits(s, before, entered, bits, params, args);
    HandedRefsAreNew(s, before, entered, bits, params, args);
    KeptAreNew(s, before, entered, bits, params, args);
  }

  /** Once native code returns: the result and the kept arrays are held, nothing older changed. */
  lemma Returns(s: Structs, before: Cells, entered: Cells, entry: Entry, code: Code, args: seq<Data>, bits: seq<Word>,
                others: multiset<Ref>)
    requires s.Valid() && Conforms(s, entry, code) && |bits| == |args| == |entry.params|
    requires Ready(s, entered, bits, entry.params, others + Refs(bits, entry.params))
    requires KeptFit(entered, bits, entry.params, args) && Grown(s, before, entered) && WellTyped(s, entered)
    requires forall r :: r in Refs(bits, entry.params) ==> r in entered && r !in before
    requires multiset(At(bits, Kept(entry.params, args, |args|))) <= others
    ensures var out := code(entered, bits);
      && WellTyped(s, out.cells) && KeptFit(out.cells, bits, entry.params, args)
      && (forall r :: r in before ==> r in out.cells && out.cells[r] == before[r])
      && (if out.result.Ok? then WordFits(out.cells, out.result.value, entry.ret)
                                 && Balanced(s, out.cells, others + RefOf(out.result.value, entry.ret))
          else Balanced(s, out.cells, others))
  {
    hide Balanced, Grown, WellTyped, KeptFit, Refs, KeepsOthers, Closed, WordsFit, At;
    var held := others + Refs(bits, entry.params);
    var out := code(entered, bits);
    assert Consumes(s, entry, entered, bits, held, out);
    assert held - Refs(bits, entry.params) == others && others + multiset{} == others;
    OldUntouched(s, before, entered, out.cells, Refs(bits, entry.params), others);
    var rest := others + (if out.result.Ok? then RefOf(out.result.value, entry.ret) else multiset{});
    BalancedIsTyped(s, out.cells, rest);
    OthersKeepTypes(s, entered, out.cells, Refs(bits, entry.params), others);
    KeptStillFit(s, entered, out.cells, bits, entry.params, args, others, rest);
  }

  lemma OthersKeepTypes(s: Structs, before: Cells, after: Cells, handed: multiset<Ref>, others: multiset<Ref>)
    requires KeepsOthers(s, before, after, handed, others)
    ensures forall r :: r in others && r in before && r in after ==> before[r].ty == after[r].ty
  {}

  lemma KeptWordsFit(cells: Cells, bits: seq<Word>, params: seq<Ty>, args: seq<Data>)
    requires |bits| == |args| == |params| && KeptFit(cells, bits, params, args)
    ensures var kept := Kept(params, args, |args|);
      forall k :: 0 <= k < |kept| ==> params[kept[k]].Array? && WordFits(cells, At(bits, kept)[k], params[kept[k]])
  {}

  lemma OldAgrees(before: Cells, mid: Cells, after: Cells)
    requires Shrunk(mid, after) && forall r :: r in before ==> r in mid && mid[r] == before[r]
    ensures Agree(before, after)
  {
    forall r | r in before && r in after ensures SameObject(before, after, r) {
      assert SameObject(mid, after, r);
    }
  }

  /** Calls `code`, if the function is compiled and the arguments have exactly its parameter types, an
      alias being of an earlier array argument with the same type. Whatever the outcome, the heap is
      left as it was: every object made for the call has been freed, once. */
  method Call(heap: Objects, entry: Option<Entry>, code: Code, args: seq<Data>, ghost roots: multiset<Ref>)
    returns (outcome: Option<Result<Returned, Failure>>, ghost entered: Cells, ghost bits: seq<Word>)
    requires heap.structs.Valid() && Balanced(heap.structs, heap.cells, roots)
    requires entry.Some? ==> InProgramAll(heap.structs, entry.value) && Conforms(heap.structs, entry.value, code)
    modifies heap`cells
    ensures heap.cells == old(heap.cells)
    ensures outcome.Some? <==>
      && entry.Some? && |args| == |entry.value.params|
      && (forall i :: 0 <= i < |args| ==>
            if args[i].Alias? then
              var j := args[i].index;
              j < i && entry.value.params[j] == entry.value.params[i] && args[j].ArrayData?
            else Marshal.Fits(heap.structs, args[i], entry.value.params[i]))
    ensures outcome.Some? ==> Called(heap.structs, entry.value, code, args, heap.cells, entered, bits, outcome.value)
  {
    hide Called, Conforms, Balanced, ArgsFit, Marshal.Fits, InProgramAll;
    entered, bits := heap.cells, [];
    if entry.Some? {
      ArgsFitMeans(heap.structs, entry.value.params, args);
    }
    if entry.None? || !ArgsFit(heap.structs, entry.value.params, args) {
      return None, entered, bits;
    }
    var r;
    r, entered, bits := Run(heap, entry.value, code, args, roots);
    outcome := Some(r);
  }

  lemma ArgsFitMeans(s: Structs, params: seq<Ty>, args: seq<Data>)
    ensures ArgsFit(s, params, args) <==>
      && |args| == |params|
      && (forall i :: 0 <= i < |args| ==>
            if args[i].Alias? then
              var j := args[i].index; j < i && params[j] == params[i] && args[j].ArrayData?
            else Marshal.Fits(s, args[i], params[i]))
  {
    hide Marshal.Fits;
    if |args| == |params| {
      forall i | 0 <= i < |args|
        ensures ArgFits(s, params, args, i) <==>
          if args[i].Alias? then
            var j := args[i].index; j < i && params[j] == params[i] && args[j].ArrayData?
          else Marshal.Fits(s, args[i], params[i])
      {}
    }
  }

  /** The arguments handed over, and the words of the arrays kept. */
  method Enter(heap: Objects, params: seq<Ty>, args: seq<Data>, ghost roots: multiset<Ref>)
    returns (bits: seq<Word>, words: seq<Word>)
    requires heap.structs.Valid() && Balanced(heap.structs, heap.cells, roots) && ArgsFit(heap.structs, params, args)
    requires |args| == |params| && forall i :: 0 <= i < |params| ==> InProgram(params[i], |heap.structs.defs|)
    modifies heap`cells
    ensures |bits| == |args| && words == At(bits, Kept(params, args, |args|))
    ensures WellTyped(heap.structs, heap.cells) && Grown(heap.structs, old(heap.cells), heap.cells)
    ensures Handed(heap.structs, old(heap.cells), heap.cells, bits, params, args)
    ensures Ready(heap.structs, heap.cells, bits, params, roots + multiset(words) + Refs(bits, params))
    ensures KeptFit(heap.cells, bits, params, args)
    ensures forall r :: r in Refs(bits, params) ==> r in heap.cells && r !in old(heap.cells)
  {
    hide Balanced, Grown, WellTyped, Handed, Refs, KeptFit, ArgsFit, Ready, Preserves;
    ghost var s, before := heap.structs, heap.cells;
    bits := HandOver(heap, params, args, roots);
    words := At(bits, Kept(params, args, |args|));
    KeptAreNew(s, before, heap.cells, bits, params, args);
    ghost var written := heap.cells;
    Keep(heap, words, before, roots + Refs(bits, params));
    ghost var held := roots + multiset(words) + Refs(bits, params);
    assert roots + Refs(bits, params) + multiset(words) == held;
    EntersReady(s, before, written, heap.cells, params, args, bits, held);
  }

  method Run(heap: Objects, entry: Entry, code: Code, args: seq<Data>, ghost roots: multiset<Ref>)
    returns (r: Result<Returned, Failure>, ghost entered: Cells, ghost handed: seq<Word>)
    requires heap.structs.Valid() && Balanced(heap.structs, heap.cells, roots)
    requires InProgramAll(heap.structs, entry) && Conforms(heap.structs, entry, code)
    requires ArgsFit(heap.structs, entry.params, args)
    modifies heap`cells
    ensures heap.cells == old(heap.cells)
    ensures Called(heap.structs, entry, code, args, heap.cells, entered, handed, r)
  {
    hide Balanced, Shrunk, Grown, WellTyped, Conforms, Handed, Refs, KeptFit, ReadsBack, Index, ArgsFit, Ready;
    hide Preserves, Agree, ArraysFit, GivenBack;
    ghost var s, before := heap.structs, heap.cells;
    var params := entry.params;
    ArgsCount(s, params, args);
    var bits, words := Enter(heap, params, args, roots);
    var kept := Kept(params, args, |args|);
    entered, handed := heap.cells, bits;
    ghost var others := roots + multiset(words);
    var out := code(heap.cells, bits);
    Returns(s, before, entered, entry, code, args, bits, others);
    ArraysAreKept(s, out.cells, params, args, bits);
    heap.cells := out.cells;
    match out.result {
      case Err(failure) =>
        r := Err(failure);
        ShrunkByNothing(out.cells);
      case Ok(word) =>
        var returned := Success(heap, entry, args, bits, word, others);
        r := Ok(returned);
        ReadIsGiven(s, entry, args, bits, out.cells, word, returned);
    }
    ghost var settled := heap.cells;
    KeptWordsFit(settled, bits, params, args);
    Drop(heap, words, seq(|kept|, k requires 0 <= k < |kept| => params[kept[k]]), roots);
    ShrunkTwice(out.cells, settled, heap.cells);
    OldAgrees(before, out.cells, heap.cells);
    SameRootsSameHeap(s, before, heap.cells, roots);
  }
}
