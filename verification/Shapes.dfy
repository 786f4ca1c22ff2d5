/** The numbering of the shapes of a program, which tell how objects are released. */
module Shapes {
  import opened Wrappers
  import opened NativeTypes

  datatype ShapeKind = StrShape | ArrayShape | RecordShape

  /** A kind, and for each slot the number of the shape of what it points to, if anything. */
  datatype Shape = Shape(kind: ShapeKind, slots: seq<Option<nat>>)

  function StructElems(from: nat, structs: nat): (r: seq<Elem>)
    requires from <= structs
    ensures |r| == structs - from && forall i :: 0 <= i < |r| ==> r[i] == StructElem(from + i)
    decreases structs - from
  {
    if from == structs then [] else [StructElem(from)] + StructElems(from + 1, structs)
  }

  /** Element types of arrays, in shape order. */
  function ArrayElems(structs: nat): seq<Elem> {
    [IntElem, FloatElem, BoolElem, StrElem, UnknownElem] + StructElems(0, structs)
  }

  /** Number of shapes of a program with `structs` structs. */
  function Count(structs: nat): nat { 1 + structs + |ArrayElems(structs)| }

  function Position(elems: seq<Elem>, elem: Elem): (r: Option<nat>)
    ensures r.Some? ==> r.value < |elems| && elems[r.value] == elem
    ensures r.Some? <==> elem in elems
  {
    if elems == [] then None
    else if elems[0] == elem then Some(0)
    else match Position(elems[1..], elem) case None => None case Some(i) => Some(i + 1)
  }

  predicate InProgram(ty: Ty, structs: nat) {
    match ty
    case Struct(id) => id < structs
    case Array(StructElem(id)) => id < structs
    case _ => true
  }

  lemma ElemIsListed(elem: Elem, structs: nat)
    requires InProgram(Array(elem), structs)
    ensures elem in ArrayElems(structs)
  {
    match elem
    case StructElem(id) => assert ArrayElems(structs)[5 + id] == elem;
    case IntElem => assert ArrayElems(structs)[0] == elem;
    case FloatElem => assert ArrayElems(structs)[1] == elem;
    case BoolElem => assert ArrayElems(structs)[2] == elem;
    case StrElem => assert ArrayElems(structs)[3] == elem;
    case UnknownElem => assert ArrayElems(structs)[4] == elem;
  }

  /** Position of the shape of `ty`, a heap type. */
  function Index(ty: Ty, structs: nat): nat
    requires ty.IsHeap() && InProgram(ty, structs)
  {
    match ty
    case Str => 0
    case Struct(id) => 1 + id
    case Array(elem) => ElemIsListed(elem, structs); 1 + structs + Position(ArrayElems(structs), elem).value
  }

  /** Shape of what a slot holding a `ty` points to, if anything. */
  function Slot(ty: Option<Ty>, structs: nat): Option<nat>
    requires ty.Some? ==> InProgram(ty.value, structs)
  {
    if ty.Some? && ty.value.IsHeap() then Some(Index(ty.value, structs)) else None
  }

  function FieldSlots(fields: seq<(string, Ty)>, structs: nat): (r: seq<Option<nat>>)
    requires forall i :: 0 <= i < |fields| ==> InProgram(fields[i].1, structs)
    ensures |r| == |fields| && forall i :: 0 <= i < |r| ==> r[i] == Slot(Some(fields[i].1), structs)
  {
    if fields == [] then [] else [Slot(Some(fields[0].1), structs)] + FieldSlots(fields[1..], structs)
  }

  /** Kind and slots of shape `i`. */
  function Describe(i: nat, s: Structs): Shape
    requires s.Valid() && i < Count(|s.defs|)
  {
    var n := |s.defs|;
    if i == 0 then Shape(StrShape, [])
    else if i <= n then
      var fields := s.defs[i - 1].fields;
      assert forall k :: 0 <= k < |fields| ==> s.FieldFits(i - 1, fields[k].1);
      Shape(RecordShape, FieldSlots(fields, n))
    else
      Shape(ArrayShape, [Slot(ArrayElems(n)[i - 1 - n].Type(), n)])
  }

  /** The shape a type calls for. */
  function ShapeOf(ty: Ty, s: Structs): Shape
    requires s.Valid() && ty.IsHeap() && InProgram(ty, |s.defs|)
  {
    match ty
    case Str => Shape(StrShape, [])
    case Array(elem) => Shape(ArrayShape, [Slot(elem.Type(), |s.defs|)])
    case Struct(id) =>
      assert forall k :: 0 <= k < |s.defs[id].fields| ==> s.FieldFits(id, s.defs[id].fields[k].1);
      Shape(RecordShape, FieldSlots(s.defs[id].fields, |s.defs|))
  }

  /** Every heap type has a shape of its own, below the count, described as the type calls for. */
  lemma IndexDescribes(ty: Ty, s: Structs)
    requires s.Valid() && ty.IsHeap() && InProgram(ty, |s.defs|)
    ensures Index(ty, |s.defs|) < Count(|s.defs|)
    ensures Describe(Index(ty, |s.defs|), s) == ShapeOf(ty, s)
  {
    if ty.Array? {
      ElemIsListed(ty.elem, |s.defs|);
    }
  }

  lemma IndexIsInjective(a: Ty, b: Ty, structs: nat)
    requires a.IsHeap() && InProgram(a, structs) && b.IsHeap() && InProgram(b, structs)
    ensures Index(a, structs) == Index(b, structs) <==> a == b
  {
    if a.Array? {
      ElemIsListed(a.elem, structs);
    }
    if b.Array? {
      ElemIsListed(b.elem, structs);
    }
  }
}
