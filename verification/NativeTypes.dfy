/** The types of the values native code handles, and the structs they name. */
module NativeTypes {
  import opened Wrappers

  type StructId = nat

  /** Type of an array element or of a struct field. */
  datatype Elem = IntElem | FloatElem | BoolElem | StrElem | StructElem(id: StructId) | UnknownElem {
    function Type(): Option<Ty> {
      match this
      case IntElem => Some(Int)
      case FloatElem => Some(Float)
      case BoolElem => Some(Bool)
      case StrElem => Some(Str)
      case StructElem(id) => Some(Struct(id))
      case UnknownElem => None
    }
  }

  datatype Ty = Int | Float | Bool | Str | Array(elem: Elem) | Struct(id: StructId) {
    /** A reference-counted object. */
    predicate IsHeap() { Str? || Array? || Struct? }

    function AsElem(): Option<Elem> {
      match this
      case Int => Some(IntElem)
      case Float => Some(FloatElem)
      case Bool => Some(BoolElem)
      case Str => Some(StrElem)
      case Struct(id) => Some(StructElem(id))
      case Array(_) => None
    }
  }

  datatype StructDef = StructDef(name: string, fields: seq<(string, Ty)>)

  /** The native structs. `rank` witnesses that no struct contains itself. */
  datatype Structs = Structs(defs: seq<StructDef>, rank: seq<nat>) {
    ghost predicate Valid() {
      && |rank| == |defs|
      && forall i, k :: 0 <= i < |defs| && 0 <= k < |defs[i].fields| ==> FieldFits(i, defs[i].fields[k].1)
    }

    predicate FieldFits(i: StructId, ty: Ty)
      requires i < |rank|
    {
      match ty
      case Array(_) => false
      case Struct(j) => j < |defs| && j < |rank| && rank[j] < rank[i]
      case _ => true
    }

    /** Above the ranks of all it contains. */
    function Rank(ty: Ty): nat {
      match ty
      case Struct(id) => if id < |rank| then 1 + rank[id] else 0
      case Array(elem) => if elem.Type().Some? then 1 + ElemRank(elem) else 1
      case _ => 0
    }

    function ElemRank(elem: Elem): nat {
      match elem
      case StructElem(id) => if id < |rank| then 1 + rank[id] else 0
      case _ => 0
    }
  }
}
