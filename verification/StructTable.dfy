/** The structs native code can build and read: those of a finite size, all of whose fields are
    annotated with native types other than arrays. */
module StructTable {
  import opened Wrappers
  import opened NativeTypes

  // ── Declarations ─────────────────────────────────────────

  datatype Type = Named(path: seq<string>, args: seq<Type>) | OtherType

  datatype Member = Field(name: string, isIvar: bool, ty: Option<Type>) | OtherMember

  datatype TypeDef = TypeDef(name: string, isStruct: bool, members: seq<Member>)

  datatype Item = TypeItem(def: TypeDef) | OtherItem

  type Types = map<string, TypeDef>

  /** The types by name: the last definition of a name counts. */
  function TypesOf(items: seq<Item>): (types: Types)
    ensures forall name :: name in types ==> types[name].name == name && TypeItem(types[name]) in items
  {
    if items == [] then map[]
    else
      var last := items[|items| - 1];
      var types := TypesOf(items[..|items| - 1]);
      if last.TypeItem? then types[last.def.name := last.def] else types
  }

  /** Item `i` defines `name`, and no later one does. */
  predicate IsLastOf(items: seq<Item>, i: nat, name: string) {
    && i < |items| && items[i].TypeItem? && items[i].def.name == name
    && forall j :: i < j < |items| && items[j].TypeItem? ==> items[j].def.name != name
  }

  lemma {:induction false} LastDefinitionCounts(items: seq<Item>, i: nat, name: string)
    requires IsLastOf(items, i, name)
    ensures name in TypesOf(items) && TypesOf(items)[name] == items[i].def
  {
    var before := items[..|items| - 1];
    if i < |before| {
      assert IsLastOf(before, i, name);
      LastDefinitionCounts(before, i, name);
    }
  }

  predicate IsUntyped(m: Member) { m.Field? && !m.isIvar && m.ty.None? }

  predicate HasUntyped(def: TypeDef) { exists i :: 0 <= i < |def.members| && IsUntyped(def.members[i]) }

  /** The annotated fields, instance variables apart. */
  function FieldsOf(members: seq<Member>): seq<(string, Type)> {
    if members == [] then []
    else
      var rest := FieldsOf(members[1..]);
      match members[0]
      case Field(name, false, Some(ty)) => [(name, ty)] + rest
      case _ => rest
  }

  /** They are, in order, those of the members one after the other. */
  lemma {:induction false} FieldsInOrder(a: seq<Member>, m: Member, b: seq<Member>)
    ensures FieldsOf(a + [m] + b) ==
      FieldsOf(a) + (if m.Field? && !m.isIvar && m.ty.Some? then [(m.name, m.ty.value)] else []) + FieldsOf(b)
  {
    var all := a + [m] + b;
    if a == [] {
      assert all[1..] == b;
    } else {
      assert all[1..] == a[1..] + [m] + b;
      FieldsInOrder(a[1..], m, b);
    }
  }

  /** A struct has a field without annotation if one of its members is one, instance variables apart. */
  lemma UntypedAnywhere(def: TypeDef, a: seq<Member>, m: Member, b: seq<Member>)
    ensures HasUntyped(def.(members := a + [m] + b)) <==>
      || (m.Field? && !m.isIvar && m.ty.None?) || HasUntyped(def.(members := a)) || HasUntyped(def.(members := b))
  {
    var all := a + [m] + b;
    assert forall i :: 0 <= i < |a| ==> all[i] == a[i];
    assert all[|a|] == m;
    assert forall i :: 0 <= i < |b| ==> all[|a| + 1 + i] == b[i];
  }

  predicate IsScalar(name: string) { name == "Int" || name == "Float" || name == "Bool" || name == "String" }

  /** The name an annotation consists of, if it is one name. */
  predicate IsPlain(ty: Type) { ty.Named? && ty.args == [] && |ty.path| == 1 }

  // ── Finite structs ───────────────────────────────────────

  predicate FieldIsWithin(types: Types, ty: Type, k: nat)
    decreases k, 1
  {
    IsPlain(ty) && (IsScalar(ty.path[0]) || (k > 0 && IsWithin(types, ty.path[0], k - 1)))
  }

  /** `name` is a struct all of whose fields have annotations that end in scalars, through at most
      `k` other structs one inside the other. */
  predicate IsWithin(types: Types, name: string, k: nat)
    decreases k, 2
  {
    && name in types && types[name].isStruct && !HasUntyped(types[name])
    && var fields := FieldsOf(types[name].members);
       forall i :: 0 <= i < |fields| ==> FieldIsWithin(types, fields[i].1, k)
  }

  ghost predicate IsFinite(types: Types, name: string) { exists k: nat :: IsWithin(types, name, k) }

  lemma {:induction false} WithinMore(types: Types, name: string, j: nat, k: nat)
    requires IsWithin(types, name, j) && j <= k
    ensures IsWithin(types, name, k)
    decreases j
  {
    var fields := FieldsOf(types[name].members);
    forall i | 0 <= i < |fields| ensures FieldIsWithin(types, fields[i].1, k) {
      assert FieldIsWithin(types, fields[i].1, j);
      if !IsScalar(fields[i].1.path[0]) {
        WithinMore(types, fields[i].1.path[0], j - 1, k - 1);
      }
    }
  }

  // ── Chains of fields ─────────────────────────────────────

  /** Struct `a` has a field annotated `b`, which is not a scalar. */
  predicate Holds(types: Types, a: string, b: string) {
    a in types && types[a].isStruct && !IsScalar(b) &&
    exists i :: 0 <= i < |FieldsOf(types[a].members)| && FieldsOf(types[a].members)[i].1 == Named([b], [])
  }

  /** Each name is that of a field of the struct before it. */
  ghost predicate IsChain(types: Types, path: seq<string>) {
    forall i :: 0 <= i < |path| - 1 ==> Holds(types, path[i], path[i + 1])
  }

  /** A struct whose fields are all annotated with a single name. */
  predicate IsPlainStruct(types: Types, name: string) {
    && name in types && types[name].isStruct && !HasUntyped(types[name])
    && var fields := FieldsOf(types[name].members); forall i :: 0 <= i < |fields| ==> IsPlain(fields[i].1)
  }

  ghost predicate NoRepeat(path: seq<string>) { forall i, j :: 0 <= i < j < |path| ==> path[i] != path[j] }

  /** Every chain of fields from `name` goes through plain structs, and never comes back: it ends
      in scalars. */
  ghost predicate ChainsEnd(types: Types, name: string) {
    forall path: seq<string> :: path != [] && path[0] == name && IsChain(types, path) ==>
      NoRepeat(path) && IsPlainStruct(types, path[|path| - 1])
  }

  lemma HeldIsWithin(types: Types, a: string, b: string, k: nat)
    requires IsWithin(types, a, k) && Holds(types, a, b)
    ensures k > 0 && IsWithin(types, b, k - 1)
  {
    var fields := FieldsOf(types[a].members);
    var i :| 0 <= i < |fields| && fields[i].1 == Named([b], []);
    assert FieldIsWithin(types, fields[i].1, k);
  }

  lemma {:induction false} ChainIsWithin(types: Types, path: seq<string>, k: nat)
    requires path != [] && IsChain(types, path) && IsWithin(types, path[0], k)
    ensures |path| <= k + 1 && IsWithin(types, path[|path| - 1], k + 1 - |path|)
  {
    if |path| > 1 {
      assert Holds(types, path[0], path[1]);
      HeldIsWithin(types, path[0], path[1], k);
      ChainIsWithin(types, path[1..], k - 1);
    }
  }

  /** A struct that holds itself, however deep, is not finite. */
  lemma {:induction false} CycleIsNotWithin(types: Types, path: seq<string>, k: nat)
    requires |path| >= 2 && IsChain(types, path) && path[0] == path[|path| - 1]
    ensures !IsWithin(types, path[0], k)
    decreases k
  {
    if IsWithin(types, path[0], k) {
      ChainIsWithin(types, path, k);
      CycleIsNotWithin(types, path, k + 1 - |path|);
    }
  }

  lemma FiniteChainsEnd(types: Types, name: string)
    requires IsFinite(types, name)
    ensures ChainsEnd(types, name)
  {
    var k: nat :| IsWithin(types, name, k);
    forall path: seq<string> | path != [] && path[0] == name && IsChain(types, path)
      ensures NoRepeat(path) && IsPlainStruct(types, path[|path| - 1])
    {
      ChainIsWithin(types, path, k);
      var last, left := path[|path| - 1], k + 1 - |path|;
      var fields := FieldsOf(types[last].members);
      forall i | 0 <= i < |fields| ensures IsPlain(fields[i].1) {
        assert FieldIsWithin(types, fields[i].1, left);
      }
      forall i, j | 0 <= i < j < |path| ensures path[i] != path[j] {
        ChainIsWithin(types, path[..i + 1], k);
        if path[i] == path[j] {
          CycleIsNotWithin(types, path[i..j + 1], k - i);
        }
      }
    }
  }

  /** Chains without repetition are no longer than there are types. */
  lemma {:induction false} DistinctBound(path: seq<string>, names: set<string>)
    requires NoRepeat(path) && forall i :: 0 <= i < |path| ==> path[i] in names
    ensures |path| <= |names|
  {
    if path != [] {
      DistinctBound(path[1..], names - {path[0]});
    }
  }

  /** The end of a chain whose continuations all end is within what is left of the bound. */
  lemma {:induction false} EndIsWithin(types: Types, path: seq<string>)
    requires path != [] && IsChain(types, path) && ChainsEnd(types, path[0])
    requires forall i :: 0 <= i < |path| ==> path[i] in types
    ensures |path| <= |types| && IsWithin(types, path[|path| - 1], |types| - |path|)
    decreases |types| - |path|
  {
    DistinctBound(path, types.Keys);
    assert |types.Keys| == |types|;
    var last := path[|path| - 1];
    var fields := FieldsOf(types[last].members);
    forall i | 0 <= i < |fields| ensures FieldIsWithin(types, fields[i].1, |types| - |path|) {
      assert IsPlain(fields[i].1);
      var f := fields[i].1.path[0];
      if !IsScalar(f) {
        assert fields[i].1 == Named([f], []);
        assert Holds(types, last, f);
        var longer := path + [f];
        assert IsChain(types, longer);
        assert IsPlainStruct(types, longer[|longer| - 1]);
        DistinctBound(longer, types.Keys);
        EndIsWithin(types, longer);
      }
    }
  }

  /** A struct is finite exactly when every chain of its fields ends in scalars. */
  lemma FiniteIffChainsEnd(types: Types, name: string)
    ensures IsFinite(types, name) <==> ChainsEnd(types, name)
  {
    if IsFinite(types, name) {
      FiniteChainsEnd(types, name);
    }
    if ChainsEnd(types, name) {
      assert IsChain(types, [name]);
      assert IsPlainStruct(types, [name][|[name]| - 1]);
      EndIsWithin(types, [name]);
    }
  }

  // ── The search ───────────────────────────────────────────

  /** The field is a scalar or a finite struct. */
  ghost predicate FieldIsFinite(types: Types, ty: Type) {
    IsPlain(ty) && (IsScalar(ty.path[0]) || IsFinite(types, ty.path[0]))
  }

  lemma FiniteFields(types: Types, name: string)
    requires IsFinite(types, name)
    ensures var fields := FieldsOf(types[name].members); forall i :: 0 <= i < |fields| ==> FieldIsFinite(types, fields[i].1)
  {
    var k: nat :| IsWithin(types, name, k);
    var fields := FieldsOf(types[name].members);
    forall i | 0 <= i < |fields| ensures FieldIsFinite(types, fields[i].1) {
      assert FieldIsWithin(types, fields[i].1, k);
      assert IsScalar(fields[i].1.path[0]) || IsWithin(types, fields[i].1.path[0], k - 1);
    }
  }

  lemma {:induction false} CommonBound(types: Types, fields: seq<(string, Type)>) returns (k: nat)
    requires forall i :: 0 <= i < |fields| ==> FieldIsFinite(types, fields[i].1)
    ensures forall i :: 0 <= i < |fields| ==> FieldIsWithin(types, fields[i].1, k)
  {
    k := 0;
    if fields != [] {
      var rest := CommonBound(types, fields[1..]);
      assert FieldIsFinite(types, fields[0].1);
      var f := fields[0].1.path[0];
      var own: nat := 0;
      if !IsScalar(f) {
        var inner: nat :| IsWithin(types, f, inner);
        own := inner + 1;
      }
      k := if own > rest then own else rest;
      forall i | 0 <= i < |fields| ensures FieldIsWithin(types, fields[i].1, k) {
        var g := fields[i].1;
        if i > 0 {
          assert fields[1..][i - 1] == fields[i];
          assert FieldIsWithin(types, g, rest);
        } else {
          assert FieldIsWithin(types, g, own);
        }
        if !IsScalar(g.path[0]) {
          WithinMore(types, g.path[0], (if i > 0 then rest else own) - 1, k - 1);
        }
      }
    }
  }

  lemma FiniteFromFields(types: Types, name: string)
    requires name in types && types[name].isStruct && !HasUntyped(types[name])
    requires var fields := FieldsOf(types[name].members); forall i :: 0 <= i < |fields| ==> FieldIsFinite(types, fields[i].1)
    ensures IsFinite(types, name)
  {
    var fields := FieldsOf(types[name].members);
    forall i | 0 <= i < |fields| ensures FieldIsFinite(types, fields[i].1) {
      assert FieldIsFinite(types, FieldsOf(types[name].members)[i].1);
    }
    var k := CommonBound(types, fields);
    assert IsWithin(types, name, k);
  }

  lemma BackToVisiting(types: Types, visiting: seq<string>, name: string)
    requires visiting != [] && IsSearch(types, visiting) && name in visiting
    requires Holds(types, visiting[|visiting| - 1], name)
    ensures !IsFinite(types, name)
  {
    var i :| 0 <= i < |visiting| && visiting[i] == name;
    var path := visiting[i..] + [name];
    assert IsChain(types, path);
    forall k: nat ensures !IsWithin(types, name, k) {
      CycleIsNotWithin(types, path, k);
    }
  }

  /** Distinct types, each held by the one before. */
  ghost predicate IsSearch(types: Types, visiting: seq<string>) {
    IsChain(types, visiting) && NoRepeat(visiting) && forall i :: 0 <= i < |visiting| ==> visiting[i] in types
  }

  lemma SearchDeeper(types: Types, visiting: seq<string>, name: string)
    requires IsSearch(types, visiting) && name in types && name !in visiting
    requires visiting != [] ==> Holds(types, visiting[|visiting| - 1], name)
    ensures IsSearch(types, visiting + [name]) && |visiting| + 1 <= |types|
  {
    DistinctBound(visiting + [name], types.Keys);
    assert |types.Keys| == |types|;
  }

  lemma OnlyPlainAreFinite(types: Types, name: string)
    ensures IsFinite(types, name) ==> name in types && types[name].isStruct && !HasUntyped(types[name])
  {}

  /** The search for finite structs: what is known, and the structs being searched. */
  class Search {
    const types: Types
    var memo: map<string, bool>
    var visiting: seq<string>

    constructor (types: Types)
      ensures this.types == types && Valid() && visiting == []
    {
      this.types := types;
      memo := map[];
      visiting := [];
    }

    /** What is remembered is right, and each struct being searched holds the next. */
    ghost predicate Valid()
      reads this
    {
      && (forall name :: name in memo ==> (memo[name] <==> IsFinite(types, name)))
      && IsSearch(types, visiting)
    }

    /** The answer is right even for a struct found while others are being searched: a struct
        refused because it leads back to one of them is held by it. */
    method IsNative(name: string) returns (native: bool)
      requires Valid() && (visiting != [] ==> Holds(types, visiting[|visiting| - 1], name))
      modifies this
      ensures Valid() && visiting == old(visiting)
      ensures native <==> IsFinite(types, name)
      decreases |types| - |visiting|, 0
    {
      hide IsFinite, IsWithin, HasUntyped, FieldsOf, IsSearch, Holds;
      OnlyPlainAreFinite(types, name);
      if name in memo {
        return memo[name];
      }
      if name !in types || !types[name].isStruct {
        return false;
      }
      if name in visiting {
        BackToVisiting(types, visiting, name);
        return false;
      }
      var def := types[name];
      SearchDeeper(types, visiting, name);
      visiting := visiting + [name];
      native := !HasUntyped(def);
      if native {
        native := AllNative(name);
      }
      if native {
        FiniteFromFields(types, name);
      }
      visiting := visiting[..|visiting| - 1];
      memo := memo[name := native];
    }

    /** Every annotated field of `name`, the struct being searched, is a scalar or a native struct. */
    method AllNative(name: string) returns (native: bool)
      requires Valid() && visiting != [] && visiting[|visiting| - 1] == name
      requires types[name].isStruct && |visiting| <= |types|
      modifies this
      ensures Valid() && visiting == old(visiting)
      ensures native ==> var fields := FieldsOf(types[name].members);
                         forall i :: 0 <= i < |fields| ==> FieldIsFinite(types, fields[i].1)
      ensures !native ==> !IsFinite(types, name)
      decreases |types| - |visiting|, 1
    {
      var fields := FieldsOf(types[name].members);
      for i := 0 to |fields|
        invariant Valid() && visiting == old(visiting)
        invariant forall j :: 0 <= j < i ==> FieldIsFinite(types, fields[j].1)
      {
        var ty := fields[i].1;
        native := IsPlain(ty);
        if native && !IsScalar(ty.path[0]) {
          assert ty == Named([ty.path[0]], []);
          native := IsNative(ty.path[0]);
        }
        if !native {
          FieldRefused(types, name, i);
          return false;
        }
      }
      native := true;
    }
  }

  lemma FieldRefused(types: Types, name: string, i: nat)
    requires name in types && i < |FieldsOf(types[name].members)|
    requires !FieldIsFinite(types, FieldsOf(types[name].members)[i].1)
    ensures !IsFinite(types, name)
  {
    if IsFinite(types, name) {
      FiniteFields(types, name);
    }
  }

  // ── The table ────────────────────────────────────────────

  /** Native type of an annotation, if it has one. */
  function TyOf(byName: map<string, StructId>, ty: Type): Option<Ty>
    decreases ty
  {
    if ty.OtherType? || |ty.path| != 1 then None
    else
      var name := ty.path[0];
      if ty.args == [] then
        if name == "Int" then Some(Int)
        else if name == "Float" then Some(Float)
        else if name == "Bool" then Some(Bool)
        else if name == "String" then Some(Str)
        else if name in byName then Some(Ty.Struct(byName[name])) else None
      else if name == "Array" && |ty.args| == 1 then
        match TyOf(byName, ty.args[0])
        case None => None
        case Some(elem) => if elem.AsElem().Some? then Some(Ty.Array(elem.AsElem().value)) else None
      else None
  }

  // ── Types as written ─────────────────────────────────────

  /** A type as messages write it. */
  function Show(names: seq<string>, ty: Ty): string
    decreases if ty.Array? then 1 else 0
  {
    match ty
    case Int => "Int"
    case Float => "Float"
    case Bool => "Bool"
    case Str => "String"
    case Struct(id) => if id < |names| then names[id] else ""
    case Array(elem) =>
      match elem.Type()
      case Some(t) => "Array(" + Show(names, t) + ")"
      case None => "Array"
  }

  /** An annotation of one name, maybe with one argument, as written. */
  function Written(a: Type): string
    decreases a
  {
    if a.OtherType? || |a.path| != 1 then ""
    else if |a.args| == 1 then a.path[0] + "(" + Written(a.args[0]) + ")"
    else a.path[0]
  }

  /** An annotation has the type that is shown as it is written. */
  lemma {:induction false} TypeShowsAsWritten(byName: map<string, StructId>, names: seq<string>, a: Type)
    requires forall name :: name in byName ==> byName[name] < |names| && names[byName[name]] == name
    requires TyOf(byName, a).Some?
    ensures Show(names, TyOf(byName, a).value) == Written(a)
    ensures TyOf(byName, a).value.Array? ==> TyOf(byName, a).value.elem.Type().Some?
    decreases a
  {
    if a.args != [] {
      TypeShowsAsWritten(byName, names, a.args[0]);
      assert |a.path[0]| == 5;
      assert a.path[0] == "Array";
      assert a.path[0] + "(" == "Array(";
    }
  }

  /** The annotation that writes a type. */
  function Annotation(names: seq<string>, ty: Ty): Type
    decreases if ty.Array? then 1 else 0
  {
    match ty
    case Array(elem) =>
      Named(["Array"], match elem.Type() case Some(t) => [Annotation(names, t)] case None => [])
    case _ => Named([Show(names, ty)], [])
  }

  /** The type itself, or the element of an array. */
  function Inner(ty: Ty): Option<Ty> { if ty.Array? then ty.elem.Type() else Some(ty) }

  /** The struct of this number has a name, and `byName` gives it this number. */
  predicate IsNumbered(byName: map<string, StructId>, names: seq<string>, id: StructId) {
    id < |names| && names[id] in byName && byName[names[id]] == id
  }

  lemma ScalarHasType(byName: map<string, StructId>, names: seq<string>, ty: Ty)
    requires !ty.Array? && (ty.Struct? ==> IsNumbered(byName, names, ty.id))
    ensures Written(Annotation(names, ty)) == Show(names, ty)
    ensures TyOf(byName, Annotation(names, ty)) == Some(ty) <==> (ty.Struct? ==> !IsScalar(names[ty.id]))
  {
    if ty.Struct? {
      assert Annotation(names, ty) == Named([names[ty.id]], []);
    }
  }

  /** The annotation that writes a type has this type if and only if no struct in it is named as a
      scalar, and it is no array of unknown elements. */
  lemma AnnotationHasType(byName: map<string, StructId>, names: seq<string>, ty: Ty)
    requires Inner(ty).Some? && Inner(ty).value.Struct? ==> IsNumbered(byName, names, Inner(ty).value.id)
    ensures Written(Annotation(names, ty)) == Show(names, ty)
    ensures TyOf(byName, Annotation(names, ty)) == Some(ty) <==>
      Inner(ty).Some? && (Inner(ty).value.Struct? ==> !IsScalar(names[Inner(ty).value.id]))
  {
    if !ty.Array? {
      ScalarHasType(byName, names, ty);
    } else if ty.elem.Type().Some? {
      ArrayHasType(byName, names, ty.elem);
    }
  }

  lemma ArrayHasType(byName: map<string, StructId>, names: seq<string>, elem: Elem)
    requires elem.Type().Some?
    requires elem.Type().value.Struct? ==> IsNumbered(byName, names, elem.Type().value.id)
    ensures var ty := Ty.Array(elem);
      && Written(Annotation(names, ty)) == Show(names, ty)
      && (TyOf(byName, Annotation(names, ty)) == Some(ty) <==>
            (elem.Type().value.Struct? ==> !IsScalar(names[elem.Type().value.id])))
  {
    var t := elem.Type().value;
    var inner := Annotation(names, t);
    ScalarHasType(byName, names, t);
    hide Annotation, Show;
    ArrayIsWritten(names, elem);
    ArrayOfItsElement(byName, inner);
    assert elem == t.AsElem().value;
  }

  lemma ArrayIsWritten(names: seq<string>, elem: Elem)
    requires elem.Type().Some?
    ensures Annotation(names, Ty.Array(elem)) == Named(["Array"], [Annotation(names, elem.Type().value)])
    ensures Show(names, Ty.Array(elem)) == "Array(" + Show(names, elem.Type().value) + ")"
  {}

  lemma ArrayOfItsElement(byName: map<string, StructId>, inner: Type)
    ensures Written(Named(["Array"], [inner])) == "Array(" + Written(inner) + ")"
    ensures TyOf(byName, Named(["Array"], [inner])) ==
      if TyOf(byName, inner).Some? && TyOf(byName, inner).value.AsElem().Some?
      then Some(Ty.Array(TyOf(byName, inner).value.AsElem().value)) else None
  {
    assert "Array" + "(" == "Array(";
  }

  /** Without structs, the names that have a type are those of the scalars. */
  lemma ScalarsHaveTypes(name: string)
    ensures IsScalar(name) <==> TyOf(map[], Named([name], [])).Some?
    ensures IsScalar(name) ==> Show([], TyOf(map[], Named([name], [])).value) == name
  {}

  // ── The native structs ───────────────────────────────────

  /** How deep structs go inside a finite struct. */
  ghost function Depth(types: Types, name: string): (d: nat)
    requires IsFinite(types, name)
    ensures IsWithin(types, name, d) && forall j: nat :: IsWithin(types, name, j) ==> d <= j
  {
    var k: nat :| IsWithin(types, name, k);
    LeastOf(types, name, k)
  }

  ghost function LeastOf(types: Types, name: string, k: nat): (d: nat)
    requires IsWithin(types, name, k)
    ensures IsWithin(types, name, d) && forall j: nat :: IsWithin(types, name, j) ==> d <= j
  {
    if k > 0 && IsWithin(types, name, k - 1) then LeastOf(types, name, k - 1)
    else
      assert forall j: nat :: IsWithin(types, name, j) ==> k <= j by {
        forall j: nat | IsWithin(types, name, j) ensures k <= j {
          if j < k { WithinMore(types, name, j, k - 1); }
        }
      }
      k
  }

  /** `byName` numbers the finite structs, and only those. */
  ghost predicate Numbers(types: Types, byName: map<string, StructId>, names: seq<string>) {
    && (forall name :: name in byName <==> IsFinite(types, name))
    && (forall name :: name in byName ==> byName[name] < |names| && names[byName[name]] == name)
    && (forall i :: 0 <= i < |names| ==> names[i] in byName)
  }

  /** The annotation of a field of a finite struct names a native type: never an array, and a
      struct only if it is less deep. */
  lemma FieldResolves(types: Types, byName: map<string, StructId>, names: seq<string>, owner: string, i: nat)
    requires Numbers(types, byName, names) && IsFinite(types, owner) && i < |FieldsOf(types[owner].members)|
    ensures var ty := TyOf(byName, FieldsOf(types[owner].members)[i].1);
      && ty.Some? && !ty.value.Array?
      && (ty.value.Struct? ==> ty.value.id < |names| && IsFinite(types, names[ty.value.id])
                               && Depth(types, names[ty.value.id]) < Depth(types, owner))
  {
    var annotation := FieldsOf(types[owner].members)[i].1;
    var d := Depth(types, owner);
    assert FieldIsWithin(types, annotation, d);
    if !IsScalar(annotation.path[0]) {
      assert IsWithin(types, annotation.path[0], d - 1);
      assert IsFinite(types, annotation.path[0]);
    }
  }

  /** The field as native code sees it: same name, the type its annotation names, shown as it is
      written. */
  predicate Resolves(byName: map<string, StructId>, names: seq<string>, field: (string, Ty), declared: (string, Type)) {
    field.0 == declared.0 && Some(field.1) == TyOf(byName, declared.1) && Show(names, field.1) == Written(declared.1)
  }

  predicate Defines(types: Types, byName: map<string, StructId>, names: seq<string>, def: StructDef, name: string) {
    && name in types && def.name == name
    && var fields := FieldsOf(types[name].members);
       |def.fields| == |fields| && forall k :: 0 <= k < |fields| ==> Resolves(byName, names, def.fields[k], fields[k])
  }

  method Define(types: Types, byName: map<string, StructId>, ghost names: seq<string>, name: string)
    returns (def: StructDef)
    requires Numbers(types, byName, names) && IsFinite(types, name)
    ensures Defines(types, byName, names, def, name)
  {
    var declared := FieldsOf(types[name].members);
    var fields: seq<(string, Ty)> := [];
    for k := 0 to |declared|
      invariant |fields| == k && forall j :: 0 <= j < k ==> Resolves(byName, names, fields[j], declared[j])
    {
      FieldResolves(types, byName, names, name, k);
      TypeShowsAsWritten(byName, names, declared[k].1);
      fields := fields + [(declared[k].0, TyOf(byName, declared[k].1).value)];
    }
    def := StructDef(name, fields);
  }

  /** The names of the finite structs, in the order of the program. */
  ghost function FiniteNames(types: Types, items: seq<Item>): seq<string> {
    if items == [] then []
    else
      var last := items[|items| - 1];
      FiniteNames(types, items[..|items| - 1])
        + if last.TypeItem? && last.def.isStruct && IsFinite(types, last.def.name) then [last.def.name] else []
  }

  lemma {:induction false} FiniteNamesHas(types: Types, items: seq<Item>, name: string)
    ensures name in FiniteNames(types, items) <==>
      && IsFinite(types, name)
      && exists i :: 0 <= i < |items| && items[i].TypeItem? && items[i].def.isStruct && items[i].def.name == name
  {
    if items != [] {
      FiniteNamesHas(types, items[..|items| - 1], name);
    }
  }

  /** Every finite struct of a program is among them. */
  lemma AllFiniteNamed(items: seq<Item>, name: string)
    ensures name in FiniteNames(TypesOf(items), items) <==> IsFinite(TypesOf(items), name)
  {
    var types := TypesOf(items);
    FiniteNamesHas(types, items, name);
    if IsFinite(types, name) {
      OnlyPlainAreFinite(types, name);
      var i :| 0 <= i < |items| && items[i] == TypeItem(types[name]);
    }
  }

  method NativeNames(items: seq<Item>) returns (names: seq<string>)
    ensures names == FiniteNames(TypesOf(items), items)
    ensures forall name :: name in names <==> IsFinite(TypesOf(items), name)
  {
    hide IsFinite, TypesOf;
    var types := TypesOf(items);
    var search := new Search(types);
    names := [];
    for i := 0 to |items|
      invariant search.Valid() && search.visiting == [] && search.types == types
      invariant fresh(search)
      invariant names == FiniteNames(types, items[..i])
    {
      assert items[..i + 1][..i] == items[..i];
      if items[i].TypeItem? && items[i].def.isStruct {
        var native := search.IsNative(items[i].def.name);
        if native {
          names := names + [items[i].def.name];
        }
      }
    }
    assert items[..|items|] == items;
    forall name ensures name in names <==> IsFinite(types, name) {
      AllFiniteNamed(items, name);
    }
  }

  function NamesOf(defs: seq<StructDef>): (names: seq<string>)
    ensures |names| == |defs| && forall i :: 0 <= i < |names| ==> names[i] == defs[i].name
  {
    seq(|defs|, i requires 0 <= i < |defs| => defs[i].name)
  }

  /** The native structs of a program: exactly the finite ones, every field with the type its
      annotation names, shown as it is written, and none inside itself. */
  method FromProgram(items: seq<Item>)
    returns (defs: seq<StructDef>, byName: map<string, StructId>, ghost rank: seq<nat>)
    ensures Structs(defs, rank).Valid()
    ensures NamesOf(defs) == FiniteNames(TypesOf(items), items)
    ensures forall name :: name in byName <==> IsFinite(TypesOf(items), name)
    ensures forall name :: name in byName ==> byName[name] < |defs| && defs[byName[name]].name == name
    ensures forall i :: 0 <= i < |defs| ==> Defines(TypesOf(items), byName, NamesOf(defs), defs[i], defs[i].name)
  {
    hide TypesOf, IsFinite, FiniteNames;
    var types := TypesOf(items);
    var names := NativeNames(items);
    byName := map[];
    for i := 0 to |names|
      invariant forall name :: name in byName ==> byName[name] < i && names[byName[name]] == name
      invariant forall j :: 0 <= j < i ==> names[j] in byName
    {
      byName := byName[names[i] := i];
    }
    assert Numbers(types, byName, names);
    defs := [];
    for i := 0 to |names|
      invariant |defs| == i && forall j :: 0 <= j < i ==> Defines(types, byName, names, defs[j], names[j])
    {
      var def := Define(types, byName, names, names[i]);
      defs := defs + [def];
    }
    rank := seq(|names|, i requires 0 <= i < |names| => Depth(types, names[i]));
    RanksFit(types, byName, names, Structs(defs, rank));
    assert NamesOf(defs) == names;
  }

  lemma RanksFit(types: Types, byName: map<string, StructId>, names: seq<string>, s: Structs)
    requires Numbers(types, byName, names) && |s.defs| == |s.rank| == |names|
    requires forall i :: 0 <= i < |names| ==>
      IsFinite(types, names[i]) && s.rank[i] == Depth(types, names[i]) && Defines(types, byName, names, s.defs[i], names[i])
    ensures s.Valid()
  {
    forall i, k | 0 <= i < |s.defs| && 0 <= k < |s.defs[i].fields| ensures s.FieldFits(i, s.defs[i].fields[k].1) {
      assert Defines(types, byName, names, s.defs[i], names[i]);
      FieldResolves(types, byName, names, names[i], k);
      assert Resolves(byName, names, s.defs[i].fields[k], FieldsOf(types[names[i]].members)[k]);
    }
  }
}
