/** Which functions are compiled to native code. */
module Eligibility {
  import opened Wrappers
  import opened NativeTypes

  datatype Signature = Signature(params: seq<Ty>, ret: Option<Ty>)

  /** A function whose annotations are native; `body` stands for its definition. */
  datatype Candidate = Candidate(name: string, sig: Signature, body: nat)

  /** What inference finds in a body. */
  datatype Typed = Typed(mutates: bool, calls: set<string>)

  datatype Compiled = Compiled(candidate: Candidate, typed: Typed, mutates: bool)

  type Signatures = map<string, Signature>

  /** Types a body against the signatures of the compiled functions, or says why it cannot. */
  type Infer = (Candidate, Signatures) -> Result<Typed, string>

  // ── The fixed point ──────────────────────────────────────

  /** The signatures by name: the last of a name counts. */
  function SigsOf(cs: seq<Candidate>): (sigs: Signatures)
    ensures forall i :: 0 <= i < |cs| ==> cs[i].name in sigs
    ensures forall name :: name in sigs ==> exists i :: 0 <= i < |cs| && cs[i].name == name && cs[i].sig == sigs[name]
  {
    if cs == [] then map[]
    else
      var front := cs[..|cs| - 1];
      var last := cs[|cs| - 1];
      assert forall i :: 0 <= i < |front| ==> front[i] == cs[i];
      SigsOf(front)[last.name := last.sig]
  }

  lemma {:induction false} LastSigCounts(cs: seq<Candidate>, i: nat)
    requires i < |cs| && forall j :: i < j < |cs| ==> cs[j].name != cs[i].name
    ensures cs[i].name in SigsOf(cs) && SigsOf(cs)[cs[i].name] == cs[i].sig
  {
    if i < |cs| - 1 {
      LastSigCounts(cs[..|cs| - 1], i);
    }
  }

  /** Those that type against `sigs`. */
  function Passing(cs: seq<Candidate>, sigs: Signatures, infer: Infer): (r: seq<Candidate>)
    ensures |r| <= |cs| && (|r| == |cs| ==> r == cs)
    ensures forall c :: c in r <==> c in cs && infer(c, sigs).Ok?
  {
    if cs == [] then []
    else
      var rest := Passing(cs[1..], sigs, infer);
      assert cs == [cs[0]] + cs[1..];
      if infer(cs[0], sigs).Ok? then [cs[0]] + rest else rest
  }

  /** The names of the others, with the reason. */
  function Failing(cs: seq<Candidate>, sigs: Signatures, infer: Infer): seq<(string, string)> {
    if cs == [] then []
    else
      var rest := Failing(cs[1..], sigs, infer);
      match infer(cs[0], sigs)
      case Ok(_) => rest
      case Err(reason) => [(cs[0].name, reason)] + rest
  }

  /** The candidates left once every one of them types against exactly those left. */
  function Survivors(cs: seq<Candidate>, infer: Infer): seq<Candidate>
    decreases |cs|
  {
    var passing := Passing(cs, SigsOf(cs), infer);
    if |passing| == |cs| then cs else Survivors(passing, infer)
  }

  /** The candidates rejected, round after round. */
  function Rejections(cs: seq<Candidate>, infer: Infer): seq<(string, string)>
    decreases |cs|
  {
    var passing := Passing(cs, SigsOf(cs), infer);
    if |passing| == |cs| then [] else Failing(cs, SigsOf(cs), infer) + Rejections(passing, infer)
  }

  /** Every function types against exactly the signatures of the set. */
  ghost predicate Consistent(cs: seq<Candidate>, infer: Infer) {
    forall i :: 0 <= i < |cs| ==> infer(cs[i], SigsOf(cs)).Ok?
  }

  lemma {:induction false} SurvivorsAreConsistent(cs: seq<Candidate>, infer: Infer)
    ensures Consistent(Survivors(cs, infer), infer)
    ensures forall c :: c in Survivors(cs, infer) ==> c in cs
    decreases |cs|
  {
    var passing := Passing(cs, SigsOf(cs), infer);
    if |passing| < |cs| {
      SurvivorsAreConsistent(passing, infer);
    } else {
      forall i | 0 <= i < |cs| ensures infer(cs[i], SigsOf(cs)).Ok? {
        assert cs[i] in passing;
      }
    }
  }

  ghost predicate DistinctNames(cs: seq<Candidate>) {
    forall i, j :: 0 <= i < j < |cs| ==> cs[i].name != cs[j].name
  }

  ghost predicate Within(a: Signatures, b: Signatures) {
    forall name :: name in a ==> name in b && b[name] == a[name]
  }

  /** The builtins of standalone programs, which a compiled function of the same name hides. */
  const BUILTINS := {"puts", "print", "p", "exit"}

  ghost predicate HideTheSame(a: Signatures, b: Signatures) {
    forall name :: name in BUILTINS ==> (name in a <==> name in b)
  }

  /** More signatures never make a body fail to type, unless one hides a builtin. */
  ghost predicate Monotone(infer: Infer) {
    forall c, a, b :: Within(a, b) && HideTheSame(a, b) && infer(c, a).Ok? ==> infer(c, b).Ok?
  }

  lemma SigOf(cs: seq<Candidate>, c: Candidate)
    requires DistinctNames(cs) && c in cs
    ensures c.name in SigsOf(cs) && SigsOf(cs)[c.name] == c.sig
  {
    var i :| 0 <= i < |cs| && cs[i] == c;
    var j :| 0 <= j < |cs| && cs[j].name == c.name && cs[j].sig == SigsOf(cs)[c.name];
  }

  lemma SomeWithin(some: seq<Candidate>, cs: seq<Candidate>)
    requires DistinctNames(cs) && forall c :: c in some ==> c in cs
    ensures Within(SigsOf(some), SigsOf(cs))
  {
    forall name | name in SigsOf(some) ensures name in SigsOf(cs) && SigsOf(cs)[name] == SigsOf(some)[name] {
      var i :| 0 <= i < |some| && some[i].name == name && some[i].sig == SigsOf(some)[name];
      SigOf(cs, some[i]);
    }
  }

  lemma SomeHideTheSame(some: seq<Candidate>, cs: seq<Candidate>)
    requires forall c :: c in some ==> c in cs
    requires forall c :: c in cs && c.name in BUILTINS ==> c in some
    ensures HideTheSame(SigsOf(some), SigsOf(cs))
  {
    forall name | name in BUILTINS ensures name in SigsOf(some) <==> name in SigsOf(cs) {
      if name in SigsOf(some) {
        var i :| 0 <= i < |some| && some[i].name == name;
        assert some[i] in cs;
      }
      if name in SigsOf(cs) {
        var i :| 0 <= i < |cs| && cs[i].name == name;
        assert cs[i] in some;
      }
    }
  }

  lemma {:induction false} PassingIsDistinct(cs: seq<Candidate>, sigs: Signatures, infer: Infer)
    requires DistinctNames(cs)
    ensures DistinctNames(Passing(cs, sigs, infer))
  {
    if cs != [] {
      PassingIsDistinct(cs[1..], sigs, infer);
      var rest := Passing(cs[1..], sigs, infer);
      forall i | 0 <= i < |rest| ensures rest[i].name != cs[0].name {
        assert rest[i] in cs[1..];
      }
    }
  }

  /** When names are distinct, nothing that could be compiled is left out: every set that types
      against itself is compiled, if it has every candidate that hides a builtin. */
  lemma {:induction false} SurvivorsAreGreatest(cs: seq<Candidate>, infer: Infer, some: seq<Candidate>)
    requires DistinctNames(cs) && Monotone(infer)
    requires Consistent(some, infer) && forall c :: c in some ==> c in cs
    requires forall c :: c in cs && c.name in BUILTINS ==> c in some
    ensures forall c :: c in some ==> c in Survivors(cs, infer)
    decreases |cs|
  {
    var passing := Passing(cs, SigsOf(cs), infer);
    SomeWithin(some, cs);
    SomeHideTheSame(some, cs);
    forall c | c in some ensures c in passing {
      var i :| 0 <= i < |some| && some[i] == c;
      assert infer(c, SigsOf(some)).Ok?;
    }
    if |passing| < |cs| {
      PassingIsDistinct(cs, SigsOf(cs), infer);
      SurvivorsAreGreatest(passing, infer, some);
    }
  }

  /** Otherwise one may be: `f`, which prints, is dropped since a candidate `puts` hides the builtin,
      though it could be compiled without it. */
  lemma HidingLosesAFunction(f: Candidate, puts: Candidate, infer: Infer)
    requires f.name == "f" && puts.name == "puts"
    requires forall c, sigs :: infer(c, sigs).Ok? <==> c.name != "f" || "puts" !in sigs
    ensures DistinctNames([f, puts]) && Monotone(infer) && Consistent([f], infer)
    ensures f !in Survivors([f, puts], infer)
  {
    forall c, a, b | Within(a, b) && HideTheSame(a, b) && infer(c, a).Ok? ensures infer(c, b).Ok? {
      assert "puts" in BUILTINS;
    }
    assert SigsOf([f, puts]) == SigsOf([f])["puts" := puts.sig];
    assert f !in Passing([f, puts], SigsOf([f, puts]), infer);
    SurvivorsShrink([f, puts], infer, f);
    assert forall name :: name in SigsOf([f]) ==> name == "f";
  }

  lemma SurvivorsShrink(cs: seq<Candidate>, infer: Infer, c: Candidate)
    ensures c in Survivors(cs, infer) ==> c in Passing(cs, SigsOf(cs), infer)
  {
    var passing := Passing(cs, SigsOf(cs), infer);
    if |passing| < |cs| {
      SurvivorsAreConsistent(passing, infer);
    }
  }

  /** `c` does not type against a set that has it, for this reason; the set is of candidates and has
      all those compiled. */
  ghost predicate Refuses(cs: seq<Candidate>, infer: Infer, left: seq<Candidate>, c: Candidate, reason: string) {
    && c in left && infer(c, SigsOf(left)) == Err(reason)
    && (forall d :: d in left ==> d in cs)
    && (forall d :: d in Survivors(cs, infer) ==> d in left)
  }

  lemma {:induction false} FailingHasReason(cs: seq<Candidate>, sigs: Signatures, infer: Infer, i: nat)
    returns (c: Candidate)
    requires i < |Failing(cs, sigs, infer)|
    ensures c in cs && Failing(cs, sigs, infer)[i].0 == c.name
    ensures infer(c, sigs) == Err(Failing(cs, sigs, infer)[i].1)
  {
    if infer(cs[0], sigs).Ok? {
      c := FailingHasReason(cs[1..], sigs, infer, i);
    } else if i == 0 {
      c := cs[0];
    } else {
      c := FailingHasReason(cs[1..], sigs, infer, i - 1);
    }
  }

  /** A candidate is rejected for the reason inference gave, with the signatures of some candidates
      among which are all those compiled. */
  lemma {:induction false} RejectedForAReason(cs: seq<Candidate>, infer: Infer, i: nat)
    returns (left: seq<Candidate>, c: Candidate)
    requires i < |Rejections(cs, infer)|
    ensures Rejections(cs, infer)[i].0 == c.name && Refuses(cs, infer, left, c, Rejections(cs, infer)[i].1)
    decreases |cs|
  {
    hide SigsOf, Passing, Failing;
    var sigs := SigsOf(cs);
    var passing, failing := Passing(cs, sigs, infer), Failing(cs, sigs, infer);
    SurvivorsAreConsistent(cs, infer);
    NextRound(cs, infer);
    if i < |failing| {
      left := cs;
      c := FailingHasReason(cs, sigs, infer, i);
    } else {
      left, c := RejectedForAReason(passing, infer, i - |failing|);
    }
  }

  function Names(cs: seq<Candidate>): (r: seq<string>)
    ensures |r| == |cs| && forall i :: 0 <= i < |r| ==> r[i] == cs[i].name
  {
    seq(|cs|, i requires 0 <= i < |cs| => cs[i].name)
  }

  function RejectedNames(rs: seq<(string, string)>): (r: seq<string>)
    ensures |r| == |rs| && forall i :: 0 <= i < |r| ==> r[i] == rs[i].0
  {
    seq(|rs|, i requires 0 <= i < |rs| => rs[i].0)
  }

  lemma NamesAppend(a: seq<Candidate>, b: seq<Candidate>)
    ensures multiset(Names(a + b)) == multiset(Names(a)) + multiset(Names(b))
  {
    assert Names(a + b) == Names(a) + Names(b);
  }

  lemma RejectedAppend(a: seq<(string, string)>, b: seq<(string, string)>)
    ensures multiset(RejectedNames(a + b)) == multiset(RejectedNames(a)) + multiset(RejectedNames(b))
  {
    assert RejectedNames(a + b) == RejectedNames(a) + RejectedNames(b);
  }

  /** Each of `cs` is either in `passed` or, by name, in `failed`. */
  ghost predicate Splits(cs: seq<Candidate>, passed: seq<Candidate>, failed: seq<(string, string)>) {
    multiset(Names(cs)) == multiset(Names(passed)) + multiset(RejectedNames(failed))
  }

  lemma {:induction false} RoundSplits(cs: seq<Candidate>, sigs: Signatures, infer: Infer)
    ensures Splits(cs, Passing(cs, sigs, infer), Failing(cs, sigs, infer))
  {
    if cs == [] {
      assert Names(cs) == [] && RejectedNames([]) == [];
    } else {
      hide Names, RejectedNames;
      RoundSplits(cs[1..], sigs, infer);
      assert cs == [cs[0]] + cs[1..];
      NamesAppend([cs[0]], cs[1..]);
      if infer(cs[0], sigs).Ok? {
        NamesAppend([cs[0]], Passing(cs[1..], sigs, infer));
      } else {
        var first := (cs[0].name, infer(cs[0], sigs).error);
        assert Names([cs[0]]) == RejectedNames([first]);
        RejectedAppend([first], Failing(cs[1..], sigs, infer));
      }
    }
  }

  /** Each candidate is either compiled or rejected, once. */
  lemma {:induction false} SelectionSplits(cs: seq<Candidate>, infer: Infer)
    ensures Splits(cs, Survivors(cs, infer), Rejections(cs, infer))
    decreases |cs|
  {
    var sigs := SigsOf(cs);
    var passing := Passing(cs, sigs, infer);
    if |passing| < |cs| {
      hide Names, RejectedNames, SigsOf, Passing, Failing;
      RoundSplits(cs, sigs, infer);
      SelectionSplits(passing, infer);
      RejectedAppend(Failing(cs, sigs, infer), Rejections(passing, infer));
    } else {
      assert RejectedNames([]) == [];
    }
  }

  // ── Mutations ────────────────────────────────────────────

  predicate IsDirect(compiled: seq<Compiled>, name: string) {
    exists i :: 0 <= i < |compiled| && compiled[i].candidate.name == name && compiled[i].typed.mutates
  }

  predicate CallsInto(compiled: seq<Compiled>, caller: string, callee: string) {
    exists i :: 0 <= i < |compiled| && compiled[i].candidate.name == caller && callee in compiled[i].typed.calls
  }

  /** A chain of calls between compiled functions, down to one that modifies an array itself. */
  ghost predicate IsMutationChain(compiled: seq<Compiled>, path: seq<string>) {
    && path != [] && IsDirect(compiled, path[|path| - 1])
    && forall i :: 0 <= i < |path| - 1 ==> CallsInto(compiled, path[i], path[i + 1])
  }

  ghost predicate MayMutate(compiled: seq<Compiled>, name: string) {
    exists path: seq<string> :: IsMutationChain(compiled, path) && path[0] == name
  }

  function CompiledNames(compiled: seq<Compiled>): set<string> {
    set i | 0 <= i < |compiled| :: compiled[i].candidate.name
  }

  lemma DirectMayMutate(compiled: seq<Compiled>, name: string)
    requires IsDirect(compiled, name)
    ensures MayMutate(compiled, name)
  {
    assert IsMutationChain(compiled, [name]);
    assert [name][0] == name;
  }

  lemma CallerMayMutate(compiled: seq<Compiled>, caller: string, callee: string)
    requires CallsInto(compiled, caller, callee) && MayMutate(compiled, callee)
    ensures MayMutate(compiled, caller)
  {
    var path: seq<string> :| IsMutationChain(compiled, path) && path[0] == callee;
    var longer := [caller] + path;
    forall i | 0 <= i < |longer| - 1 ensures CallsInto(compiled, longer[i], longer[i + 1]) {
      if i > 0 {
        assert longer[i] == path[i - 1] && longer[i + 1] == path[i];
      }
    }
    assert IsMutationChain(compiled, longer);
    assert longer[0] == caller;
  }

  /** Each of the first `n` functions that calls one of `mutating` is in it. */
  ghost predicate HasCallers(compiled: seq<Compiled>, n: nat, mutating: set<string>)
    requires n <= |compiled|
  {
    forall i :: 0 <= i < n && compiled[i].typed.calls * mutating != {} ==> compiled[i].candidate.name in mutating
  }

  ghost predicate AllCallInto(compiled: seq<Compiled>, more: set<string>, mutating: set<string>) {
    forall name :: name in more ==> exists f :: f in mutating && CallsInto(compiled, name, f)
  }

  /** A set that has every direct mutator, and every caller of one of its own, has all chains. */
  lemma {:induction false} ClosedHasChains(compiled: seq<Compiled>, mutating: set<string>, path: seq<string>)
    requires forall name :: IsDirect(compiled, name) ==> name in mutating
    requires HasCallers(compiled, |compiled|, mutating)
    requires IsMutationChain(compiled, path)
    ensures path[0] in mutating
  {
    if |path| > 1 {
      ClosedHasChains(compiled, mutating, path[1..]);
      assert CallsInto(compiled, path[0], path[1]);
      var i :| 0 <= i < |compiled| && compiled[i].candidate.name == path[0] && path[1] in compiled[i].typed.calls;
      assert path[1] in compiled[i].typed.calls * mutating;
    }
  }

  /** The functions of one more round: callers of a mutating one. */
  method MoreMutating(compiled: seq<Compiled>, mutating: set<string>) returns (more: set<string>)
    ensures more !! mutating && more <= CompiledNames(compiled) && AllCallInto(compiled, more, mutating)
    ensures more == {} ==> HasCallers(compiled, |compiled|, mutating)
  {
    more := {};
    for i := 0 to |compiled|
      invariant more !! mutating && more <= CompiledNames(compiled) && AllCallInto(compiled, more, mutating)
      invariant more == {} ==> HasCallers(compiled, i, mutating)
    {
      var name := compiled[i].candidate.name;
      if name !in mutating && compiled[i].typed.calls * mutating != {} {
        ghost var f :| f in compiled[i].typed.calls * mutating;
        assert f in mutating && CallsInto(compiled, name, f);
        more := more + {name};
      }
    }
  }

  lemma MoreMayMutate(compiled: seq<Compiled>, more: set<string>, mutating: set<string>)
    requires AllCallInto(compiled, more, mutating) && forall name :: name in mutating ==> MayMutate(compiled, name)
    ensures forall name :: name in mutating + more ==> MayMutate(compiled, name)
  {
    forall name | name in more ensures MayMutate(compiled, name) {
      var f :| f in mutating && CallsInto(compiled, name, f);
      CallerMayMutate(compiled, name, f);
    }
  }

  /** The functions that may modify an array, themselves or through the functions they call. */
  method Mutating(compiled: seq<Compiled>) returns (mutating: set<string>)
    ensures forall name :: name in mutating <==> MayMutate(compiled, name)
  {
    var names := CompiledNames(compiled);
    mutating := set i | 0 <= i < |compiled| && compiled[i].typed.mutates :: compiled[i].candidate.name;
    assert forall name :: IsDirect(compiled, name) ==> name in mutating;
    forall name | name in mutating ensures MayMutate(compiled, name) {
      assert IsDirect(compiled, name);
      DirectMayMutate(compiled, name);
    }
    var more := MoreMutating(compiled, mutating);
    hide MayMutate, IsDirect, AllCallInto, CompiledNames;
    while more != {}
      invariant mutating <= names && more <= names && more !! mutating && AllCallInto(compiled, more, mutating)
      invariant forall name :: IsDirect(compiled, name) ==> name in mutating
      invariant forall name :: name in mutating ==> MayMutate(compiled, name)
      invariant more == {} ==> HasCallers(compiled, |compiled|, mutating)
      decreases names - mutating
    {
      MoreMayMutate(compiled, more, mutating);
      ghost var some :| some in more;
      assert some in names - mutating;
      mutating := mutating + more;
      more := MoreMutating(compiled, mutating);
    }
    AllChainsFound(compiled, mutating);
  }

  lemma AllChainsFound(compiled: seq<Compiled>, mutating: set<string>)
    requires forall name :: IsDirect(compiled, name) ==> name in mutating
    requires HasCallers(compiled, |compiled|, mutating)
    ensures forall name :: MayMutate(compiled, name) ==> name in mutating
  {
    forall name | MayMutate(compiled, name) ensures name in mutating {
      var path: seq<string> :| IsMutationChain(compiled, path) && path[0] == name;
      ClosedHasChains(compiled, mutating, path);
    }
  }

  /** Marks each function that may modify an array, directly or through a callee. */
  method Mutations(compiled: seq<Compiled>) returns (marked: seq<Compiled>)
    ensures |marked| == |compiled|
    ensures forall i :: 0 <= i < |marked| ==>
      marked[i] == compiled[i].(mutates := marked[i].mutates)
      && (marked[i].mutates <==> MayMutate(compiled, compiled[i].candidate.name))
  {
    hide MayMutate;
    var mutating := Mutating(compiled);
    marked := seq(|compiled|, i requires 0 <= i < |compiled| =>
      compiled[i].(mutates := compiled[i].candidate.name in mutating));
  }

  // ── Selection ────────────────────────────────────────────

  function Candidates(compiled: seq<Compiled>): (r: seq<Candidate>)
    ensures |r| == |compiled| && forall i :: 0 <= i < |r| ==> r[i] == compiled[i].candidate
  {
    seq(|compiled|, i requires 0 <= i < |compiled| => compiled[i].candidate)
  }

  /** One round: those that type against `sigs`, and why the others do not. */
  method Round(cs: seq<Candidate>, sigs: Signatures, infer: Infer)
    returns (compiled: seq<Compiled>, failed: seq<(string, string)>)
    ensures Candidates(compiled) == Passing(cs, sigs, infer) && failed == Failing(cs, sigs, infer)
    ensures failed == [] <==> |compiled| == |cs|
    ensures forall i :: 0 <= i < |compiled| ==> infer(compiled[i].candidate, sigs) == Ok(compiled[i].typed)
  {
    hide Passing, Failing, Candidates;
    compiled, failed := [], [];
    RoundOfNone(sigs, infer);
    assert cs[..0] == [];
    for i := 0 to |cs|
      invariant Candidates(compiled) == Passing(cs[..i], sigs, infer) && failed == Failing(cs[..i], sigs, infer)
      invariant |compiled| + |failed| == i
      invariant forall k :: 0 <= k < |compiled| ==> infer(compiled[k].candidate, sigs) == Ok(compiled[k].typed)
    {
      PassingExtends(cs[..i], cs[i], sigs, infer);
      FailingExtends(cs[..i], cs[i], sigs, infer);
      assert cs[..i + 1] == cs[..i] + [cs[i]];
      if infer(cs[i], sigs).Ok? {
        var found := Compiled(cs[i], infer(cs[i], sigs).value, false);
        CandidatesExtend(compiled, found);
        compiled := compiled + [found];
      } else {
        failed := failed + [(cs[i].name, infer(cs[i], sigs).error)];
      }
    }
    assert cs[..|cs|] == cs;
  }

  lemma RoundOfNone(sigs: Signatures, infer: Infer)
    ensures Candidates([]) == Passing([], sigs, infer) == [] && Failing([], sigs, infer) == []
  {}

  lemma CandidatesExtend(compiled: seq<Compiled>, c: Compiled)
    ensures Candidates(compiled + [c]) == Candidates(compiled) + [c.candidate]
  {}

  lemma {:induction false} PassingExtends(cs: seq<Candidate>, c: Candidate, sigs: Signatures, infer: Infer)
    ensures Passing(cs + [c], sigs, infer) == Passing(cs, sigs, infer) + if infer(c, sigs).Ok? then [c] else []
  {
    if cs == [] {
      assert [] + [c] == [c];
    } else {
      PassingExtends(cs[1..], c, sigs, infer);
      var all := cs + [c];
      assert all[0] == cs[0] && all[1..] == cs[1..] + [c];
    }
  }

  lemma {:induction false} FailingExtends(cs: seq<Candidate>, c: Candidate, sigs: Signatures, infer: Infer)
    ensures Failing(cs + [c], sigs, infer)
         == Failing(cs, sigs, infer) + match infer(c, sigs) case Ok(_) => []
                                         case Err(reason) => [(c.name, reason)]
  {
    if cs == [] {
      assert [] + [c] == [c];
    } else {
      FailingExtends(cs[1..], c, sigs, infer);
      var all := cs + [c];
      assert all[0] == cs[0] && all[1..] == cs[1..] + [c];
    }
  }

  /** The functions to compile, each typed against exactly those compiled, and the candidates
      rejected, with the reason. */
  method Select(candidates: seq<Candidate>, infer: Infer) returns (compiled: seq<Compiled>, rejected: seq<(string, string)>)
    ensures Candidates(compiled) == Survivors(candidates, infer) && rejected == Rejections(candidates, infer)
    ensures var sigs := SigsOf(Candidates(compiled));
      forall i :: 0 <= i < |compiled| ==> infer(compiled[i].candidate, sigs) == Ok(compiled[i].typed)
    ensures forall i :: 0 <= i < |compiled| ==>
      (compiled[i].mutates <==> MayMutate(compiled, compiled[i].candidate.name))
  {
    hide Passing, Failing, SigsOf, Candidates, MayMutate, Survivors, Rejections;
    var left := candidates;
    rejected := [];
    while true
      invariant Survivors(left, infer) == Survivors(candidates, infer)
      invariant rejected + Rejections(left, infer) == Rejections(candidates, infer)
      decreases |left|
    {
      var sigs := SigsOf(left);
      var failed;
      compiled, failed := Round(left, sigs, infer);
      NextRound(left, infer);
      if failed == [] {
        var marked := Mutations(compiled);
        MarksAlike(compiled, marked);
        compiled := marked;
        return;
      }
      assert rejected + (failed + Rejections(Candidates(compiled), infer))
        == (rejected + failed) + Rejections(Candidates(compiled), infer);
      rejected := rejected + failed;
      left := Candidates(compiled);
    }
  }

  lemma NextRound(cs: seq<Candidate>, infer: Infer)
    ensures var passing, failing := Passing(cs, SigsOf(cs), infer), Failing(cs, SigsOf(cs), infer);
      if |passing| == |cs| then passing == cs && Survivors(cs, infer) == cs && Rejections(cs, infer) == []
      else Survivors(cs, infer) == Survivors(passing, infer)
           && Rejections(cs, infer) == failing + Rejections(passing, infer)
  {}

  /** Marking a function changes no chain. */
  lemma MarksAlike(compiled: seq<Compiled>, marked: seq<Compiled>)
    requires |marked| == |compiled|
    requires forall i :: 0 <= i < |marked| ==> marked[i] == compiled[i].(mutates := marked[i].mutates)
    ensures Candidates(marked) == Candidates(compiled)
    ensures forall name :: MayMutate(marked, name) <==> MayMutate(compiled, name)
  {
    assert forall name :: IsDirect(marked, name) <==> IsDirect(compiled, name);
    assert forall a, b :: CallsInto(marked, a, b) <==> CallsInto(compiled, a, b);
    forall path: seq<string> ensures IsMutationChain(marked, path) <==> IsMutationChain(compiled, path) {
      if path != [] {
        assert IsDirect(marked, path[|path| - 1]) <==> IsDirect(compiled, path[|path| - 1]);
        forall i | 0 <= i < |path| - 1
          ensures CallsInto(marked, path[i], path[i + 1]) <==> CallsInto(compiled, path[i], path[i + 1])
        {}
      }
    }
  }
}
