/**
  Material binding relationships: the `material:binding[:suffix]` relationship
  names, and GetLocalMaterialBinding, which reads one prim's own relationship
  and resolves its target paths to Material objects of the stage.
 */
module MaterialBinding {
  import opened Wrappers
  import opened Scene

  const BindingRelBase := "material:binding"
  const StrongerThanDescendants := "strongerThanDescendants"

  // ----- Relationship names -----

  /** The relationship read for `suffix`: `material:binding` for the empty
      suffix, `material:binding:<suffix>` otherwise. */
  function BindingRelName(suffix: string): (name: string)
    ensures BindingRelBase <= name
    ensures name == BindingRelBase <==> suffix == ""
  {
    if suffix == "" then BindingRelBase else BindingRelBase + ":" + suffix
  }

  /** The suffix a binding relationship name carries, or None when the name is
      not a binding relationship name. */
  function BindingSuffix(name: string): (r: Option<string>)
    ensures r.Some? ==> BindingRelBase <= name
    ensures r == Some("") <==> name == BindingRelBase
  {
    var prefix := BindingRelBase + ":";
    if name == BindingRelBase then Some("")
    else if |name| > |prefix| && name[..|prefix|] == prefix then Some(name[|prefix|..])
    else None
  }

  /** The suffix is recovered from the relationship name. */
  lemma BindingSuffixOfName(suffix: string)
    ensures BindingSuffix(BindingRelName(suffix)) == Some(suffix)
  {
  }

  /** Every binding relationship name is the name of the suffix it carries. */
  lemma BindingNameOfSuffix(name: string, suffix: string)
    requires BindingSuffix(name) == Some(suffix)
    ensures BindingRelName(suffix) == name
  {
  }

  /** Distinct suffixes name distinct relationships: the binding channels are
      independent of each other. */
  lemma BindingRelNameInjective(s1: string, s2: string)
    requires BindingRelName(s1) == BindingRelName(s2)
    ensures s1 == s2
  {
    BindingSuffixOfName(s1);
    BindingSuffixOfName(s2);
  }

  // ----- Local binding -----

  /** A `const Material *`: None is nullptr, Some(p) points at the Material
      prim stored at path p. */
  type MaterialPtr = Option<Path>

  predicate IsMaterialAt(stage: Stage, p: Path)
  {
    p in stage && stage[p].kind == MaterialPrim
  }

  /** The Material object a target path names in the stage, or nullptr. */
  function ResolveMaterial(stage: Stage, p: Path): (m: MaterialPtr)
    ensures m.Some? <==> IsMaterialAt(stage, p)
    ensures m.Some? ==> m.value == p
  {
    if IsMaterialAt(stage, p) then Some(p) else None
  }

  /** Resolves each target path; entry i belongs to path i. */
  function ResolveAll(stage: Stage, ps: seq<Path>): (ms: seq<MaterialPtr>)
    ensures |ms| == |ps|
    ensures forall i :: 0 <= i < |ps| ==> ms[i] == ResolveMaterial(stage, ps[i])
  {
    if ps == [] then [] else [ResolveMaterial(stage, ps[0])] + ResolveAll(stage, ps[1..])
  }

  // ----- The collection namespace -----

  const CollectionNamespace := "collection:"

  /** A suffix in the `collection` namespace: `material:binding:collection:<name>`. */
  predicate IsCollectionSuffix(suffix: string)
  {
    CollectionNamespace <= suffix
  }

  /** A binding relationship name in the `collection` namespace. */
  predicate IsCollectionName(name: string)
  {
    BindingSuffix(name).Some? && IsCollectionSuffix(BindingSuffix(name).value)
  }

  /** The shape of a binding's targets follows its name: a relationship in the
      `collection` namespace carries a member list, any other binding
      relationship a single target path. */
  predicate WellFormedBindings(prim: Prim)
  {
    forall name :: name in prim.bindings ==> (prim.bindings[name].targets.Collection? <==> IsCollectionName(name))
  }

  function TargetPaths(t: BindingTargets): seq<Path>
  {
    match t
    case Direct(p) => [p]
    case Collection(ms) => ms
  }

  /** What GetLocalMaterialBinding reports for one prim. */
  datatype LocalBinding = LocalBinding(materialPaths: seq<Path>, materials: seq<MaterialPtr>, bindMaterialAs: string)

  /** True when every bound path names a Material object. */
  predicate AllResolved(b: LocalBinding)
  {
    forall i :: 0 <= i < |b.materials| ==> b.materials[i].Some?
  }

  /** The prim's own binding for `suffix`, resolved against the stage. */
  function ReadLocalBinding(stage: Stage, prim: Prim, suffix: string): (b: LocalBinding)
    ensures |b.materials| == |b.materialPaths|
    ensures forall i :: 0 <= i < |b.materialPaths| ==>
              && (b.materials[i].Some? <==> IsMaterialAt(stage, b.materialPaths[i]))
              && (b.materials[i].Some? ==> b.materials[i].value == b.materialPaths[i])
    ensures AllResolved(b) <==> forall i :: 0 <= i < |b.materialPaths| ==> IsMaterialAt(stage, b.materialPaths[i])
  {
    var name := BindingRelName(suffix);
    if name !in prim.bindings then LocalBinding([], [], "")
    else
      var rel := prim.bindings[name];
      var ps := TargetPaths(rel.targets);
      LocalBinding(ps, ResolveAll(stage, ps), match rel.bindMaterialAs case Some(t) => t case None => "")
  }

  /** GetLocalMaterialBinding: appends the target paths and their Material
      pointers to the caller's vectors, returns the `bindMaterialAs` token,
      and returns true when every target resolves to a Material. */
  method GetLocalMaterialBinding(stage: Stage, prim: Prim, suffix: string, paths0: seq<Path>, materials0: seq<MaterialPtr>)
    returns (ok: bool, materialPaths: seq<Path>, materials: seq<MaterialPtr>, bindMaterialAs: string)
    ensures var b := ReadLocalBinding(stage, prim, suffix);
            && materialPaths == paths0 + b.materialPaths
            && materials == materials0 + b.materials
            && bindMaterialAs == b.bindMaterialAs
            && (ok <==> AllResolved(b))
  {
    materialPaths, materials, bindMaterialAs := paths0, materials0, "";
    ok := true;
    var name := BindingRelName(suffix);
    if name !in prim.bindings {
      return;
    }
    var rel := prim.bindings[name];
    if rel.bindMaterialAs.Some? {
      bindMaterialAs := rel.bindMaterialAs.value;
    }
    var targets := TargetPaths(rel.targets);
    ghost var resolved := ResolveAll(stage, targets);
    assert ReadLocalBinding(stage, prim, suffix) == LocalBinding(targets, resolved, bindMaterialAs);
    var i := 0;
    while i < |targets|
      invariant 0 <= i <= |targets|
      invariant materialPaths == paths0 + targets[..i]
      invariant materials == materials0 + resolved[..i]
      invariant ok <==> forall j :: 0 <= j < i ==> resolved[j].Some?
    {
      var m := ResolveMaterial(stage, targets[i]);
      assert resolved[..i + 1] == resolved[..i] + [m];
      assert targets[..i + 1] == targets[..i] + [targets[i]];
      materialPaths := materialPaths + [targets[i]];
      materials := materials + [m];
      ok := ok && m.Some?;
      i := i + 1;
    }
    assert targets[..i] == targets;
    assert resolved[..i] == resolved;
  }

  /** Reading a relationship outside the `collection` namespace yields a
      single item: the relationship's one target. */
  lemma DirectBindingIsSingle(stage: Stage, prim: Prim, suffix: string)
    requires WellFormedBindings(prim)
    requires BindingRelName(suffix) in prim.bindings
    requires !IsCollectionSuffix(suffix)
    ensures prim.bindings[BindingRelName(suffix)].targets.Direct?
    ensures |ReadLocalBinding(stage, prim, suffix).materialPaths| == 1
    ensures ReadLocalBinding(stage, prim, suffix).materialPaths
         == [prim.bindings[BindingRelName(suffix)].targets.target]
  {
  }

  /** Reading a relationship in the `collection` namespace yields the array of
      its member paths. */
  lemma CollectionBindingIsMembers(stage: Stage, prim: Prim, suffix: string)
    requires WellFormedBindings(prim)
    requires BindingRelName(suffix) in prim.bindings
    requires IsCollectionSuffix(suffix)
    ensures prim.bindings[BindingRelName(suffix)].targets.Collection?
    ensures ReadLocalBinding(stage, prim, suffix).materialPaths
         == prim.bindings[BindingRelName(suffix)].targets.members
  {
  }

  /** No relationship for the suffix: empty results, the empty token, success. */
  lemma NoBindingIsEmpty(stage: Stage, prim: Prim, suffix: string)
    requires BindingRelName(suffix) !in prim.bindings
    ensures var b := ReadLocalBinding(stage, prim, suffix);
            b.materialPaths == [] && b.materials == [] && b.bindMaterialAs == "" && AllResolved(b)
  {
  }

  /** The token is the authored `bindMaterialAs`, or empty when none is authored. */
  lemma BindMaterialAsToken(stage: Stage, prim: Prim, suffix: string)
    requires BindingRelName(suffix) in prim.bindings
    ensures var t := prim.bindings[BindingRelName(suffix)].bindMaterialAs;
            ReadLocalBinding(stage, prim, suffix).bindMaterialAs == (if t.Some? then t.value else "")
  {
  }

  /** A prim whose only binding is the unqualified one has no binding on any
      non-empty suffix channel. */
  lemma SuffixChannelsIndependent(stage: Stage, prim: Prim, suffix: string)
    requires prim.bindings.Keys == {BindingRelBase}
    requires suffix != ""
    ensures ReadLocalBinding(stage, prim, suffix).materialPaths == []
  {
  }

  /** Only the prim's own relationship is read: changing the bindings of any
      other prim (a parent, say) leaves the result unchanged. */
  lemma LocalBindingIgnoresOtherPrims(stage: Stage, p: Path, q: Path, newBindings: map<string, BindingRel>, suffix: string)
    requires p in stage && q in stage && p != q
    ensures var stage' := stage[q := stage[q].(bindings := newBindings)];
            ReadLocalBinding(stage', stage'[p], suffix) == ReadLocalBinding(stage, stage[p], suffix)
  {
  }
}
