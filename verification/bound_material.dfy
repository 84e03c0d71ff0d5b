/**
  GetBoundMaterial: the effective material of the prim at an absolute path.
  The walk starts at the prim and moves outward through its ancestors, reading
  each level's own binding with GetLocalMaterialBinding. The first binding met
  becomes the candidate; a farther binding whose `bindMaterialAs` is
  `strongerThanDescendants` replaces the candidate, so the outermost such
  binding wins.
 */
module BoundMaterial {
  import opened Wrappers
  import opened Scene
  import opened MaterialBinding

  /** One level's binding: its material path, the Material pointer for that
      path, and the level's `bindMaterialAs` token. */
  datatype Binding = Binding(materialPath: Path, material: MaterialPtr, bindMaterialAs: string)

  /** The binding's Material pointer is its path resolved in the stage. */
  predicate Resolved(stage: Stage, b: Option<Binding>)
  {
    b.Some? ==> b.value.material == ResolveMaterial(stage, b.value.materialPath)
  }

  /** The binding the prim at `p` contributes: the first path (and pointer)
      its local binding reports, if any. */
  function LevelBinding(stage: Stage, p: Path, suffix: string): (b: Option<Binding>)
    ensures Resolved(stage, b)
  {
    if p !in stage then None
    else
      var local := ReadLocalBinding(stage, stage[p], suffix);
      if |local.materialPaths| == 0 then None
      else Some(Binding(local.materialPaths[0], local.materials[0], local.bindMaterialAs))
  }

  predicate IsStronger(b: Option<Binding>)
  {
    b.Some? && b.value.bindMaterialAs == StrongerThanDescendants
  }

  /** The walk from the prim at `p` outward to the top-level prim, carrying the
      candidate `cand`. The ancestors of `p` are its prefixes `p[..k]`, so a
      larger k is a nearer level and `p[..|p|]` is the prim itself. A candidate,
      once held, is only ever replaced, never dropped, and every binding the
      walk picks up points at the Material its path names. */
  function Walk(stage: Stage, p: Path, suffix: string, cand: Option<Binding>): (r: Option<Binding>)
    ensures cand.Some? ==> r.Some?
    ensures Resolved(stage, cand) ==> Resolved(stage, r)
    decreases |p|
  {
    if |p| == 0 then cand
    else
      var b := LevelBinding(stage, p, suffix);
      var next := if b.Some? && (cand.None? || IsStronger(b)) then b else cand;
      Walk(stage, Parent(p), suffix, next)
  }

  /** What GetBoundMaterial finds for `absPath`: None when the prim does not
      exist or no level from it to the top-level prim carries a binding. */
  function BoundBinding(stage: Stage, absPath: Path, suffix: string): (r: Option<Binding>)
    ensures r.Some? ==> absPath in stage
    ensures Resolved(stage, r)
  {
    if absPath !in stage then None else Walk(stage, absPath, suffix, None)
  }

  /** GetBoundMaterial: returns true when a bound Material path is found and
      writes it to `materialPath`, with the Material pointer (possibly null)
      written to `material`. */
  method GetBoundMaterial(stage: Stage, absPath: Path, suffix: string)
    returns (ok: bool, materialPath: Path, material: MaterialPtr)
    ensures ok <==> BoundBinding(stage, absPath, suffix).Some?
    ensures ok ==> materialPath == BoundBinding(stage, absPath, suffix).value.materialPath
    ensures ok ==> material == BoundBinding(stage, absPath, suffix).value.material
    ensures ok ==> material == ResolveMaterial(stage, materialPath)
  {
    materialPath, material := [], None;
    if absPath !in stage {
      return false, materialPath, material;
    }
    var cand: Option<Binding> := None;
    var cur := absPath;
    while |cur| > 0
      invariant Resolved(stage, cand)
      invariant Walk(stage, cur, suffix, cand) == Walk(stage, absPath, suffix, None)
      decreases |cur|
    {
      if cur in stage {
        var _, paths, mats, token := GetLocalMaterialBinding(stage, stage[cur], suffix, [], []);
        if |paths| > 0 && (cand.None? || token == StrongerThanDescendants) {
          cand := Some(Binding(paths[0], mats[0], token));
        }
      }
      cur := Parent(cur);
    }
    if cand.None? {
      return false, materialPath, material;
    }
    ok, materialPath, material := true, cand.value.materialPath, cand.value.material;
  }

  // ----- Precedence -----

  /** Once the walk holds a candidate, only a stronger binding can replace it. */
  lemma {:induction false} CandidateStays(stage: Stage, p: Path, suffix: string, cand: Binding)
    requires forall m :: 0 < m <= |p| ==> !IsStronger(LevelBinding(stage, p[..m], suffix))
    ensures Walk(stage, p, suffix, Some(cand)) == Some(cand)
    decreases |p|
  {
    if |p| > 0 {
      assert p[..|p|] == p;
      var q := Parent(p);
      forall m | 0 < m <= |q| ensures !IsStronger(LevelBinding(stage, q[..m], suffix)) {
        assert q[..m] == p[..m];
      }
      CandidateStays(stage, q, suffix, cand);
    }
  }

  /** With no binding on any level, the walk finds nothing. */
  lemma {:induction false} NothingBound(stage: Stage, p: Path, suffix: string)
    requires forall m :: 0 < m <= |p| ==> LevelBinding(stage, p[..m], suffix).None?
    ensures Walk(stage, p, suffix, None) == None
    decreases |p|
  {
    if |p| > 0 {
      assert p[..|p|] == p;
      var q := Parent(p);
      forall m | 0 < m <= |q| ensures LevelBinding(stage, q[..m], suffix).None? {
        assert q[..m] == p[..m];
      }
      NothingBound(stage, q, suffix);
    }
  }

  /** The nearest level with a binding becomes the candidate, and the walk goes
      on from its parent. */
  lemma {:induction false} FirstBindingIsCandidate(stage: Stage, p: Path, suffix: string, k: nat)
    requires 0 < k <= |p| && LevelBinding(stage, p[..k], suffix).Some?
    requires forall m :: k < m <= |p| ==> LevelBinding(stage, p[..m], suffix).None?
    ensures Walk(stage, p, suffix, None) == Walk(stage, p[..k - 1], suffix, LevelBinding(stage, p[..k], suffix))
    decreases |p|
  {
    assert p[..|p|] == p;
    var q := Parent(p);
    if k < |p| {
      forall m | k < m <= |q| ensures LevelBinding(stage, q[..m], suffix).None? {
        assert q[..m] == p[..m];
      }
      assert q[..k] == p[..k] && q[..k - 1] == p[..k - 1];
      FirstBindingIsCandidate(stage, q, suffix, k);
    }
  }

  /** A stronger binding replaces whatever candidate the walk carries. */
  lemma {:induction false} StrongerReplaces(stage: Stage, p: Path, suffix: string, cand: Option<Binding>, k: nat)
    requires 0 < k <= |p| && IsStronger(LevelBinding(stage, p[..k], suffix))
    ensures Walk(stage, p, suffix, cand) == Walk(stage, p[..k - 1], suffix, LevelBinding(stage, p[..k], suffix))
    decreases |p|
  {
    assert p[..|p|] == p;
    var q := Parent(p);
    if k < |p| {
      var b := LevelBinding(stage, p, suffix);
      assert q[..k] == p[..k] && q[..k - 1] == p[..k - 1];
      StrongerReplaces(stage, q, suffix, if b.Some? && (cand.None? || IsStronger(b)) then b else cand, k);
    }
  }

  /** Nearest wins: the binding of the nearest level that has one (the prim's
      own first, then its parent's, and so on outward) is the result, provided
      no farther ancestor's binding is stronger than descendants. */
  lemma NearestBindingWins(stage: Stage, absPath: Path, suffix: string, k: nat)
    requires absPath in stage && 0 < k <= |absPath|
    requires LevelBinding(stage, absPath[..k], suffix).Some?
    requires forall m :: k < m <= |absPath| ==> LevelBinding(stage, absPath[..m], suffix).None?
    requires forall m :: 0 < m < k ==> !IsStronger(LevelBinding(stage, absPath[..m], suffix))
    ensures BoundBinding(stage, absPath, suffix) == LevelBinding(stage, absPath[..k], suffix)
  {
    FirstBindingIsCandidate(stage, absPath, suffix, k);
    var rest := absPath[..k - 1];
    forall m | 0 < m <= |rest| ensures !IsStronger(LevelBinding(stage, rest[..m], suffix)) {
      assert rest[..m] == absPath[..m];
    }
    CandidateStays(stage, rest, suffix, LevelBinding(stage, absPath[..k], suffix).value);
  }

  /** Stronger ancestor overrides: the outermost binding marked
      `strongerThanDescendants` is the result, whatever nearer levels bind. */
  lemma StrongerAncestorOverrides(stage: Stage, absPath: Path, suffix: string, k: nat)
    requires absPath in stage && 0 < k <= |absPath|
    requires IsStronger(LevelBinding(stage, absPath[..k], suffix))
    requires forall m :: 0 < m < k ==> !IsStronger(LevelBinding(stage, absPath[..m], suffix))
    ensures BoundBinding(stage, absPath, suffix) == LevelBinding(stage, absPath[..k], suffix)
  {
    StrongerReplaces(stage, absPath, suffix, None, k);
    var rest := absPath[..k - 1];
    forall m | 0 < m <= |rest| ensures !IsStronger(LevelBinding(stage, rest[..m], suffix)) {
      assert rest[..m] == absPath[..m];
    }
    CandidateStays(stage, rest, suffix, LevelBinding(stage, absPath[..k], suffix).value);
  }

  /** A binding is found exactly when the prim exists and some level from it to
      the top-level prim carries one; the Material pointer may still be null. */
  lemma BoundIffSomeLevelBinds(stage: Stage, absPath: Path, suffix: string)
    ensures BoundBinding(stage, absPath, suffix).Some?
        <==> absPath in stage && exists k :: 0 < k <= |absPath| && LevelBinding(stage, absPath[..k], suffix).Some?
  {
    if absPath in stage {
      if exists k :: 0 < k <= |absPath| && LevelBinding(stage, absPath[..k], suffix).Some? {
        var k := NearestBoundLevel(stage, absPath, suffix);
        FirstBindingIsCandidate(stage, absPath, suffix, k);
      } else {
        NothingBound(stage, absPath, suffix);
      }
    }
  }

  /** The largest k (the nearest level) whose prefix `p[..k]` binds. */
  lemma {:induction false} NearestBoundLevel(stage: Stage, p: Path, suffix: string) returns (k: nat)
    requires exists m :: 0 < m <= |p| && LevelBinding(stage, p[..m], suffix).Some?
    ensures 0 < k <= |p| && LevelBinding(stage, p[..k], suffix).Some?
    ensures forall m :: k < m <= |p| ==> LevelBinding(stage, p[..m], suffix).None?
  {
    k := |p|;
    while LevelBinding(stage, p[..k], suffix).None?
      invariant 0 <= k <= |p|
      invariant forall m :: k < m <= |p| ==> LevelBinding(stage, p[..m], suffix).None?
      invariant exists m :: 0 < m <= k && LevelBinding(stage, p[..m], suffix).Some?
      decreases k
    {
      k := k - 1;
    }
  }

  // ----- Two scenes -----

  /** `/A` binds M1 with strength `strength`, `/A/B` binds M2 with the default
      strength, and M1, M2 are Material prims. */
  function TwoLevelStage(strength: Option<string>): Stage
  {
    map[
      ["A"] := Prim(OtherPrim, map[], map[BindingRelBase := BindingRel(Direct(["M1"]), strength)]),
      ["A", "B"] := Prim(OtherPrim, map[], map[BindingRelBase := BindingRel(Direct(["M2"]), None)]),
      ["M1"] := Prim(MaterialPrim, map[], map[]),
      ["M2"] := Prim(MaterialPrim, map[], map[])
    ]
  }

  /** Querying `/A/B` when both bindings have the default strength gives M2. */
  lemma NearestWinsExample()
    ensures BoundBinding(TwoLevelStage(None), ["A", "B"], "") == Some(Binding(["M2"], Some(["M2"]), ""))
  {
  }

  /** When `/A` binds M1 as `strongerThanDescendants`, querying `/A/B` gives M1. */
  lemma StrongerAncestorExample()
    ensures BoundBinding(TwoLevelStage(Some(StrongerThanDescendants)), ["A", "B"], "")
         == Some(Binding(["M1"], Some(["M1"]), StrongerThanDescendants))
  {
    var stage := TwoLevelStage(Some(StrongerThanDescendants));
    assert ["A", "B"][..1] == ["A"];
    StrongerAncestorOverrides(stage, ["A", "B"], "", 1);
  }
}
