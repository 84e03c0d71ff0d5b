/**
  EvaluateShaderAttribute<T>: the terminal value of a shader attribute. A value
  or a time-sampled value is the answer itself; a connection is followed to the
  attribute that produces the value, over as many hops as the network has. The
  walk remembers the attributes it has passed, so a cyclic network fails
  instead of looping.
 */
module ShaderNetwork {
  import opened Wrappers
  import opened Scene

  /** Why an evaluation failed (the error text of the system is not modelled). */
  datatype EvalError =
    | AttributeNotFound   // the shader has no attribute of that name
    | DanglingConnection  // a connection names an attribute that does not exist
    | ConnectionCycle     // a connection leads back to an attribute already passed
    | NoSampleAtTime      // the time samples yield no value at the time code
    | TypeMismatch        // the terminal value is not of the requested type

  /** `shader` is the path of a Shader prim of `stage` (the source takes a `Shader`). */
  predicate IsShader(stage: Stage, shader: Path)
  {
    shader in stage && stage[shader].kind == ShaderPrim
  }

  /** The checked conversion of a stored value to the requested type. */
  function Typed(v: Value, ty: ValueType): Result<Value, EvalError>
  {
    if TypeOf(v) == ty then Success(v) else Failure(TypeMismatch)
  }

  /** The value a non-connection attribute holds at `time`: the stored value,
      or the sample the store yields at `time`, provided it has type `ty`. */
  function TerminalValue(a: Attribute, ty: ValueType, time: TimeCode, sample: Sampler): (r: Result<Value, EvalError>)
    requires !a.ConnectionAttr?
    ensures r.Success? ==> TypeOf(r.value) == ty
    ensures r.Success? ==> (a.ValueAttr? && r.value == a.value) || (a.SampledAttr? && sample(a.samples, time) == Some(r.value))
    ensures r.Failure? ==> r.error in {TypeMismatch, NoSampleAtTime}
    ensures r == Failure(NoSampleAtTime) <==> a.SampledAttr? && sample(a.samples, time).None?
    ensures r == Failure(TypeMismatch)
        <==> || (a.ValueAttr? && TypeOf(a.value) != ty)
             || (a.SampledAttr? && sample(a.samples, time).Some? && TypeOf(sample(a.samples, time).value) != ty)
  {
    match a
    case ValueAttr(v) => Typed(v, ty)
    case SampledAttr(ts) =>
      match sample(ts, time)
      case None => Failure(NoSampleAtTime)
      case Some(v) => Typed(v, ty)
  }

  /** Follows connections from the attribute at `ap` to the first attribute
      that is not a connection; `visited` holds the attributes already passed. */
  function FollowConnections(stage: Stage, ap: AttrPath, visited: set<AttrPath>): (r: Result<Attribute, EvalError>)
    requires visited <= AttrPaths(stage)
    ensures r.Success? ==> !r.value.ConnectionAttr?
    ensures r.Failure? ==> r.error in {DanglingConnection, ConnectionCycle}
    decreases |AttrPaths(stage) - visited|
  {
    if ap in visited then Failure(ConnectionCycle)
    else
      match LookupAttr(stage, ap)
      case None => Failure(DanglingConnection)
      case Some(ConnectionAttr(next)) =>
        assert AttrPaths(stage) - (visited + {ap}) < AttrPaths(stage) - visited;
        FollowConnections(stage, next, visited + {ap})
      case Some(a) => Success(a)
  }

  /** The result of EvaluateShaderAttribute<T> on attribute `name` of `shader`. */
  function Evaluate(stage: Stage, shader: Path, name: string, ty: ValueType, time: TimeCode, sample: Sampler): (r: Result<Value, EvalError>)
    requires IsShader(stage, shader)
    ensures r.Success? ==> TypeOf(r.value) == ty
    ensures r == Failure(AttributeNotFound) <==> name !in stage[shader].props
  {
    if name !in stage[shader].props then Failure(AttributeNotFound)
    else
      match FollowConnections(stage, AttrPath(shader, name), {})
      case Failure(e) => Failure(e)
      case Success(a) => TerminalValue(a, ty, time, sample)
  }

  /** The query itself: walks the connection chain in a loop, carrying the set of
      attributes passed. `ok` is the returned bool, `outVal` what is written to
      `out_val`, `err` the kind of failure reported through `err` (None when
      nothing is reported). */
  method EvaluateShaderAttribute(stage: Stage, shader: Path, name: string, ty: ValueType, time: TimeCode, sample: Sampler)
    returns (ok: bool, outVal: Value, err: Option<EvalError>)
    requires IsShader(stage, shader)
    ensures ok <==> Evaluate(stage, shader, name, ty, time, sample).Success?
    ensures ok ==> outVal == Evaluate(stage, shader, name, ty, time, sample).value && TypeOf(outVal) == ty
    ensures ok <==> err.None?
    ensures !ok ==> err.value == Evaluate(stage, shader, name, ty, time, sample).error
  {
    outVal := IntValue(0);
    if name !in stage[shader].props {
      return false, outVal, Some(AttributeNotFound);
    }
    var start := AttrPath(shader, name);
    var cur := start;
    var visited: set<AttrPath> := {};
    while true
      invariant visited <= AttrPaths(stage)
      invariant FollowConnections(stage, cur, visited) == FollowConnections(stage, start, {})
      decreases |AttrPaths(stage) - visited|
    {
      if cur in visited {
        return false, outVal, Some(ConnectionCycle);
      }
      var found := LookupAttr(stage, cur);
      if found.None? {
        return false, outVal, Some(DanglingConnection);
      }
      var a := found.value;
      if !a.ConnectionAttr? {
        var r := TerminalValue(a, ty, time, sample);
        if r.Failure? {
          return false, outVal, Some(r.error);
        }
        return true, r.value, None;
      }
      assert AttrPaths(stage) - (visited + {cur}) < AttrPaths(stage) - visited;
      visited := visited + {cur};
      cur := a.target;
    }
  }

  // ----- Connection chains -----

  /** Each attribute of `chain` but the last is a connection to the next one. */
  predicate ConnectsThrough(stage: Stage, chain: seq<AttrPath>)
  {
    forall i :: 0 <= i < |chain| - 1 ==> LookupAttr(stage, chain[i]) == Some(ConnectionAttr(chain[i + 1]))
  }

  /** No attribute occurs twice in `chain`. */
  predicate Distinct(chain: seq<AttrPath>)
  {
    forall i, j :: 0 <= i < j < |chain| ==> chain[i] != chain[j]
  }

  /** `chain` starts at `start`, follows connections and ends on an existing
      attribute that holds a value or time samples: n = |chain| - 1 hops. */
  predicate IsTerminalChain(stage: Stage, start: AttrPath, chain: seq<AttrPath>)
  {
    && |chain| >= 1
    && chain[0] == start
    && ConnectsThrough(stage, chain)
    && LookupAttr(stage, chain[|chain| - 1]).Some?
    && !LookupAttr(stage, chain[|chain| - 1]).value.ConnectionAttr?
  }

  /** The attributes among the first k of `chain`. */
  function Passed(chain: seq<AttrPath>, k: nat): set<AttrPath>
    requires k <= |chain|
  {
    set i | 0 <= i < k :: chain[i]
  }

  /** A chain that ends on a terminal attribute never repeats an attribute:
      connections are deterministic, so a repeat would loop for ever. */
  lemma {:induction false} TerminalChainIsDistinct(stage: Stage, start: AttrPath, chain: seq<AttrPath>)
    requires IsTerminalChain(stage, start, chain)
    ensures Distinct(chain)
  {
    forall i, j | 0 <= i < j < |chain|
      ensures chain[i] != chain[j]
    {
      NoRepeatBefore(stage, start, chain, i, j);
    }
  }

  lemma {:induction false} NoRepeatBefore(stage: Stage, start: AttrPath, chain: seq<AttrPath>, i: nat, j: nat)
    requires IsTerminalChain(stage, start, chain)
    requires i < j < |chain|
    ensures chain[i] != chain[j]
    decreases |chain| - j
  {
    if j < |chain| - 1 {
      NoRepeatBefore(stage, start, chain, i + 1, j + 1);
      assert LookupAttr(stage, chain[i]) == Some(ConnectionAttr(chain[i + 1]));
      assert LookupAttr(stage, chain[j]) == Some(ConnectionAttr(chain[j + 1]));
    } else {
      assert LookupAttr(stage, chain[i]) == Some(ConnectionAttr(chain[i + 1]));
    }
  }

  /** Walking a repeat-free connection chain, the walk from its head reaches
      its k-th attribute having passed exactly the first k. */
  lemma {:induction false} FollowAlong(stage: Stage, chain: seq<AttrPath>, k: nat)
    requires |chain| >= 1 && ConnectsThrough(stage, chain) && Distinct(chain)
    requires k < |chain|
    ensures Passed(chain, k) <= AttrPaths(stage)
    ensures FollowConnections(stage, chain[0], {}) == FollowConnections(stage, chain[k], Passed(chain, k))
  {
    if k == 0 {
      assert Passed(chain, 0) == {};
    } else {
      FollowAlong(stage, chain, k - 1);
      var before := Passed(chain, k - 1);
      assert chain[k - 1] !in before;
      assert LookupAttr(stage, chain[k - 1]) == Some(ConnectionAttr(chain[k]));
      assert Passed(chain, k) == before + {chain[k - 1]};
    }
  }

  /** An attribute holding a value or time samples evaluates to exactly that
      value (read at `time` for samples), converted to `ty`; nothing is followed. */
  lemma EvaluateTerminalAttribute(stage: Stage, shader: Path, name: string, ty: ValueType, time: TimeCode, sample: Sampler)
    requires IsShader(stage, shader)
    requires name in stage[shader].props && !stage[shader].props[name].ConnectionAttr?
    ensures var a := stage[shader].props[name];
            var r := Evaluate(stage, shader, name, ty, time, sample);
            && (a.ValueAttr? && TypeOf(a.value) == ty ==> r == Success(a.value))
            && (a.SampledAttr? && sample(a.samples, time).Some? && TypeOf(sample(a.samples, time).value) == ty
                ==> r == Success(sample(a.samples, time).value))
            && (a.SampledAttr? && sample(a.samples, time).None? ==> r == Failure(NoSampleAtTime))
            && (a.ValueAttr? && TypeOf(a.value) != ty ==> r == Failure(TypeMismatch))
            && (a.SampledAttr? && sample(a.samples, time).Some? && TypeOf(sample(a.samples, time).value) != ty
                ==> r == Failure(TypeMismatch))
  {
  }

  /** A chain of any number of connections ending in a terminal attribute
      evaluates to that attribute's value, whatever the number of hops. */
  lemma {:induction false} EvaluateFollowsChain(stage: Stage, shader: Path, name: string, ty: ValueType, time: TimeCode, sample: Sampler, chain: seq<AttrPath>)
    requires IsShader(stage, shader)
    requires IsTerminalChain(stage, AttrPath(shader, name), chain)
    ensures Evaluate(stage, shader, name, ty, time, sample)
         == TerminalValue(LookupAttr(stage, chain[|chain| - 1]).value, ty, time, sample)
  {
    TerminalChainIsDistinct(stage, AttrPath(shader, name), chain);
    var last := |chain| - 1;
    FollowAlong(stage, chain, last);
    assert chain[last] !in Passed(chain, last);
  }

  /** Conversely, a successful evaluation went through such a chain. */
  lemma {:induction false} EvaluateSuccessHasChain(stage: Stage, shader: Path, name: string, ty: ValueType, time: TimeCode, sample: Sampler)
    returns (chain: seq<AttrPath>)
    requires IsShader(stage, shader)
    requires Evaluate(stage, shader, name, ty, time, sample).Success?
    ensures IsTerminalChain(stage, AttrPath(shader, name), chain)
    ensures Evaluate(stage, shader, name, ty, time, sample)
         == TerminalValue(LookupAttr(stage, chain[|chain| - 1]).value, ty, time, sample)
  {
    chain := FollowedChain(stage, AttrPath(shader, name), {});
  }

  lemma {:induction false} FollowedChain(stage: Stage, ap: AttrPath, visited: set<AttrPath>) returns (chain: seq<AttrPath>)
    requires visited <= AttrPaths(stage)
    requires FollowConnections(stage, ap, visited).Success?
    ensures IsTerminalChain(stage, ap, chain)
    ensures LookupAttr(stage, chain[|chain| - 1]) == Some(FollowConnections(stage, ap, visited).value)
    decreases |AttrPaths(stage) - visited|
  {
    var a := LookupAttr(stage, ap).value;
    if a.ConnectionAttr? {
      assert AttrPaths(stage) - (visited + {ap}) < AttrPaths(stage) - visited;
      var rest := FollowedChain(stage, a.target, visited + {ap});
      chain := [ap] + rest;
      forall i | 0 <= i < |chain| - 1
        ensures LookupAttr(stage, chain[i]) == Some(ConnectionAttr(chain[i + 1]))
      {
        if i > 0 {
          assert chain[i] == rest[i - 1] && chain[i + 1] == rest[i];
        }
      }
    } else {
      chain := [ap];
    }
  }

  /** A walk over distinct attributes whose last connection leads back into
      the walk fails with ConnectionCycle: evaluation stops on cyclic data. */
  lemma {:induction false} EvaluateCycleFails(stage: Stage, shader: Path, name: string, ty: ValueType, time: TimeCode, sample: Sampler, chain: seq<AttrPath>, back: nat)
    requires IsShader(stage, shader)
    requires |chain| >= 1 && chain[0] == AttrPath(shader, name)
    requires ConnectsThrough(stage, chain) && Distinct(chain)
    requires back < |chain|
    requires LookupAttr(stage, chain[|chain| - 1]) == Some(ConnectionAttr(chain[back]))
    ensures Evaluate(stage, shader, name, ty, time, sample) == Failure(ConnectionCycle)
  {
    var last := |chain| - 1;
    FollowAlong(stage, chain, last);
    assert chain[last] !in Passed(chain, last);
    assert Passed(chain, last) + {chain[last]} == Passed(chain, |chain|);
    assert chain[back] in Passed(chain, |chain|);
  }

  /** A walk over distinct attributes whose last connection names an attribute
      that does not exist fails with DanglingConnection. */
  lemma {:induction false} EvaluateDanglingFails(stage: Stage, shader: Path, name: string, ty: ValueType, time: TimeCode, sample: Sampler, chain: seq<AttrPath>, target: AttrPath)
    requires IsShader(stage, shader)
    requires |chain| >= 1 && chain[0] == AttrPath(shader, name)
    requires ConnectsThrough(stage, chain) && Distinct(chain)
    requires LookupAttr(stage, chain[|chain| - 1]) == Some(ConnectionAttr(target))
    requires LookupAttr(stage, target).None?
    ensures Evaluate(stage, shader, name, ty, time, sample) == Failure(DanglingConnection)
  {
    var last := |chain| - 1;
    FollowAlong(stage, chain, last);
    assert chain[last] !in Passed(chain, last);
    assert target !in Passed(chain, last) + {chain[last]};
  }
}
