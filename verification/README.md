# Shading resolution in tinyusdz's Tydra layer, modelled in Dafny

This project models the three shading queries declared in
`src/tydra/shader-network.hh` of tinyusdz:

- **EvaluateShaderAttribute<T>** returns the terminal value of a shader attribute.
  If the attribute holds a value or time samples, that value is the answer.
  If it is a connection, the walk follows it, hop by hop, to the attribute that produces the value.
- **GetLocalMaterialBinding** reads one prim's own `material:binding[:suffix]` relationship.
  It returns the target paths, a parallel list of Material pointers (null where a path names no Material), and the `bindMaterialAs` token.
- **GetBoundMaterial** resolves the effective material for an absolute prim path.
  It walks from the prim out through its ancestors and applies the binding-strength rule of the GetBoundMaterial pseudo-code in Pixar's UsdShade "Material Binding" documentation.
  The nearest binding is the candidate. Any farther binding whose `bindMaterialAs` is `strongerThanDescendants` replaces it, so the outermost such binding wins.

The Stage is a finite map from prim `Path` to `Prim`.
A `Path` is the list of name components; the pseudo-root `/` is `[]`.
A `Prim` has a kind (Material, Shader, other), attributes by name and binding relationships by full relationship name.
An attribute is a closed union: a value, time samples, or a connection to another attribute's path.
A Material pointer is `Option<Path>`: `None` is nullptr, and `Some(p)` points at the Material prim stored at `p`.

Files, one module each:
- `wrappers.dfy`: `Option` and `Result`.
- `scene.dfy` (`Scene`): the stage, prims, attributes, values and binding relationships.
- `shader_network.dfy` (`ShaderNetwork`): attribute evaluation.
- `material_binding.dfy` (`MaterialBinding`): relationship names and the local binding reader.
- `bound_material.dfy` (`BoundMaterial`): the ancestor walk.

Each public query is a method with a loop.
Its `ensures` ties its out-parameters to a pure specification function (`Evaluate`, `ReadLocalBinding`, `BoundBinding`).
In `BoundMaterial` the levels of the walk are the prefixes of the queried path: `absPath[..k]` for k from `|absPath|` (the prim itself) down to 1 (its top-level ancestor), so a larger k is a nearer level.
Lemmas state what the header's comments promise about those functions.

## Model

| member | source | states |
|---|---|---|
| ShaderNetwork.EvaluateShaderAttribute | src/tydra/shader-network.hh:39-63 | The loop that walks the connections returns true exactly when `Evaluate` succeeds. On success the out value is that result and has the requested type; on failure the reported error kind is `Evaluate`'s. |
| ShaderNetwork.Evaluate | src/tydra/shader-network.hh:55-63 | A successful result has the requested type `T`. It fails with AttributeNotFound exactly when the shader has no attribute of that name. |
| ShaderNetwork.FollowConnections | src/tydra/shader-network.hh:43 | Following connections ends on a non-connection attribute, or fails as dangling or cyclic. It terminates because it never revisits an attribute of the finite stage. |
| ShaderNetwork.TerminalValue | src/tydra/shader-network.hh:42-45 | A value or time-sampled attribute yields its stored value, or the sample the store yields at the time code, of the requested type. It fails with NoSampleAtTime exactly when the store yields no sample, and with TypeMismatch exactly when the value or sample found has another type. |
| ShaderNetwork.EvaluateTerminalAttribute | src/tydra/shader-network.hh:42-53 | An attribute holding a value evaluates to exactly that value. Time samples evaluate to the sample read at `timeCode`. A value or sample of another type fails with TypeMismatch, and a missing sample with NoSampleAtTime. No connection is followed. |
| ShaderNetwork.EvaluateFollowsChain | src/tydra/shader-network.hh:43 | A chain of any number of connections that ends in a terminal attribute evaluates to that attribute's value, whatever the number of hops. |
| ShaderNetwork.EvaluateSuccessHasChain | src/tydra/shader-network.hh:55 | Evaluation succeeds only when the attribute exists and its connection chain reaches a terminal attribute, whose value is the result. |
| ShaderNetwork.EvaluateCycleFails | src/tydra/shader-network.hh:55 | A connection chain that leads back into itself makes evaluation fail with ConnectionCycle. |
| ShaderNetwork.EvaluateDanglingFails | src/tydra/shader-network.hh:55 | A connection chain whose last connection names a missing attribute makes evaluation fail with DanglingConnection. |
| ShaderNetwork.TerminalChainIsDistinct | src/tydra/shader-network.hh:43 | A connection chain that reaches a terminal attribute never passes the same attribute twice. |
| MaterialBinding.BindingRelName | src/tydra/shader-network.hh:77 | Builds the relationship name read for a suffix. Every such name lies in the `material:binding` namespace, and only the empty suffix reads the bare `material:binding`. |
| MaterialBinding.BindingSuffix | src/tydra/shader-network.hh:106 | Parses the suffix out of a binding relationship name. Only names in the `material:binding` namespace parse, and the bare `material:binding` gives the empty suffix. |
| MaterialBinding.BindingSuffixOfName | src/tydra/shader-network.hh:77 | The suffix is recovered from the relationship name: `material:binding` for the empty suffix, `material:binding:<suffix>` otherwise. |
| MaterialBinding.BindingNameOfSuffix | src/tydra/shader-network.hh:106 | Every binding relationship name, `material:binding:correction:shafts` included, is the name built from the suffix it carries. |
| MaterialBinding.BindingRelNameInjective | src/tydra/shader-network.hh:77 | Distinct suffixes name distinct relationships. |
| MaterialBinding.ResolveMaterial | src/tydra/shader-network.hh:79 | The Material pointer for a target path: it points at that path exactly when the stage holds a Material prim there, and is null otherwise. |
| MaterialBinding.ResolveAll | src/tydra/shader-network.hh:79 | The Material list has one entry per target path, and entry i is the resolution of path i. |
| MaterialBinding.ReadLocalBinding | src/tydra/shader-network.hh:72-81 | `materials` has the length of `materialPaths`. Entry i is null exactly when path i names no Material, and otherwise points at that path. The call succeeds exactly when every path names a Material. |
| MaterialBinding.GetLocalMaterialBinding | src/tydra/shader-network.hh:69-90 | The loop appends the prim's target paths and their Material pointers to the caller's vectors. It returns the `bindMaterialAs` token, and returns true exactly when every target resolves to a Material. |
| MaterialBinding.DirectBindingIsSingle | src/tydra/shader-network.hh:73 | On a prim whose binding shapes follow their names, reading a relationship outside the `collection` namespace, plain `material:binding` included, yields a single item: its one target. |
| MaterialBinding.CollectionBindingIsMembers | src/tydra/shader-network.hh:72 | On such a prim, reading a relationship in the `collection` namespace yields the array of its member paths. |
| MaterialBinding.NoBindingIsEmpty | src/tydra/shader-network.hh:80-81 | With no relationship for the suffix, the results are empty, the token is empty and the call succeeds. |
| MaterialBinding.BindMaterialAsToken | src/tydra/shader-network.hh:80 | The token is the authored `bindMaterialAs`, or empty when none is authored. |
| MaterialBinding.SuffixChannelsIndependent | src/tydra/shader-network.hh:77 | A prim with only the unqualified binding has no binding on any non-empty suffix. |
| MaterialBinding.LocalBindingIgnoresOtherPrims | src/tydra/shader-network.hh:71 | Changing the bindings of any other prim, a parent included, never changes a prim's local binding. |
| BoundMaterial.LevelBinding | src/tydra/shader-network.hh:108 | The Material pointer of a level's binding is its path resolved in the stage, null when the path names no Material. |
| BoundMaterial.Walk | src/tydra/shader-network.hh:92-102 | The walk from a prim out to its top-level ancestor, replacing the candidate by the first binding met and then by every `strongerThanDescendants` binding. A candidate, once held, is never dropped, and every binding picked up points at the Material its path names. |
| BoundMaterial.BoundBinding | src/tydra/shader-network.hh:92-117 | What GetBoundMaterial finds: nothing for a prim that does not exist. The returned Material pointer is the returned path resolved in the stage, and may be null. |
| BoundMaterial.GetBoundMaterial | src/tydra/shader-network.hh:92-117 | The loop walks from the prim to its top-level ancestor and calls GetLocalMaterialBinding at each level. It returns true exactly when `BoundBinding` finds a binding. It then writes that binding's path and its Material pointer, which may be null. |
| BoundMaterial.CandidateStays | src/tydra/shader-network.hh:98 | Once the walk holds a candidate, a farther binding without the stronger strength never replaces it. |
| BoundMaterial.StrongerReplaces | src/tydra/shader-network.hh:98-102 | A `strongerThanDescendants` binding replaces whatever candidate the walk carries. |
| BoundMaterial.FirstBindingIsCandidate | src/tydra/shader-network.hh:96-97 | The first level of the walk that has a binding becomes the candidate. |
| BoundMaterial.NearestBindingWins | src/tydra/shader-network.hh:96-97 | The prim's own binding wins, and failing that the nearest ancestor's binding wins, unless a farther binding is stronger than descendants. |
| BoundMaterial.StrongerAncestorOverrides | src/tydra/shader-network.hh:98-102 | The outermost ancestor binding marked `strongerThanDescendants` wins over any nearer binding. |
| BoundMaterial.BoundIffSomeLevelBinds | src/tydra/shader-network.hh:109 | The query returns true exactly when the prim exists and some level from it to its top-level ancestor has a binding, even when the Material pointer is null. |
| BoundMaterial.NearestWinsExample | src/tydra/shader-network.hh:96-97 | `/A` binds M1 and `/A/B` binds M2, both at default strength: querying `/A/B` gives M2. |
| BoundMaterial.StrongerAncestorExample | src/tydra/shader-network.hh:98-102 | `/A` binds M1 as `strongerThanDescendants` and `/A/B` binds M2: querying `/A/B` gives M1. |

## Left out

- The concrete Stage, Prim and Path classes are replaced by maps and datatypes. Path syntax, relative paths and property-path parsing are not modelled; a malformed target is simply one that does not resolve to a Material.
- The type-erased `value::Value` becomes a closed `Value` datatype. The conversion to the requested `T` succeeds only on an exact type match; role types and other implicit conversions are not modelled. Floating-point values are `real`.
- Time-sample interpolation on `value::TimeCode` is a `Sampler` parameter: the storage layer's lookup at a time code, which may fail. Its interpolation policy is not modelled.
- The shader is passed as the path of a Shader prim of the stage. That it is a Shader of that stage is a precondition, as the source's `const Shader &` parameter demands.
- ShaderNetwork.EvaluateShaderAttribute: the contract does not say what is left in `out_val` on failure, nor in `err` on success.
- The walk is bounded by the set of attributes already passed, not by a fixed maximum hop count. A cycle is reported as ConnectionCycle, and no ConnectionChainTooLong error exists. The cost of evaluation is not modelled.
- Error strings are not modelled. EvaluateShaderAttribute reports an error kind; GetLocalMaterialBinding and GetBoundMaterial report only their boolean result.
- Collection-based bindings are marked TODO in the source. The scene layer reports a collection binding's members already expanded; membership and collection-binding precedence are not modelled, and GetBoundMaterial takes the first path a level reports.
- The shape of a relationship's targets is a datatype choice (`Direct` or `Collection`), not derived from its name. `WellFormedBindings` states the link: `Collection` exactly for a suffix starting with `collection:`. The single-item and array promises are proved for prims meeting it. Purpose-qualified collection names such as `material:binding:preview:collection:<name>` are not recognised as collections.
- The UsdShade fallback from a purpose-specific binding to the all-purpose one is not modelled. Only the relationship the suffix names is read.
- The GLSL-style `vec2`/`vec3`/`vec4`/`mat2` aliases and the `UsdPrimvarReader_*` aliases are type aliases only.
- `ExtractPrimvarReadersFromMaterialNode` is commented out in the source.
