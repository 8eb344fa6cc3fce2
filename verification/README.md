# Cura machine stack, modelled in Dafny

This project models the machine (global) stack of Cura's settings system,
`cura/Settings/GlobalStack.py`. A machine stack is a container stack whose
metadata type is `machine`. It owns an ordered list of extruder stacks. It
answers property queries for settings. For the `value` of a setting still in
its default state, it first tries the setting's `resolve` property. A set of
keys currently being resolved guards that step against re-entry.

Files:

- `values.dfy` (module `Values`): Python values as the stack sees them. It
  holds `Option` for lookup results, `Outcome` for calls that may raise, the
  `InstanceState` enumeration, Python truthiness (`Truthy`), and how a value
  compares with an int (`AsNumber`; a bool counts as 0 or 1, a string raises
  `TypeError`).
- `global_stack.dfy` (module `Settings`): the decision functions and the
  `GlobalStack` class. The class has the extruder list and the guard set as
  fields, and its methods update them in place.
- `resolution.dfy` (module `Resolution`): what the guard set achieves across
  nested re-entrant calls, and what repeated `addExtruder` calls leave behind.

The inherited container-stack machinery is a `ContainerView` value:

- `defined` is the set of keys the definition container has an entry for.
- `lookup(guard, key, property)` is the plain chained lookup (`super().getProperty`).

The lookup takes the guard set in effect when it runs. Evaluating a resolve
function can call back into the stack, so what it returns may depend on which
keys are being resolved.

Two Python details need a reading. The test `property_name is not "value"`
is an identity test on string objects. The model reads it as string
inequality. The two differ only for a string "value" that Python built at
run time and did not intern. The model treats that string as "value"; Python
would skip resolution for it. In `addExtruder`, a count of None, 0, False or
"" is falsy and imposes no cap. A negative count is truthy, so every addition
is then rejected.

## Model

| member | source | states |
|---|---|---|
| `Settings.ShouldResolve` | cura/Settings/GlobalStack.py:96-114 | Resolve is never tried for a property other than "value", for a key already in the guard set, or when the chained "state" is present and not Default. In every other case it is tried. |
| `Settings.ResolvedProperty` | cura/Settings/GlobalStack.py:72-83 | An undefined key yields None for every property. When resolution does not apply, the result is the plain chained lookup. The result differs from the plain lookup only when resolution applies and "resolve" (looked up with the key in the guard) is present. In that case the result is that resolve value. |
| `Settings.CapacityCheck` | cura/Settings/GlobalStack.py:54-56 | A falsy count never rejects. A numeric count admits a new extruder exactly when the current length is below it, and otherwise raises TooManyExtrudersError with the stack id and the count. A truthy non-numeric count raises TypeError. |
| `Settings.GlobalStack.constructor` | cura/Settings/GlobalStack.py:24-34 | A new stack has metadata type "machine", an empty extruder list and an empty guard set. It starts within any positive resolved extruder count. |
| `Settings.GlobalStack.LoadingPriority` | cura/Settings/GlobalStack.py:43-45 | Machine stacks have loading priority 2. |
| `Settings.GlobalStack.GetProperty` | cura/Settings/GlobalStack.py:72-83 | The result is `ResolvedProperty` of the guard set at entry. The guard set on return equals the one at entry. (The method body also asserts that the key is present when it is removed.) |
| `Settings.GlobalStack.AddExtruder` | cura/Settings/GlobalStack.py:53-58 | The count is read through the stack's own getProperty. The outcome is `CapacityCheck` of that count and the current length. On success the extruder is appended at the end and earlier entries keep their order. On failure the list is unchanged. The guard set is unchanged. Staying within a positive resolved count is preserved. |
| `Settings.GlobalStack.SetNextStack` | cura/Settings/GlobalStack.py:88-90 | Always raises InvalidOperationError with the message "Global stack cannot have a next stack!". It changes no state. |
| `Resolution.ChainKeysDistinct` | cura/Settings/GlobalStack.py:101-106 | In any chain of nested calls that each take the resolve path, no key is in the outer guard set and no key occurs twice. So a key being resolved is never resolved again re-entrantly. |
| `Resolution.ChainDepthBounded` | cura/Settings/GlobalStack.py:73-79 | Such a chain is at most as deep as the number of defined keys not already being resolved. Nested resolution therefore cannot recurse forever. |
| `Resolution.NestedResolutionRestoresGuard` | cura/Settings/GlobalStack.py:76-79 | After every call of such a chain has returned, the guard set equals its value before the outermost call. Each removal finds its key present. |
| `Resolution.AddEach` | cura/Settings/GlobalStack.py:53-58 | A caller that calls `AddExtruder` once per stack of a list, in order, leaves exactly the list `ExtrudersAfterCalls` gives for the count resolved at the start. The guard set is unchanged. Staying within a positive count is preserved. |
| `Resolution.AdditionsFillUpToCount` | cura/Settings/GlobalStack.py:53-58 | With an extruder count n > 0, repeated additions keep exactly the first extruders that fit, in order. The list never exceeds n, and every addition after the n-th fails. |
| `Resolution.NoCountAppendsAll` | cura/Settings/GlobalStack.py:54-58 | With a falsy extruder count, every addition succeeds and the list grows by all the added stacks, in order. |

## Left out

- Settings.GlobalStack.GetProperty: the chained lookups are assumed never to raise. The source adds and removes the key without try/finally (cura/Settings/GlobalStack.py:77-79). So if evaluating a resolve raises, the source leaves the key in `_resolving_settings`, and later lookups of that key's value skip resolve. The model does not capture this. `Resolution.NestedResolutionRestoresGuard` rests on the same assumption.
- `Values.Value` covers only ints, bools, strings and `InstanceState` values. Floats and other Python values are not represented, so a float extruder count is not modelled.
- The `extruders` Qt property (cura/Settings/GlobalStack.py:39-41) only returns the list; the model reads the `extruders` field directly. Other PyQt decorators and signals are UI binding.
- Mime-type and container-type registration at module load (cura/Settings/GlobalStack.py:118-125) are side effects on foreign registries.
- The base classes `CuraContainerStack` and `ContainerStack`, `DefinitionContainer.findDefinitions` and `InstanceState` are not part of this model. They appear only as the `ContainerView` parameter and the `InstanceState` datatype. `InstanceState` is taken as a distinct enumeration that never equals an int or compares with one.
- Evaluation of resolve functions is not modelled. Its effect is captured by the guard argument of the lookup and by `Resolution.ResolveChain`, which describes a chain of nested calls.
- Metadata entries set by the base constructor are not modelled. The constructor's metadata is only the `type` entry.
- Extruder stacks are referred to by their id rather than as objects, so aliasing between the list and the registry is not modelled.
- `Settings.GlobalStack.AddExtruder`: the error carries the stack id and the count rather than the formatted message string.
- The container registry, its loading of stack files by suffix, legacy-file migration and `saveAll` are not part of this model. `tests/Settings/TestCuraContainerRegistry.py` exercises a registry whose implementation is not among the modelled files.
- Concurrency is not modelled. The stack is used from one thread.
