/** The machine (global) stack: property lookup with a "resolve" override
    guarded against re-entry, a bounded list of extruder stacks, and a
    next-stack link that may never be set. */
module Settings {
  import opened Values

  /** Extruder stacks are referred to by their container id. */
  type StackId = string

  /** The setting whose value bounds the number of extruders. */
  const MachineExtruderCount: string := "machine_extruder_count"

  /** The message of the error raised by setting a next stack. */
  const NextStackMessage: string := "Global stack cannot have a next stack!"

  /** The errors the machine stack raises. TypeError is what Python raises
      when the extruder count cannot be compared with an int. */
  datatype StackError =
    | TooManyExtrudersError(stackId: StackId, count: Value)
    | InvalidOperationError(message: string)
    | TypeError

  /** What the inherited container-stack machinery answers.
      `defined` holds the keys the definition container has an entry for.
      `lookup(guard, key, property)` is the plain chained lookup through the
      containers and the next stack, run while `guard` is the set of keys
      being resolved: evaluating a resolve function may call back into the
      stack, so its result may depend on that set. */
  datatype ContainerView = ContainerView(
    defined: set<string>,
    lookup: (set<string>, string, string) -> Option<Value>)

  /** Whether the "resolve" property is tried before the requested one:
      only for "value", only when the key is not being resolved already, and
      only while the setting's state is absent or Default. */
  function ShouldResolve(guard: set<string>, view: ContainerView, key: string, propertyName: string): (b: bool)
    ensures propertyName != "value" ==> !b
    ensures key in guard ==> !b
    ensures view.lookup(guard, key, "state").Some? && view.lookup(guard, key, "state") != Some(StateValue(Default)) ==> !b
    ensures (propertyName == "value" && key !in guard
             && view.lookup(guard, key, "state") in {None, Some(StateValue(Default))}) ==> b
  {
    if propertyName != "value" then
      false
    else if key in guard then
      false
    else
      var state := view.lookup(guard, key, "state");
      !(state.Some? && state.value != StateValue(Default))
  }

  /** The result of getProperty(key, propertyName) on a stack whose guard
      set is `guard` when the call starts. */
  function ResolvedProperty(view: ContainerView, guard: set<string>, key: string, propertyName: string): (r: Option<Value>)
    // an undefined key has no property at all
    ensures key !in view.defined ==> r == None
    // when resolution does not apply, the answer is the plain chained lookup
    ensures key in view.defined && !ShouldResolve(guard, view, key, propertyName)
            ==> r == view.lookup(guard, key, propertyName)
    // the answer differs from the plain lookup only by being the present
    // "resolve" property, looked up with the key added to the guard
    ensures key in view.defined && r != view.lookup(guard, key, propertyName)
            ==> ShouldResolve(guard, view, key, propertyName)
                && r.Some? && r == view.lookup(guard + {key}, key, "resolve")
    // when resolution applies and yields something, that is the answer
    ensures key in view.defined && ShouldResolve(guard, view, key, propertyName)
            && view.lookup(guard + {key}, key, "resolve").Some?
            ==> r == view.lookup(guard + {key}, key, "resolve")
  {
    if key !in view.defined then
      None
    else if ShouldResolve(guard, view, key, propertyName)
            && view.lookup(guard + {key}, key, "resolve").Some? then
      view.lookup(guard + {key}, key, "resolve")
    else
      view.lookup(guard, key, propertyName)
  }

  /** The capacity test of addExtruder for a stack holding `current`
      extruders: a falsy count imposes no bound, a numeric one admits the
      new extruder only while the list stays within it, any other raises
      TypeError. */
  function CapacityCheck(stackId: StackId, count: Option<Value>, current: nat): (r: Outcome<StackError>)
    ensures !Truthy(count) ==> r == Pass
    ensures Truthy(count) && AsNumber(count.value).Some?
            ==> (r.Pass? <==> current < AsNumber(count.value).value)
    ensures r.Fail? ==> Truthy(count)
    ensures r.Fail? && r.error != TypeError ==> r.error == TooManyExtrudersError(stackId, count.value)
    ensures r == Fail(TypeError) <==> Truthy(count) && AsNumber(count.value).None?
  {
    if !Truthy(count) then
      Pass
    else
      match AsNumber(count.value)
      case None => Fail(TypeError)
      case Some(n) => if current + 1 > n then Fail(TooManyExtrudersError(stackId, count.value)) else Pass
  }

  /** The bound the extruder count puts on the extruder list, if any. */
  function Capacity(count: Option<Value>): Option<int>
  {
    if Truthy(count) then AsNumber(count.value) else None
  }

  /** The machine stack of one printer. */
  class GlobalStack {
    const id: StackId
    /** The containers inherited from the container stack; no member
        modelled here changes them. */
    const containers: ContainerView
    var metaData: map<string, string>
    var extruders: seq<StackId>
    /** The keys whose "resolve" property is being looked up. */
    var resolvingSettings: set<string>

    /** The extruder list is within the resolved extruder count whenever
        that count is a positive number. */
    ghost predicate WithinCapacity()
      reads this
    {
      var cap := Capacity(ResolvedProperty(containers, resolvingSettings, MachineExtruderCount, "value"));
      cap.Some? && cap.value > 0 ==> |extruders| <= cap.value
    }

    constructor (containerId: StackId, containers: ContainerView)
      ensures id == containerId && this.containers == containers
      ensures metaData == map["type" := "machine"]
      ensures extruders == [] && resolvingSettings == {}
      ensures WithinCapacity()
    {
      id := containerId;
      this.containers := containers;
      metaData := map["type" := "machine"];
      extruders := [];
      resolvingSettings := {};
    }

    /** The loading priority of machine stacks. */
    static function LoadingPriority(): (r: int)
      ensures r == 2
    {
      2
    }

    /** The value of `propertyName` for setting `key`. The guard set is
        grown by the key around the "resolve" lookup and is as before on
        return. */
    method GetProperty(key: string, propertyName: string) returns (r: Option<Value>)
      modifies this`resolvingSettings
      ensures resolvingSettings == old(resolvingSettings)
      ensures r == ResolvedProperty(containers, old(resolvingSettings), key, propertyName)
    {
      if key !in containers.defined {
        return None;
      }
      if ShouldResolve(resolvingSettings, containers, key, propertyName) {
        resolvingSettings := resolvingSettings + {key};
        var resolve := containers.lookup(resolvingSettings, key, "resolve");
        // the key is present, so removing it cannot raise KeyError
        assert key in resolvingSettings;
        resolvingSettings := resolvingSettings - {key};
        if resolve.Some? {
          return resolve;
        }
      }
      r := containers.lookup(resolvingSettings, key, propertyName);
    }

    /** Appends `extruder` unless the resolved extruder count forbids it. */
    method AddExtruder(extruder: StackId) returns (r: Outcome<StackError>)
      modifies this`extruders, this`resolvingSettings
      ensures resolvingSettings == old(resolvingSettings)
      ensures r == CapacityCheck(id, ResolvedProperty(containers, old(resolvingSettings), MachineExtruderCount, "value"), |old(extruders)|)
      ensures extruders == if r.Pass? then old(extruders) + [extruder] else old(extruders)
      ensures old(WithinCapacity()) ==> WithinCapacity()
    {
      var extruderCount := GetProperty(MachineExtruderCount, "value");
      if Truthy(extruderCount) {
        var n := AsNumber(extruderCount.value);
        if n.None? {
          return Fail(TypeError);
        }
        if |extruders| + 1 > n.value {
          return Fail(TooManyExtrudersError(id, extruderCount.value));
        }
      }
      extruders := extruders + [extruder];
      r := Pass;
    }

    /** A machine stack never links to a next stack. */
    function SetNextStack(nextStack: StackId): (r: Outcome<StackError>)
      ensures r.Fail? && r.error.InvalidOperationError?
      ensures r.error.message == NextStackMessage
    {
      Fail(InvalidOperationError(NextStackMessage))
    }
  }
}
