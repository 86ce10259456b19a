/**
 * The client's view of its OpenXR instance (em::XrContext): the two handles, the list of
 * enabled extensions, and the system lookup. 0 stands for XR_NULL_HANDLE and
 * XR_NULL_SYSTEM_ID; a None extension list is a null list pointer.
 */
module ClientXrContext {
  import opened Wrappers

  const NullHandle: nat := 0
  const NullSystemId: nat := 0

  datatype XrContext = XrContext(instance: nat, session: nat, enabledExtensions: Option<seq<string>>)

  /** is_valid: both handles are set. */
  predicate IsValid(ctx: XrContext) {
    ctx.instance != NullHandle && ctx.session != NullHandle
  }

  /** std::find: the index of the first entry equal to `name`, or |list| when there is none. */
  function FindIndex(list: seq<string>, name: string): (r: nat)
    ensures r <= |list|
    ensures r < |list| ==> list[r] == name
    ensures forall k :: 0 <= k < r ==> list[k] != name
    decreases |list|
  {
    if list == [] then 0
    else if list[0] == name then 0
    else 1 + FindIndex(list[1..], name)
  }

  /** is_ext_enabled; a None name is a null C string. */
  function IsExtEnabled(ctx: XrContext, name: Option<string>): (r: bool)
    ensures !IsValid(ctx) || name.None? || ctx.enabledExtensions.None? ==> !r
    ensures IsValid(ctx) && name.Some? && ctx.enabledExtensions.Some? ==>
              (r <==> name.value in ctx.enabledExtensions.value)
  {
    if !IsValid(ctx) || name.None? || ctx.enabledExtensions.None? then false
    else FindIndex(ctx.enabledExtensions.value, name.value) != |ctx.enabledExtensions.value|
  }

  /**
   * system_id. `getSystem` is the runtime's answer to xrGetSystem for a head-mounted
   * display: None when the call fails, otherwise the id it wrote.
   */
  function SystemId(ctx: XrContext, getSystem: Option<nat>): (r: nat)
    ensures !IsValid(ctx) ==> r == NullSystemId
    ensures getSystem.None? ==> r == NullSystemId
    ensures IsValid(ctx) && getSystem.Some? ==> r == getSystem.value
  {
    if !IsValid(ctx) then NullSystemId
    else if getSystem.None? then NullSystemId
    else getSystem.value
  }

  /** An extension appearing anywhere in the list of a valid context is found, whatever precedes it. */
  lemma ExtensionFoundAnywhere(ctx: XrContext, before: seq<string>, name: string, after: seq<string>)
    requires IsValid(ctx) && ctx.enabledExtensions == Some(before + [name] + after)
    ensures IsExtEnabled(ctx, Some(name))
  {
    assert (before + [name] + after)[|before|] == name;
  }
}
