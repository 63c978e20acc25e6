/** The SDK stand-in's free functions: the frame rate, the conversion of
    a node's object to a triangle mesh, and the search of a derived
    object's modifier stack. */
module MaxFuncs {
  import opened Basics
  import opened MaxSdk

  /** Ticks of the SDK's clock in one second. */
  const TICKS_PER_SECOND: int := 4800

  /** Frames per second the stand-in assumes. */
  const FRAMES_PER_SECOND: int := 30

  /** `GetTicksPerFrame`. */
  function GetTicksPerFrame(): (r: int)
    ensures r == 160 && r * FRAMES_PER_SECOND == TICKS_PER_SECOND
  {
    TICKS_PER_SECOND / FRAMES_PER_SECOND
  }

  /** `GetTriObjectFromNode`: null for a null node or a node without an
      object, and what the object converts to otherwise, which for every
      object here is null. */
  function GetTriObjectFromNode(node: INode?, t: int): (r: TriObject?)
    reads node
    ensures r == null
  {
    if node == null then null
    else match node.GetObjectRef()
      case None => null
      case Some(o) => ConvertToType(o, t, 0)
  }

  /** `FindModifier(obj, mod)`: -1 for a null object or modifier and for
      an object that is not a derived object; otherwise the first index of
      `mod` on the stack, or -1 when it is not there. */
  method FindModifier(obj: Option<ObjectRef>, mod: Modifier?) returns (r: int)
    ensures r == -1 || (obj.Some? && obj.value.DerivedRef? && mod != null)
    ensures obj.Some? && obj.value.DerivedRef? && mod != null ==>
      var mods := obj.value.derived.modifiers;
      && (r == -1 <==> forall k :: 0 <= k < |mods| ==> mods[k] != mod)
      && (r != -1 ==> 0 <= r < |mods| && mods[r] == mod && forall k :: 0 <= k < r ==> mods[k] != mod)
  {
    if obj.None? || mod == null {
      return -1;
    }
    match obj.value
    case PlainRef(_) =>
      return -1;
    case DerivedRef(d) =>
      var numMods := d.NumModifiers();
      for i := 0 to numMods
        invariant forall k :: 0 <= k < i ==> d.modifiers[k] != mod
      {
        if d.GetModifier(i) == mod {
          return i;
        }
      }
      return -1;
  }
}
