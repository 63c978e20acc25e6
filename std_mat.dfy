/** `StdMat2`, the standard material of the SDK stand-in: ten texture-map
    slots, each with a texmap (or null) and an on/off flag, held in two
    fixed arrays. The colour and float parameters it inherits from
    `StdMat` are not modelled. */
module StdMat {
  import opened MaxSdk

  /** The number of texmap slots. */
  const SLOTS: int := 10

  class StdMat2 {
    const texmaps: array<Texmap?>
    const texmapOn: array<bool>

    ghost predicate Valid()
      reads this
    {
      texmaps.Length == SLOTS && texmapOn.Length == SLOTS
    }

    /** Every slot starts with no texmap and switched off. */
    constructor()
      ensures Valid() && fresh(texmaps) && fresh(texmapOn)
      ensures forall k :: 0 <= k < SLOTS ==> texmaps[k] == null && !texmapOn[k]
    {
      texmaps := new Texmap?[SLOTS];
      texmapOn := new bool[SLOTS];
      new;
      for i := 0 to SLOTS
        invariant forall k :: 0 <= k < i ==> texmaps[k] == null && !texmapOn[k]
      {
        texmaps[i] := null;
        texmapOn[i] := false;
      }
    }

    /** `GetTexmap(slot)`: null outside slots 0 to 9. */
    function GetTexmap(slot: int): (t: Texmap?)
      requires Valid()
      reads this, texmaps
      ensures !(0 <= slot < SLOTS) ==> t == null
    {
      if 0 <= slot < SLOTS then texmaps[slot] else null
    }

    /** `GetTexmapOn(slot)`: false outside slots 0 to 9. */
    function GetTexmapOn(slot: int): (on: bool)
      requires Valid()
      reads this, texmapOn
      ensures on ==> 0 <= slot < SLOTS
    {
      if 0 <= slot < SLOTS then texmapOn[slot] else false
    }

    /** `SetTexmap(slot, tex)`: only that slot changes, and only when it
        is one of the ten; the on/off flags are untouched. */
    method SetTexmap(slot: int, tex: Texmap?)
      requires Valid()
      modifies texmaps
      ensures texmaps[..] == if 0 <= slot < SLOTS then old(texmaps[..])[slot := tex] else old(texmaps[..])
      ensures 0 <= slot < SLOTS ==> GetTexmap(slot) == tex
      ensures forall k :: k != slot ==> GetTexmap(k) == old(GetTexmap(k))
    {
      if slot >= 0 && slot < SLOTS {
        texmaps[slot] := tex;
      }
    }

    /** `SetTexmapOn(slot, on)`: only that flag changes, and only when the
        slot is one of the ten; the texmaps are untouched. */
    method SetTexmapOn(slot: int, on: bool)
      requires Valid()
      modifies texmapOn
      ensures texmapOn[..] == if 0 <= slot < SLOTS then old(texmapOn[..])[slot := on] else old(texmapOn[..])
      ensures 0 <= slot < SLOTS ==> GetTexmapOn(slot) == on
      ensures forall k :: k != slot ==> GetTexmapOn(k) == old(GetTexmapOn(k))
    {
      if slot >= 0 && slot < SLOTS {
        texmapOn[slot] := on;
      }
    }
  }
}
