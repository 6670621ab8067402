/** The avatar store (apps/client/src/store/avatarStore.ts): the four parts
    of the player's avatar and `setPart`, which writes one part and
    announces the new look on the event bus. The event bus is recorded as
    the list of payloads emitted. */
module AvatarStore {
  import opened Common
  import opened AvatarLogic

  /** The store's data: the four parts, and any other key `setPart` was
      asked to write (`set({ [category]: itemId })` accepts any key). */
  datatype StoreState = StoreState(parts: AvatarState, extras: map<string, string>)

  /** The look a new store starts with. */
  function InitialState(): (s: StoreState)
    ensures s.parts.body == "body_light" && s.parts.outfit == "outfit_tshirt_blue"
    ensures s.parts.hair == "hair_short_black" && s.parts.accessory == "acc_none"
    ensures s.extras == map[]
  {
    StoreState(AvatarState("body_light", "outfit_tshirt_blue", "hair_short_black", "acc_none"), map[])
  }

  /** The keys kept as the four named parts. */
  predicate IsPartName(c: string) {
    c == "body" || c == "outfit" || c == "hair" || c == "accessory"
  }

  /** Every other key lives in `extras`, and only there. */
  predicate WellFormed(s: StoreState) {
    forall c :: c in s.extras ==> !IsPartName(c)
  }

  /** The value stored under a key, if any. */
  function Part(s: StoreState, category: string): Option<string> {
    if category == "body" then Some(s.parts.body)
    else if category == "outfit" then Some(s.parts.outfit)
    else if category == "hair" then Some(s.parts.hair)
    else if category == "accessory" then Some(s.parts.accessory)
    else if category in s.extras then Some(s.extras[category])
    else None
  }

  /** The state after `set({ [category]: itemId })`. */
  function WithPart(s: StoreState, category: string, itemId: string): (r: StoreState)
    ensures WellFormed(s) ==> WellFormed(r)
    // the written key now holds the item
    ensures Part(r, category) == Some(itemId)
    // every other key is unchanged
    ensures forall c :: c != category ==> Part(r, c) == Part(s, c)
  {
    if category == "body" then s.(parts := s.parts.(body := itemId))
    else if category == "outfit" then s.(parts := s.parts.(outfit := itemId))
    else if category == "hair" then s.(parts := s.parts.(hair := itemId))
    else if category == "accessory" then s.(parts := s.parts.(accessory := itemId))
    else s.(extras := s.extras[category := itemId])
  }

  /** Writing the same key twice keeps only the second write. */
  lemma WithPartOverwrites(s: StoreState, category: string, a: string, b: string)
    ensures WithPart(WithPart(s, category, a), category, b) == WithPart(s, category, b)
  {
  }

  /** Writes to different keys commute. */
  lemma WithPartCommutes(s: StoreState, c1: string, a: string, c2: string, b: string)
    requires WellFormed(s) && c1 != c2
    ensures WithPart(WithPart(s, c1, a), c2, b) == WithPart(WithPart(s, c2, b), c1, a)
  {
    var l, r := WithPart(WithPart(s, c1, a), c2, b), WithPart(WithPart(s, c2, b), c1, a);
    forall c ensures Part(l, c) == Part(r, c) {
    }
    PartsDetermineState(l, r);
  }

  /** Two states agree exactly when every key reads the same. */
  lemma PartsDetermineState(s: StoreState, t: StoreState)
    requires WellFormed(s) && WellFormed(t)
    requires forall c :: Part(s, c) == Part(t, c)
    ensures s == t
  {
    assert Part(s, "body") == Part(t, "body");
    assert Part(s, "outfit") == Part(t, "outfit");
    assert Part(s, "hair") == Part(t, "hair");
    assert Part(s, "accessory") == Part(t, "accessory");
    forall c | c in s.extras ensures c in t.extras && s.extras[c] == t.extras[c] {
      assert Part(s, c) == Part(t, c);
    }
    forall c | c in t.extras ensures c in s.extras {
      assert Part(s, c) == Part(t, c);
    }
  }

  class AvatarStore {
    var state: StoreState
    /** Every `AVATAR_CHANGED` payload emitted so far. */
    var emitted: seq<StoreState>

    ghost predicate Valid()
      reads this
    {
      WellFormed(state)
    }

    constructor ()
      ensures Valid()
      ensures state == InitialState() && emitted == []
    {
      state := InitialState();
      emitted := [];
    }

    /** `setPart`: write one key, then emit the whole new state. */
    method SetPart(category: string, itemId: string)
      requires Valid()
      modifies this
      ensures Valid()
      ensures state == WithPart(old(state), category, itemId)
      ensures emitted == old(emitted) + [state]
    {
      state := WithPart(state, category, itemId);
      var payload := WithPart(state, category, itemId);
      WithPartOverwrites(old(state), category, itemId, itemId);
      emitted := emitted + [payload];
    }
  }
}
