/** `findNearestInteractable`
    (apps/client/src/features/world/objects/ProximityDetector.ts): among the
    placed objects that have an interaction, the one whose centre is
    nearest the player, if it lies within 1.5 tiles. Distances are
    compared squared, which orders them as the square roots would. */
module Proximity {
  import opened Common
  import opened ObjectManifest

  /** `INTERACTION_RANGE`, 1.5 tiles, squared. */
  const RangeSq: real := 1.5 * 1.5

  /** The nearest object (`object` in the source) and its squared distance
      from the player. */
  datatype ProximityResult = ProximityResult(obj: ResolvedMapObject, distSq: real)

  /** Squared distance from the player's tile position to the centre of the
      object's footprint. */
  function DistSq(px: real, py: real, o: ResolvedMapObject): real {
    var dx := px - (o.tileX + o.def.width / 2.0);
    var dy := py - (o.tileY + o.def.height / 2.0);
    dx * dx + dy * dy
  }

  /** An object is a candidate when it has an interaction and is in range. */
  predicate Eligible(px: real, py: real, o: ResolvedMapObject) {
    o.def.interactionType.Some? && DistSq(px, py, o) <= RangeSq
  }

  /** `findNearestInteractable`. The result is absent exactly when no
      object is a candidate; otherwise it is a candidate at least as near as
      every other, and strictly nearer than every candidate listed before
      it, because only a strictly smaller distance replaces the best so far. */
  method FindNearestInteractable(px: real, py: real, objects: seq<ResolvedMapObject>)
      returns (nearest: Option<ProximityResult>)
    ensures nearest.None? <==> forall i :: 0 <= i < |objects| ==> !Eligible(px, py, objects[i])
    ensures nearest.Some? ==> nearest.value.distSq <= RangeSq
    ensures nearest.Some? ==> exists i :: (0 <= i < |objects| &&
      objects[i] == nearest.value.obj &&
      Eligible(px, py, objects[i]) &&
      nearest.value.distSq == DistSq(px, py, objects[i]) &&
      (forall j :: 0 <= j < |objects| && Eligible(px, py, objects[j]) ==> nearest.value.distSq <= DistSq(px, py, objects[j])) &&
      (forall j :: 0 <= j < i && Eligible(px, py, objects[j]) ==> nearest.value.distSq < DistSq(px, py, objects[j])))
  {
    nearest := None;
    ghost var at := 0;
    var k := 0;
    while k < |objects|
      invariant 0 <= k <= |objects|
      invariant nearest.None? <==> forall i :: 0 <= i < k ==> !Eligible(px, py, objects[i])
      invariant nearest.Some? ==> (0 <= at < k && objects[at] == nearest.value.obj &&
        Eligible(px, py, objects[at]) && nearest.value.distSq == DistSq(px, py, objects[at]))
      invariant nearest.Some? ==> forall j :: 0 <= j < k && Eligible(px, py, objects[j]) ==>
        nearest.value.distSq <= DistSq(px, py, objects[j])
      invariant nearest.Some? ==> forall j :: 0 <= j < at && Eligible(px, py, objects[j]) ==>
        nearest.value.distSq < DistSq(px, py, objects[j])
    {
      var obj := objects[k];
      if obj.def.interactionType.Some? {
        var dx := px - (obj.tileX + obj.def.width / 2.0);
        var dy := py - (obj.tileY + obj.def.height / 2.0);
        var distSq := dx * dx + dy * dy;
        assert distSq == DistSq(px, py, obj);
        if distSq <= RangeSq {
          if nearest.None? || distSq < nearest.value.distSq {
            nearest := Some(ProximityResult(obj, distSq));
            at := k;
          }
        }
      }
      k := k + 1;
    }
  }
}
