/** Interactive map objects: the catalogue and placement records
    (apps/client/src/features/world/objects/types.ts) and the join of
    placements with catalogue entries that `resolveMapObjects` performs
    (apps/client/src/features/world/objects/objectManifest.ts). The two
    JSON files are parameters; fetching and caching them is not modelled. */
module ObjectManifest {
  import opened Common

  datatype Category = Furniture | Sign | Screen | Decoration
  datatype InteractionType = Note | Link | Image

  /** A catalogue entry; its pixel-art description is drawing data and is
      not modelled. Sizes are in tiles. */
  datatype ObjectDef = ObjectDef(
    id: string,
    name: string,
    category: Category,
    width: real,
    height: real,
    solid: bool,
    interactionType: Option<InteractionType>)

  datatype InteractionData = InteractionData(
    title: Option<string>,
    content: Option<string>,
    url: Option<string>,
    imageUrl: Option<string>)

  /** Where one catalogue object stands on the map. */
  datatype ObjectPlacement = ObjectPlacement(
    id: string,
    objectId: string,
    tileX: real,
    tileY: real,
    interactionData: Option<InteractionData>)

  /** A placement merged with its catalogue entry. */
  datatype ResolvedMapObject = ResolvedMapObject(
    placementId: string,
    def: ObjectDef,
    tileX: real,
    tileY: real,
    interactionData: Option<InteractionData>)

  /** `new Map(manifest.objects.map(o => [o.id, o]))`: entries are inserted
      in catalogue order, so a later entry with the same id replaces an
      earlier one. */
  function Catalogue(defs: seq<ObjectDef>): (cat: map<string, ObjectDef>)
    // every entry is filed under its own id
    ensures forall id :: id in cat ==> cat[id].id == id
    decreases |defs|
  {
    if defs == [] then map[]
    else Catalogue(defs[..|defs| - 1])[defs[|defs| - 1].id := defs[|defs| - 1]]
  }

  /** The catalogue knows exactly the listed ids. */
  lemma {:induction false} CatalogueDomain(defs: seq<ObjectDef>, id: string)
    ensures id in Catalogue(defs) <==> exists i :: 0 <= i < |defs| && defs[i].id == id
    decreases |defs|
  {
    if defs != [] {
      var n := |defs| - 1;
      var front := defs[..n];
      CatalogueDomain(front, id);
      if exists i :: 0 <= i < |front| && front[i].id == id {
        var i :| 0 <= i < |front| && front[i].id == id;
        assert defs[i].id == id;
      }
      if exists i :: 0 <= i < |defs| && defs[i].id == id {
        var i :| 0 <= i < |defs| && defs[i].id == id;
        if i < n {
          assert front[i].id == id;
        }
      }
    }
  }

  /** For a duplicated id the catalogue keeps the last entry listed. */
  lemma {:induction false} CatalogueLastWins(defs: seq<ObjectDef>, id: string)
    requires id in Catalogue(defs)
    ensures exists i :: (0 <= i < |defs| && Catalogue(defs)[id] == defs[i] &&
      forall j :: i < j < |defs| ==> defs[j].id != id)
    decreases |defs|
  {
    var n := |defs| - 1;
    var front := defs[..n];
    if defs[n].id != id {
      CatalogueLastWins(front, id);
      var i :| 0 <= i < |front| && Catalogue(front)[id] == front[i] &&
        forall j :: i < j < |front| ==> front[j].id != id;
      assert defs[i] == front[i];
      assert forall j :: i < j < n ==> defs[j] == front[j];
    }
  }

  /** The record pushed for a placement whose catalogue entry is `def`. */
  function Resolve(p: ObjectPlacement, def: ObjectDef): ResolvedMapObject {
    ResolvedMapObject(p.id, def, p.tileX, p.tileY, p.interactionData)
  }

  /** What the loop pushes for one placement. */
  function Pushed(cat: map<string, ObjectDef>, p: ObjectPlacement): seq<ResolvedMapObject> {
    if p.objectId in cat then [Resolve(p, cat[p.objectId])] else []
  }

  /** The output of the join loop: placements in order, unknown ids skipped. */
  function Resolved(cat: map<string, ObjectDef>, ps: seq<ObjectPlacement>): (r: seq<ResolvedMapObject>)
    ensures |r| <= |ps|
    decreases |ps|
  {
    if ps == [] then [] else Resolved(cat, ps[..|ps| - 1]) + Pushed(cat, ps[|ps| - 1])
  }

  lemma ResolvedSnoc(cat: map<string, ObjectDef>, ps: seq<ObjectPlacement>, i: nat)
    requires i < |ps|
    ensures Resolved(cat, ps[..i + 1]) == Resolved(cat, ps[..i]) + Pushed(cat, ps[i])
  {
    assert ps[..i + 1][..i] == ps[..i];
  }

  /** The join works placement by placement: the output for two runs of
      placements is the output for the first followed by that for the
      second, so the output keeps placement order. */
  lemma {:induction false} ResolvedAppend(cat: map<string, ObjectDef>, ps: seq<ObjectPlacement>, qs: seq<ObjectPlacement>)
    ensures Resolved(cat, ps + qs) == Resolved(cat, ps) + Resolved(cat, qs)
    decreases |qs|
  {
    if qs == [] {
      assert ps + qs == ps;
    } else {
      var n := |qs| - 1;
      var t := ps + qs;
      assert t[..|t| - 1] == ps + qs[..n];
      assert t[|t| - 1] == qs[n];
      ResolvedAppend(cat, ps, qs[..n]);
      calc {
        Resolved(cat, t);
        Resolved(cat, ps + qs[..n]) + Pushed(cat, qs[n]);
        (Resolved(cat, ps) + Resolved(cat, qs[..n])) + Pushed(cat, qs[n]);
        Resolved(cat, ps) + (Resolved(cat, qs[..n]) + Pushed(cat, qs[n]));
        Resolved(cat, ps) + Resolved(cat, qs);
      }
    }
  }

  /** A single placement yields its merged record, or nothing when its
      `objectId` is not in the catalogue. */
  lemma ResolvedSingle(cat: map<string, ObjectDef>, p: ObjectPlacement)
    ensures p.objectId !in cat ==> Resolved(cat, [p]) == []
    ensures p.objectId in cat ==> Resolved(cat, [p]) == [Resolve(p, cat[p.objectId])]
  {
    assert [p][..0] == [];
  }

  /** Every output record comes from some placement: same placement id,
      tile and interaction data, and a definition whose id is the
      placement's `objectId`. */
  lemma {:induction false} ResolvedFromPlacements(cat: map<string, ObjectDef>, ps: seq<ObjectPlacement>, k: nat)
    requires forall id :: id in cat ==> cat[id].id == id
    requires k < |Resolved(cat, ps)|
    ensures exists i :: (0 <= i < |ps| && ps[i].objectId in cat &&
      Resolved(cat, ps)[k] == Resolve(ps[i], cat[ps[i].objectId]))
    ensures Resolved(cat, ps)[k].def.id in cat
    decreases |ps|
  {
    var n := |ps| - 1;
    var front := ps[..n];
    if k < |Resolved(cat, front)| {
      ResolvedFromPlacements(cat, front, k);
      var i :| 0 <= i < |front| && front[i].objectId in cat &&
        Resolved(cat, front)[k] == Resolve(front[i], cat[front[i].objectId]);
      assert ps[i] == front[i];
    } else {
      assert Resolved(cat, ps) == Resolved(cat, front) + Pushed(cat, ps[n]);
    }
  }

  /** The output is as long as the input exactly when every placement is
      known to the catalogue. */
  lemma {:induction false} ResolvedComplete(cat: map<string, ObjectDef>, ps: seq<ObjectPlacement>)
    ensures |Resolved(cat, ps)| == |ps| <==> forall i :: 0 <= i < |ps| ==> ps[i].objectId in cat
    decreases |ps|
  {
    if ps != [] {
      var n := |ps| - 1;
      var front := ps[..n];
      ResolvedComplete(cat, front);
      assert forall i :: 0 <= i < n ==> ps[i] == front[i];
    }
  }

  /** `resolveMapObjects` once both files are in: build the catalogue, then
      push the merged record of every known placement. */
  method ResolveMapObjects(defs: seq<ObjectDef>, placements: seq<ObjectPlacement>)
      returns (resolved: seq<ResolvedMapObject>)
    ensures resolved == Resolved(Catalogue(defs), placements)
  {
    var objectMap := Catalogue(defs);
    resolved := [];
    var i := 0;
    assert placements[..0] == [];
    while i < |placements|
      invariant 0 <= i <= |placements|
      invariant resolved == Resolved(objectMap, placements[..i])
    {
      var placement := placements[i];
      ResolvedSnoc(objectMap, placements, i);
      if placement.objectId !in objectMap {
        assert resolved + [] == resolved;
      } else {
        var def := objectMap[placement.objectId];
        resolved := resolved + [ResolvedMapObject(placement.id, def, placement.tileX, placement.tileY, placement.interactionData)];
      }
      i := i + 1;
    }
    assert placements[..|placements|] == placements;
  }
}
