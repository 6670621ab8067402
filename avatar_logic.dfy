/** The avatar manifest and `getItemById`
    (apps/client/src/features/avatar/logic.ts). Fetching and caching the
    manifest file is not modelled: the manifest is a value. */
module AvatarLogic {
  import opened Common

  datatype AvatarCategory = AvatarCategory(id: string, name: string, zIndex: int)

  /** One selectable item; `type` is optional in the manifest. */
  datatype AvatarItem = AvatarItem(id: string, name: string, color: string, itemType: Option<string>)

  /** `items` maps a category id to that category's items. */
  datatype AvatarManifest = AvatarManifest(
    categories: seq<AvatarCategory>,
    items: map<string, seq<AvatarItem>>)

  /** The four parts an avatar is made of. */
  datatype AvatarState = AvatarState(body: string, outfit: string, hair: string, accessory: string)

  /** `items.find(item => item.id === id)`: the first item with that id. */
  function FindById(items: seq<AvatarItem>, id: string): (r: Option<AvatarItem>)
    ensures r.None? <==> forall i :: 0 <= i < |items| ==> items[i].id != id
    ensures r.Some? ==> r.value.id == id
    ensures r.Some? ==> exists i :: (0 <= i < |items| && items[i] == r.value &&
      forall j :: 0 <= j < i ==> items[j].id != id)
  {
    if items == [] then None
    else if items[0].id == id then Some(items[0])
    else
      var r := FindById(items[1..], id);
      assert forall i :: 0 < i < |items| ==> items[i] == items[1..][i - 1];
      if r.Some? then
        var k :| 0 <= k < |items[1..]| && items[1..][k] == r.value &&
          forall j :: 0 <= j < k ==> items[1..][j].id != id;
        assert items[k + 1] == r.value;
        r
      else r
  }

  /** `getItemById(manifest, category, id)`: nothing for an unknown
      category, otherwise the first item of the category with that id. */
  function GetItemById(manifest: AvatarManifest, category: string, id: string): (r: Option<AvatarItem>)
    ensures category !in manifest.items ==> r.None?
    ensures category in manifest.items ==>
      (r.None? <==> forall i :: 0 <= i < |manifest.items[category]| ==> manifest.items[category][i].id != id)
    ensures r.Some? ==> category in manifest.items && r.value.id == id && exists i :: (
      0 <= i < |manifest.items[category]| && manifest.items[category][i] == r.value &&
      forall j :: 0 <= j < i ==> manifest.items[category][j].id != id)
  {
    if category in manifest.items then FindById(manifest.items[category], id) else None
  }
}
