/**
 * The inventory records the front end draws: hardware models, assets, and the two shapes an
 * asset arrives in (a live record, or its copy inside a change plan), with the rules that turn a
 * record into a colour and a navigation target.
 */
module Inventory {
  import opened Wrappers
  import Js
  import opened ModelUtils

  type AssetId = nat

  /** A height in rack units; the database never stores a model lower than one unit. */
  type Units = n: int | 1 <= n witness 1

  datatype Model = Model(
    vendor: string,
    modelNumber: string,
    height: Units,
    modelType: ModelType,
    displayColor: Option<string>)

  /**
   * An asset as the web API serialises it. `rackPosition` is the 1-based lowest unit, `chassisSlot`
   * the slot a blade sits in (a string, as it arrives), `blades` the blades of a chassis when the
   * API includes them.
   */
  datatype Asset = Asset(
    id: AssetId,
    hostname: Option<string>,
    assetNumber: Option<string>,
    rackPosition: int,
    model: Model,
    displayColor: Option<string>,
    chassisSlot: Option<string>,
    blades: Option<seq<AssetRef>>)

  /** A live asset, or the change-plan copy of one, which points at the live asset it modifies. */
  datatype AssetRef =
    | Live(asset: Asset)
    | Planned(asset: Asset, relatedAsset: Option<AssetId>)

  /** `display_color ? display_color : model.display_color`. */
  function DisplayColor(a: Asset): (c: Option<string>)
    ensures c == a.displayColor || c == a.model.displayColor
    ensures Js.Truthy(a.displayColor) <==> c == a.displayColor && Js.Truthy(c)
    ensures !Js.Truthy(a.displayColor) ==> c == a.model.displayColor
  {
    Js.OrElse(a.displayColor, a.model.displayColor)
  }

  /**
   * Where a click on an asset leads: the live asset a change-plan copy points at, and the record's
   * own id otherwise (also for a copy of an asset that does not exist yet).
   */
  function NavigationId(r: AssetRef): (id: AssetId)
    ensures r.Planned? && r.relatedAsset.Some? ==> id == r.relatedAsset.value
    ensures r.Live? || r.relatedAsset.None? ==> id == r.asset.id
  {
    match r
    case Planned(_, Some(related)) => related
    case _ => r.asset.id
  }

  /** A change-plan copy navigates by the live asset it points at, whatever its own id. */
  lemma NavigationIgnoresCopyIdentity(a: Asset, b: Asset, related: AssetId)
    ensures NavigationId(Planned(a, Some(related))) == NavigationId(Planned(b, Some(related)))
  {
  }
}
