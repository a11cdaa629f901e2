/**
 * The list item the switch list page receives (SwitchListResponse): eight
 * columns of a switch, leaving out its videos and the detail columns.
 */
module ListResponse {
  import opened Wrappers
  import opened SwitchEntity

  datatype SwitchListResponse = SwitchListResponse(
    id: Option<int>,
    name: Option<string>,
    switchType: Option<SwitchType>,
    category: Option<string>,
    manufacturer: Option<string>,
    price: Option<int>,
    actuationForce: Option<int>,
    bottomOutForce: Option<int>)

  /** `SwitchListResponse.from(switchEntity)`. */
  function From(r: SwitchRecord): (d: SwitchListResponse)
    ensures d.id == r.id && d.name == r.attrs.name && d.switchType == r.attrs.switchType
    ensures d.category == r.attrs.category && d.manufacturer == r.attrs.manufacturer
    ensures d.price == r.attrs.price && d.actuationForce == r.attrs.actuationForce
    ensures d.bottomOutForce == r.attrs.bottomOutForce
  {
    SwitchListResponse(
      r.id, r.attrs.name, r.attrs.switchType, r.attrs.category, r.attrs.manufacturer,
      r.attrs.price, r.attrs.actuationForce, r.attrs.bottomOutForce)
  }

  /** Two switches agreeing on the eight listed columns. */
  predicate SameListColumns(a: SwitchRecord, b: SwitchRecord) {
    && a.id == b.id && a.attrs.name == b.attrs.name && a.attrs.switchType == b.attrs.switchType
    && a.attrs.category == b.attrs.category && a.attrs.manufacturer == b.attrs.manufacturer
    && a.attrs.price == b.attrs.price && a.attrs.actuationForce == b.attrs.actuationForce
    && a.attrs.bottomOutForce == b.attrs.bottomOutForce
  }

  /** Nothing else is carried: switches that differ only in their videos,
    * sheet row, weight, travel, materials, spring, sound, lubrication or
    * description give the same list item, and switches that differ in a
    * listed column give different ones. */
  lemma FromCarriesListedColumnsOnly(a: SwitchRecord, b: SwitchRecord)
    ensures From(a) == From(b) <==> SameListColumns(a, b)
  {
  }

  /** A sheet update with the same listed columns leaves the list item as
    * it was. */
  lemma FromAfterSheetUpdate(r: SwitchRecord, a: SwitchAttributes)
    requires a.name == r.attrs.name && a.switchType == r.attrs.switchType && a.category == r.attrs.category
    requires a.manufacturer == r.attrs.manufacturer && a.price == r.attrs.price
    requires a.actuationForce == r.attrs.actuationForce && a.bottomOutForce == r.attrs.bottomOutForce
    ensures From(ApplySheetUpdate(r, a)) == From(r)
  {
  }
}
