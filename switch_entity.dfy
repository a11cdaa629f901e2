/**
 * The switch entity of domain/switches: its enumerations, the value of one
 * row of the `switches` table, and the entity object whose constructor and
 * sheet update assign its fields in place.
 */
module SwitchEntity {
  import opened Wrappers
  import opened Numbers

  datatype SwitchType = Linear | Tactile | Clicky

  datatype SoundProfile = Quiet | Normal | Loud

  /** A switch-video association, known here only by its id. */
  datatype SwitchVideoRef = SwitchVideoRef(id: int)

  /** The sixteen columns a sheet row supplies; `None` is a SQL NULL. */
  datatype SwitchAttributes = SwitchAttributes(
    name: Option<string>,
    switchType: Option<SwitchType>,
    category: Option<string>,
    weight: Option<int>,
    manufacturer: Option<string>,
    price: Option<int>,
    actuationForce: Option<int>,
    bottomOutForce: Option<int>,
    travelDistance: Option<Decimal>,
    preTravel: Option<Decimal>,
    springType: Option<string>,
    stemMaterial: Option<string>,
    housingMaterial: Option<string>,
    soundProfile: Option<SoundProfile>,
    isLubed: Option<bool>,
    description: Option<string>)

  /** Every persistent field of a switch: the generated id, the sheet
    * columns, the sheet row number and the owned videos. */
  datatype SwitchRecord = SwitchRecord(
    id: Option<int>,
    attrs: SwitchAttributes,
    googleSheetsRow: Option<int>,
    switchVideos: seq<SwitchVideoRef>)

  /** The `name` and `type` columns are declared NOT NULL; a row without
    * them cannot be stored. */
  predicate SatisfiesNotNull(r: SwitchRecord) {
    r.attrs.name.Some? && r.attrs.switchType.Some?
  }

  /** What the builder constructor produces: every argument in its field,
    * a null `isLubed` turned into false, no id yet and no videos. */
  function NewSwitch(a: SwitchAttributes, googleSheetsRow: Option<int>): (r: SwitchRecord)
    ensures r.id.None? && r.switchVideos == [] && r.googleSheetsRow == googleSheetsRow
    ensures r.attrs.isLubed.Some? && (a.isLubed.Some? ==> r.attrs.isLubed == a.isLubed)
    ensures r.attrs.(isLubed := a.isLubed) == a
  {
    SwitchRecord(None, a.(isLubed := Some(a.isLubed.GetOr(false))), googleSheetsRow, [])
  }

  /** The new state after `updateFromGoogleSheets` with the columns `a`. */
  function ApplySheetUpdate(r: SwitchRecord, a: SwitchAttributes): (u: SwitchRecord)
    ensures u.attrs == a
    ensures u.id == r.id && u.googleSheetsRow == r.googleSheetsRow && u.switchVideos == r.switchVideos
  {
    r.(attrs := a)
  }

  /** Applying the same sheet data twice is the same as applying it once,
    * and a later update overrides an earlier one. */
  lemma ApplySheetUpdateIdempotent(r: SwitchRecord, a: SwitchAttributes, b: SwitchAttributes)
    ensures ApplySheetUpdate(ApplySheetUpdate(r, a), a) == ApplySheetUpdate(r, a)
    ensures ApplySheetUpdate(ApplySheetUpdate(r, a), b) == ApplySheetUpdate(r, b)
  {
  }

  /** The entity object. Its sixteen sheet columns are held as one value,
    * since the constructor and the update always write them together. */
  class Switch {
    var id: Option<int>
    var attrs: SwitchAttributes
    var googleSheetsRow: Option<int>
    var switchVideos: seq<SwitchVideoRef>

    /** The object's fields as one value. */
    function Record(): SwitchRecord
      reads this
    {
      SwitchRecord(id, attrs, googleSheetsRow, switchVideos)
    }

    /** The builder constructor. */
    constructor (
      name: Option<string>, switchType: Option<SwitchType>, category: Option<string>,
      weight: Option<int>, manufacturer: Option<string>, price: Option<int>,
      actuationForce: Option<int>, bottomOutForce: Option<int>,
      travelDistance: Option<Decimal>, preTravel: Option<Decimal>, springType: Option<string>,
      stemMaterial: Option<string>, housingMaterial: Option<string>, soundProfile: Option<SoundProfile>,
      isLubed: Option<bool>, description: Option<string>, googleSheetsRow: Option<int>)
      ensures Record() == NewSwitch(
                SwitchAttributes(name, switchType, category, weight, manufacturer, price,
                                 actuationForce, bottomOutForce, travelDistance, preTravel,
                                 springType, stemMaterial, housingMaterial, soundProfile,
                                 isLubed, description),
                googleSheetsRow)
    {
      id := None;
      switchVideos := [];
      attrs := SwitchAttributes(name, switchType, category, weight, manufacturer, price,
                                actuationForce, bottomOutForce, travelDistance, preTravel,
                                springType, stemMaterial, housingMaterial, soundProfile,
                                if isLubed.Some? then isLubed else Some(false), description);
      this.googleSheetsRow := googleSheetsRow;
    }

    /** The object the persistence layer materialises from a stored row
      * (through the protected no-argument constructor). */
    constructor Load(r: SwitchRecord)
      ensures Record() == r
    {
      id, attrs, googleSheetsRow, switchVideos := r.id, r.attrs, r.googleSheetsRow, r.switchVideos;
    }

    /** Overwrites the sixteen sheet columns with the arguments as given
      * (a null `isLubed` stays null); id, sheet row and videos are kept. */
    method UpdateFromGoogleSheets(
      name: Option<string>, switchType: Option<SwitchType>, category: Option<string>,
      weight: Option<int>, manufacturer: Option<string>, price: Option<int>,
      actuationForce: Option<int>, bottomOutForce: Option<int>,
      travelDistance: Option<Decimal>, preTravel: Option<Decimal>, springType: Option<string>,
      stemMaterial: Option<string>, housingMaterial: Option<string>, soundProfile: Option<SoundProfile>,
      isLubed: Option<bool>, description: Option<string>)
      modifies this
      ensures Record() == ApplySheetUpdate(old(Record()),
                SwitchAttributes(name, switchType, category, weight, manufacturer, price,
                                 actuationForce, bottomOutForce, travelDistance, preTravel,
                                 springType, stemMaterial, housingMaterial, soundProfile,
                                 isLubed, description))
    {
      attrs := SwitchAttributes(name, switchType, category, weight, manufacturer, price,
                                actuationForce, bottomOutForce, travelDistance, preTravel,
                                springType, stemMaterial, housingMaterial, soundProfile,
                                isLubed, description);
    }
  }
}
