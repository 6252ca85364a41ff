/** The line-of-sight prediction request: its fields, the bounds the API
    validates, its defaults, and the two enumerations the engine files encode. */
module Request {
  import opened Text

  datatype Climate =
    | Equatorial
    | ContinentalSubtropical
    | MaritimeSubtropical
    | Desert
    | ContinentalTemperate
    | MaritimeTemperateLand
    | MaritimeTemperateSea

  datatype Polarization = Horizontal | Vertical

  /** The literal the API accepts for each climate. */
  function ClimateName(c: Climate): string {
    match c
    case Equatorial => "equatorial"
    case ContinentalSubtropical => "continental_subtropical"
    case MaritimeSubtropical => "maritime_subtropical"
    case Desert => "desert"
    case ContinentalTemperate => "continental_temperate"
    case MaritimeTemperateLand => "maritime_temperate_land"
    case MaritimeTemperateSea => "maritime_temperate_sea"
  }

  /** Validation of the radio_climate literal. */
  function ParseClimate(s: string): Option<Climate> {
    if s == "equatorial" then Some(Equatorial)
    else if s == "continental_subtropical" then Some(ContinentalSubtropical)
    else if s == "maritime_subtropical" then Some(MaritimeSubtropical)
    else if s == "desert" then Some(Desert)
    else if s == "continental_temperate" then Some(ContinentalTemperate)
    else if s == "maritime_temperate_land" then Some(MaritimeTemperateLand)
    else if s == "maritime_temperate_sea" then Some(MaritimeTemperateSea)
    else None
  }

  /** A climate literal is accepted exactly when it is one of the seven names,
      and it denotes that climate. */
  lemma ParseClimateRoundTrip(c: Climate, s: string)
    ensures ParseClimate(ClimateName(c)) == Some(c)
    ensures ParseClimate(s) == Some(c) <==> s == ClimateName(c)
  {
  }

  function PolarizationName(p: Polarization): string {
    match p
    case Horizontal => "horizontal"
    case Vertical => "vertical"
  }

  function ParsePolarization(s: string): Option<Polarization> {
    if s == "horizontal" then Some(Horizontal)
    else if s == "vertical" then Some(Vertical)
    else None
  }

  lemma ParsePolarizationRoundTrip(p: Polarization, s: string)
    ensures ParsePolarization(PolarizationName(p)) == Some(p)
    ensures ParsePolarization(s) == Some(p) <==> s == PolarizationName(p)
  {
  }

  /** The SPLAT! radio climate code. */
  function ClimateCode(c: Climate): (code: nat)
    ensures 1 <= code <= 7
  {
    match c
    case Equatorial => 1
    case ContinentalSubtropical => 2
    case MaritimeSubtropical => 3
    case Desert => 4
    case ContinentalTemperate => 5
    case MaritimeTemperateLand => 6
    case MaritimeTemperateSea => 7
  }

  /** Distinct climates get distinct codes. */
  lemma ClimateCodeInjective(c: Climate, d: Climate)
    ensures ClimateCode(c) == ClimateCode(d) <==> c == d
  {
  }

  /** The SPLAT! polarization code. */
  function PolarizationCode(p: Polarization): (code: nat)
    ensures code <= 1 && (code == 1 <==> p == Vertical)
  {
    match p
    case Horizontal => 0
    case Vertical => 1
  }

  /** A line-of-sight request. The Optional fields may be given as null. */
  datatype LosRequest = LosRequest(
    txLat: real, txLon: real, txHeight: real, txPower: real, txGain: real,
    txLoss: Option<real>, frequencyMhz: real,
    rxLat: real, rxLon: real, rxHeight: real, rxGain: real, rxLoss: real,
    groundDielectric: Option<real>, groundConductivity: Option<real>,
    atmosphereBending: Option<real>, radioClimate: Climate, polarization: Polarization,
    clutterHeight: real, situationFraction: Option<real>, timeFraction: Option<real>,
    highResolution: bool, itmModel: bool)

  /** A bound on an Optional field holds when the field is null or satisfies it. */
  predicate AtLeast(v: Option<real>, lo: real) { v.None? || v.value >= lo }

  predicate Percentage(v: Option<real>) { v.None? || (1.0 < v.value <= 100.0) }

  predicate ValidLatLon(lat: real, lon: real) {
    -90.0 <= lat <= 90.0 && -180.0 <= lon <= 180.0
  }

  /** The field constraints the API enforces before a request is processed. */
  predicate Valid(r: LosRequest) {
    && ValidLatLon(r.txLat, r.txLon) && ValidLatLon(r.rxLat, r.rxLon)
    && r.txHeight >= 1.0 && r.rxHeight >= 1.0
    && r.txPower > 0.0
    && r.txGain >= 0.0 && r.rxGain >= 0.0
    && AtLeast(r.txLoss, 0.0) && r.rxLoss >= 0.0
    && 20.0 <= r.frequencyMhz <= 30000.0
    && AtLeast(r.groundDielectric, 1.0) && AtLeast(r.groundConductivity, 0.0)
    && AtLeast(r.atmosphereBending, 0.0)
    && r.clutterHeight >= 0.0
    && Percentage(r.situationFraction) && Percentage(r.timeFraction)
  }

  /** A request that gives only the fields without a default. */
  function WithDefaults(txLat: real, txLon: real, txPower: real, rxLat: real, rxLon: real): (r: LosRequest)
    ensures r.txLat == txLat && r.txLon == txLon && r.txPower == txPower
    ensures r.rxLat == rxLat && r.rxLon == rxLon
  {
    LosRequest(
      txLat, txLon, 1.0, txPower, 1.0, Some(0.0), 868.5,
      rxLat, rxLon, 1.0, 1.0, 0.0,
      Some(15.0), Some(0.005), Some(301.0), ContinentalTemperate, Vertical,
      0.0, Some(50.0), Some(90.0), false, true)
  }

  /** The defaults satisfy every constraint, so a request that gives only the
      required fields is valid exactly when those are in range; it asks for
      3-arc-second tiles and the older ITM model. */
  lemma DefaultsValid(txLat: real, txLon: real, txPower: real, rxLat: real, rxLon: real)
    ensures var r := WithDefaults(txLat, txLon, txPower, rxLat, rxLon);
            Valid(r) <==> ValidLatLon(txLat, txLon) && ValidLatLon(rxLat, rxLon) && txPower > 0.0
    ensures var r := WithDefaults(txLat, txLon, txPower, rxLat, rxLon);
            !r.highResolution && r.itmModel && r.radioClimate == ContinentalTemperate
            && r.polarization == Vertical && r.frequencyMhz == 868.5
  {
  }

  /** The AttributeError text for a name the request does not declare. */
  function NoAttribute(name: string): string {
    "'LosPredictionRequest' object has no attribute '" + name + "'"
  }

  /** The Python attribute names of the request's two switches. */
  function BoolAttribute(r: LosRequest, name: string): Result<bool, string> {
    if name == "high_resolution" then Success(r.highResolution)
    else if name == "itm_model" then Success(r.itmModel)
    else Failure(NoAttribute(name))
  }

  /** The switches are read back from their own attribute names; any other
      name fails. */
  lemma BoolAttributeFields(r: LosRequest, name: string)
    ensures BoolAttribute(r, "itm_model") == Success(r.itmModel)
    ensures BoolAttribute(r, "high_resolution") == Success(r.highResolution)
    ensures BoolAttribute(r, name).Failure? <==> name != "itm_model" && name != "high_resolution"
    ensures BoolAttribute(r, name).Failure? ==> BoolAttribute(r, name).error == NoAttribute(name)
  {
  }
}
