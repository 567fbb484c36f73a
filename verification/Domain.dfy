/** The values every part of the model shares: readings, coordinates and flight samples. */
module Domain {

  datatype Option<+T> = None | Some(value: T)

  /** A `double` as the charts see it: NaN and the infinities are all "not finite". */
  datatype Reading = NotFinite | Finite(value: real)

  datatype Coordinates = Coordinates(latitude: Reading, longitude: Reading)

  /**
   * One flight sample. `acceleration` and `angularRate` are the magnitudes that the source
   * computes with `hypot` from its two vectors.
   */
  datatype FlightSample = FlightSample(
    timestamp: int,
    rssi: Reading,
    angularRate: Reading,
    acceleration: Reading,
    coordinates: Coordinates,
    altitude: Reading,
    pressure: Reading,
    temperature: Reading,
    batteryVoltage: Reading)

  /** The largest `int` of the source. */
  const INT_MAX: nat := 0x7fff_ffff

  function Min(a: int, b: int): int {
    if b < a then b else a
  }

  function Max(a: int, b: int): int {
    if a < b then b else a
  }

  function MinReal(a: real, b: real): real {
    if b < a then b else a
  }

  function MaxReal(a: real, b: real): real {
    if a < b then b else a
  }

  function Abs(x: real): real {
    if x < 0.0 then -x else x
  }

  /** `std::clamp`. */
  function Clamp(x: int, lo: int, hi: int): int {
    if x < lo then lo else if hi < x then hi else x
  }

  ghost predicate StrictlyIncreasing(s: seq<int>) {
    forall i, j :: 0 <= i < j < |s| ==> s[i] < s[j]
  }

  ghost predicate Nondecreasing(s: seq<int>) {
    forall i, j :: 0 <= i < j < |s| ==> s[i] <= s[j]
  }
}
