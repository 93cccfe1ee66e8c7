/** The upstream feed's records (services/data_schema.go) and the opaque
    byte payloads the cache keeps. JSON encoding is not modelled: a codec
    is an encode/decode pair handed to the operations that need one. */
module Schema {
  import opened Wrappers
  import opened Text

  type Byte = b: int | 0 <= b < 256

  type Bytes = seq<Byte>

  /** One element of the feed's `victims` array; only the number of them
      matters here, so each is kept as its JSON text. */
  datatype Victim = Victim(json: string)

  datatype LocationProperty = LocationProperty(
    other: string,
    victims: seq<Victim>,
    patient: int,
    province: string,
    district: string,
    subDistrict: string,
    sickLevelSummary: int,
    runningNumber: string,
    statusText: string,
    typeName: string,
    ages: string,
    disease: string,
    updatedAt: string)

  /** Coordinates arrive in (longitude, latitude) order. */
  datatype Geometry = Geometry(kind: string, coordinates: seq<real>)

  datatype Location = Location(kind: string, properties: LocationProperty, geometry: Geometry)

  datatype DataItem = DataItem(
    id: string,
    location: Location,
    runningNumber: string,
    updatedAt: string,
    createdAt: string)

  datatype NestedData = NestedData(data: seq<DataItem>)

  datatype APIResponse = APIResponse(fetchedAt: string, data: NestedData)

  /** `json.Marshal` / `json.Unmarshal` for the feed document. Decoding
      reports a reason on malformed input. */
  datatype Codec = Codec(encode: APIResponse -> Bytes, decode: Bytes -> Result<APIResponse, string>)

  /** Decoding what was encoded gives the document back. */
  ghost predicate RoundTrips(codec: Codec)
  {
    forall x :: codec.decode(codec.encode(x)) == Success(x)
  }

  /** Timestamps are nanoseconds counted from 0001-01-01T00:00:00Z, so Go's
      zero `time.Time` is 0 and `t.Sub(u)` is `t - u`. */
  type Instant = int

  const Nanosecond: int := 1
  const Second: int := 1_000_000_000 * Nanosecond
  const Hour: int := 3600 * Second

  /** `parseTime` / `parseUpdatedAt`: a blank value is "no time"; anything
      else, trimmed, goes to the RFC 3339 parser `rfc3339`, which the model
      takes as a parameter. */
  function ParseTimestamp(val: string, rfc3339: string -> Option<Instant>): (t: Option<Instant>)
    ensures IsBlank(val) ==> t.None?
    ensures !IsBlank(val) ==> t == rfc3339(TrimSpace(val))
  {
    var trimmed := TrimSpace(val);
    if trimmed == "" then None else rfc3339(trimmed)
  }
}
