/**
 * The response and error shapes the web app receives from the search API
 * (apps/web/src/types/api.types.ts). Optional members are `Option`s.
 */
module ApiTypes {
  import opened Wrappers

  /** `'Active' | 'Cancelled' | 'Inactive'`. */
  datatype EntityStatus = Active | Cancelled | Inactive

  /** The status as the string the API sends. */
  function StatusText(s: EntityStatus): string
  {
    match s
    case Active => "Active"
    case Cancelled => "Cancelled"
    case Inactive => "Inactive"
  }

  datatype GstInfo = GstInfo(registered: bool, registrationDate: Option<string>)

  datatype AddressInfo = AddressInfo(state: string, postcode: string)

  datatype AbnEntity = AbnEntity(
    abn: string,
    name: string,
    entityType: string,
    status: EntityStatus,
    registrationDate: string,
    gst: Option<GstInfo>,
    address: Option<AddressInfo>)

  datatype AbnSearchResponse = AbnSearchResponse(results: seq<AbnEntity>, query: string, count: int)

  /** The error value the query reports; `statusCode` is the HTTP status. */
  datatype ApiError = ApiError(error: string, message: string, statusCode: int)
}
