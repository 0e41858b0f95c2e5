/**
 * The plugin's internal error kinds and their translation into the three-way `Response`
 * (`ResponseError`, `ResponseResult`, `From<ResponseError> for Response`, `into_response`).
 */
module Responses {
  import opened Nss

  datatype ResponseError = Unavail | NotFound

  /** `Result<T, ResponseError>`. */
  datatype ResponseResult<T> = Ok(value: T) | Err(error: ResponseError)

  /** `From<ResponseError> for Response<T>`: each kind to the outcome of the same name. */
  function FromError<T>(e: ResponseError): (r: Response<T>)
    ensures !r.Success?
    ensures r.NotFound? <==> e == ResponseError.NotFound
    ensures r.Unavail? <==> e == ResponseError.Unavail
  {
    match e
    case Unavail => Response.Unavail
    case NotFound => Response.NotFound
  }

  /** `into_response`: a value becomes `Success`, an error the outcome `FromError` gives it. */
  function IntoResponse<T>(res: ResponseResult<T>): (r: Response<T>)
    ensures r.Success? <==> res.Ok?
    ensures res.Ok? ==> r.value == res.value
    ensures res.Err? ==> r == FromError(res.error)
  {
    match res
    case Ok(x) => Success(x)
    case Err(e) => FromError(e)
  }
}
