/** The error values the request encoder produces. The modules that define
    them (`ServerError`, `ClientError`) are not part of this model; only the
    constructors the encoder calls are. */
module ApiErrors {
  import opened Schemas

  /** One kind per request field group (`invalidQueryError`, ...), each
      carrying the schema diagnostic. */
  datatype ServerError =
    | InvalidQueryError(diag: Diag)
    | InvalidParamsError(diag: Diag)
    | InvalidBodyError(diag: Diag)
    | InvalidHeadersError(diag: Diag)

  /** `validationClientError`: the caller-facing wrapper of a group error. */
  datatype ClientError = ValidationClientError(cause: ServerError)
}
