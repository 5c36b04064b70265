/** Option and Result, and the errors the modelled operations raise. */
module Wrappers {
  datatype Option<+T> = None | Some(value: T)

  datatype Result<+T> = Ok(value: T) | Err(error: Error)

  datatype Error =
    | KeyError
    | ValueError
    | OverflowError
    | ValidationError
    | IdempotencyConflict
    | ImmutableResultConflict
    | LeaseOwnershipError
    | PersistenceDecodeError
    | IntegrityError
    | RuntimeError
    | SourceCraftAuthError
    | SourceCraftUnavailableError
    | SourceCraftPayloadError
}
