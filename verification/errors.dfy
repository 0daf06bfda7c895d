/** The exceptions the request path can raise, named after the Python classes. */
module Errors {

  datatype Error =
    /** `ValueError` (and its subclasses) with its message. */
    | ValueError(message: string)
    /** `httpx.HTTPStatusError` from `raise_for_status` on a non-2xx status. */
    | HttpStatusError(status: int)
    /** `httpx.RequestError`: the upstream could not be reached at all. */
    | TransportError
    /** `KeyError` on a dictionary subscript. */
    | KeyError(key: string)
    /** `IndexError` on `[0]` of an empty list. */
    | IndexError
    /** pydantic `ValidationError`, listing every field that failed, in declaration order. */
    | ValidationError(fields: seq<string>)
    /** `SQLAlchemyError` raised while adding or committing (storage unavailable, ...). */
    | DatabaseError
    /** `IntegrityError`: the primary key is already taken. */
    | IntegrityError
    /** FastAPI `HTTPException` raised by a route. */
    | HttpException(status: int, detail: string)
}
