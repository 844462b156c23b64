/** The outcome of an HTTP handler: a body, or the `createError` the handler throws. */
module Http {

  datatype Response<+T> = Body(body: T) | Fail(status: int, message: string)
}
