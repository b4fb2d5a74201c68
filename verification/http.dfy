/** What an Express route handler sends back. */
module Http {

  /** `res.status(code).json(data)`, `res.json({ message })`, `res.status(code).json({ error })`
      with a fixed text, `res.status(code).json({ error: error.message })` with the text of
      whatever was thrown (the text itself is not modelled), or `res.status(204).send()`. */
  datatype Response<T> =
    | Json(code: int, data: T)
    | Ack(code: int, message: string)
    | Error(code: int, error: string)
    | Raised(code: int)
    | NoContent
  {
    /** The HTTP status code of the response. */
    function Status(): int {
      if NoContent? then 204 else code
    }
  }
}
