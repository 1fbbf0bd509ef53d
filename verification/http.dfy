/** HTTP status codes the server replies with. */
module Http {
  const OK: int := 200
  const CREATED: int := 201
  const NO_CONTENT: int := 204
  const BAD_REQUEST: int := 400
  const UNAUTHORIZED: int := 401
  const NOT_FOUND: int := 404
  const INTERNAL_ERROR: int := 500
}
