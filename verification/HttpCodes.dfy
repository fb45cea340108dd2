/** The result codes of http_conn. */
module HttpCodes {
  datatype HttpCode =
    | NO_REQUEST | GET_REQUEST | BAD_REQUEST | NO_RESOURCE | FORBIDDEN_REQUEST | FILE_REQUEST
    | INTERNAL_ERROR | CLOSED_CONNECTION
}
