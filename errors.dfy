/**
 * The error catalogue the edge functions draw on. The message texts live in a
 * shared table that is not part of this model, so each operation that needs a
 * text receives the table as a `Messages` parameter; only the codes are fixed
 * here.
 */
module Errors {

  datatype ErrorCode =
    | ERR16_insert   // batch missing or not an array
    | ERR17_insert   // batch length outside 1..10
    | ERR18_insert   // SERVER_SECRET not configured
    | ERR19_insert   // database error not fit to show to the public
    | ERR27          // result-value evaluation reported an error
    | ERR28          // no Authorization header
    | ERR29_insert   // unexpected error while inserting
    | ERR37          // dependency query failed
    | ERR38          // dependency query returned a different number of rows
    | ERR43          // upload payload or its files missing
    | ERR44          // an upload form field holds a list of files
    | ERR45          // uploaded files too large in total

  /** The message text of each code. */
  type Messages = ErrorCode -> string

  /** What a pipeline step throws. */
  datatype Failure =
    | Thrown(code: ErrorCode)
    | MalformedStoredId(key: string)   // a stored dependency key that does not read as "{id}v{version}"
    | Unexpected                       // any other exception: invalid JSON, a rejected field, a null payload
}
