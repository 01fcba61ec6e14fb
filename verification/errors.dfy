/** The three ways a query string can fail to parse (src/errors.rs). */
module Errors {

  datatype FilterParseError =
    | FilterStructure  // a segment without `=`, or a key the token grammar rejects
    | Value            // a value the field's scalar parser rejects
    | UnknownFilter    // an operator code outside the family's decode table
}
