/**
 * What the body processors take from the JSON library (Jackson): the
 * streaming parser's tokens, each with the two character offsets and the
 * text the parser reports for it, and ObjectMapper's serialization of a
 * string value.
 */
module JsonParser {
  import opened Wrappers

  /** com.fasterxml.jackson.core.JsonToken. */
  datatype TokenKind =
    | StartObject | EndObject | StartArray | EndArray
    | FieldName | ValueString
    | ValueNumberInt | ValueNumberFloat | ValueTrue | ValueFalse | ValueNull
    | ValueEmbeddedObject

  /**
   * One token as the parser stands on it: currentTokenLocation().getCharOffset()
   * (startHint), currentLocation().getCharOffset() (endHint) and getText(),
   * None where getText() throws.
   */
  datatype JsonToken = JsonToken(kind: TokenKind, startHint: int, endHint: int, text: Option<string>)

  /** The kinds that addNonStringScalarPosition handles. */
  predicate IsNonStringScalar(kind: TokenKind)
  {
    kind == ValueNumberInt || kind == ValueNumberFloat || kind == ValueTrue || kind == ValueFalse
  }

  /**
   * tokens(text): the tokens nextToken() returns for `text`, up to the end of
   * input or up to the first one it throws on; writeString(value):
   * new ObjectMapper().writeValueAsString(value).
   */
  datatype JsonLibrary = JsonLibrary(tokens: string -> seq<JsonToken>, writeString: string -> string)
}
