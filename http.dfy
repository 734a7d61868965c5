/**
 * The host's view of a request, as the positioners read it: the method, the
 * decoded path without query, the headers in order, for every parameter the
 * host parsed the offsets of its value in the request text, and the request
 * text itself (what toString() gives).
 */
module Http {
  import opened Ranges

  datatype Header = Header(name: string, value: string)

  datatype HttpRequest = HttpRequest(
    methodName: string,
    pathWithoutQuery: string,
    headers: seq<Header>,
    parameterValueOffsets: seq<Range>,
    text: string)

  const CRLF: string := "\r\n"
  const BLANK_LINE: string := "\r\n\r\n"
}
