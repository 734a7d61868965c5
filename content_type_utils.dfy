/** The request's content type, as the body positioner and the placeholder applier read it. */
module ContentTypeUtils {
  import opened Text
  import opened Http

  predicate IsContentTypeName(name: string)
  {
    EqualsIgnoreCase(name, "Content-Type")
  }

  /**
   * The lowercased value of the first header named Content-Type (compared
   * ignoring case); later ones are ignored; "" when there is none.
   */
  function ContentTypeOf(headers: seq<Header>): (ct: string)
    ensures (forall h :: h in headers ==> !IsContentTypeName(h.name)) ==> ct == ""
    ensures forall k :: 0 <= k < |headers| && IsContentTypeName(headers[k].name) &&
                        (forall j :: 0 <= j < k ==> !IsContentTypeName(headers[j].name)) ==>
                          ct == ToLower(headers[k].value)
  {
    if headers == [] then ""
    else if IsContentTypeName(headers[0].name) then ToLower(headers[0].value)
    else
      ContentTypeOf(headers[1..])
  }

  /** The content type carries no ASCII capital letter. */
  lemma {:induction false} ContentTypeLowercase(headers: seq<Header>)
    ensures forall j :: 0 <= j < |ContentTypeOf(headers)| ==> !('A' <= ContentTypeOf(headers)[j] <= 'Z')
  {
    if headers == [] {
    } else if IsContentTypeName(headers[0].name) {
      ToLowerSpec(headers[0].value);
    } else {
      ContentTypeLowercase(headers[1..]);
    }
  }

  /** getContentType(request). */
  function GetContentType(request: HttpRequest): string
  {
    ContentTypeOf(request.headers)
  }
}
