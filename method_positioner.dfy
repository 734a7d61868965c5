/** The request method, located by its first occurrence in the request text. */
module MethodPositioner {
  import opened Text
  import opened Ranges
  import opened Http

  /**
   * What add appends: nothing when the method string does not occur;
   * otherwise one range at its first occurrence, covering exactly the method.
   */
  function MethodRanges(request: HttpRequest, requestString: string): (rs: seq<Range>)
    ensures |rs| <= 1
  {
    var methodStart := IndexOf(requestString, request.methodName);
    if methodStart >= 0 then [Range(methodStart, methodStart + |request.methodName|)] else []
  }

  /**
   * The range is missing exactly when the method string occurs nowhere;
   * otherwise it covers exactly the method string at its first occurrence.
   */
  lemma MethodRangesSpec(request: HttpRequest, requestString: string)
    ensures var rs := MethodRanges(request, requestString);
      && (rs == [] <==> forall k :: !OccursAt(requestString, request.methodName, k))
      && (rs != [] ==>
        && rs[0].Length() == |request.methodName|
        && 0 <= rs[0].start && rs[0].end <= |requestString|
        && requestString[rs[0].start..rs[0].end] == request.methodName
        && forall k :: 0 <= k < rs[0].start ==> !OccursAt(requestString, request.methodName, k))
  {
    IndexOfFirst(requestString, request.methodName);
  }

  /** add(request, requestString, positions): appends MethodRanges, leaving earlier entries alone. */
  method Add(request: HttpRequest, requestString: string, positions: RangeList)
    modifies positions
    ensures positions.items == old(positions.items) + MethodRanges(request, requestString)
  {
    var methodName := request.methodName;
    var methodStart := IndexOf(requestString, methodName);
    if methodStart >= 0 {
      positions.Add(Range(methodStart, methodStart + |methodName|));
    }
  }
}
