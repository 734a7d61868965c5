/** Parameter values, at the offsets the host reports for them. */
module ParamPositioner {
  import opened Ranges
  import opened Http

  /**
   * add(request, positions): one range per parsed parameter, in parameter
   * order, equal to the reported value offsets; the request text is not read.
   */
  method Add(request: HttpRequest, positions: RangeList)
    modifies positions
    ensures positions.items == old(positions.items) + request.parameterValueOffsets
  {
    var params := request.parameterValueOffsets;
    var i := 0;
    while i < |params|
      invariant 0 <= i <= |params|
      invariant positions.items == old(positions.items) + params[..i]
    {
      var valueOffsets := params[i];
      positions.Add(Range(valueOffsets.start, valueOffsets.end));
      assert params[..i + 1] == params[..i] + [params[i]];
      i := i + 1;
    }
    assert params[..i] == params;
  }
}
