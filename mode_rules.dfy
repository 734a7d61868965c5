/** Which positioners run in which mode. */
module ModeRules {
  import opened Text
  import opened PayloadPositionMode

  predicate ShouldIncludeMethod(mode: Mode)
  {
    mode == EVERYTHING || mode == EVERYTHING_FULL_PATH || mode == HEADERS_METHOD
    || mode == HEADERS_URL_LAST_METHOD || mode == HEADERS_FULL_PATH_METHOD
  }

  predicate ShouldIncludeUrlPath(mode: Mode)
  {
    mode != HEADERS_ONLY && mode != HEADERS_METHOD
  }

  predicate ShouldUseFullUrlPath(mode: Mode)
  {
    mode == DEFAULT_FULL_PATH || mode == EVERYTHING_FULL_PATH || mode == HEADERS_FULL_PATH
    || mode == HEADERS_FULL_PATH_METHOD
  }

  predicate ShouldIncludeParameters(mode: Mode)
  {
    mode != HEADERS_ONLY && mode != HEADERS_METHOD && mode != HEADERS_URL_LAST
    && mode != HEADERS_URL_LAST_METHOD && mode != HEADERS_FULL_PATH && mode != HEADERS_FULL_PATH_METHOD
  }

  predicate ShouldIncludeBody(mode: Mode)
  {
    mode != HEADERS_ONLY && mode != HEADERS_METHOD && mode != HEADERS_URL_LAST
    && mode != HEADERS_URL_LAST_METHOD && mode != HEADERS_FULL_PATH && mode != HEADERS_FULL_PATH_METHOD
  }

  predicate ShouldIncludeHeaders(mode: Mode)
  {
    StartsWith(Name(mode), "HEADERS") || mode == DEFAULT || mode == DEFAULT_FULL_PATH
    || mode == EVERYTHING || mode == EVERYTHING_FULL_PATH
  }

  /** The method is included exactly in the five modes whose name ends in METHOD or begins with EVERYTHING. */
  lemma MethodModes(mode: Mode)
    ensures ShouldIncludeMethod(mode) <==>
      mode in {EVERYTHING, EVERYTHING_FULL_PATH, HEADERS_METHOD, HEADERS_URL_LAST_METHOD, HEADERS_FULL_PATH_METHOD}
  {
  }

  /** The full path is used exactly in the four *FULL_PATH* modes, each of which includes the URL path. */
  lemma FullPathModes(mode: Mode)
    ensures ShouldUseFullUrlPath(mode) <==>
      mode in {DEFAULT_FULL_PATH, EVERYTHING_FULL_PATH, HEADERS_FULL_PATH, HEADERS_FULL_PATH_METHOD}
    ensures ShouldUseFullUrlPath(mode) ==> ShouldIncludeUrlPath(mode)
  {
  }

  /** Parameters and body are included in the same four modes. */
  lemma ParametersAndBodyAgree(mode: Mode)
    ensures ShouldIncludeParameters(mode) == ShouldIncludeBody(mode)
    ensures ShouldIncludeBody(mode) <==> mode in {DEFAULT, DEFAULT_FULL_PATH, EVERYTHING, EVERYTHING_FULL_PATH}
  {
  }

  /** Headers are included in every mode (the name test covers the six HEADERS_* modes). */
  lemma HeadersAlways(mode: Mode)
    ensures ShouldIncludeHeaders(mode)
  {
    HeadersPrefixExactly(mode);
  }

  /** DEFAULT and EVERYTHING (and their full-path forms) differ only in the method. */
  lemma DefaultVersusEverything()
    ensures !ShouldIncludeMethod(DEFAULT) && ShouldIncludeMethod(EVERYTHING)
    ensures !ShouldIncludeMethod(DEFAULT_FULL_PATH) && ShouldIncludeMethod(EVERYTHING_FULL_PATH)
    ensures ShouldIncludeUrlPath(DEFAULT) == ShouldIncludeUrlPath(EVERYTHING)
    ensures ShouldUseFullUrlPath(DEFAULT) == ShouldUseFullUrlPath(EVERYTHING)
    ensures ShouldIncludeParameters(DEFAULT) == ShouldIncludeParameters(EVERYTHING)
    ensures ShouldIncludeBody(DEFAULT) == ShouldIncludeBody(EVERYTHING)
    ensures ShouldIncludeHeaders(DEFAULT) == ShouldIncludeHeaders(EVERYTHING)
    ensures ShouldUseFullUrlPath(DEFAULT_FULL_PATH) == ShouldUseFullUrlPath(EVERYTHING_FULL_PATH)
  {
  }
}
