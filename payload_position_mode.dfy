/**
 * The ten payload-position modes and the capability table that decides
 * which positioners run for each of them.
 */
module PayloadPositionMode {
  import opened Text

  datatype Mode =
    | DEFAULT
    | DEFAULT_FULL_PATH
    | EVERYTHING
    | EVERYTHING_FULL_PATH
    | HEADERS_ONLY
    | HEADERS_METHOD
    | HEADERS_URL_LAST
    | HEADERS_URL_LAST_METHOD
    | HEADERS_FULL_PATH
    | HEADERS_FULL_PATH_METHOD

  /** The constants in declaration order (values()). */
  const AllModes: seq<Mode> := [
    DEFAULT, DEFAULT_FULL_PATH, EVERYTHING, EVERYTHING_FULL_PATH, HEADERS_ONLY,
    HEADERS_METHOD, HEADERS_URL_LAST, HEADERS_URL_LAST_METHOD, HEADERS_FULL_PATH,
    HEADERS_FULL_PATH_METHOD]

  /** toString(): the display name given at declaration. */
  function DisplayName(mode: Mode): string
  {
    match mode
    case DEFAULT => "Default (No HTTP Method)"
    case DEFAULT_FULL_PATH => "Default + Full URL Path"
    case EVERYTHING => "Everything (Default + HTTP Method)"
    case EVERYTHING_FULL_PATH => "Everything + Full URL Path"
    case HEADERS_ONLY => "Headers Only"
    case HEADERS_METHOD => "Headers + Method"
    case HEADERS_URL_LAST => "Headers + URL Path Last Part"
    case HEADERS_URL_LAST_METHOD => "Headers + URL Path Last Part + Method"
    case HEADERS_FULL_PATH => "Headers + Full URL Path"
    case HEADERS_FULL_PATH_METHOD => "Headers + Full URL Path + Method"
  }

  /** name(): the constant's identifier. */
  function Name(mode: Mode): string
  {
    match mode
    case DEFAULT => "DEFAULT"
    case DEFAULT_FULL_PATH => "DEFAULT_FULL_PATH"
    case EVERYTHING => "EVERYTHING"
    case EVERYTHING_FULL_PATH => "EVERYTHING_FULL_PATH"
    case HEADERS_ONLY => "HEADERS_ONLY"
    case HEADERS_METHOD => "HEADERS_METHOD"
    case HEADERS_URL_LAST => "HEADERS_URL_LAST"
    case HEADERS_URL_LAST_METHOD => "HEADERS_URL_LAST_METHOD"
    case HEADERS_FULL_PATH => "HEADERS_FULL_PATH"
    case HEADERS_FULL_PATH_METHOD => "HEADERS_FULL_PATH_METHOD"
  }

  /** Exactly ten constants, each listed once, and every mode is listed. */
  lemma AllModesComplete()
    ensures |AllModes| == 10
    ensures forall i, j :: 0 <= i < j < |AllModes| ==> AllModes[i] != AllModes[j]
    ensures forall m: Mode :: m in AllModes
  {
    forall m: Mode ensures m in AllModes {
      match m
      case DEFAULT => assert AllModes[0] == m;
      case DEFAULT_FULL_PATH => assert AllModes[1] == m;
      case EVERYTHING => assert AllModes[2] == m;
      case EVERYTHING_FULL_PATH => assert AllModes[3] == m;
      case HEADERS_ONLY => assert AllModes[4] == m;
      case HEADERS_METHOD => assert AllModes[5] == m;
      case HEADERS_URL_LAST => assert AllModes[6] == m;
      case HEADERS_URL_LAST_METHOD => assert AllModes[7] == m;
      case HEADERS_FULL_PATH => assert AllModes[8] == m;
      case HEADERS_FULL_PATH_METHOD => assert AllModes[9] == m;
    }
  }

  /** No two modes share a display name. */
  lemma DisplayNamesDistinct(m1: Mode, m2: Mode)
    requires m1 != m2
    ensures DisplayName(m1) != DisplayName(m2)
  {
    assert DisplayName(m1)[..|DisplayName(m1)|] == DisplayName(m1);
  }

  /** No two modes share a constant name. */
  lemma NamesDistinct(m1: Mode, m2: Mode)
    requires m1 != m2
    ensures Name(m1) != Name(m2)
  {
    assert Name(m1)[..|Name(m1)|] == Name(m1);
  }

  /** The six HEADERS_* constants are exactly those whose name starts with "HEADERS". */
  lemma HeadersPrefixExactly(mode: Mode)
    ensures StartsWith(Name(mode), "HEADERS") <==>
      mode in {HEADERS_ONLY, HEADERS_METHOD, HEADERS_URL_LAST, HEADERS_URL_LAST_METHOD,
               HEADERS_FULL_PATH, HEADERS_FULL_PATH_METHOD}
  {
    var n := Name(mode);
    if StartsWith(n, "HEADERS") {
      assert n[..7][0] == n[0] == 'H';
    }
    if n[0] == 'H' {
      assert n[..7] == "HEADERS";
    }
  }
}
