/**
 * The JSON string-content unescaper shared by the token locator and the
 * embedded-JSON mapper: the raw content is read as a sequence of tokens,
 * each of width 1 (an ordinary character or a trailing lone backslash),
 * 2 (a backslash and the escaped character) or 6 (a backslash, 'u' and
 * four more characters), and every token yields one character.
 */
module JsonUnescape {
  import opened Wrappers
  import opened SeqLemmas

  /** Width of the token that starts at raw[i]. */
  function TokenWidth(raw: string, i: nat): (w: nat)
    requires i < |raw|
    ensures w == 1 || w == 2 || w == 6
    ensures i + w <= |raw|
  {
    if raw[i] != '\\' || i + 1 >= |raw| then 1
    else if raw[i + 1] == 'u' && i + 5 < |raw| then 6
    else 2
  }

  /** Character.digit(c, 16) restricted to ASCII: the digit's value, or -1. */
  function HexDigit(c: char): (d: int)
    ensures -1 <= d < 16
  {
    if '0' <= c <= '9' then c as int - '0' as int
    else if 'a' <= c <= 'f' then c as int - 'a' as int + 10
    else if 'A' <= c <= 'F' then c as int - 'A' as int + 10
    else -1
  }

  /** The value of three hex digits, most significant first (-1 digits excluded by the callers). */
  function Hex3(a: char, b: char, c: char): int
  {
    (HexDigit(a) * 16 + HexDigit(b)) * 16 + HexDigit(c)
  }

  /**
   * Integer.parseInt(hex, 16) for the four characters a b c d after "\u": an
   * optional leading '+' or '-' followed by three hex digits, or four hex
   * digits; None where Java throws NumberFormatException.
   */
  function ParseHex4(a: char, b: char, c: char, d: char): (v: Option<int>)
    ensures v.Some? ==> -0xFFF <= v.value <= 0xFFFF
  {
    if a == '-' || a == '+' then
      if HexDigit(b) >= 0 && HexDigit(c) >= 0 && HexDigit(d) >= 0 then
        Some(if a == '-' then -Hex3(b, c, d) else Hex3(b, c, d))
      else None
    else if HexDigit(a) >= 0 && HexDigit(b) >= 0 && HexDigit(c) >= 0 && HexDigit(d) >= 0 then
      Some(HexDigit(a) * 0x1000 + Hex3(b, c, d))
    else None
  }

  /**
   * The (char) cast of the parsed value: the low 16 bits of its two's
   * complement. A code unit in the surrogate block D800-DFFF is not a
   * character on its own; it becomes U+FFFD.
   */
  function CodeUnitChar(v: int): char
  {
    var unit := v % 0x1_0000;
    if 0xD800 <= unit <= 0xDFFF then '\U{FFFD}' else unit as char
  }

  /** The character a two-character escape stands for. */
  function EscapedChar(esc: char): char
  {
    match esc
    case 'b' => 8 as char
    case 'f' => 12 as char
    case 'n' => '\n'
    case 'r' => '\r'
    case 't' => '\t'
    case _ => esc
  }

  /** The character the token at raw[i] yields. */
  function TokenChar(raw: string, i: nat): char
    requires i < |raw|
  {
    if raw[i] != '\\' then raw[i]
    else if i + 1 >= |raw| then '\\'
    else if raw[i + 1] == 'u' && i + 5 < |raw| then
      match ParseHex4(raw[i + 2], raw[i + 3], raw[i + 4], raw[i + 5])
      case Some(v) => CodeUnitChar(v)
      case None => 'u'
    else EscapedChar(raw[i + 1])
  }

  /** The unescaped text of the tokens from raw[i] on. */
  function UnescapeFrom(raw: string, i: nat): string
    requires i <= |raw|
    decreases |raw| - i
  {
    if i == |raw| then [] else [TokenChar(raw, i)] + UnescapeFrom(raw, i + TokenWidth(raw, i))
  }

  /** The unescaped text of the whole raw content. */
  function Unescape(raw: string): string
  {
    UnescapeFrom(raw, 0)
  }

  /**
   * Where the raw content stands after reading k tokens from raw[i] (its
   * end, when fewer than k tokens are left).
   */
  function Advance(raw: string, i: nat, k: nat): (j: nat)
    requires i <= |raw|
    ensures i <= j <= |raw|
    decreases k
  {
    if k == 0 || i == |raw| then i else Advance(raw, i + TokenWidth(raw, i), k - 1)
  }

  /** Reading a + b tokens is reading a tokens, then b more. */
  lemma {:induction false} AdvanceAdd(raw: string, i: nat, a: nat, b: nat)
    requires i <= |raw|
    ensures Advance(raw, i, a + b) == Advance(raw, Advance(raw, i, a), b)
    decreases a
  {
    if a > 0 && i < |raw| {
      AdvanceAdd(raw, i + TokenWidth(raw, i), a - 1, b);
    } else if i == |raw| {
      AdvanceAtEnd(raw, b);
    }
  }

  lemma {:induction false} AdvanceAtEnd(raw: string, k: nat)
    ensures Advance(raw, |raw|, k) == |raw|
  {
  }

  /**
   * Token k from raw[i] on, for k below the number of unescaped characters:
   * it starts inside the raw content, is as wide as TokenWidth says, ends
   * where token k + 1 starts, and yields the k-th unescaped character.
   */
  lemma {:induction false} AdvanceStep(raw: string, i: nat, k: nat)
    requires i <= |raw|
    requires k < |UnescapeFrom(raw, i)|
    ensures var p := Advance(raw, i, k);
      && p < |raw|
      && Advance(raw, i, k + 1) == p + TokenWidth(raw, p)
      && UnescapeFrom(raw, i)[k] == TokenChar(raw, p)
    decreases k
  {
    if k > 0 {
      AdvanceStep(raw, i + TokenWidth(raw, i), k - 1);
    }
  }

  /** Reading as many tokens as there are unescaped characters ends at the end of the raw content. */
  lemma {:induction false} AdvanceAll(raw: string, i: nat)
    requires i <= |raw|
    ensures Advance(raw, i, |UnescapeFrom(raw, i)|) == |raw|
    decreases |raw| - i
  {
    if i < |raw| {
      AdvanceAll(raw, i + TokenWidth(raw, i));
    }
  }

  /** The unescaped text is never longer than the raw content. */
  lemma {:induction false} UnescapeNoLonger(raw: string, i: nat)
    requires i <= |raw|
    ensures |UnescapeFrom(raw, i)| <= |raw| - i
    decreases |raw| - i
  {
    if i < |raw| {
      UnescapeNoLonger(raw, i + TokenWidth(raw, i));
    }
  }

  /** Non-empty raw content never unescapes to the empty string. */
  lemma UnescapeNonEmpty(raw: string)
    ensures raw != [] <==> Unescape(raw) != []
  {
  }

  /** Content without a backslash unescapes to itself, one token per character. */
  lemma {:induction false} BackslashFreeFrom(raw: string, i: nat)
    requires i <= |raw|
    requires forall j :: i <= j < |raw| ==> raw[j] != '\\'
    ensures UnescapeFrom(raw, i) == raw[i..]
    decreases |raw| - i
  {
    if i < |raw| {
      BackslashFreeFrom(raw, i + 1);
      assert raw[i..] == [raw[i]] + raw[i + 1..];
    }
  }

  lemma {:induction false} BackslashFreeAdvance(raw: string, i: nat, k: nat)
    requires i + k <= |raw|
    requires forall j :: i <= j < |raw| ==> raw[j] != '\\'
    ensures Advance(raw, i, k) == i + k
    decreases k
  {
    if k > 0 {
      BackslashFreeAdvance(raw, i + 1, k - 1);
    }
  }

  /**
   * Backslash-free content (where unescapeJsonStringContent returns its
   * input at once) unescapes to itself, and character k is token k.
   */
  lemma BackslashFree(raw: string)
    requires '\\' !in raw
    ensures Unescape(raw) == raw
    ensures forall k :: 0 <= k <= |raw| ==> Advance(raw, 0, k) == k
  {
    BackslashFreeFrom(raw, 0);
    assert raw[0..] == raw;
    forall k | 0 <= k <= |raw| ensures Advance(raw, 0, k) == k {
      BackslashFreeAdvance(raw, 0, k);
    }
  }

  /**
   * A token that lies wholly inside raw[lo..hi] reads the same inside the
   * slice: same width, same character.
   */
  lemma TokenLocal(raw: string, lo: nat, hi: nat, i: nat)
    requires lo <= i < hi <= |raw|
    requires i + TokenWidth(raw, i) <= hi
    ensures TokenWidth(raw[lo..hi], i - lo) == TokenWidth(raw, i)
    ensures TokenChar(raw[lo..hi], i - lo) == TokenChar(raw, i)
  {
    var sub := raw[lo..hi];
    var j := i - lo;
    assert sub[j] == raw[i];
    if raw[i] == '\\' && i + 1 < |raw| {
      assert sub[j + 1] == raw[i + 1];
      if raw[i + 1] == 'u' && i + 5 < |raw| {
        assert sub[j + 2] == raw[i + 2] && sub[j + 3] == raw[i + 3];
        assert sub[j + 4] == raw[i + 4] && sub[j + 5] == raw[i + 5];
      }
    }
  }

  /** One token step of UnescapeFrom inside raw[lo..hi], for a token that lies inside. */
  lemma StepInside(raw: string, lo: nat, hi: nat, i: nat)
    requires lo <= i < hi <= |raw|
    requires i + TokenWidth(raw, i) <= hi
    ensures UnescapeFrom(raw[lo..hi], i - lo)
         == [TokenChar(raw, i)] + UnescapeFrom(raw[lo..hi], i + TokenWidth(raw, i) - lo)
  {
    TokenLocal(raw, lo, hi, i);
  }

  /**
   * Unescaping from a token boundary i up to the boundary hi that n tokens
   * later reaches, inside any slice raw[lo..hi] that holds i, gives the text
   * UnescapeFrom yields before hi.
   */
  lemma {:induction false} SplitAt(raw: string, lo: nat, hi: nat, i: nat, n: nat)
    requires lo <= i <= |raw|
    requires hi == Advance(raw, i, n)
    ensures UnescapeFrom(raw, i) == UnescapeFrom(raw[lo..hi], i - lo) + UnescapeFrom(raw, hi)
    decreases n
  {
    var sub := raw[lo..hi];
    if n == 0 || i == |raw| {
      assert UnescapeFrom(sub, i - lo) == [];
    } else {
      var w := TokenWidth(raw, i);
      var c := TokenChar(raw, i);
      var a := UnescapeFrom(sub, i + w - lo);
      var b := UnescapeFrom(raw, hi);
      SplitAt(raw, lo, hi, i + w, n - 1);
      StepInside(raw, lo, hi, i);
      ConcatAssoc([c], a, b);
      assert UnescapeFrom(raw, i) == [c] + UnescapeFrom(raw, i + w);
    }
  }

  /** Dropping k > 0 elements of [x] + t drops x and k - 1 elements of t. */
  lemma DropCons(x: char, t: string, k: nat)
    requires 0 < k <= |t| + 1
    ensures ([x] + t)[k..] == t[k - 1..]
  {
  }

  /** After k tokens, UnescapeFrom yields the unescaped text less its first k characters. */
  lemma {:induction false} SuffixAt(raw: string, i: nat, k: nat)
    requires i <= |raw|
    requires k <= |UnescapeFrom(raw, i)|
    ensures UnescapeFrom(raw, Advance(raw, i, k)) == UnescapeFrom(raw, i)[k..]
    decreases k
  {
    if k > 0 {
      var w := TokenWidth(raw, i);
      SuffixAt(raw, i + w, k - 1);
      DropCons(TokenChar(raw, i), UnescapeFrom(raw, i + w), k);
    }
  }

  /**
   * The raw span of unescaped characters a..b-1, from the start of token a
   * to the end of token b-1, unescapes back to exactly those characters,
   * and it is non-empty when the span is.
   */
  lemma SliceRoundTrip(raw: string, a: nat, b: nat)
    requires a <= b <= |Unescape(raw)|
    ensures var lo, hi := Advance(raw, 0, a), Advance(raw, 0, b);
      && lo <= hi <= |raw|
      && (a < b ==> lo < hi)
      && Unescape(raw[lo..hi]) == Unescape(raw)[a..b]
  {
    var u, lo, hi := Unescape(raw), Advance(raw, 0, a), Advance(raw, 0, b);
    assert hi == Advance(raw, lo, b - a) by {
      AdvanceAdd(raw, 0, a, b - a);
    }
    assert a < b ==> lo < hi by {
      if a < b {
        AdvanceStrict(raw, 0, a, b);
      }
    }
    var mid := UnescapeFrom(raw[lo..hi], 0);
    assert u[a..] == mid + u[b..] by {
      SplitAt(raw, lo, hi, lo, b - a);
      SuffixAt(raw, 0, a);
      SuffixAt(raw, 0, b);
    }
    assert u[a..b] == (mid + u[b..])[..|mid|];
  }

  /** Reading more tokens, while there are any, moves strictly forward. */
  lemma AdvanceStrict(raw: string, i: nat, a: nat, b: nat)
    requires i <= |raw|
    requires a < b <= |UnescapeFrom(raw, i)|
    ensures Advance(raw, i, a) < Advance(raw, i, b)
  {
    AdvanceStep(raw, i, a);
    AdvanceAdd(raw, i, a + 1, b - a - 1);
  }
}
