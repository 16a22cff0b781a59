/** The wallet-pattern decoder of core/utils/parser.py: a pattern string is
    split into a wanted address start and a wanted address end. */
module PatternParser {
  import opened Wrappers
  import opened Text

  /** The two-character separator `"__"` starts at position `k` of `s`. */
  predicate SeparatorAt(s: string, k: int)
  {
    0 <= k && k + 1 < |s| && s[k] == '_' && s[k + 1] == '_'
  }

  /** Python's `"__" in s`. */
  predicate HasSeparator(s: string)
  {
    exists k :: 0 <= k < |s| && SeparatorAt(s, k)
  }

  /** The position of the first `"__"` in `s`, the point where
      `s.split("__", 1)` cuts. */
  function FindSeparator(s: string): (r: Option<nat>)
    ensures r.None? <==> !HasSeparator(s)
    ensures r.Some? ==> SeparatorAt(s, r.value)
    ensures r.Some? ==> forall j :: 0 <= j < r.value ==> !SeparatorAt(s, j)
  {
    if |s| < 2 then
      None
    else if s[0] == '_' && s[1] == '_' then
      assert SeparatorAt(s, 0);
      Some(0)
    else
      match FindSeparator(s[1..])
      case None =>
        assert forall k :: SeparatorAt(s, k) ==> k >= 1 && SeparatorAt(s[1..], k - 1);
        None
      case Some(k) =>
        assert forall j :: 1 <= j < k + 1 ==> (SeparatorAt(s, j) <==> SeparatorAt(s[1..], j - 1));
        assert SeparatorAt(s, k + 1);
        Some(k + 1)
  }

  /** `parse_wallet_pattern(pattern)`: `(wallet_start, wallet_end)`.
      The first `"__"` splits the pattern into both parts; failing that, a
      trailing `"_"` marks a start-only pattern; failing that, a leading `"_"`
      marks an end-only pattern; otherwise both parts are empty. */
  function ParseWalletPattern(pattern: string): (r: (string, string))
    ensures HasSeparator(pattern) ==>
              r.0 + "__" + r.1 == pattern &&
              forall j :: 0 <= j < |r.0| ==> !SeparatorAt(pattern, j)
    ensures !HasSeparator(pattern) && EndsWith(pattern, "_") ==>
              r == (pattern[..|pattern| - 1], "")
    ensures !HasSeparator(pattern) && !EndsWith(pattern, "_") && StartsWith(pattern, "_") ==>
              r == ("", pattern[1..])
    ensures !HasSeparator(pattern) && !EndsWith(pattern, "_") && !StartsWith(pattern, "_") ==>
              r == ("", "")
  {
    match FindSeparator(pattern)
    case Some(k) =>
      var start, end := pattern[..k], pattern[k + 2..];
      assert start + "__" + end == pattern;
      (start, end)
    case None =>
      if EndsWith(pattern, "_") then
        (pattern[..|pattern| - 1], "")
      else if StartsWith(pattern, "_") then
        ("", pattern[1..])
      else
        ("", "")
  }

  /** In every branch the two parts fit in the pattern and occur in it. */
  lemma ParsePartsComeFromPattern(pattern: string)
    ensures |ParseWalletPattern(pattern).0| + |ParseWalletPattern(pattern).1| <= |pattern|
    ensures IsSubstring(ParseWalletPattern(pattern).0, pattern)
    ensures IsSubstring(ParseWalletPattern(pattern).1, pattern)
  {
    var (start, end) := ParseWalletPattern(pattern);
    if HasSeparator(pattern) {
      var k := |start|;
      assert pattern[..k] == start;
      assert pattern[k + 2..] == end;
      assert StartsWith(pattern[0..], start);
      assert StartsWith(pattern[k + 2..], end);
    } else if EndsWith(pattern, "_") {
      assert StartsWith(pattern[0..], start);
      assert StartsWith(pattern[|pattern|..], end);
    } else if StartsWith(pattern, "_") {
      assert StartsWith(pattern[0..], start);
      assert StartsWith(pattern[1..], end);
    } else {
      assert StartsWith(pattern[0..], start);
      assert StartsWith(pattern[0..], end);
    }
  }

  /** With a separator, the cut is at its first occurrence `k`: the start
      is everything before it and the end everything after it (and so may
      itself contain `"__"`). */
  lemma ParseSplitsAtFirstSeparator(pattern: string, k: nat)
    requires SeparatorAt(pattern, k)
    requires forall j :: 0 <= j < k ==> !SeparatorAt(pattern, j)
    ensures ParseWalletPattern(pattern) == (pattern[..k], pattern[k + 2..])
  {
    assert HasSeparator(pattern);
  }

  /** Digits are literal text: `"5__3"` is the start `"5"` and the end
      `"3"`, not a count of characters. */
  lemma ParseDigitsAreLiteral()
    ensures ParseWalletPattern("5__3") == ("5", "3")
  {
    ParseSplitsAtFirstSeparator("5__3", 1);
    assert "5__3"[..1] == "5" && "5__3"[3..] == "3";
  }

  /** The separator is cut at literally, whatever the markers around it. */
  lemma ParseSeparatorBeatsMarkers()
    ensures ParseWalletPattern("_a__b_") == ("_a", "b_")
  {
    assert !SeparatorAt("_a__b_", 0) && !SeparatorAt("_a__b_", 1);
    ParseSplitsAtFirstSeparator("_a__b_", 2);
    assert "_a__b_"[..2] == "_a" && "_a__b_"[4..] == "b_";
  }

  /** In a run of three underscores the first two are the separator and the
      third belongs to the end. */
  lemma ParseThirdUnderscoreGoesToEnd()
    ensures ParseWalletPattern("a___b") == ("a", "_b")
  {
    ParseSplitsAtFirstSeparator("a___b", 1);
    assert "a___b"[..1] == "a" && "a___b"[3..] == "_b";
  }

  /** A trailing `"_"` wins over a leading one. */
  lemma ParseMarkerExamples()
    ensures ParseWalletPattern("abc_") == ("abc", "")
    ensures ParseWalletPattern("_abc_") == ("_abc", "")
    ensures ParseWalletPattern("_abc") == ("", "abc")
    ensures ParseWalletPattern("abc") == ("", "")
    ensures ParseWalletPattern("") == ("", "")
  {
    NoSeparator("abc_");
    assert "abc_"[..3] == "abc";
    NoSeparator("_abc_");
    assert "_abc_"[..4] == "_abc";
    NoSeparator("_abc");
    assert "_abc"[1..] == "abc";
    NoSeparator("abc");
  }

  /** Helper for concrete patterns: a string of at most one `_` in a row has
      no separator. */
  lemma NoSeparator(s: string)
    requires forall k :: 0 <= k < |s| - 1 ==> s[k] != '_' || s[k + 1] != '_'
    ensures !HasSeparator(s)
  {
  }
}
