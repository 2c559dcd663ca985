/**
 * AuthorMetadataProcessorService.processMetadataValue (lines 26-32): strip
 * the surrounding whitespace of an author name, then strip every trailing
 * '.'. A Java null is None.
 *
 * The two steps are the commons-lang StringUtils.strip(str) and
 * StringUtils.stripEnd(str, "."), written out here: a null set of characters
 * to strip means whitespace in the sense of Character.isWhitespace.
 */
module AuthorProcessor {
  import opened Wrappers

  /**
   * Character.isWhitespace: the space, line and paragraph separators other
   * than the no-break spaces U+00A0, U+2007 and U+202F, and the controls
   * U+0009-U+000D and U+001C-U+001F.
   */
  predicate IsWhitespace(c: char)
  {
    || ('\t' <= c <= '\r')
    || ('\U{001C}' <= c <= '\U{001F}')
    || c == ' '
    || c == '\U{1680}'
    || ('\U{2000}' <= c <= '\U{2006}')
    || ('\U{2008}' <= c <= '\U{200A}')
    || c == '\U{2028}'
    || c == '\U{2029}'
    || c == '\U{205F}'
    || c == '\U{3000}'
  }

  /** The characters a strip call removes: whitespace when the set is null, otherwise the members of the set. */
  predicate Strippable(c: char, stripChars: Option<string>)
  {
    match stripChars
    case None => IsWhitespace(c)
    case Some(chars) => c in chars
  }

  /** The scan of stripStart: from `start` on, skip strippable characters; the index of the first one kept. */
  function StartIndex(s: string, stripChars: Option<string>, start: nat): (k: nat)
    requires start <= |s|
    ensures start <= k <= |s|
    ensures forall i :: start <= i < k ==> Strippable(s[i], stripChars)
    ensures k < |s| ==> !Strippable(s[k], stripChars)
    decreases |s| - start
  {
    if start == |s| || !Strippable(s[start], stripChars) then start else StartIndex(s, stripChars, start + 1)
  }

  /** StringUtils.stripStart: drop the longest prefix of strippable characters. */
  function StripStart(s: string, stripChars: Option<string>): (r: string)
    ensures |r| <= |s| && r == s[|s| - |r|..]
    ensures forall i :: 0 <= i < |s| - |r| ==> Strippable(s[i], stripChars)
    ensures r != [] ==> !Strippable(r[0], stripChars)
  {
    s[StartIndex(s, stripChars, 0)..]
  }

  /** The scan of stripEnd: from `end` down, skip strippable characters; the length of what is kept. */
  function EndIndex(s: string, stripChars: Option<string>, end: nat): (k: nat)
    requires end <= |s|
    ensures k <= end
    ensures forall i :: k <= i < end ==> Strippable(s[i], stripChars)
    ensures k > 0 ==> !Strippable(s[k - 1], stripChars)
  {
    if end == 0 || !Strippable(s[end - 1], stripChars) then end else EndIndex(s, stripChars, end - 1)
  }

  /** StringUtils.stripEnd: drop the longest suffix of strippable characters. */
  function StripEnd(s: string, stripChars: Option<string>): (r: string)
    ensures |r| <= |s| && r == s[..|r|]
    ensures forall i :: |r| <= i < |s| ==> Strippable(s[i], stripChars)
    ensures r != [] ==> !Strippable(r[|r| - 1], stripChars)
  {
    s[..EndIndex(s, stripChars, |s|)]
  }

  /** StringUtils.strip(str): whitespace off both ends. */
  function Strip(s: string): string
  {
    StripEnd(StripStart(s, None), None)
  }

  /** processMetadataValue: null stays null; otherwise strip, then drop every trailing '.'. */
  function ProcessMetadataValue(value: Option<string>): (r: Option<string>)
    ensures r.None? <==> value.None?
    ensures r.Some? ==> |r.value| <= |value.value|
    ensures r.Some? && r.value != [] ==> r.value[|r.value| - 1] != '.'
  {
    match value
    case None => None
    case Some(s) => Some(StripEnd(Strip(s), Some(".")))
  }

  /** The result never starts with whitespace. */
  lemma NeverStartsWithWhitespace(s: string)
    ensures var r := ProcessMetadataValue(Some(s)).value;
      r != [] ==> !IsWhitespace(r[0])
  {
    var front := StripStart(s, None);
    var stripped := StripEnd(front, None);
    var r := StripEnd(stripped, Some("."));
    if r != [] {
      assert r[0] == stripped[0] == front[0];
    }
  }

  /**
   * r is s[lo..hi]: everything cut from the front is whitespace, everything
   * cut from the back is whitespace or '.', and r neither starts with
   * whitespace nor ends with '.'.
   */
  predicate TrimmedSlice(s: string, r: string, lo: int, hi: int)
  {
    && 0 <= lo <= hi <= |s|
    && r == s[lo..hi]
    && (forall i :: 0 <= i < lo ==> IsWhitespace(s[i]))
    && (forall i :: hi <= i < |s| ==> IsWhitespace(s[i]) || s[i] == '.')
    && (r != [] ==> !IsWhitespace(r[0]) && r[|r| - 1] != '.')
  }

  /**
   * Cutting whitespace off the front of s, then whitespace and then dots off
   * the back, leaves a TrimmedSlice of s.
   */
  lemma CutsMakeTrimmedSlice(s: string, front: string, stripped: string, r: string)
    requires |r| <= |stripped| <= |front| <= |s|
    requires front == s[|s| - |front|..] && stripped == front[..|stripped|] && r == stripped[..|r|]
    requires forall k :: 0 <= k < |s| - |front| ==> IsWhitespace(s[k])
    requires forall k :: |stripped| <= k < |front| ==> IsWhitespace(front[k])
    requires forall k :: |r| <= k < |stripped| ==> stripped[k] == '.'
    requires front != [] ==> !IsWhitespace(front[0])
    requires r != [] ==> r[|r| - 1] != '.'
    ensures TrimmedSlice(s, r, |s| - |front|, |s| - |front| + |r|)
  {
    var lo := |s| - |front|;
    var hi := lo + |r|;
    assert r == s[lo..hi] by {
      assert forall k :: 0 <= k < |r| ==> r[k] == s[lo + k];
    }
    forall i | hi <= i < |s| ensures IsWhitespace(s[i]) || s[i] == '.' {
      var k := i - lo;
      assert s[i] == front[k];
      if k < |stripped| {
        assert front[k] == stripped[k];
      }
    }
    if r != [] {
      assert r[0] == front[0];
    }
  }

  /**
   * The result is one contiguous piece of the input, cut as TrimmedSlice
   * describes: it starts where the leading whitespace ends. Interior
   * characters and dots are kept.
   */
  lemma IsTrimmedSlice(s: string)
    ensures var lo := |s| - |StripStart(s, None)|;
      var r := ProcessMetadataValue(Some(s)).value;
      TrimmedSlice(s, r, lo, lo + |r|)
  {
    var front := StripStart(s, None);
    var stripped := StripEnd(front, None);
    var r := StripEnd(stripped, Some("."));
    CutsMakeTrimmedSlice(s, front, stripped, r);
  }

  /** A value without surrounding whitespace and without a trailing '.' is returned as it is. */
  lemma CleanValueUnchanged(s: string)
    requires s != [] ==> !IsWhitespace(s[0]) && !IsWhitespace(s[|s| - 1]) && s[|s| - 1] != '.'
    ensures ProcessMetadataValue(Some(s)) == Some(s)
  {
    if s != [] {
      StripStartStops(s, None);
      StripEndStops(s, None);
      StripEndStops(s, Some("."));
    }
  }

  /** n dots. */
  function Dots(n: nat): string
  {
    seq(n, _ => '.')
  }

  /** stripEnd(t + n dots, ".") is t when t does not end with '.'. */
  lemma {:induction false} StripTrailingDots(t: string, n: nat)
    requires t != [] ==> t[|t| - 1] != '.'
    ensures StripEnd(t + Dots(n), Some(".")) == t
  {
    var s := t + Dots(n);
    if n == 0 {
      assert s == t;
      if t != [] {
        StripEndStops(t, Some("."));
      }
    } else {
      assert s[|s| - 1] == '.';
      StripEndDrops(s, Some("."));
      assert s[..|s| - 1] == t + Dots(n - 1);
      StripTrailingDots(t, n - 1);
    }
  }

  /**
   * Every trailing '.' is removed, not only the last one as the doc comment
   * of lines 20-24 says: a clean name followed by any number of dots comes
   * back as the name.
   */
  lemma StripsEveryTrailingDot(t: string, n: nat)
    requires t != [] ==> !IsWhitespace(t[0]) && !IsWhitespace(t[|t| - 1]) && t[|t| - 1] != '.'
    ensures ProcessMetadataValue(Some(t + Dots(n))) == Some(t)
  {
    var s := t + Dots(n);
    if t == [] {
      assert s == Dots(n);
      if n > 0 {
        assert !IsWhitespace(s[0]);
      }
    } else {
      assert s[0] == t[0];
    }
    assert StripStart(s, None) == s;
    if n > 0 {
      assert s[|s| - 1] == '.';
    } else {
      assert s == t;
    }
    assert StripEnd(s, None) == s;
    StripTrailingDots(t, n);
  }

  /** "A.." becomes "A": both dots go. */
  lemma TwoDotsBothRemoved()
    ensures ProcessMetadataValue(Some("A..")) == Some("A")
  {
    StripsEveryTrailingDot("A", 2);
    assert "A" + Dots(2) == "A..";
  }

  /** stripStart stops at once on a character it does not strip. */
  lemma StripStartStops(s: string, stripChars: Option<string>)
    requires s != [] && !Strippable(s[0], stripChars)
    ensures StripStart(s, stripChars) == s
  {
  }

  /** stripEnd stops at once on a character it does not strip. */
  lemma StripEndStops(s: string, stripChars: Option<string>)
    requires s != [] && !Strippable(s[|s| - 1], stripChars)
    ensures StripEnd(s, stripChars) == s
  {
  }

  /** stripEnd drops a strippable last character and goes on. */
  lemma StripEndDrops(s: string, stripChars: Option<string>)
    requires s != [] && Strippable(s[|s| - 1], stripChars)
    ensures StripEnd(s, stripChars) == StripEnd(s[..|s| - 1], stripChars)
  {
  }

  /** Whitespace in front of the trailing dots survives: "A ." becomes "A ". */
  lemma SpaceBeforeDotSurvives()
    ensures ProcessMetadataValue(Some("A .")) == Some("A ")
  {
    var s := "A .";
    StripStartStops(s, None);
    StripEndStops(s, None);
    StripEndDrops(s, Some("."));
    assert s[..2] == "A ";
    StripEndStops("A ", Some("."));
  }

  /** A trailing space goes: "A " becomes "A". */
  lemma TrailingSpaceStripped()
    ensures ProcessMetadataValue(Some("A ")) == Some("A")
  {
    var t := "A ";
    StripStartStops(t, None);
    StripEndDrops(t, None);
    assert t[..1] == "A";
    StripEndStops("A", None);
    StripEndStops("A", Some("."));
  }

  /**
   * So processing is not idempotent: the "A " that "A ." becomes is itself
   * processed to "A".
   */
  lemma NotIdempotent()
    ensures ProcessMetadataValue(ProcessMetadataValue(Some("A ."))) == Some("A")
    ensures ProcessMetadataValue(Some("A .")) != Some("A")
  {
    SpaceBeforeDotSurvives();
    TrailingSpaceStripped();
  }
}
