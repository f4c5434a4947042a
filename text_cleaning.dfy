/** `PDFParser.clean_text`: collapse whitespace, drop "Page <digits>" artifacts, drop characters
    outside the allow-list, strip. Each regular-expression substitution is an explicit function. */
module TextCleaning {
  import opened Strings

  predicate IsAsciiDigit(c: char) { '0' <= c <= '9' }

  predicate IsAsciiLetter(c: char) { ('a' <= c <= 'z') || ('A' <= c <= 'Z') }

  /** Approximation of Unicode `\w`: ASCII letters and digits, `_`, and every non-ASCII
      character that is not whitespace. */
  predicate IsWordChar(c: char)
  {
    IsAsciiLetter(c) || IsAsciiDigit(c) || c == '_' || (c as int >= 0x80 && !IsSpace(c))
  }

  /** The punctuation the allow-list keeps besides word characters and whitespace. */
  predicate IsKeptPunctuation(c: char)
  {
    c in ".,!?;:-()[]=+*/^%$"
  }

  /** A character that `[^\w\s.,!?;:\-()\[\]=+*\/^%$]` does not match. */
  predicate IsKept(c: char)
  {
    IsWordChar(c) || IsSpace(c) || IsKeptPunctuation(c)
  }

  /** `re.sub(r'\s+', ' ', text)`: every maximal whitespace run becomes one ' '. A whitespace
      character followed by another is dropped; the last one of a run is written as ' '. */
  function CollapseWhitespace(s: string): (r: string)
    ensures forall k :: 0 <= k < |r| && IsSpace(r[k]) ==> r[k] == ' '
    ensures forall k :: 0 <= k < |r| - 1 ==> !(IsSpace(r[k]) && IsSpace(r[k + 1]))
    ensures s == [] <==> r == []
    ensures s != [] ==> (IsSpace(s[0]) <==> IsSpace(r[0]))
    decreases |s|
  {
    if s == [] then []
    else if IsSpace(s[0]) then
      if |s| > 1 && IsSpace(s[1]) then CollapseWhitespace(s[1..])
      else [' '] + CollapseWhitespace(s[1..])
    else [s[0]] + CollapseWhitespace(s[1..])
  }

  /** The text with its whitespace removed. */
  function NonSpace(s: string): string
    decreases |s|
  {
    if s == [] then [] else (if IsSpace(s[0]) then [] else [s[0]]) + NonSpace(s[1..])
  }

  /** Collapsing whitespace keeps every other character, in order. */
  lemma {:induction false} CollapseKeepsNonSpace(s: string)
    ensures NonSpace(CollapseWhitespace(s)) == NonSpace(s)
    decreases |s|
  {
    if s != [] {
      var r := CollapseWhitespace(s);
      CollapseKeepsNonSpace(s[1..]);
      if IsSpace(s[0]) && !(|s| > 1 && IsSpace(s[1])) {
        assert r[1..] == CollapseWhitespace(s[1..]);
      } else if !IsSpace(s[0]) {
        assert r[1..] == CollapseWhitespace(s[1..]);
      }
    }
  }

  /** "Page " followed by at least one digit starts here. */
  predicate StartsPageNumber(s: string)
  {
    |s| >= 6 && s[..5] == "Page " && IsAsciiDigit(s[5])
  }

  function SkipDigits(s: string): (r: string)
    ensures |r| <= |s| && r == s[|s| - |r|..]
    ensures r == [] || !IsAsciiDigit(r[0])
    decreases |s|
  {
    if s != [] && IsAsciiDigit(s[0]) then SkipDigits(s[1..]) else s
  }

  /** `re.sub(r'Page \d+', '', text)`: matches are removed left to right, the digit run greedily. */
  function RemovePageNumbers(s: string): (r: string)
    ensures |r| <= |s|
    ensures multiset(r) <= multiset(s)
    decreases |s|
  {
    if s == [] then []
    else if StartsPageNumber(s) then
      var rest := SkipDigits(s[5..]);
      assert s == s[..|s| - |rest|] + rest;
      RemovePageNumbers(rest)
    else
      assert s == [s[0]] + s[1..];
      [s[0]] + RemovePageNumbers(s[1..])
  }

  /** Text with no page-number artifact is left as it is. */
  lemma {:induction false} RemovePageNumbersIdentity(s: string)
    requires forall k :: 0 <= k <= |s| ==> !StartsPageNumber(s[k..])
    ensures RemovePageNumbers(s) == s
    decreases |s|
  {
    if s != [] {
      assert !StartsPageNumber(s[0..]);
      assert s[0..] == s;
      forall k | 0 <= k <= |s| - 1 ensures !StartsPageNumber(s[1..][k..]) {
        assert s[1..][k..] == s[k + 1..];
      }
      RemovePageNumbersIdentity(s[1..]);
    }
  }

  /** `re.sub(r'[^\w\s.,!?;:\-()\[\]=+*\/^%$]', '', text)`. */
  function KeepAllowed(s: string): (r: string)
    ensures forall c :: c in r <==> c in s && IsKept(c)
    ensures |r| <= |s|
    decreases |s|
  {
    if s == [] then []
    else
      assert forall c :: c in s <==> c == s[0] || c in s[1..];
      (if IsKept(s[0]) then [s[0]] else []) + KeepAllowed(s[1..])
  }

  /** `clean_text(text)` */
  function CleanText(text: string): string
  {
    Strip(KeepAllowed(RemovePageNumbers(CollapseWhitespace(text))))
  }

  /** The cleaned text holds only word characters, ' ' and the allow-listed punctuation, its only
      whitespace character is ' ', it neither starts nor ends with whitespace, and every character
      in it other than ' ' comes from the input. */
  lemma CleanTextShape(text: string)
    ensures var r := CleanText(text);
      && (forall c :: c in r ==> IsKept(c) && (IsSpace(c) ==> c == ' ') && (c == ' ' || c in text))
      && (r == [] || (!IsSpace(r[0]) && !IsSpace(r[|r| - 1])))
  {
    var a := CollapseWhitespace(text);
    var b := RemovePageNumbers(a);
    CollapseChars(text);
    RemoveChars(a);
    assert forall x :: x in b ==> x in a;
  }

  /** Every character of the collapsed text is ' ' or a non-whitespace character of the input. */
  lemma CollapseChars(text: string)
    ensures forall x :: x in CollapseWhitespace(text) ==> (IsSpace(x) ==> x == ' ') && (x == ' ' || x in text)
  {
    var a := CollapseWhitespace(text);
    forall x | x in a ensures (IsSpace(x) ==> x == ' ') && (x == ' ' || x in text) {
      var k :| 0 <= k < |a| && a[k] == x;
      CollapseOnlyFromInput(text, k);
    }
  }

  /** Removing page numbers adds no character. */
  lemma RemoveChars(a: string)
    ensures forall x :: x in RemovePageNumbers(a) ==> x in a
  {
    var b := RemovePageNumbers(a);
    forall x | x in b ensures x in a {
      assert x in multiset(b);
    }
  }

  /** Each character of the collapsed text is ' ' or a non-whitespace character of the input. */
  lemma {:induction false} CollapseOnlyFromInput(s: string, k: nat)
    requires k < |CollapseWhitespace(s)|
    ensures var r := CollapseWhitespace(s); r[k] == ' ' || (r[k] in s && !IsSpace(r[k]))
    decreases |s|
  {
    var r := CollapseWhitespace(s);
    if IsSpace(s[0]) && |s| > 1 && IsSpace(s[1]) {
      CollapseOnlyFromInput(s[1..], k);
    } else if k > 0 {
      assert r[1..] == CollapseWhitespace(s[1..]);
      CollapseOnlyFromInput(s[1..], k - 1);
    }
  }

  // ---------------------------------------------------------------------------------------------
  // What each substitution does to the text, piece by piece

  /** A maximal whitespace run, one followed by a non-whitespace character or by the end, becomes
      exactly one ' '. */
  lemma {:induction false} CollapseRun(w: string, t: string)
    requires w != [] && forall k :: 0 <= k < |w| ==> IsSpace(w[k])
    requires t == [] || !IsSpace(t[0])
    ensures CollapseWhitespace(w + t) == " " + CollapseWhitespace(t)
    decreases |w|
  {
    var s := w + t;
    assert s[1..] == w[1..] + t;
    if |w| > 1 {
      assert s[1] == w[1];
      CollapseRun(w[1..], t);
    } else {
      assert s[1..] == t;
    }
  }

  /** A non-whitespace character is copied as it is. */
  lemma CollapseWord(c: char, t: string)
    requires !IsSpace(c)
    ensures CollapseWhitespace([c] + t) == [c] + CollapseWhitespace(t)
  {
    assert ([c] + t)[1..] == t;
  }

  /** Text whose whitespace is already lone ' ' characters is left as it is. */
  lemma {:induction false} CollapseUnchanged(s: string)
    requires forall k :: 0 <= k < |s| && IsSpace(s[k]) ==> s[k] == ' '
    requires forall k :: 0 <= k < |s| - 1 ==> !(IsSpace(s[k]) && IsSpace(s[k + 1]))
    ensures CollapseWhitespace(s) == s
    decreases |s|
  {
    if s != [] {
      var t := s[1..];
      assert forall k :: 0 <= k < |t| ==> t[k] == s[k + 1];
      CollapseUnchanged(t);
    }
  }

  /** The greedy digit run ends where the digits do. */
  lemma {:induction false} SkipDigitsRun(d: string, t: string)
    requires forall k :: 0 <= k < |d| ==> IsAsciiDigit(d[k])
    requires t == [] || !IsAsciiDigit(t[0])
    ensures SkipDigits(d + t) == t
    decreases |d|
  {
    if d == [] {
      assert d + t == t;
    } else {
      assert (d + t)[1..] == d[1..] + t;
      SkipDigitsRun(d[1..], t);
    }
  }

  /** A match "Page " followed by its whole digit run is removed. */
  lemma {:induction false} RemovePageNumbersMatch(d: string, t: string)
    requires d != [] && forall k :: 0 <= k < |d| ==> IsAsciiDigit(d[k])
    requires t == [] || !IsAsciiDigit(t[0])
    ensures RemovePageNumbers("Page " + d + t) == RemovePageNumbers(t)
  {
    var s := "Page " + (d + t);
    assert "Page " + d + t == s;
    assert s[..5] == "Page ";
    assert s[5] == d[0];
    assert s[5..] == d + t;
    assert StartsPageNumber(s);
    SkipDigitsRun(d, t);
  }

  /** A character where no match starts is kept. */
  lemma RemovePageNumbersKeep(c: char, t: string)
    requires !StartsPageNumber([c] + t)
    ensures RemovePageNumbers([c] + t) == [c] + RemovePageNumbers(t)
  {
    assert ([c] + t)[1..] == t;
  }

  /** The filter works character by character: it keeps an allowed character, drops any other,
      and keeps the order. */
  lemma KeepAllowedOne(c: char)
    ensures KeepAllowed([c]) == (if IsKept(c) then [c] else [])
  {
    assert [c][1..] == [];
  }

  lemma {:induction false} KeepAllowedAppend(a: string, b: string)
    ensures KeepAllowed(a + b) == KeepAllowed(a) + KeepAllowed(b)
    decreases |a|
  {
    if a == [] {
      assert a + b == b;
    } else {
      assert (a + b)[0] == a[0];
      assert (a + b)[1..] == a[1..] + b;
      KeepAllowedAppend(a[1..], b);
    }
  }

  /** Text of allowed characters only is left as it is. */
  lemma {:induction false} KeepAllowedUnchanged(s: string)
    requires forall k :: 0 <= k < |s| ==> IsKept(s[k])
    ensures KeepAllowed(s) == s
    decreases |s|
  {
    if s != [] {
      var t := s[1..];
      assert forall k :: 0 <= k < |t| ==> t[k] == s[k + 1];
      KeepAllowedUnchanged(t);
      assert IsKept(s[0]);
      assert KeepAllowed(s) == [s[0]] + KeepAllowed(t);
      assert s == [s[0]] + t;
    }
  }

  /** Text that is already clean: allowed characters only, whitespace only as lone ' ' characters
      between words, and no "Page <digit>" anywhere. */
  predicate IsClean(s: string)
  {
    && (forall k :: 0 <= k < |s| ==> IsKept(s[k]) && (IsSpace(s[k]) ==> s[k] == ' '))
    && (forall k :: 0 <= k < |s| - 1 ==> !(IsSpace(s[k]) && IsSpace(s[k + 1])))
    && (s == [] || (!IsSpace(s[0]) && !IsSpace(s[|s| - 1])))
    && (forall k :: 0 <= k <= |s| ==> !StartsPageNumber(s[k..]))
  }

  /** `clean_text` leaves clean text as it is: it removes only what the substitutions and the
      strip target. */
  lemma CleanTextUnchanged(text: string)
    requires IsClean(text)
    ensures CleanText(text) == text
  {
    CollapseUnchanged(text);
    RemovePageNumbersIdentity(text);
    KeepAllowedUnchanged(text);
    StripUnchanged(text);
  }
}
