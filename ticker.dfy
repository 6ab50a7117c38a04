/** _normalize_ticker: the cleaned, upper-case ticker the downloader files a raw
    SYMBOL column under. */
module Ticker {
  import opened Text

  const DefunctMarker := "defunct"

  /** A character the cleaned ticker may hold: ASCII upper case, a digit or '.'. */
  predicate IsTickerChar(c: char) { IsUpperAscii(c) || IsDigit(c) || c == '.' }

  /** The punctuation the cleaner turns into '.'. */
  predicate IsSeparator(c: char) { c == '.' || c == '/' || c == '-' || c == '_' }

  predicate IsDot(c: char) { c == '.' }

  /** A character the cleaner keeps, as itself or as '.'. */
  predicate IsPlain(c: char) { IsAlnum(c) || IsSeparator(c) }

  /** A ticker whose lower-cased form mentions "defunct" is cut before its first '-',
      or before its first '_' when it holds no '-'; any other ticker is kept whole. */
  function DefunctCut(t: string): (r: string)
    ensures r <= t
    ensures !Contains(Lower(t), DefunctMarker) ==> r == t
    ensures Contains(Lower(t), DefunctMarker) && '-' in t ==> |r| < |t| && t[|r|] == '-' && '-' !in r
    ensures Contains(Lower(t), DefunctMarker) && '-' !in t && '_' in t ==> |r| < |t| && t[|r|] == '_' && '_' !in r
    ensures '-' !in t && '_' !in t ==> r == t
  {
    if Contains(Lower(t), DefunctMarker) then
      var i := FindChar(t, '-');
      if i != -1 then t[..i]
      else
        var j := FindChar(t, '_');
        if j != -1 then t[..j] else t
    else t
  }

  /** What one character contributes: an alphanumeric upper-cased, a separator as '.',
      anything else nothing. */
  function CleanChar(c: char): (r: string)
    ensures |r| <= 1 && forall i :: 0 <= i < |r| ==> IsTickerChar(r[i])
  {
    if IsAlnum(c) then [ToUpper(c)]
    else if IsSeparator(c) then "."
    else []
  }

  /** The mapping itself: an alphanumeric is upper-cased, a separator becomes '.', and
      anything else is dropped. */
  lemma CleanCharMaps(c: char)
    ensures IsAlnum(c) ==> CleanChar(c) == [ToUpper(c)]
    ensures !IsAlnum(c) && IsSeparator(c) ==> CleanChar(c) == "."
    ensures !IsAlnum(c) && !IsSeparator(c) ==> CleanChar(c) == []
  {
  }

  function CleanChars(s: string): (r: string)
    ensures |r| <= |s|
    ensures forall i :: 0 <= i < |r| ==> IsTickerChar(r[i])
  {
    if s == [] then [] else CleanChars(s[..|s| - 1]) + CleanChar(s[|s| - 1])
  }

  /** The cleaner followed by strip('.'): upper-case letters, digits and inner dots only. */
  function CleanedText(s: string): (r: string)
    ensures forall i :: 0 <= i < |r| ==> IsTickerChar(r[i])
    ensures r != [] ==> r[0] != '.' && r[|r| - 1] != '.'
  {
    var out := CleanChars(s);
    TrimByKeeps(out, IsDot, IsTickerChar);
    TrimBy(out, IsDot)
  }

  /** The cleaned ticker. */
  function NormalizedTicker(t: string): (r: string)
    ensures forall i :: 0 <= i < |r| ==> IsTickerChar(r[i])
    ensures r != [] ==> r[0] != '.' && r[|r| - 1] != '.'
  {
    if t == [] then []
    else
      var s := Strip(DefunctCut(t));
      if s == [] then [] else CleanedText(s)
  }

  /** The cleaner works character by character: it distributes over concatenation. */
  lemma {:induction false} CleanCharsConcat(a: string, b: string)
    ensures CleanChars(a + b) == CleanChars(a) + CleanChars(b)
    decreases |b|
  {
    if b == [] {
      assert a + b == a;
    } else {
      var b' := b[..|b| - 1];
      assert (a + b)[..|a + b| - 1] == a + b';
      CleanCharsConcat(a, b');
    }
  }

  /** The cleaner maps each character in place: whatever surrounds c, c contributes
      CleanChar(c) at its own position. */
  lemma CleanCharsSplit(a: string, c: char, b: string)
    ensures CleanChars(a + [c] + b) == CleanChars(a) + CleanChar(c) + CleanChars(b)
  {
    CleanCharsConcat(a + [c], b);
    CleanCharsConcat(a, [c]);
    assert [c][..0] == [];
  }

  lemma CleanCharsStep(s: string, i: nat)
    requires i < |s|
    ensures CleanChars(s[..i + 1]) == CleanChars(s[..i]) + CleanChar(s[i])
  {
    assert s[..i + 1][..i] == s[..i];
  }

  /** A character of a cleaned ticker cleans to itself. */
  lemma CleanCharOfTickerChar(c: char)
    requires IsTickerChar(c)
    ensures CleanChar(c) == [c]
  {
    if c != '.' {
      assert IsAlnum(c) && !IsLowerAscii(c);
    }
  }

  /** On letters, digits and separators the cleaner keeps the length and maps each
      character in place. */
  lemma {:induction false} CleanCharsOfPlain(s: string)
    requires forall i :: 0 <= i < |s| ==> IsPlain(s[i])
    ensures |CleanChars(s)| == |s|
    ensures forall i :: 0 <= i < |s| ==>
      CleanChars(s)[i] == (if IsAlnum(s[i]) then ToUpper(s[i]) else '.')
    decreases |s|
  {
    if s != [] {
      var init, last := s[..|s| - 1], s[|s| - 1];
      assert forall i :: 0 <= i < |init| ==> init[i] == s[i];
      CleanCharsOfPlain(init);
      assert CleanChars(s) == CleanChars(init) + CleanChar(last);
    }
  }

  /** Text that is already clean passes the cleaner unchanged. */
  lemma {:induction false} CleanCharsOfClean(s: string)
    requires forall i :: 0 <= i < |s| ==> IsTickerChar(s[i])
    ensures CleanChars(s) == s
    decreases |s|
  {
    if s != [] {
      var init, last := s[..|s| - 1], s[|s| - 1];
      assert forall i :: 0 <= i < |init| ==> init[i] == s[i];
      CleanCharsOfClean(init);
      CleanCharOfTickerChar(last);
      assert CleanChars(s) == CleanChars(init) + CleanChar(last);
      assert s == init + [last];
    }
  }

  /** Clean text holds no '-' or '_', so the "defunct" cut keeps all of it. */
  lemma DefunctCutOfClean(r: string)
    requires forall i :: 0 <= i < |r| ==> IsTickerChar(r[i])
    ensures DefunctCut(r) == r
  {
    assert '-' !in r && '_' !in r by {
      forall i | 0 <= i < |r| ensures r[i] != '-' && r[i] != '_' { assert IsTickerChar(r[i]); }
    }
  }

  /** Clean text without outer dots passes the cleaner and strip('.') unchanged. */
  lemma CleanedTextOfClean(r: string)
    requires forall i :: 0 <= i < |r| ==> IsTickerChar(r[i])
    requires r != [] ==> r[0] != '.' && r[|r| - 1] != '.'
    ensures CleanedText(r) == r
  {
    CleanCharsOfClean(r);
    TrimNoop(r, IsDot);
  }

  /** Normalising a normalised ticker changes nothing. */
  lemma NormalizedTickerIdempotent(t: string)
    ensures NormalizedTicker(NormalizedTicker(t)) == NormalizedTicker(t)
  {
    var r := NormalizedTicker(t);
    if r != [] {
      DefunctCutOfClean(r);
      StripNoop(r);
      CleanedTextOfClean(r);
      NormalizedTickerOf(r, r);
    }
  }

  /** Two cleaned tickers with the same lower-case form are the same ticker, so the
      lower-cased issuer file names of distinct tickers never collide. */
  lemma LowerTickerInjective(a: string, b: string)
    requires forall i :: 0 <= i < |a| ==> IsTickerChar(a[i])
    requires forall i :: 0 <= i < |b| ==> IsTickerChar(b[i])
    requires Lower(a) == Lower(b)
    ensures a == b
  {
    assert |a| == |Lower(a)|;
    forall i | 0 <= i < |a| ensures a[i] == b[i] {
      assert ToLower(a[i]) == Lower(a)[i] == Lower(b)[i] == ToLower(b[i]);
    }
  }

  /** _normalize_ticker step by step: the "defunct" cut, strip(), the cleaner, then strip('.'). */
  lemma NormalizedTickerSteps(t: string)
    requires t != []
    ensures NormalizedTicker(t) == TrimBy(CleanChars(Strip(DefunctCut(t))), IsDot)
  {
    var s := Strip(DefunctCut(t));
    if s == [] {
      assert CleanChars(s) == [];
      assert TrimBy([], IsDot) == [];
    }
  }

  /** Text of letters, digits and separators only, with a letter or digit at each end
      and no "defunct" in it, comes out of the normaliser character for character:
      letters upper-cased, every separator a '.'. */
  lemma NormalizedTickerOfPlain(t: string)
    requires t != [] && IsAlnum(t[0]) && IsAlnum(t[|t| - 1])
    requires forall i :: 0 <= i < |t| ==> IsPlain(t[i])
    requires !Contains(Lower(t), DefunctMarker)
    ensures |NormalizedTicker(t)| == |t|
    ensures forall i :: 0 <= i < |t| ==>
      NormalizedTicker(t)[i] == (if IsAlnum(t[i]) then ToUpper(t[i]) else '.')
  {
    StripUnpadded(t);
    CleanCharsOfPlain(t);
    var out := CleanChars(t);
    assert out[0] != '.' && out[|out| - 1] != '.';
    TrimNoop(out, IsDot);
    NormalizedTickerSteps(t);
  }

  lemma NormalizedTickerOf(ticker: string, s: string)
    requires ticker != [] && s == Strip(DefunctCut(ticker)) && s != []
    ensures NormalizedTicker(ticker) == CleanedText(s)
  {
  }

  /** The delimiter loop of _normalize_ticker: "-" is tried before "_", and the first
      one found ends the loop. */
  method CutDefunct(ticker: string) returns (t: string)
    ensures t == DefunctCut(ticker)
  {
    t := ticker;
    if Contains(Lower(ticker), DefunctMarker) {
      var delims := ['-', '_'];
      var k := 0;
      while k < |delims|
        invariant 0 <= k <= |delims|
        invariant t == ticker
        invariant k >= 1 ==> '-' !in ticker
        invariant k >= 2 ==> '_' !in ticker
      {
        var idx := FindChar(ticker, delims[k]);
        if idx != -1 {
          t := ticker[..idx];
          assert t == DefunctCut(ticker);
          break;
        }
        k := k + 1;
      }
    }
  }

  /** _normalize_ticker: the "defunct" cut, strip(), the character-by-character
      cleaner, then strip('.'). */
  method NormalizeTicker(ticker: string) returns (cleaned: string)
    ensures cleaned == NormalizedTicker(ticker)
  {
    if ticker == [] {
      return [];
    }
    var t := CutDefunct(ticker);
    t := Strip(t);
    if t == [] {
      return [];
    }
    var out: string := [];
    for i := 0 to |t|
      invariant out == CleanChars(t[..i])
    {
      var ch := t[i];
      CleanCharsStep(t, i);
      if IsAlnum(ch) {
        out := out + [ToUpper(ch)];
      } else if IsSeparator(ch) {
        out := out + ['.'];
      }
    }
    assert t[..|t|] == t;
    cleaned := TrimBy(out, IsDot);
    NormalizedTickerOf(ticker, t);
  }
}
