/** Option and the ASCII string primitives the downloader leans on:
    Python's str.lower/upper/isalnum/isspace/strip/find/split/replace and
    the decimal digit conversions behind int() and strftime, restricted to
    ASCII so that indices of a string and of its lower-cased copy agree. */
module Wrappers {
  datatype Option<+T> = None | Some(value: T)
}

module Text {
  import opened Wrappers

  // ---------- characters ----------

  predicate IsUpperAscii(c: char) { 'A' <= c <= 'Z' }
  predicate IsLowerAscii(c: char) { 'a' <= c <= 'z' }
  predicate IsDigit(c: char) { '0' <= c <= '9' }
  predicate IsAlnum(c: char) { IsUpperAscii(c) || IsLowerAscii(c) || IsDigit(c) }

  /** str.isspace on ASCII: TAB, LF, VT, FF, CR, the four separators 0x1C..0x1F, and space. */
  predicate IsSpace(c: char) { 9 <= c as int <= 13 || 28 <= c as int <= 32 }

  function ToLower(c: char): (r: char)
    ensures IsUpperAscii(c) ==> IsLowerAscii(r)
    ensures !IsUpperAscii(c) ==> r == c
  {
    if IsUpperAscii(c) then (c as int + 32) as char else c
  }

  function ToUpper(c: char): (r: char)
    ensures IsLowerAscii(c) ==> IsUpperAscii(r)
    ensures !IsLowerAscii(c) ==> r == c
  {
    if IsLowerAscii(c) then (c as int - 32) as char else c
  }

  function Lower(s: string): (r: string)
    ensures |r| == |s|
    ensures forall i :: 0 <= i < |s| ==> r[i] == ToLower(s[i])
  {
    seq(|s|, i requires 0 <= i < |s| => ToLower(s[i]))
  }

  predicate AllDigits(s: string) { forall i :: 0 <= i < |s| ==> IsDigit(s[i]) }

  predicate NoUpper(s: string) { forall i :: 0 <= i < |s| ==> !IsUpperAscii(s[i]) }

  lemma LowerOfLowercase(s: string)
    requires NoUpper(s)
    ensures Lower(s) == s
  {
  }

  lemma LowerConcat(a: string, b: string)
    ensures Lower(a + b) == Lower(a) + Lower(b)
  {
    assert forall i :: 0 <= i < |a + b| ==> Lower(a + b)[i] == (Lower(a) + Lower(b))[i];
  }

  lemma LowerPrefix(s: string, n: nat)
    requires n <= |s|
    ensures Lower(s[..n]) == Lower(s)[..n] && Lower(s[n..]) == Lower(s)[n..]
  {
  }

  lemma LowerIdempotent(s: string)
    ensures Lower(Lower(s)) == Lower(s)
  {
  }

  // ---------- searching ----------

  predicate OccursAt(s: string, pat: string, j: int)
  {
    0 <= j && j + |pat| <= |s| && s[j..j + |pat|] == pat
  }

  /** str.find: the first index at or after `from` where `pat` occurs, or -1. */
  function IndexOfFrom(s: string, pat: string, from: nat): (r: int)
    requires from <= |s|
    ensures r == -1 || (from <= r && OccursAt(s, pat, r))
    ensures r == -1 ==> forall j :: from <= j && OccursAt(s, pat, j) ==> false
    ensures r != -1 ==> forall j :: from <= j < r ==> !OccursAt(s, pat, j)
    decreases |s| - from
  {
    if OccursAt(s, pat, from) then from
    else if from == |s| then -1
    else IndexOfFrom(s, pat, from + 1)
  }

  function IndexOf(s: string, pat: string): (r: int)
    ensures r == -1 || OccursAt(s, pat, r)
    ensures r == -1 <==> forall j :: !OccursAt(s, pat, j)
    ensures r != -1 ==> forall j :: 0 <= j < r ==> !OccursAt(s, pat, j)
  {
    IndexOfFrom(s, pat, 0)
  }

  predicate Contains(s: string, pat: string) { IndexOf(s, pat) != -1 }

  /** str.find(c) for a single character: the first index holding c, or -1. */
  function FindChar(s: string, c: char): (r: int)
    ensures r == -1 <==> c !in s
    ensures r != -1 ==> 0 <= r < |s| && s[r] == c && c !in s[..r]
  {
    if s == [] then -1
    else if s[0] == c then 0
    else
      var k := FindChar(s[1..], c);
      if k == -1 then -1
      else
        assert s[..k + 1] == [s[0]] + s[1..][..k];
        k + 1
  }

  // ---------- trimming ----------

  function TrimLeftBy(s: string, junk: char -> bool): (r: string)
    ensures |r| <= |s| && r == s[|s| - |r|..]
    ensures r != [] ==> !junk(r[0])
    ensures forall i :: 0 <= i < |s| - |r| ==> junk(s[i])
  {
    if s != [] && junk(s[0]) then TrimLeftBy(s[1..], junk) else s
  }

  function TrimRightBy(s: string, junk: char -> bool): (r: string)
    ensures |r| <= |s| && r == s[..|r|]
    ensures r != [] ==> !junk(r[|r| - 1])
    ensures forall i :: |r| <= i < |s| ==> junk(s[i])
  {
    if s != [] && junk(s[|s| - 1]) then TrimRightBy(s[..|s| - 1], junk) else s
  }

  /** str.strip(chars) for a character class: drop matching characters at both ends. */
  function TrimBy(s: string, junk: char -> bool): (r: string)
    ensures r != [] ==> !junk(r[0]) && !junk(r[|r| - 1])
  {
    TrimRightBy(TrimLeftBy(s, junk), junk)
  }

  /** Trimming only removes characters: a property of every character of s holds of
      every character kept. */
  lemma TrimByKeeps(s: string, junk: char -> bool, keep: char -> bool)
    requires forall i :: 0 <= i < |s| ==> keep(s[i])
    ensures forall i :: 0 <= i < |TrimBy(s, junk)| ==> keep(TrimBy(s, junk)[i])
  {
    var l := TrimLeftBy(s, junk);
    var r := TrimRightBy(l, junk);
    forall i | 0 <= i < |r| ensures keep(r[i]) {
      assert r[i] == l[i] == s[|s| - |l| + i];
    }
  }

  /** str.strip(): drop whitespace at both ends. */
  function Strip(s: string): string { TrimBy(s, IsSpace) }

  lemma TrimLeftNoop(s: string, junk: char -> bool)
    requires s != [] ==> !junk(s[0])
    ensures TrimLeftBy(s, junk) == s
  {
  }

  lemma TrimRightNoop(s: string, junk: char -> bool)
    requires s != [] ==> !junk(s[|s| - 1])
    ensures TrimRightBy(s, junk) == s
  {
  }

  lemma TrimNoop(s: string, junk: char -> bool)
    requires s != [] ==> !junk(s[0]) && !junk(s[|s| - 1])
    ensures TrimBy(s, junk) == s
  {
    TrimLeftNoop(s, junk);
    TrimRightNoop(s, junk);
  }

  lemma StripNoop(s: string)
    requires forall i :: 0 <= i < |s| ==> !IsSpace(s[i])
    ensures Strip(s) == s
  {
    TrimNoop(s, IsSpace);
  }

  lemma StripUnpadded(s: string)
    requires s != [] ==> !IsSpace(s[0]) && !IsSpace(s[|s| - 1])
    ensures Strip(s) == s
  {
    TrimNoop(s, IsSpace);
  }

  lemma {:induction false} TrimRightAppend(a: string, b: string, junk: char -> bool)
    requires a != [] && !junk(a[|a| - 1])
    ensures TrimRightBy(a + b, junk) == a + TrimRightBy(b, junk)
    decreases |b|
  {
    if b == [] {
      assert a + b == a;
      TrimRightNoop(a, junk);
    } else if junk(b[|b| - 1]) {
      assert (a + b)[..|a + b| - 1] == a + b[..|b| - 1];
      TrimRightAppend(a, b[..|b| - 1], junk);
    } else {
      TrimRightNoop(a + b, junk);
      TrimRightNoop(b, junk);
    }
  }

  /** A lower-case, unpadded head survives strip() and lower() of head + tail untouched. */
  lemma {:induction false} StripLowerPrefix(f: string, tail: string)
    requires f != [] && NoUpper(f) && !IsSpace(f[0]) && !IsSpace(f[|f| - 1])
    ensures |f| <= |Lower(Strip(f + tail))| && Lower(Strip(f + tail))[..|f|] == f
  {
    TrimLeftNoop(f + tail, IsSpace);
    TrimRightAppend(f, tail, IsSpace);
    assert Strip(f + tail) == f + TrimRightBy(tail, IsSpace);
    LowerConcat(f, TrimRightBy(tail, IsSpace));
    LowerOfLowercase(f);
  }

  // ---------- replace and split ----------

  /** s.replace(c, "") for a single character c. */
  function RemoveChar(s: string, c: char): (r: string)
    ensures c !in r
    ensures |r| <= |s|
    ensures c !in s ==> r == s
  {
    if s == [] then [] else (if s[0] == c then [] else [s[0]]) + RemoveChar(s[1..], c)
  }

  /** s.split(sep) for a one-character separator: always at least one field. */
  function Split(s: string, sep: char): (r: seq<string>)
    ensures |r| >= 1
    ensures forall i :: 0 <= i < |r| ==> sep !in r[i]
    ensures sep !in s ==> r == [s]
    decreases |s|
  {
    var i := IndexOf(s, [sep]);
    if i == -1 then
      assert forall j :: 0 <= j < |s| ==> s[j] != sep by {
        forall j | 0 <= j < |s| ensures s[j] != sep { assert !OccursAt(s, [sep], j); }
      }
      [s]
    else
      assert forall j :: 0 <= j < i ==> s[j] != sep by {
        forall j | 0 <= j < i ensures s[j] != sep { assert !OccursAt(s, [sep], j); }
      }
      assert s[i] == sep by { assert s[i..i + 1] == [sep]; }
      [s[..i]] + Split(s[i + 1..], sep)
  }

  /** ",".join(fields) / "|".join(fields). */
  function Join(fields: seq<string>, sep: char): (r: string)
    requires |fields| >= 1
  {
    if |fields| == 1 then fields[0] else fields[0] + [sep] + Join(fields[1..], sep)
  }

  lemma {:induction false} SplitJoin(fields: seq<string>, sep: char)
    requires |fields| >= 1
    requires forall i :: 0 <= i < |fields| ==> sep !in fields[i]
    ensures Split(Join(fields, sep), sep) == fields
    decreases |fields|
  {
    if |fields| == 1 {
    } else {
      var rest := Join(fields[1..], sep);
      var s := fields[0] + [sep] + rest;
      var f := fields[0];
      assert OccursAt(s, [sep], |f|);
      forall j | 0 <= j < |f| ensures !OccursAt(s, [sep], j) {
        assert s[j] == f[j];
      }
      assert IndexOf(s, [sep]) == |f|;
      assert s[..|f|] == f;
      assert s[|f| + 1..] == rest;
      SplitJoin(fields[1..], sep);
    }
  }

  /** The first comma field of a CSV line: row.split(",")[0]. */
  function FirstField(row: string): (r: string)
    ensures ',' !in r && r <= row
    ensures ',' !in row ==> r == row
  {
    var i := IndexOf(row, [',']);
    if i == -1 then
      assert forall j :: 0 <= j < |row| ==> row[j] != ',' by {
        forall j | 0 <= j < |row| ensures row[j] != ',' { assert !OccursAt(row, [','], j); }
      }
      row
    else
      assert forall j :: 0 <= j < i ==> row[j] != ',' by {
        forall j | 0 <= j < i ensures row[j] != ',' { assert !OccursAt(row, [','], j); }
      }
      assert row[i] == ',' by { assert row[i..i + 1] == [',']; }
      row[..i]
  }

  /** The first field of a joined row is the first column, when that column holds no ','. */
  lemma FirstFieldOfJoin(fields: seq<string>)
    requires |fields| >= 1 && ',' !in fields[0]
    ensures FirstField(Join(fields, ',')) == fields[0]
  {
    var row := Join(fields, ',');
    var f := fields[0];
    assert row[..|f|] == f;
    if |fields| > 1 {
      assert OccursAt(row, [','], |f|);
    }
    forall j | 0 <= j < |f| ensures !OccursAt(row, [','], j) {
      assert row[j] == f[j];
    }
  }

  // ---------- lexicographic order (Python str and list comparison) ----------

  /** a <= b on Python strings: code-point lexicographic, a proper prefix is smaller. */
  predicate LexLe(a: string, b: string)
  {
    a == [] || (b != [] && (a[0] < b[0] || (a[0] == b[0] && LexLe(a[1..], b[1..]))))
  }

  lemma {:induction false} LexLeTotal(a: string, b: string)
    ensures LexLe(a, b) || LexLe(b, a)
  {
    if a != [] && b != [] && a[0] == b[0] { LexLeTotal(a[1..], b[1..]); }
  }

  lemma {:induction false} LexLeAntisymmetric(a: string, b: string)
    requires LexLe(a, b) && LexLe(b, a)
    ensures a == b
  {
    if a != [] && b != [] {
      LexLeAntisymmetric(a[1..], b[1..]);
      assert a == [a[0]] + a[1..] && b == [b[0]] + b[1..];
    }
  }

  lemma {:induction false} LexLeTransitive(a: string, b: string, c: string)
    requires LexLe(a, b) && LexLe(b, c)
    ensures LexLe(a, c)
  {
    if a != [] && b != [] && c != [] && a[0] == b[0] && b[0] == c[0] {
      LexLeTransitive(a[1..], b[1..], c[1..]);
    }
  }

  /** Python list comparison on lists of strings (how pathlib orders paths: part by part). */
  predicate PartsLe(a: seq<string>, b: seq<string>)
  {
    a == [] || (b != [] && ((LexLe(a[0], b[0]) && a[0] != b[0]) || (a[0] == b[0] && PartsLe(a[1..], b[1..]))))
  }

  lemma {:induction false} PartsLeTotal(a: seq<string>, b: seq<string>)
    ensures PartsLe(a, b) || PartsLe(b, a)
  {
    if a != [] && b != [] {
      if a[0] == b[0] {
        PartsLeTotal(a[1..], b[1..]);
      } else {
        LexLeTotal(a[0], b[0]);
      }
    }
  }

  // ---------- decimal digits ----------

  function DigitValue(c: char): nat requires IsDigit(c) { c as int - '0' as int }

  function DigitChar(d: nat): (c: char)
    requires d < 10
    ensures IsDigit(c) && DigitValue(c) == d
  {
    ('0' as int + d) as char
  }

  /** The value of a string of decimal digits (int() on digits only). */
  function DigitsValue(s: string): nat
    requires AllDigits(s)
  {
    if s == [] then 0 else DigitsValue(s[..|s| - 1]) * 10 + DigitValue(s[|s| - 1])
  }

  function Pow10(n: nat): (r: nat)
    ensures r >= 1
  {
    if n == 0 then 1 else 10 * Pow10(n - 1)
  }

  /** Zero-padded rendering in exactly `width` digits (strftime's %Y, %m, %d). */
  function PadDigits(n: nat, width: nat): (r: string)
    ensures |r| == width && AllDigits(r)
  {
    if width == 0 then [] else PadDigits(n / 10, width - 1) + [DigitChar(n % 10)]
  }

  /** str(n) for a natural number: shortest decimal rendering. */
  function NatToDecimal(n: nat): (r: string)
    ensures r != [] && AllDigits(r)
  {
    if n < 10 then [DigitChar(n)] else NatToDecimal(n / 10) + [DigitChar(n % 10)]
  }

  lemma {:induction false} PadDigitsValue(n: nat, width: nat)
    requires n < Pow10(width)
    ensures DigitsValue(PadDigits(n, width)) == n
  {
    if width > 0 {
      var r := PadDigits(n, width);
      PadDigitsValue(n / 10, width - 1);
      assert r[..|r| - 1] == PadDigits(n / 10, width - 1);
    }
  }

  lemma {:induction false} DigitsValueBound(s: string)
    requires AllDigits(s)
    ensures DigitsValue(s) < Pow10(|s|)
  {
    if s != [] {
      DigitsValueBound(s[..|s| - 1]);
    }
  }

  lemma {:induction false} PadDigitsOfValue(s: string)
    requires AllDigits(s)
    ensures PadDigits(DigitsValue(s), |s|) == s
  {
    if s != [] {
      var init := s[..|s| - 1];
      PadDigitsOfValue(init);
      var v := DigitsValue(s);
      assert v / 10 == DigitsValue(init);
      assert v % 10 == DigitValue(s[|s| - 1]);
      assert s == init + [s[|s| - 1]];
    }
  }

  lemma {:induction false} NatToDecimalValue(n: nat)
    ensures DigitsValue(NatToDecimal(n)) == n
  {
    if n >= 10 {
      var r := NatToDecimal(n);
      NatToDecimalValue(n / 10);
      assert r[..|r| - 1] == NatToDecimal(n / 10);
    }
  }

  lemma {:induction false} PadDigitsInjective(m: nat, n: nat, width: nat)
    requires m < Pow10(width) && n < Pow10(width)
    requires PadDigits(m, width) == PadDigits(n, width)
    ensures m == n
  {
    PadDigitsValue(m, width);
    PadDigitsValue(n, width);
  }

  /** int(s) restricted to an optional sign followed by one or more decimal digits. */
  function ParseInt(s: string): (r: Option<int>)
    ensures r.Some? && s != [] && s[0] != '-' ==> r.value >= 0
  {
    if s == [] then None
    else if s[0] == '+' || s[0] == '-' then
      var digits := s[1..];
      if digits != [] && AllDigits(digits) then
        Some(if s[0] == '-' then -(DigitsValue(digits) as int) else DigitsValue(digits) as int)
      else None
    else if AllDigits(s) then Some(DigitsValue(s) as int)
    else None
  }

  lemma ParseIntOfDecimal(n: nat)
    ensures ParseInt(NatToDecimal(n)) == Some(n as int)
  {
    NatToDecimalValue(n);
  }
}
