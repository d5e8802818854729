/**
 * The JavaScript string primitives the client relies on, over `seq<char>`:
 * `String.prototype.trim`, `includes`, `toLowerCase` (Latin and basic
 * Cyrillic letters), `length` in UTF-16 units, `Number.prototype.toString`
 * for non-negative integers and `padStart`.
 */
module Text {

  /** The characters ECMAScript's `trim` removes: WhiteSpace and LineTerminator. */
  predicate IsWhitespace(c: char)
  {
    || c == '\t' || c == '\n' || c == '\U{B}' || c == '\U{C}' || c == '\r' || c == ' '
    || c == '\U{A0}' || c == '\U{1680}' || ('\U{2000}' <= c <= '\U{200A}')
    || c == '\U{2028}' || c == '\U{2029}' || c == '\U{202F}' || c == '\U{205F}'
    || c == '\U{3000}' || c == '\U{FEFF}'
  }

  predicate AllWhitespace(s: string)
  {
    forall i :: 0 <= i < |s| ==> IsWhitespace(s[i])
  }

  /** The index of the first non-whitespace character at or after `i`. */
  function SkipWhitespace(s: string, i: nat): (k: nat)
    requires i <= |s|
    ensures i <= k <= |s|
    ensures forall j :: i <= j < k ==> IsWhitespace(s[j])
    ensures k < |s| ==> !IsWhitespace(s[k])
    decreases |s| - i
  {
    if i < |s| && IsWhitespace(s[i]) then SkipWhitespace(s, i + 1) else i
  }

  /** The end of `s[lo..hi]` once its trailing whitespace is dropped. */
  function SkipWhitespaceBack(s: string, lo: nat, hi: nat): (k: nat)
    requires lo <= hi <= |s|
    ensures lo <= k <= hi
    ensures forall j :: k <= j < hi ==> IsWhitespace(s[j])
    ensures k > lo ==> !IsWhitespace(s[k - 1])
  {
    if hi > lo && IsWhitespace(s[hi - 1]) then SkipWhitespaceBack(s, lo, hi - 1) else hi
  }

  /** `r` is the slice of `s` at offset `k` and only whitespace surrounds it. */
  predicate TrimmedAt(s: string, r: string, k: int)
  {
    && 0 <= k <= |s| - |r| && r == s[k..k + |r|]
    && (forall j :: 0 <= j < k ==> IsWhitespace(s[j]))
    && (forall j :: k + |r| <= j < |s| ==> IsWhitespace(s[j]))
  }

  /**
   * `String.prototype.trim`: the result is the slice of `s` left once the
   * whitespace at both ends is removed, and it neither starts nor ends with
   * whitespace.
   */
  function Trim(s: string): (r: string)
    ensures exists k :: TrimmedAt(s, r, k)
    ensures r == [] || (!IsWhitespace(r[0]) && !IsWhitespace(r[|r| - 1]))
    ensures r == [] <==> AllWhitespace(s)
  {
    var a := SkipWhitespace(s, 0);
    var b := SkipWhitespaceBack(s, a, |s|);
    assert TrimmedAt(s, s[a..b], a);
    s[a..b]
  }

  /** `hay` contains `needle` starting at index `i`. */
  predicate OccursAt(hay: string, needle: string, i: int)
  {
    0 <= i && i + |needle| <= |hay| && hay[i..i + |needle|] == needle
  }

  /** `String.prototype.includes`: some occurrence of `needle` exists in `hay`. */
  function Includes(hay: string, needle: string): (r: bool)
    ensures r <==> exists i :: OccursAt(hay, needle, i)
    decreases |hay|
  {
    if |needle| > |hay| then false
    else if hay[..|needle|] == needle then
      assert OccursAt(hay, needle, 0);
      true
    else
      var r := Includes(hay[1..], needle);
      assert forall i :: OccursAt(hay[1..], needle, i) <==> OccursAt(hay, needle, i + 1) by {
        forall i ensures OccursAt(hay[1..], needle, i) <==> OccursAt(hay, needle, i + 1) {
          if 0 <= i && i + |needle| <= |hay| - 1 {
            assert hay[1..][i..i + |needle|] == hay[i + 1..i + 1 + |needle|];
          }
        }
      }
      assert forall i :: OccursAt(hay, needle, i) ==> i >= 1;
      assert r ==> exists i :: OccursAt(hay, needle, i) by {
        if r {
          var i :| OccursAt(hay[1..], needle, i);
          assert OccursAt(hay, needle, i + 1);
        }
      }
      assert (exists i :: OccursAt(hay, needle, i)) ==> r by {
        if exists i :: OccursAt(hay, needle, i) {
          var i :| OccursAt(hay, needle, i);
          assert OccursAt(hay[1..], needle, i - 1);
        }
      }
      r
  }

  /**
   * The capital letters `toLowerCase` maps to one small letter, in the scripts
   * of the station names: ASCII, Latin-1, Latin Extended-A (all but U+0130,
   * whose lower case is two characters) and the basic Cyrillic capitals.
   */
  predicate IsUpper(c: char)
  {
    || 'A' <= c <= 'Z'
    || ('\U{C0}' <= c <= '\U{DE}' && c != '\U{D7}')
    || ('\U{100}' <= c <= '\U{137}' && c != '\U{130}' && c as int % 2 == 0)
    || ('\U{139}' <= c <= '\U{148}' && c as int % 2 == 1)
    || ('\U{14A}' <= c <= '\U{177}' && c as int % 2 == 0)
    || c == '\U{178}'
    || ('\U{179}' <= c <= '\U{17E}' && c as int % 2 == 1)
    || '\U{400}' <= c <= '\U{42F}'
  }

  /**
   * `toLowerCase` on one character: a capital becomes its small letter, and
   * every other character is left alone.
   */
  function LowerChar(c: char): (r: char)
    ensures r == c <==> !IsUpper(c)
    ensures !IsUpper(r)
  {
    if 'A' <= c <= 'Z' || ('\U{C0}' <= c <= '\U{DE}' && c != '\U{D7}') || '\U{410}' <= c <= '\U{42F}' then
      (c as int + 0x20) as char
    else if '\U{400}' <= c <= '\U{40F}' then
      (c as int + 0x50) as char
    else if c == '\U{178}' then
      '\U{FF}'
    else if IsUpper(c) then
      // the Latin Extended-A pairs: each capital is followed by its small letter
      (c as int + 1) as char
    else
      c
  }

  /** The small letters that are the lower case of a capital `IsUpper` admits. */
  predicate IsLower(c: char)
  {
    || 'a' <= c <= 'z'
    || ('\U{E0}' <= c <= '\U{FE}' && c != '\U{F7}')
    || c == '\U{FF}'
    || ('\U{101}' <= c <= '\U{137}' && c != '\U{131}' && c as int % 2 == 1)
    || ('\U{13A}' <= c <= '\U{148}' && c as int % 2 == 0)
    || ('\U{14B}' <= c <= '\U{177}' && c as int % 2 == 1)
    || ('\U{17A}' <= c <= '\U{17E}' && c as int % 2 == 0)
    || '\U{430}' <= c <= '\U{45F}'
  }

  /**
   * `toUpperCase` on the same letters: a small letter becomes its capital,
   * and every other character is left alone.
   */
  function UpperChar(c: char): (r: char)
    ensures r == c <==> !IsLower(c)
    ensures IsLower(c) ==> IsUpper(r)
  {
    if 'a' <= c <= 'z' || ('\U{E0}' <= c <= '\U{FE}' && c != '\U{F7}') || '\U{430}' <= c <= '\U{44F}' then
      (c as int - 0x20) as char
    else if '\U{450}' <= c <= '\U{45F}' then
      (c as int - 0x50) as char
    else if c == '\U{FF}' then
      '\U{178}'
    else if IsLower(c) then
      // the Latin Extended-A pairs: each small letter follows its capital
      (c as int - 1) as char
    else
      c
  }

  /** A capital lowered and raised again is itself. */
  lemma UpperOfLower(c: char)
    requires IsUpper(c)
    ensures IsLower(LowerChar(c)) && UpperChar(LowerChar(c)) == c
  {
    var n := c as int;
    if 'A' <= c <= 'Z' || ('\U{C0}' <= c <= '\U{DE}' && c != '\U{D7}') || '\U{410}' <= c <= '\U{42F}' {
      assert LowerChar(c) as int == n + 0x20;
    } else if '\U{400}' <= c <= '\U{40F}' {
      assert LowerChar(c) as int == n + 0x50;
    } else if c == '\U{178}' {
    } else {
      assert LowerChar(c) as int == n + 1;
      assert (n + 1) % 2 != n % 2;
    }
  }

  /** A small letter raised and lowered again is itself. */
  lemma LowerOfUpper(c: char)
    requires IsLower(c)
    ensures IsUpper(UpperChar(c)) && LowerChar(UpperChar(c)) == c
  {
    var n := c as int;
    if 'a' <= c <= 'z' || ('\U{E0}' <= c <= '\U{FE}' && c != '\U{F7}') || '\U{430}' <= c <= '\U{44F}' {
      assert UpperChar(c) as int == n - 0x20;
    } else if '\U{450}' <= c <= '\U{45F}' {
      assert UpperChar(c) as int == n - 0x50;
    } else if c == '\U{FF}' {
    } else {
      assert UpperChar(c) as int == n - 1;
      assert (n - 1) % 2 != n % 2;
    }
  }

  /** Two capitals never lower to the same small letter. */
  lemma LowerCharInjective(c: char, d: char)
    requires IsUpper(c) && IsUpper(d) && c != d
    ensures LowerChar(c) != LowerChar(d)
  {
    UpperOfLower(c);
    UpperOfLower(d);
  }

  function Lower(s: string): (r: string)
    ensures |r| == |s| && forall i :: 0 <= i < |s| ==> r[i] == LowerChar(s[i])
    ensures forall i :: 0 <= i < |r| ==> !IsUpper(r[i])
  {
    seq(|s|, i requires 0 <= i < |s| => LowerChar(s[i]))
  }

  /** Lower-casing twice changes nothing more. */
  lemma LowerIdempotent(s: string)
    ensures Lower(Lower(s)) == Lower(s)
  {
  }

  /**
   * `length`: the number of UTF-16 code units, two for each character
   * beyond U+FFFF. It equals the number of characters exactly when there is
   * no such character.
   */
  function Utf16Length(s: string): (n: nat)
    ensures |s| <= n <= 2 * |s|
    ensures n == |s| <==> forall i :: 0 <= i < |s| ==> s[i] as int <= 0xFFFF
  {
    if s == [] then 0
    else
      var init := s[..|s| - 1];
      assert forall i :: 0 <= i < |init| ==> init[i] == s[i];
      Utf16Length(init) + (if s[|s| - 1] as int > 0xFFFF then 2 else 1)
  }

  predicate IsDigit(c: char)
  {
    '0' <= c <= '9'
  }

  predicate AllDigits(s: string)
  {
    forall i :: 0 <= i < |s| ==> IsDigit(s[i])
  }

  function DigitChar(d: nat): char
    requires d < 10
  {
    ('0' as int + d) as char
  }

  /** The value of a decimal digit; callers check `IsDigit` first. */
  function DigitValue(c: char): nat
  {
    if IsDigit(c) then c as int - '0' as int else 0
  }

  /**
   * `n.toString()` for a non-negative integer: its decimal digits, most
   * significant first, with no leading zero unless `n` is 0.
   */
  function Decimal(n: nat): (r: string)
    ensures |r| >= 1 && AllDigits(r)
    ensures |r| > 1 ==> r[0] != '0'
    ensures n < 10 <==> |r| == 1
  {
    if n < 10 then [DigitChar(n)] else Decimal(n / 10) + [DigitChar(n % 10)]
  }

  /** The number spelled by the first `n` characters of `s`, read as decimal digits. */
  function ValueOfPrefix(s: string, n: nat): nat
    requires n <= |s|
  {
    if n == 0 then 0 else 10 * ValueOfPrefix(s, n - 1) + DigitValue(s[n - 1])
  }

  /** Reads a string of decimal digits back as a number. */
  function ParseDecimal(s: string): nat
  {
    ValueOfPrefix(s, |s|)
  }

  /** The value of a prefix depends only on the characters in it. */
  lemma {:induction false} ValueOfPrefixLocal(s: string, t: string, n: nat)
    requires n <= |s| && n <= |t|
    requires forall i :: 0 <= i < n ==> s[i] == t[i]
    ensures ValueOfPrefix(s, n) == ValueOfPrefix(t, n)
  {
    if n > 0 {
      ValueOfPrefixLocal(s, t, n - 1);
    }
  }

  /** Parsing undoes `Decimal`. */
  lemma {:induction false} ParseDecimalOfDecimal(n: nat)
    ensures ParseDecimal(Decimal(n)) == n
  {
    if n >= 10 {
      var r, init, d := Decimal(n), Decimal(n / 10), n % 10;
      assert r == init + [DigitChar(d)];
      ParseDecimalOfDecimal(n / 10);
      ValueOfPrefixLocal(r, init, |init|);
      assert ParseDecimal(r) == 10 * ValueOfPrefix(r, |init|) + DigitValue(r[|init|]);
      assert DigitValue(r[|init|]) == d;
    } else {
      var r := Decimal(n);
      assert r == [DigitChar(n)];
      assert ParseDecimal(r) == 10 * ValueOfPrefix(r, 0) + DigitValue(r[0]);
    }
  }

  /** `s.padStart(width, [fill])` with a one-character fill string. */
  function PadStart(s: string, width: nat, fill: char): (r: string)
    ensures |r| == if |s| >= width then |s| else width
    ensures r[|r| - |s|..] == s
    ensures forall i :: 0 <= i < |r| - |s| ==> r[i] == fill
  {
    if |s| >= width then s else seq(width - |s|, _ => fill) + s
  }
}
