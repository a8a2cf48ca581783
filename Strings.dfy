/** PHP string primitives used by the wiki core, on single-byte (ASCII) text. */
module Strings {
  import opened Common

  // ---------------------------------------------------------------- case

  /** `strtolower` on one character: only `A`..`Z` change. */
  function LowerChar(c: char): char
  {
    if 'A' <= c <= 'Z' then (c as int + 32) as char else c
  }

  function Lower(s: string): (r: string)
    ensures |r| == |s|
    ensures forall i :: 0 <= i < |s| ==> r[i] == LowerChar(s[i])
  {
    seq(|s|, i requires 0 <= i < |s| => LowerChar(s[i]))
  }

  /** Case-insensitive equality, as `strtolower($a) == strtolower($b)`. */
  predicate EqualsCI(a: string, b: string)
  {
    Lower(a) == Lower(b)
  }

  // ---------------------------------------------------------------- prefixes and search

  predicate StartsWith(s: string, p: string)
  {
    |p| <= |s| && s[..|p|] == p
  }

  predicate StartsWithCI(s: string, p: string)
  {
    |p| <= |s| && EqualsCI(s[..|p|], p)
  }

  /** Prefix test, case-sensitive or not. */
  predicate StartsWithMode(s: string, p: string, caseless: bool)
  {
    if caseless then StartsWithCI(s, p) else StartsWith(s, p)
  }

  predicate OccursAt(s: string, p: string, i: nat, caseless: bool)
  {
    i <= |s| && StartsWithMode(s[i..], p, caseless)
  }

  /** First position at or after `from` where `p` occurs; `strpos`/`stripos` for a non-empty needle. */
  function FindFrom(s: string, p: string, caseless: bool, from: nat): (r: Option<nat>)
    requires |p| > 0
    ensures r.Some? ==> from <= r.value && r.value + |p| <= |s| && OccursAt(s, p, r.value, caseless)
    ensures r.Some? ==> forall j :: from <= j < r.value ==> !OccursAt(s, p, j, caseless)
    ensures r.None? ==> forall j :: from <= j <= |s| ==> !OccursAt(s, p, j, caseless)
    decreases |s| - from
  {
    if from + |p| > |s| then None
    else if OccursAt(s, p, from, caseless) then Some(from)
    else FindFrom(s, p, caseless, from + 1)
  }

  function Find(s: string, p: string, caseless: bool): (r: Option<nat>)
    requires |p| > 0
  {
    FindFrom(s, p, caseless, 0)
  }

  /** A lemma that pins down `Find`: the first occurrence is where it is. */
  lemma FindIsFirst(s: string, p: string, caseless: bool, k: nat)
    requires |p| > 0
    requires OccursAt(s, p, k, caseless)
    requires forall j :: 0 <= j < k ==> !OccursAt(s, p, j, caseless)
    ensures Find(s, p, caseless) == Some(k)
  {
  }

  /** `stripos($hay, $needle) !== false`, and the `LIKE '%needle%'` test of a case-insensitive column. */
  predicate ContainsCI(s: string, p: string)
  {
    exists i :: 0 <= i <= |s| && OccursAt(s, p, i, true)
  }

  /** A tag whose only `<` is its first character, written in any case right after a text that does
      not hold it, is found first there: no occurrence can straddle the join. */
  lemma TagFoundAfter(t: string, tag: string, written: string, rest: string)
    requires |tag| > 0 && tag[0] == '<' && forall m :: 1 <= m < |tag| ==> tag[m] != '<'
    requires EqualsCI(written, tag)
    requires !ContainsCI(t, tag)
    ensures Find(t + written + rest, tag, true) == Some(|t|)
  {
    var d := t + written + rest;
    assert |written| == |tag|;
    assert d[|t|..][..|tag|] == written;
    assert OccursAt(d, tag, |t|, true);
    forall j | 0 <= j < |t| ensures !OccursAt(d, tag, j, true) {
      if j + |tag| <= |d| {
        var w := d[j..][..|tag|];
        if j + |tag| <= |t| {
          assert w == t[j..][..|tag|];
          assert !OccursAt(t, tag, j, true);
        } else {
          var m := |t| - j;
          assert w[m] == written[0];
          assert LowerChar(written[0]) == LowerChar(tag[0]) == '<';
          assert Lower(w)[m] == '<' != LowerChar(tag[m]) == Lower(tag)[m];
        }
      }
    }
    FindIsFirst(d, tag, true, |t|);
  }

  /** `preg_match('/needle/i', $s)` for a literal needle. */
  lemma ContainsCIFind(s: string, p: string)
    requires |p| > 0
    ensures ContainsCI(s, p) <==> Find(s, p, true).Some?
  {
    if ContainsCI(s, p) {
      var i :| 0 <= i <= |s| && OccursAt(s, p, i, true);
      assert Find(s, p, true).Some?;
    }
  }

  /** `substr_count($s, $c)` for a single character. */
  function CountChar(s: string, c: char): (n: nat)
    ensures n <= |s|
    ensures n == 0 <==> c !in s
  {
    if |s| == 0 then 0 else (if s[0] == c then 1 else 0) + CountChar(s[1..], c)
  }

  lemma {:induction false} CountCharConcat(a: string, b: string, c: char)
    ensures CountChar(a + b, c) == CountChar(a, c) + CountChar(b, c)
    decreases |a|
  {
    if |a| > 0 {
      assert (a + b)[1..] == a[1..] + b;
      CountCharConcat(a[1..], b, c);
    } else {
      assert a + b == b;
    }
  }

  // ---------------------------------------------------------------- trim

  /** The characters PHP's `trim` removes by default: space, tab, LF, CR, NUL, vertical tab. */
  predicate IsTrimChar(c: char)
  {
    c == ' ' || c == '\t' || c == '\n' || c == '\r' || c as int == 0 || c as int == 11
  }

  function TrimStart(s: string): (r: string)
    ensures |r| <= |s| && r == s[|s| - |r|..]
    ensures forall i :: 0 <= i < |s| - |r| ==> IsTrimChar(s[i])
    ensures r == [] || !IsTrimChar(r[0])
  {
    if |s| > 0 && IsTrimChar(s[0]) then TrimStart(s[1..]) else s
  }

  function TrimEnd(s: string): (r: string)
    ensures |r| <= |s| && r == s[..|r|]
    ensures forall i :: |r| <= i < |s| ==> IsTrimChar(s[i])
    ensures r == [] || !IsTrimChar(r[|r| - 1])
  {
    if |s| > 0 && IsTrimChar(s[|s| - 1]) then TrimEnd(s[..|s| - 1]) else s
  }

  /** Number of trim characters at the head of `s`. */
  function TrimOffset(s: string): (a: nat)
    ensures a <= |s|
  {
    |s| - |TrimStart(s)|
  }

  /** PHP `trim`: the infix left after removing trim characters at both ends. */
  function Trim(s: string): (r: string)
    ensures TrimOffset(s) + |r| <= |s| && r == s[TrimOffset(s)..TrimOffset(s) + |r|]
    ensures r == [] || (!IsTrimChar(r[0]) && !IsTrimChar(r[|r| - 1]))
  {
    TrimEnd(TrimStart(s))
  }

  // ---------------------------------------------------------------- substr

  /** PHP 8 `substr($s, $start, $length)` for `$start >= 0`: a negative length leaves that many
      characters off the end; a window that is empty yields "". */
  function Substr(s: string, start: nat, length: int): (r: string)
    ensures |r| <= |s|
    ensures start <= |s| ==> start + |r| <= |s| && r == s[start..start + |r|]
    ensures length >= 0 && start + length <= |s| ==> r == s[start..start + length]
  {
    if start >= |s| then ""
    else if length >= 0 then (if start + length <= |s| then s[start..start + length] else s[start..])
    else if |s| + length <= start then ""
    else s[start..|s| + length]
  }

  // ---------------------------------------------------------------- explode

  /** PHP `explode($sep, $s)` for a one-character separator; `explode(',', '')` is `['']`. */
  function Explode(sep: char, s: string): (parts: seq<string>)
    ensures |parts| >= 1
    ensures forall i :: 0 <= i < |parts| ==> sep !in parts[i]
    decreases |s|
  {
    if |s| == 0 then [""]
    else
      var rest := Explode(sep, s[1..]);
      if s[0] == sep then [""] + rest else [[s[0]] + rest[0]] + rest[1..]
  }

  /** PHP `implode($sep, $parts)`. */
  function Implode(sep: char, parts: seq<string>): string
    requires |parts| >= 1
    decreases |parts|
  {
    if |parts| == 1 then parts[0] else parts[0] + [sep] + Implode(sep, parts[1..])
  }

  /** Exploding and imploding again gives back the original text. */
  lemma {:induction false} ImplodeExplode(sep: char, s: string)
    ensures Implode(sep, Explode(sep, s)) == s
    decreases |s|
  {
    if |s| > 0 {
      var rest := Explode(sep, s[1..]);
      ImplodeExplode(sep, s[1..]);
      if s[0] == sep {
        assert Explode(sep, s) == [""] + rest;
        assert ([""] + rest)[1..] == rest;
      } else {
        var parts := [[s[0]] + rest[0]] + rest[1..];
        assert Explode(sep, s) == parts;
        if |rest| == 1 {
          assert parts == [[s[0]] + rest[0]];
        } else {
          assert parts[1..] == rest[1..];
          assert Implode(sep, rest) == rest[0] + [sep] + Implode(sep, rest[1..]);
        }
      }
    }
  }

  /** Text without the separator explodes into exactly itself. */
  lemma {:induction false} ExplodeSingle(sep: char, s: string)
    requires sep !in s
    ensures Explode(sep, s) == [s]
    decreases |s|
  {
    if |s| > 0 {
      ExplodeSingle(sep, s[1..]);
      assert [s[0]] + s[1..] == s;
    }
  }

  // ---------------------------------------------------------------- PHP truthiness and numbers

  /** A string is falsy in PHP when it is "" or "0". */
  predicate Truthy(s: string)
  {
    s != "" && s != "0"
  }

  predicate IsDigit(c: char)
  {
    '0' <= c <= '9'
  }

  predicate AllDigits(s: string)
  {
    forall i :: 0 <= i < |s| ==> IsDigit(s[i])
  }

  /** Length of the run of digits at the head of `s`. */
  function DigitRun(s: string): (n: nat)
    ensures n <= |s|
    ensures AllDigits(s[..n])
    ensures n < |s| ==> !IsDigit(s[n])
  {
    if |s| > 0 && IsDigit(s[0]) then 1 + DigitRun(s[1..]) else 0
  }

  /** The white space `is_numeric` allows around a number: space, tab, LF, CR, vertical tab, form feed. */
  predicate IsNumericSpace(c: char)
  {
    c == ' ' || c == '\t' || c == '\n' || c == '\r' || c as int == 11 || c as int == 12
  }

  predicate AllNumericSpace(s: string)
  {
    forall i :: 0 <= i < |s| ==> IsNumericSpace(s[i])
  }

  /** Length of the run of `is_numeric` white space at the head of `s`. */
  function SpaceRun(s: string): (n: nat)
    ensures n <= |s|
    ensures AllNumericSpace(s[..n])
    ensures n < |s| ==> !IsNumericSpace(s[n])
  {
    if |s| > 0 && IsNumericSpace(s[0]) then 1 + SpaceRun(s[1..]) else 0
  }

  /** PHP 8 `is_numeric` on a string: optional leading white space, optional sign, a decimal number
      with optional fraction and optional exponent, then optional trailing white space. */
  predicate IsNumeric(s: string)
  {
    var t := s[SpaceRun(s)..];
    var u := if |t| > 0 && (t[0] == '+' || t[0] == '-') then t[1..] else t;
    var a := DigitRun(u);
    var afterInt := u[a..];
    var b := if |afterInt| > 0 && afterInt[0] == '.' then DigitRun(afterInt[1..]) else 0;
    var hasDot := |afterInt| > 0 && afterInt[0] == '.';
    var mantissaEnd := if hasDot then a + 1 + b else a;
    var rest := u[mantissaEnd..];
    && (a > 0 || b > 0)
    && (AllNumericSpace(rest) || ExponentPart(rest))
  }

  /** `e` or `E`, an optional sign, at least one digit, then only white space. */
  predicate ExponentPart(s: string)
  {
    && |s| >= 2 && (s[0] == 'e' || s[0] == 'E')
    && var t := if s[1] == '+' || s[1] == '-' then s[2..] else s[1..];
       DigitRun(t) > 0 && AllNumericSpace(t[DigitRun(t)..])
  }

  /** A non-empty run of decimal digits is numeric. */
  lemma DigitsAreNumeric(s: string)
    requires |s| > 0 && AllDigits(s)
    ensures IsNumeric(s)
  {
    assert SpaceRun(s) == 0;
    assert s[0..] == s;
    assert DigitRun(s) == |s| by { DigitRunAll(s); }
  }

  /** White space may follow the number as well as precede it, but nothing else may: `"12 "` is
      numeric, `"12a"` is not. */
  lemma NumericTrailingSpace()
    ensures IsNumeric("12 ")
    ensures !IsNumeric("12a")
  {
    var s := "12 ";
    assert SpaceRun(s) == 0 && s[0..] == s;
    assert DigitRun(s[2..]) == 0;
    assert DigitRun(s) == 2;
    assert s[2..] == " " && AllNumericSpace(" ");
    var x := "12a";
    assert SpaceRun(x) == 0 && x[0..] == x;
    assert DigitRun(x[2..]) == 0;
    assert DigitRun(x) == 2;
    assert x[2..] == "a" && !IsNumericSpace('a');
  }

  lemma {:induction false} DigitRunAll(s: string)
    requires AllDigits(s)
    ensures DigitRun(s) == |s|
  {
    if |s| > 0 {
      DigitRunAll(s[1..]);
    }
  }

  /** What MySQL makes of a string compared with an integer column: the value of its leading digits. */
  function SqlNumber(s: string): nat
  {
    DigitsValue(s[..DigitRun(s)])
  }

  function DigitsValue(d: string): nat
  {
    if |d| == 0 then 0
    else DigitsValue(d[..|d| - 1]) * 10 + (if IsDigit(d[|d| - 1]) then d[|d| - 1] as int - '0' as int else 0)
  }
}
