/** The fragment of PCRE that the wiki core hands to `preg_replace`: ordered alternations of
    literals and lazily delimited spans (`open(.|\n)*?close`, `open.*?close` with or without the
    `s` and `i` flags). `Replace` is the global left-to-right replacement that `preg_replace` does. */
module Regex {
  import opened Common
  import opened Strings

  /** One alternative of a pattern. `Span(o, c, caseless, crossLines)` is `o`, the shortest run of
      characters, then `c`; when `crossLines` is false that run may not hold a line feed
      (PCRE `.` without the `s` flag). */
  datatype Token =
    | Lit(text: string)
    | Span(open: string, close: string, caseless: bool, crossLines: bool)

  /** An ordered alternation `t1|t2|...`: the first alternative that matches wins. */
  type Pattern = seq<Token>

  /** Length of the match of `t` at the head of `s`; 0 when it does not match there. */
  function TokenMatch(t: Token, s: string): (n: nat)
    ensures n <= |s|
    ensures t.Lit? ==> (n > 0 <==> |t.text| > 0 && StartsWith(s, t.text))
    ensures t.Span? && n > 0 ==> StartsWithMode(s, t.open, t.caseless)
  {
    match t
    case Lit(x) => if |x| > 0 && StartsWith(s, x) then |x| else 0
    case Span(o, c, ci, cross) =>
      if |o| == 0 || |c| == 0 || !StartsWithMode(s, o, ci) then 0
      else
        match Find(s[|o|..], c, ci)
        case None => 0
        case Some(k) => if cross || '\n' !in s[|o|..|o| + k] then |o| + k + |c| else 0
  }

  /** Length of the match of the alternation at the head of `s`; 0 when no alternative matches. */
  function MatchLen(p: Pattern, s: string): (n: nat)
    ensures n <= |s|
    ensures n > 0 <==> exists i :: 0 <= i < |p| && TokenMatch(p[i], s) > 0
  {
    if |p| == 0 then 0
    else
      var n := TokenMatch(p[0], s);
      if n > 0 then n else MatchLen(p[1..], s)
  }

  /** `preg_replace(p, rep, s)`: scan from the left; where the pattern matches, emit `rep` and resume
      after the match, otherwise copy one character. No token here can match the empty string. */
  function Replace(s: string, p: Pattern, rep: string): string
    decreases |s|
  {
    if |s| == 0 then ""
    else
      var n := MatchLen(p, s);
      if n > 0 then rep + Replace(s[n..], p, rep) else [s[0]] + Replace(s[1..], p, rep)
  }

  /** `str_replace`-style removal or substitution of a fixed string. */
  function ReplaceLit(s: string, lit: string, rep: string): string
  {
    Replace(s, [Lit(lit)], rep)
  }

  predicate NowhereMatches(s: string, p: Pattern)
  {
    forall i :: 0 <= i < |s| ==> MatchLen(p, s[i..]) == 0
  }

  /** Text in which the pattern matches nowhere is left as it is. */
  lemma {:induction false} ReplaceNoMatch(s: string, p: Pattern, rep: string)
    requires NowhereMatches(s, p)
    ensures Replace(s, p, rep) == s
    decreases |s|
  {
    if |s| > 0 {
      assert MatchLen(p, s[0..]) == 0;
      assert s[0..] == s;
      assert NowhereMatches(s[1..], p) by {
        forall i | 0 <= i < |s[1..]| ensures MatchLen(p, s[1..][i..]) == 0 {
          assert s[1..][i..] == s[i + 1..];
        }
      }
      ReplaceNoMatch(s[1..], p, rep);
    }
  }

  /** The pattern matches at none of the first `n` positions of `s`. */
  predicate NoMatchBefore(s: string, p: Pattern, n: nat)
  {
    forall i :: 0 <= i < n && i <= |s| ==> MatchLen(p, s[i..]) == 0
  }

  /** Where the pattern does not match at the head, the first character is copied. */
  lemma ReplaceCopiesHead(d: string, p: Pattern, rep: string)
    requires |d| > 0 && MatchLen(p, d) == 0
    ensures Replace(d, p, rep) == [d[0]] + Replace(d[1..], p, rep)
  {
  }

  lemma NoMatchBeforeTail(d: string, p: Pattern, n: nat)
    requires 0 < n <= |d| && NoMatchBefore(d, p, n)
    ensures NoMatchBefore(d[1..], p, n - 1)
  {
    forall i | 0 <= i < n - 1 ensures MatchLen(p, d[1..][i..]) == 0 {
      assert d[1..][i..] == d[i + 1..];
    }
  }

  /** A prefix at none of whose positions the pattern matches is copied as it is. */
  lemma {:induction false} ReplaceSkipsPrefix(d: string, n: nat, p: Pattern, rep: string)
    requires n <= |d| && NoMatchBefore(d, p, n)
    ensures Replace(d, p, rep) == d[..n] + Replace(d[n..], p, rep)
    decreases n
  {
    if n == 0 {
      assert d[0..] == d && d[..0] == [];
    } else {
      var e := d[1..];
      assert d[0..] == d;
      ReplaceCopiesHead(d, p, rep);
      NoMatchBeforeTail(d, p, n);
      ReplaceSkipsPrefix(e, n - 1, p, rep);
      assert e[n - 1..] == d[n..];
      HeadJoin(d, n, Replace(d[n..], p, rep));
    }
  }

  lemma HeadJoin(d: string, n: nat, r: string)
    requires 0 < n <= |d|
    ensures [d[0]] + (d[1..][..n - 1] + r) == d[..n] + r
  {
    assert [d[0]] + d[1..][..n - 1] == d[..n];
  }

  /** A replacement no longer than one character never makes the text longer. */
  lemma {:induction false} ReplaceNotLonger(s: string, p: Pattern, rep: string)
    requires |rep| <= 1
    ensures |Replace(s, p, rep)| <= |s|
    decreases |s|
  {
    if |s| > 0 {
      var n := MatchLen(p, s);
      if n > 0 {
        ReplaceNotLonger(s[n..], p, rep);
      } else {
        ReplaceNotLonger(s[1..], p, rep);
      }
    }
  }

  /** The first character of a replacement result: that of `rep` where the pattern matches at the
      head, the text's own first character otherwise. */
  lemma ReplaceHead(s: string, p: Pattern, rep: string)
    requires |s| > 0 && |rep| > 0
    ensures |Replace(s, p, rep)| > 0
    ensures Replace(s, p, rep)[0] == if MatchLen(p, s) > 0 then rep[0] else s[0]
  {
  }

  predicate HasPair(s: string, a: char, b: char)
  {
    exists j :: 0 <= j < |s| - 1 && s[j] == a && s[j + 1] == b
  }

  /** Replacing every `ab` by a text that holds neither `a` nor `b` leaves no `ab` behind
      (the `\r\n` to space rewrite of the teaser leaves no CRLF). */
  lemma {:induction false} ReplacePairGone(s: string, a: char, b: char, rep: string)
    requires |rep| > 0 && a !in rep && b !in rep
    ensures !HasPair(Replace(s, [Lit([a, b])], rep), a, b)
    decreases |s|
  {
    var p := [Lit([a, b])];
    if |s| > 0 {
      var n := MatchLen(p, s);
      var r := Replace(s, p, rep);
      if n > 0 {
        var tail := Replace(s[n..], p, rep);
        ReplacePairGone(s[n..], a, b, rep);
        assert r == rep + tail;
        forall j | 0 <= j < |r| - 1 ensures !(r[j] == a && r[j + 1] == b) {
          if j < |rep| {
            assert r[j] == rep[j];
          } else {
            assert r[j] == tail[j - |rep|] && r[j + 1] == tail[j - |rep| + 1];
            assert !(tail[j - |rep|] == a && tail[j - |rep| + 1] == b);
          }
        }
      } else {
        var tail := Replace(s[1..], p, rep);
        ReplacePairGone(s[1..], a, b, rep);
        assert r == [s[0]] + tail;
        forall j | 0 <= j < |r| - 1 ensures !(r[j] == a && r[j + 1] == b) {
          if j == 0 {
            ReplaceHead(s[1..], p, rep);
            if s[0] == a {
              if MatchLen(p, s[1..]) > 0 {
                assert r[1] == rep[0];
              } else {
                assert r[1] == s[1];
                assert TokenMatch(Lit([a, b]), s) == 0;
                assert !(s[..2] == [a, b]);
                assert s[1] != b;
              }
            }
          } else {
            assert r[j] == tail[j - 1] && r[j + 1] == tail[j];
            assert !(tail[j - 1] == a && tail[j] == b);
          }
        }
      }
    }
  }
}
