/** The few JavaScript string operations the segmentation engine relies on:
    `trim`, ASCII `toUpperCase`, `slice` with negative indices, `replace(/"/g, "")`,
    `split('.').pop()`, `startsWith`, and `String(n)` for integers. */
module JsText {

  /** The characters `String.prototype.trim` removes: WhiteSpace (TAB, VT, FF,
      ZWNBSP and every Zs space) and LineTerminator (LF, CR, LS, PS). */
  predicate IsJsSpace(c: char) {
    c == '\t' || c == '\U{000B}' || c == '\U{000C}' || c == ' ' || c == '\U{00A0}' ||
    c == '\U{FEFF}' || c == '\U{1680}' || ('\U{2000}' <= c <= '\U{200A}') || c == '\U{202F}' ||
    c == '\U{205F}' || c == '\U{3000}' || c == '\n' || c == '\r' || c == '\U{2028}' ||
    c == '\U{2029}'
  }

  function TrimStart(s: string): (r: string)
    ensures r == "" || !IsJsSpace(r[0])
  {
    if s != [] && IsJsSpace(s[0]) then TrimStart(s[1..]) else s
  }

  function TrimEnd(s: string): string {
    if s != [] && IsJsSpace(s[|s| - 1]) then TrimEnd(s[..|s| - 1]) else s
  }

  /** `s.trim()` */
  function Trim(s: string): string {
    TrimEnd(TrimStart(s))
  }

  /** `s.trim() !== ''`, the test the engine uses for "has text". */
  predicate HasText(s: string) {
    Trim(s) != ""
  }

  lemma {:induction false} TrimStartEmpty(s: string)
    ensures TrimStart(s) == "" <==> forall i :: 0 <= i < |s| ==> IsJsSpace(s[i])
  {
    if s != [] && IsJsSpace(s[0]) {
      TrimStartEmpty(s[1..]);
      assert forall i :: 1 <= i < |s| ==> s[i] == s[1..][i - 1];
    }
  }

  /** A string has text exactly when it holds a character that `trim` does not remove. */
  lemma HasTextIffNonSpace(s: string)
    ensures HasText(s) <==> exists i :: 0 <= i < |s| && !IsJsSpace(s[i])
  {
    TrimStartEmpty(s);
    TrimEndOfTrimmed(TrimStart(s));
  }

  /** TrimEnd only empties a string that was already empty once leading spaces are gone. */
  lemma {:induction false} TrimEndOfTrimmed(s: string)
    requires s == "" || !IsJsSpace(s[0])
    ensures TrimEnd(s) == "" <==> s == ""
  {
    if s != [] && IsJsSpace(s[|s| - 1]) {
      var t := s[..|s| - 1];
      assert |s| >= 2;
      assert t[0] == s[0];
      TrimEndOfTrimmed(t);
    }
  }

  /** ASCII part of `toUpperCase`. */
  function UpperChar(c: char): char {
    if 'a' <= c <= 'z' then (c as int - 'a' as int + 'A' as int) as char else c
  }

  function Upper(s: string): (r: string)
    ensures |r| == |s|
    ensures forall i :: 0 <= i < |s| ==> r[i] == UpperChar(s[i])
  {
    if s == [] then [] else [UpperChar(s[0])] + Upper(s[1..])
  }

  /** The index JavaScript's `slice` uses for a (possibly negative) bound. */
  function SliceIndex(rel: int, len: nat): (k: nat)
    ensures k <= len
  {
    if rel < 0 then (if len + rel < 0 then 0 else len + rel)
    else if rel < len then rel else len
  }

  /** `s.slice(start, end)` */
  function Slice(s: string, start: int, end: int): (r: string)
    ensures |r| <= |s|
  {
    var from := SliceIndex(start, |s|);
    var to := SliceIndex(end, |s|);
    if from < to then s[from..to] else ""
  }

  /** `s.slice(0, 3) == 'url'` holds exactly when s begins with "url". */
  lemma SliceUrlPrefix(s: string)
    ensures Slice(s, 0, 3) == "url" <==> (|s| >= 3 && s[..3] == "url")
  {
  }

  /** `bg.slice(4, -1)`: the text between "url(" and the final character. */
  lemma {:induction false} SliceInner(s: string)
    ensures |s| >= 5 ==> Slice(s, 4, -1) == s[4..|s| - 1]
    ensures |s| <= 5 ==> Slice(s, 4, -1) == ""
  {
  }

  /** `s.replace(/"/g, "")` */
  function RemoveQuotes(s: string): (r: string)
    ensures '"' !in r
    ensures |r| <= |s|
  {
    if s == [] then []
    else (if s[0] == '"' then [] else [s[0]]) + RemoveQuotes(s[1..])
  }

  lemma {:induction false} RemoveQuotesKeepsOthers(s: string)
    ensures forall c :: c != '"' ==> multiset(RemoveQuotes(s))[c] == multiset(s)[c]
  {
    if s != [] {
      RemoveQuotesKeepsOthers(s[1..]);
      assert s == [s[0]] + s[1..];
    }
  }

  lemma {:induction false} RemoveQuotesAppend(a: string, b: string)
    ensures RemoveQuotes(a + b) == RemoveQuotes(a) + RemoveQuotes(b)
  {
    if a != [] {
      assert (a + b)[0] == a[0] && (a + b)[1..] == a[1..] + b;
      RemoveQuotesAppend(a[1..], b);
      assert RemoveQuotes(a + b) == (if a[0] == '"' then [] else [a[0]]) + RemoveQuotes(a[1..] + b);
    } else {
      assert a + b == b;
    }
  }

  lemma {:induction false} RemoveQuotesNoQuote(s: string)
    requires '"' !in s
    ensures RemoveQuotes(s) == s
  {
    if s != [] {
      RemoveQuotesNoQuote(s[1..]);
    }
  }

  /** `s.split('.').pop()`: the text after the last '.', or all of s when it has none. */
  function AfterLastDot(s: string): (r: string)
    ensures '.' !in r
    ensures |r| <= |s| && r == s[|s| - |r|..]
  {
    if s == [] then ""
    else if s[|s| - 1] == '.' then ""
    else AfterLastDot(s[..|s| - 1]) + [s[|s| - 1]]
  }

  /** The two cases of `split('.').pop()`: no dot gives the whole string; otherwise
      the result is what follows a dot that has no other dot after it. */
  lemma {:induction false} AfterLastDotSplits(s: string)
    ensures '.' !in s ==> AfterLastDot(s) == s
    ensures '.' in s ==> |AfterLastDot(s)| < |s| && s[|s| - |AfterLastDot(s)| - 1] == '.'
  {
    if s != [] && s[|s| - 1] != '.' {
      var p := s[..|s| - 1];
      var r := AfterLastDot(p);
      AfterLastDotSplits(p);
      assert AfterLastDot(s) == r + [s[|s| - 1]];
      assert s == p + [s[|s| - 1]];
      assert ('.' in s) == ('.' in p);
      if '.' in p {
        assert s[|p| - |r| - 1] == p[|p| - |r| - 1];
      }
    }
  }

  /** The text after the last '.' of `p + "." + x` is x when x has no '.'. */
  lemma {:induction false} AfterLastDotOfDotted(p: string, x: string)
    requires '.' !in x
    ensures AfterLastDot(p + "." + x) == x
  {
    if x != [] {
      var y := x[..|x| - 1];
      assert (p + "." + x)[..|p + "." + x| - 1] == p + "." + y;
      AfterLastDotOfDotted(p, y);
      assert x == y + [x[|x| - 1]];
    }
  }

  /** `s.startsWith(p)` */
  predicate StartsWith(s: string, p: string) {
    |p| <= |s| && s[..|p|] == p
  }

  // ---------------------------------------------------------------------------
  // `String(n)` for an integer-valued Number (plain decimal notation).

  function DigitChar(d: nat): (c: char)
    requires d < 10
    ensures '0' <= c <= '9'
  {
    ('0' as int + d) as char
  }

  function NatToString(n: nat): (r: string)
    ensures |r| >= 1
    ensures forall i :: 0 <= i < |r| ==> '0' <= r[i] <= '9'
    ensures (|r| == 1) == (n < 10)
  {
    if n < 10 then [DigitChar(n)] else NatToString(n / 10) + [DigitChar(n % 10)]
  }

  function IntToString(n: int): (r: string)
    ensures r != ""
    ensures '_' !in r
    ensures (r[0] == '-') == (n < 0)
  {
    if n < 0 then "-" + NatToString(-n) else NatToString(n)
  }

  lemma {:induction false} NatToStringInjective(a: nat, b: nat)
    ensures NatToString(a) == NatToString(b) ==> a == b
  {
    if NatToString(a) == NatToString(b) && a >= 10 && b >= 10 {
      var sa, sb := NatToString(a / 10), NatToString(b / 10);
      assert NatToString(a) == sa + [DigitChar(a % 10)];
      assert NatToString(b) == sb + [DigitChar(b % 10)];
      assert |sa| == |sb|;
      assert sa == NatToString(a)[..|sa|] && sb == NatToString(b)[..|sb|];
      NatToStringInjective(a / 10, b / 10);
      assert DigitChar(a % 10) == NatToString(a)[|sa|];
    }
  }

  /** Distinct integers print differently. */
  lemma IntToStringInjective(a: int, b: int)
    ensures IntToString(a) == IntToString(b) <==> a == b
  {
    if IntToString(a) == IntToString(b) {
      var sa, sb := IntToString(a), IntToString(b);
      if a < 0 {
        assert sa[1..] == NatToString(-a) && sb[1..] == NatToString(-b);
        NatToStringInjective(-a, -b);
      } else {
        NatToStringInjective(a, b);
      }
    }
  }

  /** Position of the first '_' in s (|s| when there is none). */
  function FirstUnderscore(s: string): (k: nat)
    ensures k <= |s|
  {
    if s == [] then 0 else if s[0] == '_' then 0 else 1 + FirstUnderscore(s[1..])
  }

  lemma {:induction false} FirstUnderscoreOfJoin(a: string, b: string)
    requires '_' !in a
    ensures FirstUnderscore(a + "_" + b) == |a|
  {
    if a != [] {
      assert (a + "_" + b)[1..] == a[1..] + "_" + b;
      FirstUnderscoreOfJoin(a[1..], b);
    }
  }

  /** Joining two underscore-free pieces with "_" can be undone. */
  lemma JoinUnderscoreInjective(a: string, b: string, c: string, d: string)
    requires '_' !in a && '_' !in c
    ensures a + "_" + b == c + "_" + d <==> a == c && b == d
  {
    if a + "_" + b == c + "_" + d {
      var s := a + "_" + b;
      FirstUnderscoreOfJoin(a, b);
      FirstUnderscoreOfJoin(c, d);
      assert a == s[..|a|] && c == s[..|c|];
      assert b == s[|a| + 1..] && d == s[|c| + 1..];
    }
  }
}
