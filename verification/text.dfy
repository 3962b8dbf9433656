/** String operations the source takes from JavaScript's `String` prototype:
    `trim`, `toUpperCase`/`toLowerCase` (ASCII letters only), `includes`,
    `endsWith`, `split('\n')`, `split(/\s+/)` and number-to-string rendering. */
module Text {

  /** JavaScript's white-space set (WhiteSpace plus LineTerminator): what
      `String.prototype.trim` strips and what the regex class `\s` matches. */
  predicate IsSpace(c: char) {
    || ('\t' <= c <= '\r')
    || c == ' '
    || c == '\U{A0}'
    || c == '\U{1680}'
    || ('\U{2000}' <= c <= '\U{200A}')
    || c == '\U{2028}'
    || c == '\U{2029}'
    || c == '\U{202F}'
    || c == '\U{205F}'
    || c == '\U{3000}'
    || c == '\U{FEFF}'
  }

  /** Every character is white space (the empty string is blank). */
  predicate IsBlank(s: string) {
    forall i :: 0 <= i < |s| ==> IsSpace(s[i])
  }

  /** No character is white space. */
  predicate NoSpace(s: string) {
    forall i :: 0 <= i < |s| ==> !IsSpace(s[i])
  }

  predicate IsDigit(c: char) { '0' <= c <= '9' }

  predicate IsAsciiLetter(c: char) { 'a' <= c <= 'z' || 'A' <= c <= 'Z' }

  // ---------------------------------------------------------------------------
  // trim

  /** Drops the leading white space. */
  function TrimStart(s: string): (r: string)
    ensures |r| <= |s|
    ensures r == s[|s| - |r|..]
    ensures r == [] || !IsSpace(r[0])
    ensures IsBlank(s[..|s| - |r|])
  {
    if |s| > 0 && IsSpace(s[0]) then
      var r := TrimStart(s[1..]);
      SuffixOfTail(s, r);
      r
    else s
  }

  /** A suffix of the tail behind a blank prefix of the tail is a suffix of
      `s`, behind a blank prefix when `s[0]` is white space too. */
  lemma SuffixOfTail(s: string, r: string)
    requires |s| > 0 && IsSpace(s[0])
    requires |r| <= |s| - 1 && r == s[1..][|s| - 1 - |r|..]
    requires IsBlank(s[1..][..|s| - 1 - |r|])
    ensures r == s[|s| - |r|..]
    ensures IsBlank(s[..|s| - |r|])
  {
    assert s[..|s| - |r|] == [s[0]] + s[1..][..|s| - 1 - |r|];
  }

  /** Drops the trailing white space. */
  function TrimEnd(s: string): (r: string)
    ensures |r| <= |s|
    ensures r == s[..|r|]
    ensures r == [] || !IsSpace(r[|r| - 1])
    ensures IsBlank(s[|r|..])
  {
    if |s| > 0 && IsSpace(s[|s| - 1]) then
      var r := TrimEnd(s[..|s| - 1]);
      assert s[|r|..] == s[..|s| - 1][|r|..] + [s[|s| - 1]];
      r
    else s
  }

  /** What is left after dropping a blank prefix and then a blank suffix is
      an infix of `s` with only white space around it. */
  lemma InfixBetweenBlanks(s: string, t: string, r: string)
    requires |t| <= |s| && t == s[|s| - |t|..] && IsBlank(s[..|s| - |t|])
    requires |r| <= |t| && r == t[..|r|] && IsBlank(t[|r|..])
    ensures exists k :: OccursAt(s, r, k)
    ensures exists i, j :: 0 <= i <= j <= |s| && r == s[i..j] && IsBlank(s[..i]) && IsBlank(s[j..])
  {
    var i := |s| - |t|;
    var j := i + |r|;
    assert s[j..] == t[|r|..];
    assert r == s[i..j];
    assert OccursAt(s, r, i);
  }

  /** `String.prototype.trim`: the infix of `s` left after removing leading
      and trailing white space. */
  function Trim(s: string): (r: string)
    ensures |r| <= |s|
    ensures r == [] || (!IsSpace(r[0]) && !IsSpace(r[|r| - 1]))
    ensures exists k :: OccursAt(s, r, k)
    ensures exists i, j :: 0 <= i <= j <= |s| && r == s[i..j] && IsBlank(s[..i]) && IsBlank(s[j..])
  {
    var t := TrimStart(s);
    var r := TrimEnd(t);
    InfixBetweenBlanks(s, t, r);
    r
  }

  /** `s.trim()` is empty exactly when `s` is blank: the test the source
      writes as `!s.trim()` or `s.trim().length > 0`. */
  lemma {:induction false} TrimEmptyIffBlank(s: string)
    ensures Trim(s) == [] <==> IsBlank(s)
  {
    var t := TrimStart(s);
    var r := TrimEnd(t);
    assert t == [] || t[0] == s[|s| - |t|];
    if !IsBlank(s) {
      var i :| 0 <= i < |s| && !IsSpace(s[i]);
      assert i < |s| - |t| ==> s[i] == s[..|s| - |t|][i];
      assert t[0..] == t;
      assert !IsBlank(t) by { assert !IsSpace(t[0]); }
    }
  }

  // ---------------------------------------------------------------------------
  // case mapping (ASCII letters only)

  function UpperChar(c: char): char {
    if 'a' <= c <= 'z' then (c as int - 32) as char else c
  }

  function LowerChar(c: char): char {
    if 'A' <= c <= 'Z' then (c as int + 32) as char else c
  }

  /** `toUpperCase` restricted to ASCII letters. */
  function ToUpper(s: string): (r: string)
    ensures |r| == |s|
    ensures forall i :: 0 <= i < |s| ==> r[i] == UpperChar(s[i])
  {
    seq(|s|, i requires 0 <= i < |s| => UpperChar(s[i]))
  }

  /** `toLowerCase` restricted to ASCII letters. */
  function ToLower(s: string): (r: string)
    ensures |r| == |s|
    ensures forall i :: 0 <= i < |s| ==> r[i] == LowerChar(s[i])
  {
    seq(|s|, i requires 0 <= i < |s| => LowerChar(s[i]))
  }

  /** No lower-case ASCII letter occurs. */
  predicate IsUpperCased(s: string) {
    forall i :: 0 <= i < |s| ==> !('a' <= s[i] <= 'z')
  }

  /** Upper-casing yields an upper-cased string and is idempotent. */
  lemma ToUpperIdempotent(s: string)
    ensures IsUpperCased(ToUpper(s))
    ensures ToUpper(ToUpper(s)) == ToUpper(s)
  {
  }

  /** Upper-casing is the identity on an already upper-cased string. */
  lemma ToUpperFixesUpperCased(s: string)
    requires IsUpperCased(s)
    ensures ToUpper(s) == s
  {
  }

  /** Upper-casing commutes with taking a prefix (used for the 11-character cap). */
  lemma ToUpperPrefix(s: string, n: nat)
    requires n <= |s|
    ensures ToUpper(s[..n]) == ToUpper(s)[..n]
  {
  }

  // ---------------------------------------------------------------------------
  // includes / endsWith

  /** `hay.includes(needle)`. */
  function Contains(hay: string, needle: string): bool
    decreases |hay|
  {
    needle <= hay || (|hay| > 0 && Contains(hay[1..], needle))
  }

  /** `needle` occurs in `hay` at offset `i`. */
  predicate OccursAt(hay: string, needle: string, i: int) {
    0 <= i && i + |needle| <= |hay| && hay[i..i + |needle|] == needle
  }

  /** An occurrence at any offset makes `includes` hold. */
  lemma {:induction false} OccursImpliesContains(hay: string, needle: string, i: int)
    requires OccursAt(hay, needle, i)
    ensures Contains(hay, needle)
    decreases i
  {
    if i == 0 {
      assert needle == hay[..|needle|];
    } else {
      assert hay[1..][i - 1..i - 1 + |needle|] == hay[i..i + |needle|];
      OccursImpliesContains(hay[1..], needle, i - 1);
    }
  }

  /** `includes` holds exactly when `needle` occurs at some offset of `hay`. */
  lemma {:induction false} ContainsIffOccurs(hay: string, needle: string)
    ensures Contains(hay, needle) <==> exists i :: OccursAt(hay, needle, i)
    decreases |hay|
  {
    forall i | OccursAt(hay, needle, i)
      ensures Contains(hay, needle)
    {
      OccursImpliesContains(hay, needle, i);
    }
    if needle <= hay {
      assert OccursAt(hay, needle, 0);
    } else if Contains(hay, needle) {
      ContainsIffOccurs(hay[1..], needle);
      var i :| OccursAt(hay[1..], needle, i);
      assert hay[1..][i..i + |needle|] == hay[i + 1..i + 1 + |needle|];
      assert OccursAt(hay, needle, i + 1);
    }
  }

  /** Every string contains the empty string: an empty search keeps everything. */
  lemma ContainsEmpty(hay: string)
    ensures Contains(hay, "")
  {
  }

  /** `s.endsWith(suffix)`. */
  predicate EndsWith(s: string, suffix: string) {
    |suffix| <= |s| && s[|s| - |suffix|..] == suffix
  }

  // ---------------------------------------------------------------------------
  // number rendering

  function DigitChar(d: nat): (c: char)
    requires d < 10
    ensures IsDigit(c)
  {
    ('0' as int + d) as char
  }

  /** Decimal rendering of a natural number, as JavaScript's template literals produce it. */
  function NatToString(n: nat): (r: string)
    ensures 1 <= |r|
    ensures n < 10 <==> |r| == 1
    ensures forall i :: 0 <= i < |r| ==> IsDigit(r[i])
  {
    if n < 10 then [DigitChar(n)] else NatToString(n / 10) + [DigitChar(n % 10)]
  }

  /** Distinct numbers render distinctly, so `NatToString` can build unique ids. */
  lemma {:induction false} NatToStringInjective(a: nat, b: nat)
    requires NatToString(a) == NatToString(b)
    ensures a == b
  {
    if a >= 10 && b >= 10 {
      var sa, sb := NatToString(a), NatToString(b);
      assert sa[|sa| - 1] == sb[|sb| - 1];
      assert NatToString(a / 10) == sa[..|sa| - 1] == sb[..|sb| - 1] == NatToString(b / 10);
      NatToStringInjective(a / 10, b / 10);
    }
  }

  /** Decimal rendering of an integer with a leading `-` when negative. */
  function IntToString(i: int): (r: string)
    ensures 1 <= |r|
  {
    if i < 0 then "-" + NatToString(-i) else NatToString(i)
  }

  // ---------------------------------------------------------------------------
  // split

  /** `s.split(c)` for a one-character separator string: the pieces between
      occurrences of `c`, including empty ones. */
  function SplitOn(s: string, c: char): (r: seq<string>)
    ensures |r| >= 1
    ensures forall k :: 0 <= k < |r| ==> c !in r[k]
  {
    if |s| == 0 then [""]
    else
      var rest := SplitOn(s[1..], c);
      if s[0] == c then [""] + rest else [[s[0]] + rest[0]] + rest[1..]
  }

  /** `parts.join(sep)`: the parts in order with `sep` between neighbours,
      and the empty string for no parts. */
  function Join(parts: seq<string>, sep: string): string
  {
    if |parts| == 0 then ""
    else if |parts| == 1 then parts[0]
    else parts[0] + sep + Join(parts[1..], sep)
  }

  /** Joining one more part appends the separator and the part. */
  lemma {:induction false} JoinSnoc(parts: seq<string>, p: string, sep: string)
    requires |parts| >= 1
    ensures Join(parts + [p], sep) == Join(parts, sep) + sep + p
  {
    if |parts| > 1 {
      assert (parts + [p])[1..] == parts[1..] + [p];
      JoinSnoc(parts[1..], p, sep);
    }
  }

  /** Joining the pieces of a split with the separator gives back the input. */
  lemma {:induction false} JoinSplitOn(s: string, c: char)
    ensures Join(SplitOn(s, c), [c]) == s
  {
    if |s| > 0 {
      JoinSplitOn(s[1..], c);
      var rest := SplitOn(s[1..], c);
      if s[0] != c {
        if |rest| == 1 {
        } else {
          assert ([[s[0]] + rest[0]] + rest[1..])[1..] == rest[1..];
        }
      } else {
        assert ([""] + rest)[1..] == rest;
      }
    }
  }

  /** Every piece of a line split consists of characters of the input. */
  lemma {:induction false} SplitOnPiecesFromInput(s: string, c: char, k: nat, j: nat)
    requires k < |SplitOn(s, c)| && j < |SplitOn(s, c)[k]|
    ensures SplitOn(s, c)[k][j] in s
  {
    var rest := SplitOn(s[1..], c);
    if s[0] == c {
      SplitOnPiecesFromInput(s[1..], c, k - 1, j);
    } else if k == 0 {
      if j > 0 {
        SplitOnPiecesFromInput(s[1..], c, 0, j - 1);
      }
    } else {
      SplitOnPiecesFromInput(s[1..], c, k, j);
    }
  }

  /** `s.split(/\s+/)`: the pieces between maximal runs of white space,
      with an empty first (last) piece when `s` starts (ends) with white space. */
  function SplitWs(s: string): (r: seq<string>)
    ensures |r| >= 1
    ensures forall k :: 0 <= k < |r| ==> NoSpace(r[k])
    ensures |s| > 0 && !IsSpace(s[0]) ==> |r[0]| > 0 && r[0][0] == s[0]
    decreases |s|
  {
    if |s| == 0 then [""]
    else if IsSpace(s[0]) then [""] + SplitWs(TrimStart(s))
    else
      var rest := SplitWs(s[1..]);
      [[s[0]] + rest[0]] + rest[1..]
  }

  /** The first piece of a split is the longest white-space-free prefix. */
  lemma {:induction false} SplitWsFirstIsPrefix(s: string)
    ensures SplitWs(s)[0] <= s
    ensures |SplitWs(s)[0]| == |s| || IsSpace(s[|SplitWs(s)[0]|])
    decreases |s|
  {
    if |s| > 0 && !IsSpace(s[0]) {
      SplitWsFirstIsPrefix(s[1..]);
    }
  }

  /** The number of words of `s`: maximal runs of non-white-space
      characters, counted at the last character of each run. */
  function Words(s: string): nat
    decreases |s|
  {
    if |s| == 0 then 0
    else if !IsSpace(s[0]) && (|s| == 1 || IsSpace(s[1])) then 1 + Words(s[1..])
    else Words(s[1..])
  }

  /** Leading white space holds no word. */
  lemma {:induction false} WordsTrimStart(s: string)
    ensures Words(TrimStart(s)) == Words(s)
    decreases |s|
  {
    if |s| > 0 && IsSpace(s[0]) {
      WordsTrimStart(s[1..]);
    }
  }

  /** Trailing white space holds no word. */
  lemma {:induction false} WordsAppendBlank(a: string, w: string)
    requires IsBlank(w)
    ensures Words(a + w) == Words(a)
    decreases |a| + |w|
  {
    if |a| == 0 {
      assert a + w == w;
      if |w| > 0 {
        WordsAppendBlank(a, w[1..]);
        assert w[1..] == a + w[1..];
      }
    } else {
      assert (a + w)[1..] == a[1..] + w;
      WordsAppendBlank(a[1..], w);
      if |a| > 1 {
        assert (a + w)[1] == a[1];
      } else if |w| > 0 {
        assert (a + w)[1] == w[0];
      }
    }
  }

  /** Trailing white space holds no word. */
  lemma WordsTrimEnd(t: string)
    ensures Words(TrimEnd(t)) == Words(t)
  {
    var r := TrimEnd(t);
    assert t == r + t[|r|..];
    WordsAppendBlank(r, t[|r|..]);
  }

  /** Trimming keeps every word. */
  lemma WordsTrim(s: string)
    ensures Words(Trim(s)) == Words(s)
  {
    WordsTrimStart(s);
    WordsTrimEnd(TrimStart(s));
  }

  /** `split(/\s+/)` yields one piece per word, plus an empty first piece
      when `s` is empty or starts with white space and an empty last piece
      when it ends with white space. */
  lemma {:induction false} SplitWsCount(s: string)
    ensures |SplitWs(s)| == Words(s) + (if |s| == 0 || IsSpace(s[0]) then 1 else 0)
                                     + (if |s| > 0 && IsSpace(s[|s| - 1]) then 1 else 0)
    decreases |s|
  {
    if |s| > 0 {
      if IsSpace(s[0]) {
        var t := TrimStart(s);
        SplitWsCount(t);
        WordsTrimStart(s);
        if |t| > 0 {
          assert t[|t| - 1] == s[|s| - 1];
        } else {
          assert s[|s| - 1] == s[..|s| - |t|][|s| - 1];
        }
      } else {
        SplitWsCount(s[1..]);
        if |s| > 1 {
          assert s[1..][|s| - 2] == s[|s| - 1];
        }
      }
    }
  }

  /** `pieces[0] + seps[0] + pieces[1] + … + pieces[n]`. */
  function Interleave(pieces: seq<string>, seps: seq<string>): string
    requires |pieces| == |seps| + 1
  {
    if |seps| == 0 then pieces[0] else pieces[0] + seps[0] + Interleave(pieces[1..], seps[1..])
  }

  /** Every separator is a non-empty white-space run. */
  predicate SepRuns(seps: seq<string>) {
    forall k :: 0 <= k < |seps| ==> seps[k] != "" && IsBlank(seps[k])
  }

  /** Only the first and the last piece may be empty. */
  predicate InnerNonEmpty(pieces: seq<string>) {
    forall k :: 0 < k < |pieces| - 1 ==> pieces[k] != ""
  }

  /** Gluing `pieces` back with `seps` rebuilds `s`; every separator is a
      non-empty white-space run and only the first and last piece can be
      empty, so the runs are maximal. */
  predicate Rebuilds(pieces: seq<string>, seps: seq<string>, s: string) {
    && |pieces| == |seps| + 1
    && SepRuns(seps)
    && InnerNonEmpty(pieces)
    && Interleave(pieces, seps) == s
  }

  /** `seps` are the white-space runs that separated the pieces of the
      split of `s`. */
  predicate RebuiltBy(s: string, seps: seq<string>) {
    Rebuilds(SplitWs(s), seps, s)
  }

  /** Every white-space split is rebuilt by its separating runs. */
  lemma {:induction false} SplitWsRebuild(s: string) returns (seps: seq<string>)
    ensures RebuiltBy(s, seps)
    decreases |s|
  {
    if |s| == 0 {
      seps := [];
    } else if IsSpace(s[0]) {
      var t := TrimStart(s);
      var rest := SplitWsRebuild(t);
      var w := s[..|s| - |t|];
      var pieces := SplitWs(t);
      assert |pieces| > 1 ==> pieces[0] != "" by {
        if |pieces| > 1 { assert |t| > 0; }
      }
      SpaceStep(w, t, pieces, rest);
      seps := [w] + rest;
      assert SplitWs(s) == [""] + pieces;
      assert s == w + t;
    } else {
      seps := SplitWsRebuild(s[1..]);
      var pieces := SplitWs(s[1..]);
      CharStep(s[0], s[1..], pieces, seps);
      assert SplitWs(s) == [[s[0]] + pieces[0]] + pieces[1..];
      assert s == [s[0]] + s[1..];
    }
  }

  /** A leading white-space run becomes the first separator, after an empty first piece. */
  lemma SpaceStep(w: string, t: string, pieces: seq<string>, seps: seq<string>)
    requires w != "" && IsBlank(w)
    requires Rebuilds(pieces, seps, t)
    requires |pieces| > 1 ==> pieces[0] != ""
    ensures Rebuilds([""] + pieces, [w] + seps, w + t)
  {
    var q, r := [""] + pieces, [w] + seps;
    assert q[1..] == pieces && r[1..] == seps;
    forall k | 0 < k < |q| - 1 ensures q[k] != "" {
      assert q[k] == pieces[k - 1];
    }
    forall k | 0 < k < |r| ensures r[k] != "" && IsBlank(r[k]) {
      assert r[k] == seps[k - 1];
    }
  }

  /** A leading non-white-space character joins the first piece. */
  lemma CharStep(c: char, t: string, pieces: seq<string>, seps: seq<string>)
    requires Rebuilds(pieces, seps, t)
    ensures Rebuilds([[c] + pieces[0]] + pieces[1..], seps, [c] + t)
  {
    var q := [[c] + pieces[0]] + pieces[1..];
    forall k | 0 < k < |q| - 1 ensures q[k] != "" {
      assert q[k] == pieces[k];
    }
    if |seps| > 0 {
      assert q[1..] == pieces[1..];
    }
  }
}
