/** A backtracking matcher for the two regular expressions the résumé parser
    uses (src/utils/resumeParser.ts:40 and :45). A pattern is a list of
    alternatives tried in order; an alternative is a flat list of atoms, each a
    character class with a greedy repetition count. `String.prototype.match`
    returns the leftmost match, and at that start the first match in
    backtracking order: greedy counts are tried from the longest run down. */
module Regex {
  import opened Text
  import opened Wrappers

  datatype CharClass =
    | Digit        // \d
    | Lit(c: char) // one literal character
    | PhoneSep     // [-.\s]
    | EmailLocal   // [a-zA-Z0-9._%+-]
    | EmailDomain  // [a-zA-Z0-9.-]
    | Letter       // [a-zA-Z]

  predicate InClass(cls: CharClass, c: char) {
    match cls
    case Digit => IsDigit(c)
    case Lit(l) => c == l
    case PhoneSep => c == '-' || c == '.' || IsSpace(c)
    case EmailLocal => IsAsciiLetter(c) || IsDigit(c) || c in "._%+-"
    case EmailDomain => IsAsciiLetter(c) || IsDigit(c) || c == '.' || c == '-'
    case Letter => IsAsciiLetter(c)
  }

  datatype Bound = AtMost(n: nat) | Unbounded

  /** `cls{min,max}`, greedy; `?` is `{0,1}`, `+` is `{1,}`. */
  datatype Atom = Atom(cls: CharClass, min: nat, max: Bound)

  /** Alternatives in priority order. */
  type Pattern = seq<seq<Atom>>

  predicate WithinBound(n: nat, max: Bound) {
    max.Unbounded? || n <= max.n
  }

  function Dec(max: Bound): Bound {
    match max
    case AtMost(n) => AtMost(if n == 0 then 0 else n - 1)
    case Unbounded => Unbounded
  }

  /** All of `s[i..j]` belongs to `cls`. */
  predicate AllIn(cls: CharClass, s: string, i: int, j: int)
    requires 0 <= i <= j <= |s|
  {
    forall k :: i <= k < j ==> InClass(cls, s[k])
  }

  /** The longest run of `cls` characters starting at `i`, capped at `max`. */
  function RunLength(cls: CharClass, s: string, i: nat, max: Bound): (n: nat)
    requires i <= |s|
    ensures i + n <= |s|
    ensures AllIn(cls, s, i, i + n)
    ensures WithinBound(n, max)
    decreases |s| - i
  {
    if i == |s| || !InClass(cls, s[i]) || max == AtMost(0) then 0
    else 1 + RunLength(cls, s, i + 1, Dec(max))
  }

  /** The end of the first match of `atoms` starting exactly at `i`, if any. */
  function MatchFrom(atoms: seq<Atom>, s: string, i: nat): (r: Option<nat>)
    requires i <= |s|
    ensures r.Some? ==> i <= r.value <= |s|
    decreases |atoms|, 1, 0
  {
    if |atoms| == 0 then Some(i)
    else TryCounts(atoms, s, i, RunLength(atoms[0].cls, s, i, atoms[0].max))
  }

  /** Backtracking over the count of the first atom, from `c` down to its minimum. */
  function TryCounts(atoms: seq<Atom>, s: string, i: nat, c: nat): (r: Option<nat>)
    requires |atoms| > 0 && i <= |s|
    requires c <= RunLength(atoms[0].cls, s, i, atoms[0].max)
    ensures r.Some? ==> i <= r.value <= |s|
    decreases |atoms|, 0, c
  {
    if c < atoms[0].min then None
    else
      match MatchFrom(atoms[1..], s, i + c)
      case Some(e) => Some(e)
      case None => if c == 0 then None else TryCounts(atoms, s, i, c - 1)
  }

  /** A successful match of a non-empty atom list consumes, for its first
      atom, a run of that atom's class whose length is within its bounds,
      and the rest of the atoms match from there to the same end. */
  lemma {:induction false} MatchStep(atoms: seq<Atom>, s: string, i: nat) returns (c: nat)
    requires |atoms| > 0 && i <= |s| && MatchFrom(atoms, s, i).Some?
    ensures atoms[0].min <= c && i + c <= |s| && WithinBound(c, atoms[0].max)
    ensures AllIn(atoms[0].cls, s, i, i + c)
    ensures MatchFrom(atoms[1..], s, i + c) == MatchFrom(atoms, s, i)
  {
    c := TryStep(atoms, s, i, RunLength(atoms[0].cls, s, i, atoms[0].max));
  }

  lemma {:induction false} TryStep(atoms: seq<Atom>, s: string, i: nat, c0: nat) returns (c: nat)
    requires |atoms| > 0 && i <= |s|
    requires c0 <= RunLength(atoms[0].cls, s, i, atoms[0].max)
    requires TryCounts(atoms, s, i, c0).Some?
    ensures atoms[0].min <= c <= c0
    ensures MatchFrom(atoms[1..], s, i + c) == TryCounts(atoms, s, i, c0)
    decreases c0
  {
    if MatchFrom(atoms[1..], s, i + c0).Some? {
      c := c0;
    } else {
      c := TryStep(atoms, s, i, c0 - 1);
    }
  }

  /** The first alternative that matches at `i`. */
  function MatchAlts(pat: Pattern, s: string, i: nat): (r: Option<nat>)
    requires i <= |s|
    ensures r.Some? ==> i <= r.value <= |s|
    ensures r.Some? ==> exists k :: 0 <= k < |pat| && MatchFrom(pat[k], s, i) == r
  {
    if |pat| == 0 then None
    else
      match MatchFrom(pat[0], s, i)
      case Some(e) => Some(e)
      case None =>
        var r := MatchAlts(pat[1..], s, i);
        if r.Some? then
          var k :| 0 <= k < |pat[1..]| && MatchFrom(pat[1..][k], s, i) == r;
          assert MatchFrom(pat[k + 1], s, i) == r;
          r
        else r
  }

  /** Leftmost search from `i`: the start and end of the first match. */
  function Search(pat: Pattern, s: string, i: nat): (r: Option<(nat, nat)>)
    requires i <= |s|
    ensures r.Some? ==> i <= r.value.0 <= r.value.1 <= |s|
    ensures r.Some? ==> MatchAlts(pat, s, r.value.0) == Some(r.value.1)
    ensures r.Some? ==> forall j :: i <= j < r.value.0 ==> MatchAlts(pat, s, j).None?
    ensures r.None? ==> forall j :: i <= j <= |s| ==> MatchAlts(pat, s, j).None?
    decreases |s| - i
  {
    match MatchAlts(pat, s, i)
    case Some(e) => Some((i, e))
    case None => if i == |s| then None else Search(pat, s, i + 1)
  }

  /** `s.match(re)?.[0] ?? ''`: the text of the leftmost match, or empty. */
  function FirstMatch(pat: Pattern, s: string): string {
    match Search(pat, s, 0)
    case Some((a, b)) => s[a..b]
    case None => ""
  }

  // ---------------------------------------------------------------------------
  // the two patterns of the résumé parser

  /** `[a-zA-Z0-9._%+-]+@[a-zA-Z0-9.-]+\.[a-zA-Z]{2,}` */
  const EmailPattern: Pattern := [[
    Atom(EmailLocal, 1, Unbounded),
    Atom(Lit('@'), 1, AtMost(1)),
    Atom(EmailDomain, 1, Unbounded),
    Atom(Lit('.'), 1, AtMost(1)),
    Atom(Letter, 2, Unbounded)
  ]]

  /** `\(?\d{3}\)?[-.\s]?\d{3}[-.\s]?\d{4}`, the part after the optional group. */
  const PhoneTail: seq<Atom> := [
    Atom(Lit('('), 0, AtMost(1)),
    Atom(Digit, 3, AtMost(3)),
    Atom(Lit(')'), 0, AtMost(1)),
    Atom(PhoneSep, 0, AtMost(1)),
    Atom(Digit, 3, AtMost(3)),
    Atom(PhoneSep, 0, AtMost(1)),
    Atom(Digit, 4, AtMost(4))
  ]

  /** `(\+?\d{1,3}[-.\s]?)?` followed by the tail: the greedy optional group
      is tried present (with all its own choices) before it is skipped. */
  const PhonePattern: Pattern := [
    [Atom(Lit('+'), 0, AtMost(1)), Atom(Digit, 1, AtMost(3)), Atom(PhoneSep, 0, AtMost(1))] + PhoneTail,
    PhoneTail
  ]

  // ---------------------------------------------------------------------------
  // digits in a phone match

  function CountDigits(w: string): (n: nat)
    ensures n <= |w|
  {
    if |w| == 0 then 0 else (if IsDigit(w[0]) then 1 else 0) + CountDigits(w[1..])
  }

  lemma {:induction false} CountDigitsAppend(a: string, b: string)
    ensures CountDigits(a + b) == CountDigits(a) + CountDigits(b)
  {
    if |a| > 0 {
      assert (a + b)[1..] == a[1..] + b;
      CountDigitsAppend(a[1..], b);
    } else {
      assert a + b == b;
    }
  }

  lemma {:induction false} CountDigitsAll(w: string)
    requires forall k :: 0 <= k < |w| ==> IsDigit(w[k])
    ensures CountDigits(w) == |w|
  {
    if |w| > 0 {
      CountDigitsAll(w[1..]);
    }
  }

  /** The digits an atom list is guaranteed to consume: the minimum count of its `\d` atoms. */
  function MinDigits(atoms: seq<Atom>): nat {
    if |atoms| == 0 then 0
    else (if atoms[0].cls == Digit then atoms[0].min else 0) + MinDigits(atoms[1..])
  }

  /** A match of `atoms` contains at least `MinDigits(atoms)` digits. */
  lemma {:induction false} MatchDigits(atoms: seq<Atom>, s: string, i: nat)
    requires i <= |s| && MatchFrom(atoms, s, i).Some?
    ensures CountDigits(s[i..MatchFrom(atoms, s, i).value]) >= MinDigits(atoms)
    decreases |atoms|
  {
    if |atoms| > 0 {
      var e := MatchFrom(atoms, s, i).value;
      var c := MatchStep(atoms, s, i);
      MatchDigits(atoms[1..], s, i + c);
      assert s[i..e] == s[i..i + c] + s[i + c..e];
      CountDigitsAppend(s[i..i + c], s[i + c..e]);
      if atoms[0].cls == Digit {
        CountDigitsAll(s[i..i + c]);
      }
    }
  }

  /** Both phone alternatives demand at least ten digits. */
  lemma PhonePatternDigits()
    ensures forall k :: 0 <= k < |PhonePattern| ==> MinDigits(PhonePattern[k]) >= 10
  {
    var t := PhoneTail;
    assert MinDigits(t[6..]) == 4;
    assert MinDigits(t[5..]) == 4;
    assert MinDigits(t[4..]) == 7;
    assert MinDigits(t[3..]) == 7;
    assert MinDigits(t[2..]) == 7;
    assert MinDigits(t[1..]) == 10;
    assert MinDigits(t) == 10;
    var g := PhonePattern[0];
    assert g[3..] == t;
    assert MinDigits(g[2..]) == 10;
    assert MinDigits(g[1..]) == 11;
    assert MinDigits(g) == 11;
  }

  /** A phone match holds at least ten digits, so it is empty exactly when
      there is no match. */
  lemma PhoneMatchHasTenDigits(s: string)
    ensures FirstMatch(PhonePattern, s) != "" ==> CountDigits(FirstMatch(PhonePattern, s)) >= 10
    ensures FirstMatch(PhonePattern, s) == "" <==> Search(PhonePattern, s, 0).None?
  {
    match Search(PhonePattern, s, 0)
    case Some((a, b)) =>
      var k :| 0 <= k < |PhonePattern| && MatchFrom(PhonePattern[k], s, a) == Some(b);
      MatchDigits(PhonePattern[k], s, a);
      PhonePatternDigits();
    case None =>
  }

  // ---------------------------------------------------------------------------
  // shape of an email match

  /** `r` has exactly one `@`, at `k`, with a non-empty local part before it
      and a domain after it that contains a dot. */
  predicate AtSplit(r: string, k: int) {
    && 0 < k < |r|
    && r[k] == '@'
    && '@' !in r[..k]
    && '@' !in r[k + 1..]
    && '.' in r[k + 1..]
  }

  predicate IsEmailShaped(r: string) {
    exists k :: 0 <= k < |r| && AtSplit(r, k)
  }

  /** Text made of a local run, `@`, a domain run, `.` and a letter run is
      email-shaped. */
  lemma EmailShapeFromRuns(s: string, a: nat, at: nat, dot: nat, e: nat)
    requires a < at < dot < e <= |s|
    requires AllIn(EmailLocal, s, a, at) && s[at] == '@'
    requires AllIn(EmailDomain, s, at + 1, dot) && s[dot] == '.'
    requires AllIn(Letter, s, dot + 1, e)
    ensures IsEmailShaped(s[a..e])
  {
    var r := s[a..e];
    var k := at - a;
    assert r[k] == '@';
    assert '@' !in r[..k] by {
      forall j | 0 <= j < k ensures r[..k][j] != '@' {
        assert InClass(EmailLocal, s[a + j]);
      }
    }
    var dom := r[k + 1..];
    assert '@' !in dom by {
      forall j | 0 <= j < |dom| ensures dom[j] != '@' {
        var p := at + 1 + j;
        assert dom[j] == s[p];
        if p < dot {
          assert InClass(EmailDomain, s[p]);
        } else if p > dot {
          assert InClass(Letter, s[p]);
        }
      }
    }
    assert dom[dot - at - 1] == '.';
    assert AtSplit(r, k);
  }

  /** The domain part of an email-like match: a domain run, then `.`,
      then a letter run reaching the end of the match. */
  lemma {:induction false} EmailTail(atoms: seq<Atom>, s: string, i: nat) returns (dot: nat)
    requires |atoms| == 3
    requires atoms[0].cls == EmailDomain && atoms[0].min >= 1
    requires atoms[1] == Atom(Lit('.'), 1, AtMost(1))
    requires atoms[2].cls == Letter && atoms[2].min >= 1
    requires i <= |s| && MatchFrom(atoms, s, i).Some?
    ensures i < dot < MatchFrom(atoms, s, i).value <= |s|
    ensures AllIn(EmailDomain, s, i, dot) && s[dot] == '.'
    ensures AllIn(Letter, s, dot + 1, MatchFrom(atoms, s, i).value)
  {
    var c1 := MatchStep(atoms, s, i);
    dot := i + c1;
    var t1 := atoms[1..];
    var c2 := MatchStep(t1, s, dot);
    var t2 := t1[1..];
    var c3 := MatchStep(t2, s, dot + c2);
    assert t2[1..] == [];
  }

  /** Any atom list laid out like the email pattern matches email-shaped text. */
  lemma {:induction false} EmailLayoutShape(atoms: seq<Atom>, s: string, a: nat)
    requires |atoms| == 5
    requires atoms[0].cls == EmailLocal && atoms[0].min >= 1
    requires atoms[1] == Atom(Lit('@'), 1, AtMost(1))
    requires atoms[2].cls == EmailDomain && atoms[2].min >= 1
    requires atoms[3] == Atom(Lit('.'), 1, AtMost(1))
    requires atoms[4].cls == Letter && atoms[4].min >= 1
    requires a <= |s| && MatchFrom(atoms, s, a).Some?
    ensures IsEmailShaped(s[a..MatchFrom(atoms, s, a).value])
  {
    var c1 := MatchStep(atoms, s, a);
    var at := a + c1;
    var t1 := atoms[1..];
    var c2 := MatchStep(t1, s, at);
    var t2 := t1[1..];
    assert t2 == atoms[2..];
    var dot := EmailTail(t2, s, at + 1);
    EmailShapeFromRuns(s, a, at, dot, MatchFrom(atoms, s, a).value);
  }

  /** The text of an email match is email-shaped. */
  lemma EmailMatchShape(s: string, a: nat)
    requires a <= |s| && MatchFrom(EmailPattern[0], s, a).Some?
    ensures IsEmailShaped(s[a..MatchFrom(EmailPattern[0], s, a).value])
  {
    EmailLayoutShape(EmailPattern[0], s, a);
  }

  /** An email match is email-shaped, so it is empty exactly when there is
      no match. */
  lemma EmailFirstMatchShape(s: string)
    ensures FirstMatch(EmailPattern, s) != "" ==> IsEmailShaped(FirstMatch(EmailPattern, s))
    ensures FirstMatch(EmailPattern, s) == "" <==> Search(EmailPattern, s, 0).None?
  {
    match Search(EmailPattern, s, 0)
    case Some((a, b)) =>
      var k :| 0 <= k < |EmailPattern| && MatchFrom(EmailPattern[k], s, a) == Some(b);
      EmailMatchShape(s, a);
    case None =>
  }
}
