/** The parts of java.lang.String that the protocol layer depends on, with the
    exact behaviour of the JDK: `trim`, `split` with a limit and without one,
    `equalsIgnoreCase`, `indexOf`, and the whole-string `matches` of the few
    regular expressions the source uses. */
module JavaString {

  /** `trim()` removes every leading and trailing character up to U+0020. */
  predicate IsTrimmable(c: char) {
    c <= ' '
  }

  function TrimStart(s: string): (r: string)
    ensures |r| <= |s|
    ensures |r| > 0 ==> !IsTrimmable(r[0])
  {
    if |s| > 0 && IsTrimmable(s[0]) then TrimStart(s[1..]) else s
  }

  function TrimEnd(s: string): (r: string)
    ensures |r| <= |s|
    ensures |r| > 0 ==> !IsTrimmable(r[|r| - 1])
  {
    if |s| > 0 && IsTrimmable(s[|s| - 1]) then TrimEnd(s[..|s| - 1]) else s
  }

  /** `trim()` drops a run of leading characters up to U+0020 and keeps the
      rest as it is. */
  lemma {:induction false} TrimStartCut(s: string)
    ensures TrimStart(s) == s[|s| - |TrimStart(s)|..]
    ensures forall i | 0 <= i < |s| - |TrimStart(s)| :: IsTrimmable(s[i])
    decreases |s|
  {
    if |s| > 0 && IsTrimmable(s[0]) {
      var t := s[1..];
      TrimStartCut(t);
      assert TrimStart(s) == TrimStart(t);
      forall i | 1 <= i < |s| - |TrimStart(s)| ensures IsTrimmable(s[i]) {
        assert s[i] == t[i - 1];
      }
    }
  }

  /** Likewise at the other end. */
  lemma {:induction false} TrimEndCut(s: string)
    ensures TrimEnd(s) == s[..|TrimEnd(s)|]
    ensures forall i | |TrimEnd(s)| <= i < |s| :: IsTrimmable(s[i])
    decreases |s|
  {
    if |s| > 0 && IsTrimmable(s[|s| - 1]) {
      var t := s[..|s| - 1];
      TrimEndCut(t);
      assert TrimEnd(s) == TrimEnd(t);
      forall i | |TrimEnd(s)| <= i < |s| - 1 ensures IsTrimmable(s[i]) {
        assert s[i] == t[i];
      }
    }
  }

  /** `String.trim()`: the result starts and ends with a character above
      U+0020. */
  function Trim(s: string): (r: string)
    ensures |r| <= |s|
    ensures |r| > 0 ==> !IsTrimmable(r[0]) && !IsTrimmable(r[|r| - 1])
  {
    var t := TrimStart(s);
    TrimEndCut(t);
    TrimEnd(t)
  }

  /** What `trim()` keeps is a contiguous part of `s`, and everything it cuts
      away is at most U+0020. */
  lemma TrimCuts(s: string) returns (a: nat)
    ensures a <= |s| - |Trim(s)| && CutAt(s, a, Trim(s))
  {
    var t := TrimStart(s);
    var u := TrimEnd(t);
    assert Trim(s) == u;
    TrimStartCut(s);
    TrimEndCut(t);
    a := |s| - |t|;
    CutOfCuts(s, t, u);
  }

  /** A prefix `u` of a suffix `t` of `s`, with only trimmable characters
      cut away at either end, is a cut of `s`. */
  lemma CutOfCuts(s: string, t: string, u: string)
    requires |t| <= |s| && t == s[|s| - |t|..]
    requires forall i | 0 <= i < |s| - |t| :: IsTrimmable(s[i])
    requires |u| <= |t| && u == t[..|u|]
    requires forall i | |u| <= i < |t| :: IsTrimmable(t[i])
    ensures CutAt(s, |s| - |t|, u)
  {
    var a := |s| - |t|;
    assert u == s[a..a + |u|];
    forall i | a + |u| <= i < |s| ensures IsTrimmable(s[i]) {
      assert s[i] == t[i - a];
    }
  }

  /** `r` sits at offset `a` of `s`, and only trimmable characters surround it. */
  predicate CutAt(s: string, a: int, r: string)
    requires 0 <= a <= |s| - |r|
  {
    && r == s[a..a + |r|]
    && (forall i | 0 <= i < a :: IsTrimmable(s[i]))
    && (forall i | a + |r| <= i < |s| :: IsTrimmable(s[i]))
  }

  predicate AllTrimmable(s: string) {
    forall i | 0 <= i < |s| :: IsTrimmable(s[i])
  }

  /** `trim()` of a core that starts and ends above U+0020, padded on both
      sides with characters up to U+0020, is that core. */
  lemma {:induction false} TrimPadded(p: string, r: string, q: string)
    requires AllTrimmable(p) && AllTrimmable(q)
    requires |r| > 0 && !IsTrimmable(r[0]) && !IsTrimmable(r[|r| - 1])
    ensures Trim(p + r + q) == r
  {
    var x := p + r + q;
    var t := Trim(x);
    var a := TrimCuts(x);
    assert x[|p|] == r[0];
    assert x[|p| + |r| - 1] == r[|r| - 1];
    assert |t| > 0;
    assert a == |p|;
    assert t == x[|p|..|p| + |r|] == r;
  }

  /** Character-wise case folding of `equalsIgnoreCase`, for the ASCII letters. */
  function ToLowerAscii(c: char): (r: char)
    ensures 'A' <= c <= 'Z' ==> r as int == c as int + 32
    ensures !('A' <= c <= 'Z') ==> r == c
  {
    if 'A' <= c <= 'Z' then (c as int + 32) as char else c
  }

  /** `a.equalsIgnoreCase(b)`. */
  predicate EqualsIgnoreCase(a: string, b: string) {
    |a| == |b| && forall i | 0 <= i < |a| :: ToLowerAscii(a[i]) == ToLowerAscii(b[i])
  }

  lemma EqualsIgnoreCaseSymmetric(a: string, b: string)
    ensures EqualsIgnoreCase(a, b) == EqualsIgnoreCase(b, a)
  {
  }

  lemma EqualsIgnoreCaseTransitive(a: string, b: string, c: string)
    requires EqualsIgnoreCase(a, b) && EqualsIgnoreCase(b, c)
    ensures EqualsIgnoreCase(a, c)
  {
  }

  /** `s.indexOf(c)`, for a character known to occur. */
  function IndexOf(s: string, c: char): (k: nat)
    requires c in s
    ensures k < |s| && s[k] == c && c !in s[..k]
  {
    if s[0] == c then 0
    else
      var k := 1 + IndexOf(s[1..], c);
      assert s[..k] == [s[0]] + s[1..][..k - 1];
      k
  }

  /** Every piece of `s` between occurrences of `d`, empty pieces included:
      one more piece than there are delimiters. */
  function Pieces(s: string, d: char): (r: seq<string>)
    ensures |r| >= 1
    ensures forall i | 0 <= i < |r| :: d !in r[i]
    decreases |s|
  {
    if d !in s then [s]
    else
      var k := IndexOf(s, d);
      [s[..k]] + Pieces(s[k + 1..], d)
  }

  /** All pieces but the last: the ones a delimiter has closed. */
  function Closed(s: string, d: char): seq<string> {
    var p := Pieces(s, d);
    p[..|p| - 1]
  }

  /** The piece after the last delimiter (the whole string when there is none). */
  function Open(s: string, d: char): string {
    var p := Pieces(s, d);
    p[|p| - 1]
  }

  /** The search for the first delimiter finds the only candidate. */
  lemma IndexOfUnique(s: string, d: char, k: nat)
    requires k < |s| && s[k] == d && d !in s[..k]
    ensures IndexOf(s, d) == k
  {
    var j := IndexOf(s, d);
  }

  /** One delimiter split off the front: the first piece, and the closed and
      open pieces of what follows it. */
  lemma PiecesStep(s: string, d: char) returns (k: nat)
    requires d in s
    ensures k < |s| && s[k] == d && d !in s[..k]
    ensures Pieces(s, d) == [s[..k]] + Pieces(s[k + 1..], d)
    ensures Closed(s, d) == [s[..k]] + Closed(s[k + 1..], d)
    ensures Open(s, d) == Open(s[k + 1..], d)
  {
    k := IndexOf(s, d);
    var t := Pieces(s[k + 1..], d);
    assert Pieces(s, d) == [s[..k]] + t;
    assert ([s[..k]] + t)[..|t|] == [s[..k]] + t[..|t| - 1];
  }

  /** A delimiter inside the first part of a concatenation is still the
      first one of the whole. */
  lemma PiecesFront(x: string, y: string, d: char, k: nat)
    requires k < |x| && x[k] == d && d !in x[..k]
    ensures Pieces(x + y, d) == [x[..k]] + Pieces(x[k + 1..] + y, d)
  {
    assert (x + y)[k] == d && (x + y)[..k] == x[..k];
    IndexOfUnique(x + y, d, k);
    assert (x + y)[k + 1..] == x[k + 1..] + y;
  }

  /** Pieces of a concatenation: the closed pieces of the first part, then
      the pieces of its open tail followed by the second part. */
  lemma {:induction false} PiecesAppend(x: string, y: string, d: char)
    ensures Pieces(x + y, d) == Closed(x, d) + Pieces(Open(x, d) + y, d)
    decreases |x|
  {
    if d in x {
      var k := PiecesStep(x, d);
      var t := x[k + 1..];
      PiecesFront(x, y, d, k);
      PiecesAppend(t, y, d);
      var a, c, q := x[..k], Closed(t, d), Pieces(Open(t, d) + y, d);
      assert [a] + (c + q) == ([a] + c) + q;
    } else {
      assert Pieces(x, d) == [x];
    }
  }

  /** The open tail is empty exactly when the text is empty or ends with the
      delimiter. */
  lemma {:induction false} OpenEmptyIff(s: string, d: char)
    ensures Open(s, d) == "" <==> |s| == 0 || s[|s| - 1] == d
    decreases |s|
  {
    if d in s {
      var k := IndexOf(s, d);
      var t := s[k + 1..];
      OpenEmptyIff(t, d);
      if |t| > 0 {
        assert t[|t| - 1] == s[|s| - 1];
      }
    } else if |s| > 0 {
      assert s[|s| - 1] in s;
    }
  }

  function DropTrailingEmpty(xs: seq<string>): (r: seq<string>)
    ensures |r| <= |xs| && r == xs[..|r|]
    ensures |r| > 0 ==> r[|r| - 1] != ""
    ensures forall i | |r| <= i < |xs| :: xs[i] == ""
  {
    if |xs| > 0 && xs[|xs| - 1] == "" then DropTrailingEmpty(xs[..|xs| - 1]) else xs
  }

  /** `s.split(d)` for a one-character delimiter (limit 0): a string without
      the delimiter comes back whole; otherwise all pieces, with trailing
      empty pieces removed. */
  function SplitAll(s: string, d: char): seq<string> {
    if d !in s then [s] else DropTrailingEmpty(Pieces(s, d))
  }

  /** `s.split(d, limit)` for a one-character delimiter and a positive limit:
      at most `limit` fields, the last one holding the rest of the string
      (delimiters included), empty fields kept. */
  function SplitLimit(s: string, d: char, limit: nat): (r: seq<string>)
    requires limit >= 1
    ensures 1 <= |r| <= limit
    decreases limit
  {
    if limit == 1 || d !in s then [s]
    else
      var k := IndexOf(s, d);
      [s[..k]] + SplitLimit(s[k + 1..], d, limit - 1)
  }

  /** The fields of a limited split joined back with the delimiter give the
      string again. */
  lemma {:induction false} SplitLimitJoin(s: string, d: char, limit: nat)
    requires limit >= 1
    ensures Join(SplitLimit(s, d, limit), d) == s
    decreases limit
  {
    if limit > 1 && d in s {
      var k := SplitLimitStep(s, d, limit);
      SplitLimitJoin(s[k + 1..], d, limit - 1);
      JoinCons(s[..k], SplitLimit(s[k + 1..], d, limit - 1), d);
    }
  }

  /** One step of a limited split: the text before the first delimiter, then
      the split of the rest with one field fewer. */
  lemma SplitLimitStep(s: string, d: char, limit: nat) returns (k: nat)
    requires limit > 1 && d in s
    ensures k < |s| && s == s[..k] + [d] + s[k + 1..] && d !in s[..k]
    ensures SplitLimit(s, d, limit) == [s[..k]] + SplitLimit(s[k + 1..], d, limit - 1)
  {
    k := IndexOf(s, d);
    assert s == s[..k] + [d] + s[k + 1..];
  }

  lemma JoinCons(a: string, t: seq<string>, d: char)
    requires |t| >= 1
    ensures Join([a] + t, d) == a + [d] + Join(t, d)
  {
    assert ([a] + t)[1..] == t;
  }

  /** Every field but the last is free of the delimiter, and so is the last
      one when fewer than `limit` fields came out. */
  predicate FieldsFree(r: seq<string>, d: char, limit: nat)
    requires |r| >= 1
  {
    && (forall i | 0 <= i < |r| - 1 :: d !in r[i])
    && (|r| < limit ==> d !in r[|r| - 1])
  }

  /** Only the last field of a limited split can hold the delimiter, and only
      when the limit cut the split short. */
  lemma {:induction false} SplitLimitFields(s: string, d: char, limit: nat)
    requires limit >= 1
    ensures FieldsFree(SplitLimit(s, d, limit), d, limit)
    decreases limit
  {
    if limit > 1 && d in s {
      var k := SplitLimitStep(s, d, limit);
      SplitLimitFields(s[k + 1..], d, limit - 1);
      FieldsCons(s[..k], SplitLimit(s[k + 1..], d, limit - 1), d, limit);
    }
  }

  lemma FieldsCons(a: string, t: seq<string>, d: char, limit: nat)
    requires |t| >= 1 && d !in a && limit >= 2
    requires FieldsFree(t, d, limit - 1)
    ensures FieldsFree([a] + t, d, limit)
  {
    var r := [a] + t;
    assert r[|r| - 1] == t[|t| - 1];
    forall i | 1 <= i < |r| ensures r[i] == t[i - 1] {
    }
  }

  /** The fields joined back together with the delimiter between them. */
  function Join(xs: seq<string>, d: char): string
    requires |xs| >= 1
  {
    if |xs| == 1 then xs[0] else xs[0] + [d] + Join(xs[1..], d)
  }

  /** Splitting a string of the form `a + [d] + b`, `a` free of `d`, gives
      `a` first and the split of `b` after it. */
  lemma SplitLimitCons(a: string, d: char, b: string, limit: nat)
    requires limit >= 2 && d !in a
    ensures SplitLimit(a + [d] + b, d, limit) == [a] + SplitLimit(b, d, limit - 1)
  {
    var s := a + [d] + b;
    assert s[|a|] == d;
    var k := IndexOf(s, d);
    assert k == |a|;
    assert s[..k] == a && s[k + 1..] == b;
  }

  lemma SplitLimitLast(s: string, d: char, limit: nat)
    requires limit >= 1 && d !in s
    ensures SplitLimit(s, d, limit) == [s]
  {
  }

  /** The first-match split of `s.split(regex, 2)` where the regular
      expression matches exactly one character of the class `isSep`. */
  function SplitOnce(s: string, isSep: char -> bool): (r: seq<string>)
    ensures 1 <= |r| <= 2
    ensures |r| == 1 <==> forall i | 0 <= i < |s| :: !isSep(s[i])
    ensures |r| == 1 ==> r[0] == s
    ensures |r| == 2 ==> |r[0]| < |s| && s == r[0] + [s[|r[0]|]] + r[1]
                         && isSep(s[|r[0]|])
                         && forall i | 0 <= i < |r[0]| :: !isSep(s[i])
  {
    if |s| == 0 then [s]
    else if isSep(s[0]) then ["", s[1..]]
    else
      var t := SplitOnce(s[1..], isSep);
      assert forall i | 1 <= i < |s| :: s[i] == s[1..][i - 1];
      if |t| == 1 then [s] else
        var head := [s[0]] + t[0];
        assert s == [s[0]] + s[1..] == head + [s[|head|]] + t[1];
        [head, t[1]]
  }

  /** The line terminators that `.` in a Java regular expression does not match. */
  predicate IsLineTerminator(c: char) {
    c == '\n' || c == '\r' || c == '\U{85}' || c == '\U{2028}' || c == '\U{2029}'
  }

  predicate NoLineTerminator(s: string) {
    forall i | 0 <= i < |s| :: !IsLineTerminator(s[i])
  }

  /** The characters `\s` matches in a Java regular expression. */
  predicate IsRegexSpace(c: char) {
    c == ' ' || c == '\t' || c == '\n' || c == '\U{B}' || c == '\U{C}' || c == '\r'
  }

  /** `s[i..j]` is a non-empty run of `inRun`, and the rest of `s` is matched by `.*`. */
  predicate RunAt(s: string, i: int, j: int, inRun: char -> bool)
    requires 0 <= i < j <= |s|
  {
    && (forall k | i <= k < j :: inRun(s[k]))
    && NoLineTerminator(s[..i])
    && NoLineTerminator(s[j..])
  }

  /** `s.matches(".*X+.*")` where `X` matches the characters `inRun` accepts. */
  predicate MatchesRun(s: string, inRun: char -> bool) {
    exists i, j | 0 <= i < j <= |s| :: RunAt(s, i, j, inRun)
  }

  /** For a string without line terminators, `.*X+.*` matches exactly when
      some character is an `X`. */
  lemma MatchesRunPlain(s: string, inRun: char -> bool)
    requires NoLineTerminator(s)
    ensures MatchesRun(s, inRun) <==> exists k | 0 <= k < |s| :: inRun(s[k])
  {
    if MatchesRun(s, inRun) {
      MatchesRunHasMember(s, inRun);
    }
    if k :| 0 <= k < |s| && inRun(s[k]) {
      assert RunAt(s, k, k + 1, inRun);
    }
  }

  /** A match of `.*X+.*` contains an `X`, whatever the line terminators. */
  lemma MatchesRunHasMember(s: string, inRun: char -> bool)
    requires MatchesRun(s, inRun)
    ensures exists k | 0 <= k < |s| :: inRun(s[k])
  {
    var i, j :| 0 <= i < j <= |s| && RunAt(s, i, j, inRun);
    assert inRun(s[i]);
  }

  /** `s[..m]` is two or more slashes and the rest is matched by `.*`. */
  predicate SlashesThen(s: string, m: int)
    requires 2 <= m <= |s|
  {
    (forall k | 0 <= k < m :: s[k] == '/') && NoLineTerminator(s[m..])
  }

  /** `s.matches("/{2,}.*")`. */
  predicate MatchesSlashes(s: string) {
    exists m | 2 <= m <= |s| :: SlashesThen(s, m)
  }

  lemma MatchesSlashesIff(s: string)
    ensures MatchesSlashes(s) <==> |s| >= 2 && s[0] == '/' && s[1] == '/' && NoLineTerminator(s[2..])
  {
    if MatchesSlashes(s) {
      var m :| 2 <= m <= |s| && SlashesThen(s, m);
      forall k | 0 <= k < |s[2..]|
        ensures !IsLineTerminator(s[2..][k])
      {
        if k + 2 < m {
          assert s[k + 2] == '/';
        } else {
          assert s[2..][k] == s[m..][k + 2 - m];
        }
      }
    }
    if |s| >= 2 && s[0] == '/' && s[1] == '/' && NoLineTerminator(s[2..]) {
      assert SlashesThen(s, 2);
    }
  }

  function DigitChar(d: nat): (c: char)
    requires d < 10
    ensures '0' <= c <= '9'
  {
    ('0' as int + d) as char
  }

  function NatToDecimal(n: nat): (r: string)
    ensures |r| > 0 && AllDigits(r)
    decreases n
  {
    if n < 10 then [DigitChar(n)] else NatToDecimal(n / 10) + [DigitChar(n % 10)]
  }

  predicate AllDigits(s: string) {
    forall i | 0 <= i < |s| :: '0' <= s[i] <= '9'
  }

  /** The value of a string of decimal digits, most significant first. */
  function DigitsValue(s: string): nat
    requires AllDigits(s)
  {
    if |s| == 0 then 0 else DigitsValue(s[..|s| - 1]) * 10 + (s[|s| - 1] as int - '0' as int)
  }

  /** Reading the digits back gives the number. */
  lemma {:induction false} NatToDecimalValue(n: nat)
    ensures DigitsValue(NatToDecimal(n)) == n
    decreases n
  {
    var r := NatToDecimal(n);
    if n >= 10 {
      NatToDecimalValue(n / 10);
      assert r[..|r| - 1] == NatToDecimal(n / 10);
    }
  }

  /** `Integer.toString(i)` / the `+` of an int onto a string: a minus sign
      exactly for negative numbers, then the digits of the magnitude. */
  function IntToDecimal(i: int): (r: string)
    ensures |r| > 0
    ensures (r[0] == '-') <==> i < 0
    ensures i < 0 ==> AllDigits(r[1..]) && DigitsValue(r[1..]) == -i
    ensures i >= 0 ==> AllDigits(r) && DigitsValue(r) == i
  {
    if i < 0 then
      NatToDecimalValue(-i);
      assert ("-" + NatToDecimal(-i))[1..] == NatToDecimal(-i);
      "-" + NatToDecimal(-i)
    else
      NatToDecimalValue(i);
      NatToDecimal(i)
  }
}
