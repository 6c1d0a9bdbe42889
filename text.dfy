/**
 * The Python string operations the converters rely on, stated on `seq<char>`:
 * whitespace as `str.isspace`, `strip`/`rstrip`, `replace`, `in`, `split`,
 * `join`, `splitlines`, slicing with clamped bounds and `str()` of a number.
 */
module Text {
  import opened Wrappers

  /** Python's `str.isspace` for one character (also what `\s` matches in a `str` pattern). */
  predicate IsSpace(c: char) {
    || c == ' ' || c == '\t' || c == '\n' || c == '\r' || c == '\U{0B}' || c == '\U{0C}'
    || ('\U{1C}' <= c <= '\U{1F}') || c == '\U{85}' || c == '\U{A0}' || c == '\U{1680}'
    || ('\U{2000}' <= c <= '\U{200A}') || c == '\U{2028}' || c == '\U{2029}'
    || c == '\U{202F}' || c == '\U{205F}' || c == '\U{3000}'
  }

  /** The characters at which Python's `str.splitlines` ends a line. */
  predicate IsLineBreak(c: char) {
    || c == '\n' || c == '\r' || c == '\U{0B}' || c == '\U{0C}' || c == '\U{1C}' || c == '\U{1D}'
    || c == '\U{1E}' || c == '\U{85}' || c == '\U{2028}' || c == '\U{2029}'
  }

  predicate NoSpace(s: string) {
    forall i :: 0 <= i < |s| ==> !IsSpace(s[i])
  }

  /** `s.lstrip()` */
  function LStrip(s: string): (r: string)
    ensures |r| <= |s| && r == s[|s| - |r|..]
    ensures forall i :: 0 <= i < |s| - |r| ==> IsSpace(s[i])
    ensures |r| > 0 ==> !IsSpace(r[0])
  {
    if |s| > 0 && IsSpace(s[0]) then LStrip(s[1..]) else s
  }

  /** `s.rstrip()` */
  function RStrip(s: string): (r: string)
    ensures r <= s
    ensures forall i :: |r| <= i < |s| ==> IsSpace(s[i])
    ensures |r| > 0 ==> !IsSpace(r[|r| - 1])
  {
    if |s| > 0 && IsSpace(s[|s| - 1]) then RStrip(s[..|s| - 1]) else s
  }

  /** `s.strip()` */
  function Strip(s: string): string {
    RStrip(LStrip(s))
  }

  /** `s.replace(c, rep)` for a one-character pattern `c`. */
  function ReplaceChar(s: string, c: char, rep: string): string {
    if s == [] then [] else (if s[0] == c then rep else [s[0]]) + ReplaceChar(s[1..], c, rep)
  }

  lemma {:induction false} ReplaceCharAppend(a: string, b: string, c: char, rep: string)
    ensures ReplaceChar(a + b, c, rep) == ReplaceChar(a, c, rep) + ReplaceChar(b, c, rep)
  {
    if a != [] {
      var head := if a[0] == c then rep else [a[0]];
      assert (a + b)[0] == a[0] && (a + b)[1..] == a[1..] + b;
      calc {
        ReplaceChar(a + b, c, rep);
        head + ReplaceChar(a[1..] + b, c, rep);
        { ReplaceCharAppend(a[1..], b, c, rep); }
        head + (ReplaceChar(a[1..], c, rep) + ReplaceChar(b, c, rep));
        (head + ReplaceChar(a[1..], c, rep)) + ReplaceChar(b, c, rep);
      }
    } else {
      assert a + b == b;
    }
  }

  lemma {:induction false} ReplaceCharAbsent(s: string, c: char, rep: string)
    requires c !in s
    ensures ReplaceChar(s, c, rep) == s
  {
    if s != [] {
      ReplaceCharAbsent(s[1..], c, rep);
    }
  }

  /** Replacing a character by text without it removes every occurrence. */
  lemma {:induction false} ReplaceCharRemoves(s: string, c: char, rep: string)
    requires c !in rep
    ensures c !in ReplaceChar(s, c, rep)
  {
    if s != [] {
      ReplaceCharRemoves(s[1..], c, rep);
    }
  }

  lemma ReplaceCharSingle(c: char, x: char, rep: string)
    ensures ReplaceChar([c], x, rep) == if c == x then rep else [c]
  {
    assert [c][1..] == [];
  }

  /** `s.replace(pat, rep)` for a non-empty pattern: leftmost, non-overlapping occurrences. */
  function Replace(s: string, pat: string, rep: string): string
    requires |pat| > 0
    decreases |s|
  {
    if s == [] then []
    else if pat <= s then rep + Replace(s[|pat|..], pat, rep)
    else [s[0]] + Replace(s[1..], pat, rep)
  }

  /** Replacing a pattern that does not occur changes nothing. */
  lemma {:induction false} ReplaceAbsent(s: string, pat: string, rep: string)
    requires |pat| > 0 && !Contains(s, pat)
    ensures Replace(s, pat, rep) == s
    decreases |s|
  {
    if s != [] {
      ReplaceAbsent(s[1..], pat, rep);
      assert s == [s[0]] + s[1..];
    }
  }

  /** `sub in s` */
  predicate Contains(s: string, sub: string)
    decreases |s|
  {
    sub <= s || (|s| > 0 && Contains(s[1..], sub))
  }

  lemma {:induction false} ContainsAt(s: string, sub: string, i: nat)
    requires i + |sub| <= |s| && s[i..i + |sub|] == sub
    ensures Contains(s, sub)
  {
    if i > 0 {
      assert s[1..][i - 1..i - 1 + |sub|] == s[i..i + |sub|];
      ContainsAt(s[1..], sub, i - 1);
    }
  }

  lemma {:induction false} ContainsWitness(s: string, sub: string) returns (i: nat)
    requires Contains(s, sub)
    ensures i + |sub| <= |s| && s[i..i + |sub|] == sub
    decreases |s|
  {
    if sub <= s {
      i := 0;
    } else {
      var j := ContainsWitness(s[1..], sub);
      i := j + 1;
      assert s[i..i + |sub|] == s[1..][j..j + |sub|];
    }
  }

  /** A character that occurs in neither string cannot make one contain the other unless `sub` lacks it too. */
  lemma {:induction false} ContainsChar(s: string, sub: string, c: char)
    requires Contains(s, sub) && c in sub
    ensures c in s
  {
    var i := ContainsWitness(s, sub);
    var k :| 0 <= k < |sub| && sub[k] == c;
    assert s[i + k] == sub[k];
  }

  /** `s[0:n]` for a non-negative bound: Python clamps the end to the length. */
  function Take(s: string, n: nat): (r: string)
    ensures r <= s && |r| == if n < |s| then n else |s|
  {
    if n < |s| then s[..n] else s
  }

  /** `s[-3:]`-style suffix: the last `n` characters, or all of `s` when it is shorter. */
  function Last(s: string, n: nat): (r: string)
    ensures |r| == (if n < |s| then n else |s|) && r == s[|s| - |r|..]
  {
    if n < |s| then s[|s| - n..] else s
  }

  /** `s.upper()` on ASCII letters; other characters are left as they are. */
  function UpperAscii(s: string): (r: string)
    ensures |r| == |s|
    ensures forall i :: 0 <= i < |s| ==> r[i] == if 'a' <= s[i] <= 'z' then (s[i] as int - 32) as char else s[i]
  {
    if s == [] then [] else [if 'a' <= s[0] <= 'z' then (s[0] as int - 32) as char else s[0]] + UpperAscii(s[1..])
  }

  /** `sep.join(xs)` */
  function Join(sep: string, xs: seq<string>): string {
    if |xs| == 0 then ""
    else if |xs| == 1 then xs[0]
    else xs[0] + sep + Join(sep, xs[1..])
  }

  lemma {:induction false} JoinAppend(sep: string, xs: seq<string>, x: string)
    requires |xs| > 0
    ensures Join(sep, xs + [x]) == Join(sep, xs) + sep + x
  {
    if |xs| == 1 {
      assert xs + [x] == [xs[0], x];
    } else {
      assert (xs + [x])[1..] == xs[1..] + [x];
      JoinAppend(sep, xs[1..], x);
    }
  }

  /** The first index at which `sep` occurs in `s`, scanning left to right. */
  function Find(s: string, sep: string): (r: Option<nat>)
    requires |sep| > 0
    ensures r.Some? ==> r.value + |sep| <= |s| && s[r.value..r.value + |sep|] == sep
    decreases |s|
  {
    if sep <= s then Some(0)
    else if |s| == 0 then None
    else match Find(s[1..], sep)
      case None => None
      case Some(i) => Some(i + 1)
  }

  /** `Find` fails exactly when `sep` does not occur in `s`. */
  lemma {:induction false} FindNone(s: string, sep: string)
    requires |sep| > 0
    ensures Find(s, sep).None? <==> !Contains(s, sep)
    decreases |s|
  {
    if !(sep <= s) && |s| > 0 {
      FindNone(s[1..], sep);
    }
  }

  /** `Find` gives the first occurrence. */
  lemma {:induction false} FindIsFirst(s: string, sep: string)
    requires |sep| > 0 && Find(s, sep).Some?
    ensures forall j :: 0 <= j < Find(s, sep).value ==> !(sep <= s[j..])
    decreases |s|
  {
    if !(sep <= s) {
      FindIsFirst(s[1..], sep);
      forall j | 1 <= j < Find(s, sep).value ensures !(sep <= s[j..]) {
        assert s[j..] == s[1..][j - 1..];
      }
    }
  }

  /** No quote comes before the first one. */
  lemma {:induction false} QuoteFree(s: string, j: nat)
    requires Find(s, "\"") == Some(j)
    ensures j < |s| && s[j] == '"' && '"' !in s[..j]
    decreases |s|
  {
    if "\"" <= s {
      assert s[0] == '"';
    } else {
      assert s[0] != '"';
      QuoteFree(s[1..], j - 1);
      assert s[..j] == [s[0]] + s[1..][..j - 1];
    }
  }

  /** `lines.insert(index, x)`: a negative index counts from the end, and indices are clamped. */
  function Insert(lines: seq<string>, index: int, x: string): (r: seq<string>)
    ensures |r| == |lines| + 1
  {
    var at := if index < 0 then (if |lines| + index < 0 then 0 else |lines| + index) else (if index > |lines| then |lines| else index);
    lines[..at] + [x] + lines[at..]
  }

  /** `lines.insert(-1, x)` puts `x` just before the last line. */
  lemma InsertBeforeLast(lines: seq<string>, x: string)
    requires |lines| > 0
    ensures Insert(lines, -1, x) == lines[..|lines| - 1] + [x, lines[|lines| - 1]]
  {
    assert lines[|lines| - 1..] == [lines[|lines| - 1]];
  }

  /** Joining after inserting before the last line puts the new line between the earlier lines and the last one. */
  lemma JoinInsertBeforeLast(sep: string, lines: seq<string>, x: string)
    requires |lines| > 0
    ensures var n := |lines|;
            Join(sep, Insert(lines, -1, x)) ==
              (if n == 1 then "" else Join(sep, lines[..n - 1]) + sep) + x + sep + lines[n - 1]
  {
    var n := |lines|;
    InsertBeforeLast(lines, x);
    if n == 1 {
      assert Insert(lines, -1, x) == [x, lines[0]];
      assert Join(sep, [lines[0]]) == lines[0];
    } else {
      var front := lines[..n - 1];
      assert Insert(lines, -1, x) == (front + [x]) + [lines[n - 1]];
      JoinAppend(sep, front + [x], lines[n - 1]);
      JoinAppend(sep, front, x);
    }
  }

  /** `s.split(sep)` for a non-empty separator. */
  function Split(s: string, sep: string): (r: seq<string>)
    requires |sep| > 0
    ensures |r| > 0
    decreases |s|
  {
    var f := Find(s, sep);
    if f.None? then [s] else [s[..f.value]] + Split(s[f.value + |sep|..], sep)
  }

  /** A split that finds the separator at `i` cuts there and splits the rest. */
  lemma SplitAt(s: string, sep: string, i: nat)
    requires |sep| > 0 && Find(s, sep) == Some(i)
    ensures i + |sep| <= |s| && Split(s, sep) == [s[..i]] + Split(s[i + |sep|..], sep)
  {
  }

  /** Joining the pieces of a split with the same separator gives the string back. */
  lemma {:induction false} JoinSplit(s: string, sep: string)
    requires |sep| > 0
    ensures Join(sep, Split(s, sep)) == s
    decreases |s|
  {
    var f := Find(s, sep);
    if f.Some? {
      var i := f.value;
      SplitAt(s, sep, i);
      var rest := s[i + |sep|..];
      JoinSplit(rest, sep);
      JoinCons(sep, s[..i], Split(rest, sep));
      CutAround(s, i, i + |sep|);
    }
  }

  /** No piece of a split contains the separator. */
  lemma {:induction false} SplitPiecesFree(s: string, sep: string)
    requires |sep| > 0
    ensures forall k :: 0 <= k < |Split(s, sep)| ==> !Contains(Split(s, sep)[k], sep)
    decreases |s|
  {
    var f := Find(s, sep);
    FindNone(s, sep);
    if f.Some? {
      var i := f.value;
      SplitAt(s, sep, i);
      var pieces := Split(s[i + |sep|..], sep);
      SplitPiecesFree(s[i + |sep|..], sep);
      FindIsFirst(s, sep);
      NoEarlierOccurrence(s, sep, i);
      forall k | 0 <= k < |Split(s, sep)|
        ensures !Contains(Split(s, sep)[k], sep)
      {
        if k > 0 {
          assert Split(s, sep)[k] == pieces[k - 1];
        }
      }
    }
  }

  lemma {:induction false} NoEarlierOccurrence(s: string, sep: string, i: nat)
    requires i <= |s| && |sep| > 0
    requires forall j :: 0 <= j < i ==> !(sep <= s[j..])
    ensures !Contains(s[..i], sep)
  {
    if i > 0 {
      assert s[0..] == s;
      forall j | 0 <= j < i - 1
        ensures !(sep <= s[1..][j..])
      {
        assert s[1..][j..] == s[j + 1..];
      }
      NoEarlierOccurrence(s[1..], sep, i - 1);
      assert s[..i][1..] == s[1..][..i - 1];
    }
  }

  /** The index of the first line-break character of `s`, or `|s|`. */
  function LineEnd(s: string): (i: nat)
    ensures i <= |s| && (i < |s| ==> IsLineBreak(s[i]))
  {
    if |s| == 0 || IsLineBreak(s[0]) then 0 else 1 + LineEnd(s[1..])
  }

  /** `s.splitlines()`: `\r\n` ends one line; a final line break does not start an empty line. */
  function SplitLines(s: string): (r: seq<string>)
    decreases |s|
  {
    if s == [] then []
    else
      var i := LineEnd(s);
      if i == |s| then [s]
      else
        var next := if s[i] == '\r' && i + 1 < |s| && s[i + 1] == '\n' then i + 2 else i + 1;
        [s[..i]] + SplitLines(s[next..])
  }

  /**
   * Splitting at `\n` and joining with `\n` is the identity on text whose only
   * line breaks are `\n` and that does not end with one.
   */
  /** The only line breaks of `s` are `\n`, and it does not end with one. */
  predicate NewlinesOnly(s: string) {
    && (forall j :: 0 <= j < |s| ==> (IsLineBreak(s[j]) ==> s[j] == '\n'))
    && (|s| > 0 ==> s[|s| - 1] != '\n')
  }

  lemma NewlinesOnlyAfter(s: string, i: nat)
    requires NewlinesOnly(s) && i < |s|
    ensures NewlinesOnly(s[i + 1..])
  {
  }

  lemma {:induction false} JoinSplitLines(s: string)
    requires NewlinesOnly(s)
    ensures Join("\n", SplitLines(s)) == s
    decreases |s|
  {
    if s != [] {
      var i := LineEnd(s);
      if i < |s| {
        var rest := s[i + 1..];
        SplitLinesAtNewline(s, i);
        NewlinesOnlyAfter(s, i);
        JoinSplitLines(rest);
        JoinCons("\n", s[..i], SplitLines(rest));
        CutAt(s, i);
      }
    }
  }

  /** A `\n` that ends the first line, with more text after it. */
  lemma SplitLinesAtNewline(s: string, i: nat)
    requires i == LineEnd(s) && i < |s| && s[i] == '\n' && s[|s| - 1] != '\n'
    ensures s[i + 1..] != [] && SplitLines(s[i + 1..]) != []
    ensures SplitLines(s) == [s[..i]] + SplitLines(s[i + 1..])
  {
    assert i != |s| - 1;
    var rest := s[i + 1..];
    var j := LineEnd(rest);
    assert SplitLines(rest) != [] by {
      if j == |rest| {
        assert SplitLines(rest) == [rest];
      } else {
        var next := if rest[j] == '\r' && j + 1 < |rest| && rest[j + 1] == '\n' then j + 2 else j + 1;
        assert SplitLines(rest) == [rest[..j]] + SplitLines(rest[next..]);
      }
    }
  }

  lemma CutAt(s: string, i: nat)
    requires i < |s|
    ensures s == s[..i] + [s[i]] + s[i + 1..]
  {
  }

  lemma CutAround(s: string, i: nat, j: nat)
    requires i <= j <= |s|
    ensures s == s[..i] + s[i..j] + s[j..]
  {
  }

  lemma JoinCons(sep: string, x: string, xs: seq<string>)
    requires xs != []
    ensures Join(sep, [x] + xs) == x + sep + Join(sep, xs)
  {
    assert ([x] + xs)[1..] == xs;
  }

  function DigitChar(d: nat): (c: char)
    requires d < 10
    ensures '0' <= c <= '9'
  {
    "0123456789"[d]
  }

  /** `str(n)` for a natural number. */
  function NatToString(n: nat): (r: string)
    ensures |r| > 0 && forall j :: 0 <= j < |r| ==> '0' <= r[j] <= '9'
    ensures |r| > 1 ==> r[0] != '0'
  {
    if n < 10 then [DigitChar(n)] else NatToString(n / 10) + [DigitChar(n % 10)]
  }

  /** Reads a decimal numeral back; the inverse of `NatToString`. */
  function ParseDecimal(s: string): nat
    requires forall j :: 0 <= j < |s| ==> '0' <= s[j] <= '9'
  {
    if s == [] then 0 else 10 * ParseDecimal(s[..|s| - 1]) + ((s[|s| - 1] as int - '0' as int) as nat)
  }

  lemma {:induction false} ParseNatToString(n: nat)
    ensures ParseDecimal(NatToString(n)) == n
  {
    if n >= 10 {
      var r := NatToString(n);
      assert r[..|r| - 1] == NatToString(n / 10);
      ParseNatToString(n / 10);
    }
  }

  /** Different numbers print differently. */
  lemma NatToStringInjective(m: nat, n: nat)
    requires NatToString(m) == NatToString(n)
    ensures m == n
  {
    ParseNatToString(m);
    ParseNatToString(n);
  }
}
