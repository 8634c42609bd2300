/**
 * The JavaScript string built-ins the core relies on: `trim`, `startsWith`,
 * `split`/`join` with a literal separator, and the whitespace class `\s`.
 */
module Strings {

  /** ECMAScript WhiteSpace and LineTerminator code points: what `\s` and `trim` treat as white space. */
  predicate IsWhitespace(c: char)
  {
    || c == ' ' || c == '\t' || c == '\n' || c == '\r'
    || c == '\U{000B}' || c == '\U{000C}' || c == '\U{00A0}' || c == '\U{FEFF}'
    || c == '\U{1680}' || ('\U{2000}' <= c <= '\U{200A}')
    || c == '\U{2028}' || c == '\U{2029}' || c == '\U{202F}' || c == '\U{205F}' || c == '\U{3000}'
  }

  predicate IsDigit(c: char)
  {
    '0' <= c <= '9'
  }

  predicate AllWhitespace(s: string)
  {
    forall k :: 0 <= k < |s| ==> IsWhitespace(s[k])
  }

  predicate StartsWith(s: string, prefix: string)
  {
    |prefix| <= |s| && s[..|prefix|] == prefix
  }

  /** `pat` occurs in `s` starting at index `i`. */
  predicate OccursAt(s: string, pat: string, i: nat)
  {
    i + |pat| <= |s| && s[i..i + |pat|] == pat
  }

  /** `s.includes(pat)` */
  predicate Contains(s: string, pat: string)
  {
    exists i: nat :: i <= |s| && OccursAt(s, pat, i)
  }

  /** `s.trimStart()`: drops the leading white space and nothing else. */
  function TrimStart(s: string): (r: string)
    ensures |r| <= |s| && r == s[|s| - |r|..]
    ensures AllWhitespace(s[..|s| - |r|])
    ensures r == [] || !IsWhitespace(r[0])
    decreases |s|
  {
    if s == [] then []
    else if IsWhitespace(s[0]) then TrimStart(s[1..])
    else s
  }

  /** `s.trimEnd()`: drops the trailing white space and nothing else. */
  function TrimEnd(s: string): (r: string)
    ensures |r| <= |s| && r == s[..|r|]
    ensures AllWhitespace(s[|r|..])
    ensures r == [] || !IsWhitespace(r[|r| - 1])
    decreases |s|
  {
    if s == [] then []
    else if IsWhitespace(s[|s| - 1]) then TrimEnd(s[..|s| - 1])
    else s
  }

  /** `s.trim()` */
  function Trim(s: string): string
  {
    TrimEnd(TrimStart(s))
  }

  /** What `trim` returns: the text between the leading and the trailing white space. */
  lemma TrimStrips(s: string)
    ensures var r := Trim(s);
      exists i :: 0 <= i <= |s| - |r| && s[i..i + |r|] == r
        && AllWhitespace(s[..i]) && AllWhitespace(s[i + |r|..])
        && (r == [] || (!IsWhitespace(r[0]) && !IsWhitespace(r[|r| - 1])))
  {
    var t := TrimStart(s);
    var r := TrimEnd(t);
    var i := |s| - |t|;
    assert s[i..i + |r|] == t[..|r|] == r;
    assert s[i + |r|..] == t[|r|..];
  }

  lemma {:induction false} TrimStartSkips(ws: string, s: string)
    requires AllWhitespace(ws)
    requires s == [] || !IsWhitespace(s[0])
    ensures TrimStart(ws + s) == s
    decreases |ws|
  {
    if ws == [] {
      assert ws + s == s;
    } else {
      assert (ws + s)[1..] == ws[1..] + s;
      TrimStartSkips(ws[1..], s);
    }
  }

  lemma {:induction false} TrimEndSkips(s: string, ws: string)
    requires AllWhitespace(ws)
    requires s == [] || !IsWhitespace(s[|s| - 1])
    ensures TrimEnd(s + ws) == s
    decreases |ws|
  {
    if ws == [] {
      assert s + ws == s;
    } else {
      var n := |ws| - 1;
      assert (s + ws)[..|s + ws| - 1] == s + ws[..n];
      TrimEndSkips(s, ws[..n]);
    }
  }

  /** Trimming white space around a text that neither starts nor ends with white space gives that text back. */
  lemma TrimSurrounded(lead: string, s: string, trail: string)
    requires AllWhitespace(lead) && AllWhitespace(trail)
    requires s == [] || (!IsWhitespace(s[0]) && !IsWhitespace(s[|s| - 1]))
    ensures Trim(lead + s + trail) == s
  {
    if s == [] {
      assert lead + s + trail == lead + trail;
      TrimStartSkips(lead + trail, []);
      assert lead + trail + [] == lead + trail;
    } else {
      assert lead + s + trail == lead + (s + trail);
      TrimStartSkips(lead, s + trail);
      TrimEndSkips(s, trail);
    }
  }

  /**
   * `s.split(sep)` for a non-empty literal separator: the pieces between the
   * non-overlapping occurrences of `sep`, found from left to right.
   */
  function Split(s: string, sep: string): (parts: seq<string>)
    requires sep != []
    ensures |parts| >= 1
    ensures StartsWith(s, parts[0])
    decreases |s|
  {
    if |s| < |sep| then [s]
    else if s[..|sep|] == sep then [[]] + Split(s[|sep|..], sep)
    else
      var rest := Split(s[1..], sep);
      [[s[0]] + rest[0]] + rest[1..]
  }

  /** `parts.join(sep)` */
  function Join(parts: seq<string>, sep: string): string
    decreases |parts|
  {
    if parts == [] then []
    else if |parts| == 1 then parts[0]
    else parts[0] + sep + Join(parts[1..], sep)
  }

  /** Growing the first piece by one character grows the joined text by that character. */
  lemma JoinGrowFirst(c: char, parts: seq<string>, sep: string)
    requires parts != []
    ensures Join([[c] + parts[0]] + parts[1..], sep) == [c] + Join(parts, sep)
  {
    var q := [[c] + parts[0]] + parts[1..];
    assert q[1..] == parts[1..];
    if |parts| > 1 {
      assert Join(q, sep) == ([c] + parts[0]) + sep + Join(parts[1..], sep);
    }
  }

  /** A piece in front of at least one more is followed by the separator. */
  lemma JoinCons(p: string, rest: seq<string>, sep: string)
    requires rest != []
    ensures Join([p] + rest, sep) == p + sep + Join(rest, sep)
  {
    assert ([p] + rest)[1..] == rest;
  }

  /** Joining the pieces of a split with the same separator restores the text. */
  lemma {:induction false} SplitJoin(s: string, sep: string)
    requires sep != []
    ensures Join(Split(s, sep), sep) == s
    decreases |s|
  {
    if |s| < |sep| {
    } else if s[..|sep|] == sep {
      var rest := Split(s[|sep|..], sep);
      SplitJoin(s[|sep|..], sep);
      JoinCons([], rest, sep);
      assert s == [] + sep + s[|sep|..];
    } else {
      var rest := Split(s[1..], sep);
      SplitJoin(s[1..], sep);
      JoinGrowFirst(s[0], rest, sep);
      assert s == [s[0]] + s[1..];
    }
  }

  /** An occurrence in `s[1..]` is an occurrence in `s`, one place further on. */
  lemma OccursAtShift(s: string, pat: string, i: nat)
    requires 1 <= |s|
    ensures OccursAt(s[1..], pat, i) <==> OccursAt(s, pat, i + 1)
  {
    if i + 1 + |pat| <= |s| {
      assert s[1..][i..i + |pat|] == s[i + 1..i + 1 + |pat|];
    }
  }

  /** Splitting a text with no occurrence of the separator yields the text alone. */
  lemma {:induction false} SplitWithout(s: string, sep: string)
    requires sep != []
    requires !Contains(s, sep)
    ensures Split(s, sep) == [s]
    decreases |s|
  {
    if |s| >= |sep| {
      assert !OccursAt(s, sep, 0);
      forall i: nat ensures !OccursAt(s[1..], sep, i) {
        assert !OccursAt(s, sep, i + 1);
        OccursAtShift(s, sep, i);
      }
      SplitWithout(s[1..], sep);
      assert [s[0]] + s[1..] == s;
    }
  }

  /** Splitting a text that holds the separator yields at least two pieces. */
  lemma {:induction false} SplitWith(s: string, sep: string, i: nat)
    requires sep != []
    requires OccursAt(s, sep, i)
    ensures |Split(s, sep)| >= 2
    decreases i
  {
    if s[..|sep|] != sep {
      assert i != 0;
      assert s[1..][i - 1..i - 1 + |sep|] == s[i..i + |sep|];
      SplitWith(s[1..], sep, i - 1);
    }
  }

  lemma SplitSingleIffAbsent(s: string, sep: string)
    requires sep != []
    ensures |Split(s, sep)| == 1 <==> !Contains(s, sep)
  {
    if Contains(s, sep) {
      var i: nat :| OccursAt(s, sep, i);
      SplitWith(s, sep, i);
    } else {
      SplitWithout(s, sep);
    }
  }

  /** No piece of a split holds the separator. */
  lemma {:induction false} SplitPartsFree(s: string, sep: string)
    requires sep != []
    ensures forall k :: 0 <= k < |Split(s, sep)| ==> !Contains(Split(s, sep)[k], sep)
    decreases |s|
  {
    var parts := Split(s, sep);
    if |s| < |sep| {
      forall i: nat ensures !OccursAt(s, sep, i) { }
    } else if s[..|sep|] == sep {
      SplitPartsFree(s[|sep|..], sep);
      forall i: nat ensures !OccursAt([], sep, i) { }
      assert forall k :: 1 <= k < |parts| ==> parts[k] == Split(s[|sep|..], sep)[k - 1];
    } else {
      var rest := Split(s[1..], sep);
      SplitPartsFree(s[1..], sep);
      var first := [s[0]] + rest[0];
      assert StartsWith(s, first) by {
        assert StartsWith(s[1..], rest[0]);
        assert s == [s[0]] + s[1..];
      }
      forall i: nat ensures !OccursAt(first, sep, i) {
        if i == 0 {
          if |sep| <= |first| {
            assert s[..|sep|] == first[..|sep|];
          }
        } else if i + |sep| <= |first| {
          assert rest[0][i - 1..i - 1 + |sep|] == first[i..i + |sep|];
          assert !OccursAt(rest[0], sep, i - 1);
        }
      }
      assert forall k :: 1 <= k < |parts| ==> parts[k] == rest[k];
    }
  }

  /**
   * When the first occurrence of `sep` starts right after `a`, the split
   * yields `a` and then the pieces of what follows that occurrence.
   */
  lemma {:induction false} SplitAtFirst(a: string, sep: string, b: string)
    requires sep != []
    requires forall i: nat :: i < |a| ==> !OccursAt(a + sep + b, sep, i)
    ensures Split(a + sep + b, sep) == [a] + Split(b, sep)
    decreases |a|
  {
    var s := a + sep + b;
    if a == [] {
      assert s == sep + b;
      assert s[..|sep|] == sep && s[|sep|..] == b;
    } else {
      assert !OccursAt(s, sep, 0);
      assert s[1..] == a[1..] + sep + b;
      forall i: nat | i < |a[1..]| ensures !OccursAt(a[1..] + sep + b, sep, i) {
        OccursAtShift(s, sep, i);
      }
      SplitAtFirst(a[1..], sep, b);
      assert [s[0]] + a[1..] == a;
    }
  }

  /** `"abc".replace(...)`-style global replacement by split and join. */
  function ReplaceAll(s: string, pat: string, with: string): string
    requires pat != []
  {
    Join(Split(s, pat), with)
  }

  /** Text without the pattern comes back unchanged. */
  lemma ReplaceAllWithout(s: string, pat: string, with: string)
    requires pat != [] && !Contains(s, pat)
    ensures ReplaceAll(s, pat, with) == s
  {
    SplitWithout(s, pat);
  }

  /** The first occurrence is replaced and the rest of the text is replaced in turn. */
  lemma ReplaceAllAtFirst(a: string, pat: string, with: string, b: string)
    requires pat != []
    requires forall i: nat :: i < |a| ==> !OccursAt(a + pat + b, pat, i)
    ensures ReplaceAll(a + pat + b, pat, with) == a + with + ReplaceAll(b, pat, with)
  {
    SplitAtFirst(a, pat, b);
    var rest := Split(b, pat);
    assert ([a] + rest)[1..] == rest;
  }

  /** `ch.repeat(n)` */
  function Repeat(ch: char, n: nat): (r: string)
    ensures |r| == n && forall k :: 0 <= k < n ==> r[k] == ch
  {
    if n == 0 then [] else [ch] + Repeat(ch, n - 1)
  }

  /** Joining a longer list: the last piece follows the joined prefix and one separator. */
  lemma {:induction false} JoinSnoc(parts: seq<string>, x: string, sep: string)
    requires parts != []
    ensures Join(parts + [x], sep) == Join(parts, sep) + sep + x
    decreases |parts|
  {
    if |parts| == 1 {
      assert parts + [x] == [parts[0], x];
    } else {
      assert (parts + [x])[1..] == parts[1..] + [x];
      JoinSnoc(parts[1..], x, sep);
    }
  }

  /** Joining two lists is joining their joins. */
  lemma {:induction false} JoinConcat(p: seq<string>, q: seq<string>, sep: string)
    requires p != [] && q != []
    ensures Join(p + q, sep) == Join(p, sep) + sep + Join(q, sep)
    decreases |p|
  {
    if |p| == 1 {
      assert p + q == [p[0]] + q;
      assert (p + q)[1..] == q;
    } else {
      assert (p + q)[1..] == p[1..] + q;
      JoinConcat(p[1..], q, sep);
    }
  }

  /** The joined text starts with the first piece and ends with the last one. */
  lemma {:induction false} JoinEnds(parts: seq<string>, sep: string)
    requires parts != []
    ensures StartsWith(Join(parts, sep), parts[0])
    ensures var j := Join(parts, sep); var l := parts[|parts| - 1];
      |l| <= |j| && j[|j| - |l|..] == l
    decreases |parts|
  {
    if |parts| > 1 {
      JoinEnds(parts[1..], sep);
    }
  }

  /** Splitting on a one-character separator, one character at a time. */
  lemma SplitCharCons(c: char, s: string, sep: char)
    ensures c == sep ==> Split([c] + s, [sep]) == [[]] + Split(s, [sep])
    ensures c != sep ==> Split([c] + s, [sep]) == [[c] + Split(s, [sep])[0]] + Split(s, [sep])[1..]
  {
    assert ([c] + s)[..1] == [c] && ([c] + s)[1..] == s;
  }

  /** Text without the one-character separator is a single piece. */
  lemma {:induction false} SplitNoChar(s: string, sep: char)
    requires forall k :: 0 <= k < |s| ==> s[k] != sep
    ensures Split(s, [sep]) == [s]
    decreases |s|
  {
    if s != [] {
      SplitNoChar(s[1..], sep);
      SplitCharCons(s[0], s[1..], sep);
      assert [s[0]] + s[1..] == s;
    }
  }

  /** One character more in front of `t` and of `u`, whose pieces are those of `t` and then `rest`. */
  lemma SplitCharConcatStep(x: char, t: string, u: string, sep: char, rest: seq<string>)
    requires Split(u, [sep]) == Split(t, [sep]) + rest
    ensures Split([x] + u, [sep]) == Split([x] + t, [sep]) + rest
  {
    SplitCharCons(x, u, sep);
    SplitCharCons(x, t, sep);
    if x != sep {
      GrowFirstPiece(x, Split(t, [sep]), rest);
    }
  }

  /** Growing the first piece before or after appending more pieces is the same. */
  lemma GrowFirstPiece(x: char, st: seq<string>, rest: seq<string>)
    requires st != []
    ensures [[x] + (st + rest)[0]] + (st + rest)[1..] == [[x] + st[0]] + st[1..] + rest
  {
    assert (st + rest)[0] == st[0];
    assert (st + rest)[1..] == st[1..] + rest;
  }

  /** Splitting `a + sep + b` on a one-character `sep` splits `a` and `b` apart. */
  lemma {:induction false} SplitCharConcat(a: string, sep: char, b: string)
    ensures Split(a + [sep] + b, [sep]) == Split(a, [sep]) + Split(b, [sep])
    decreases |a|
  {
    if a == [] {
      SplitCharCons(sep, b, sep);
      assert a + [sep] + b == [sep] + b;
      assert Split(a, [sep]) == [[]];
    } else {
      SplitCharConcat(a[1..], sep, b);
      SplitCharConcatStep(a[0], a[1..], a[1..] + [sep] + b, sep, Split(b, [sep]));
      assert a + [sep] + b == [a[0]] + (a[1..] + [sep] + b);
      assert a == [a[0]] + a[1..];
    }
  }

  /** Replacing a one-character pattern, one character at a time. */
  lemma ReplaceCharCons(c: char, s: string, pat: char, with: string)
    ensures ReplaceAll([c] + s, [pat], with) == (if c == pat then with else [c]) + ReplaceAll(s, [pat], with)
  {
    SplitCharCons(c, s, pat);
    var rest := Split(s, [pat]);
    if c == pat {
      assert ([[]] + rest)[1..] == rest;
    } else {
      JoinGrowFirst(c, rest, with);
    }
  }
}
