/** The handful of Python `str` operations the catalogue code relies on:
    `startswith`, `replace(old, "")`, `split(sep)`, `os.path.join` and `str(int)`. */
module Text {

  predicate StartsWith(s: string, prefix: string) {
    |prefix| <= |s| && s[..|prefix|] == prefix
  }

  predicate EndsWith(s: string, suffix: string) {
    |suffix| <= |s| && s[|s| - |suffix|..] == suffix
  }

  /** `pat` occurs in `s` starting at index `i`. */
  predicate OccursAt(s: string, pat: string, i: nat) {
    i + |pat| <= |s| && s[i..i + |pat|] == pat
  }

  predicate Occurs(s: string, pat: string) {
    exists i: nat | i <= |s| :: OccursAt(s, pat, i)
  }

  /** No proper non-empty suffix of `pat` is also a prefix of it, so two
      occurrences of `pat` can never overlap. */
  predicate Unbordered(pat: string) {
    forall k :: 0 < k < |pat| ==> pat[k..] != pat[..|pat| - k]
  }

  // ---------------------------------------------------------------------------
  // s.replace(pat, "")
  // ---------------------------------------------------------------------------

  /** `s.replace(pat, "")`: every occurrence of `pat`, scanning left to right
      and never re-examining removed text, is deleted. */
  function Remove(s: string, pat: string): (r: string)
    requires pat != []
    ensures |r| <= |s|
    decreases |s|
  {
    if |s| < |pat| then s
    else if s[..|pat|] == pat then Remove(s[|pat|..], pat)
    else [s[0]] + Remove(s[1..], pat)
  }

  /** Removing a pattern that does not occur changes nothing. */
  lemma {:induction false} RemoveAbsent(s: string, pat: string)
    requires pat != [] && !Occurs(s, pat)
    ensures Remove(s, pat) == s
    decreases |s|
  {
    if |s| >= |pat| {
      assert !OccursAt(s, pat, 0);
      assert s[..|pat|] != pat;
      forall i: nat | OccursAt(s[1..], pat, i)
        ensures false
      {
        assert s[1..][i..i + |pat|] == s[i + 1..i + 1 + |pat|];
        assert OccursAt(s, pat, i + 1);
      }
      RemoveAbsent(s[1..], pat);
    }
  }

  /** A leading occurrence is removed and the scan goes on after it. */
  lemma RemoveLeading(pat: string, s: string)
    requires pat != []
    ensures Remove(pat + s, pat) == Remove(s, pat)
  {
    assert (pat + s)[..|pat|] == pat;
    assert (pat + s)[|pat|..] == s;
  }

  /** A trailing occurrence of an unbordered pattern is removed and nothing
      before it is disturbed. */
  lemma {:induction false} RemoveTrailing(s: string, pat: string)
    requires pat != [] && Unbordered(pat) && !Occurs(s, pat)
    ensures Remove(s + pat, pat) == s
    decreases |s|
  {
    var t := s + pat;
    if s == [] {
      assert t == pat + [];
      RemoveLeading(pat, []);
    } else if t[..|pat|] == pat {
      if |s| >= |pat| {
        assert s[..|pat|] == t[..|pat|];
        assert OccursAt(s, pat, 0);
      } else {
        OverlapIsBorder(s, pat);
        assert false;
      }
    } else {
      forall i: nat | OccursAt(s[1..], pat, i)
        ensures false
      {
        assert s[1..][i..i + |pat|] == s[i + 1..i + 1 + |pat|];
        assert OccursAt(s, pat, i + 1);
      }
      RemoveTrailing(s[1..], pat);
      assert t[1..] == s[1..] + pat;
      assert s == [s[0]] + s[1..];
    }
  }

  /** A prefix in which no occurrence starts is kept as it is. */
  lemma {:induction false} RemoveSkip(x: string, y: string, pat: string)
    requires pat != []
    requires forall i: nat :: i < |x| ==> !OccursAt(x + y, pat, i)
    ensures Remove(x + y, pat) == x + Remove(y, pat)
    decreases |x|
  {
    if x != [] {
      var t := x + y;
      assert !OccursAt(t, pat, 0);
      if |t| >= |pat| {
        assert t[..|pat|] != pat;
        assert t[1..] == x[1..] + y;
        forall i: nat | i < |x[1..]|
          ensures !OccursAt(x[1..] + y, pat, i)
        {
          assert !OccursAt(t, pat, i + 1);
          if i + |pat| <= |t| - 1 {
            assert (x[1..] + y)[i..i + |pat|] == t[i + 1..i + 1 + |pat|];
          }
        }
        RemoveSkip(x[1..], y, pat);
        assert Remove(t, pat) == [t[0]] + Remove(t[1..], pat);
        assert x == [x[0]] + x[1..];
      } else {
        assert Remove(y, pat) == y;
      }
    } else {
      assert x + y == y;
    }
  }

  /** Joining tokens with a separator that `pat` holds only as its last
      character spells `pat` nowhere, unless some token ends with the rest of `pat`. */
  lemma {:induction false} RemoveJoin(tokens: seq<string>, sep: char, pat: string)
    requires |tokens| >= 1 && pat != [] && pat[|pat| - 1] == sep && sep !in pat[..|pat| - 1]
    requires forall k :: 0 <= k < |tokens| ==> sep !in tokens[k] && !EndsWith(tokens[k], pat[..|pat| - 1])
    ensures Remove(Join(tokens, sep), pat) == Join(tokens, sep)
    decreases |tokens|
  {
    if |tokens| == 1 {
      RemoveAbsent(tokens[0], pat);
    } else {
      var a := tokens[0];
      var rest := Join(tokens[1..], sep);
      var x := a + [sep];
      var t := x + rest;
      assert Join(tokens, sep) == t;
      forall i: nat | i < |x|
        ensures !OccursAt(t, pat, i)
      {
        var m := |pat| - 1;
        if i + |pat| <= |t| && i + m == |a| {
          assert a[|a| - m..] == t[i..i + m];
          assert t[i..i + |pat|][..m] == t[i..i + m];
        } else if i + |pat| <= |t| && i + m > |a| {
          assert t[i..i + |pat|][|a| - i] == t[|a|];
        }
      }
      RemoveSkip(x, rest, pat);
      RemoveJoin(tokens[1..], sep, pat);
    }
  }

  /** An occurrence straddling the end of a short `s` makes `pat` bordered. */
  lemma OverlapIsBorder(s: string, pat: string)
    requires 0 < |s| < |pat| && (s + pat)[..|pat|] == pat
    ensures pat[|s|..] == pat[..|pat| - |s|]
  {
    var k := |s|;
    assert (s + pat)[..|pat|] == s + pat[..|pat| - k];
    assert pat[k..] == (s + pat)[..|pat|][k..];
  }

  /** A pattern that starts with a character `s` never contains does not occur in `s`. */
  lemma AbsentByFirstChar(s: string, pat: string)
    requires pat != [] && pat[0] !in s
    ensures !Occurs(s, pat)
  {
    forall i: nat | OccursAt(s, pat, i)
      ensures false
    {
    }
  }

  // ---------------------------------------------------------------------------
  // s.split(sep) and sep.join(tokens)
  // ---------------------------------------------------------------------------

  /** `s.split(sep)` for a one-character separator: adjacent separators give
      empty tokens and the empty string gives one empty token. */
  function Split(s: string, sep: char): (r: seq<string>)
    ensures |r| >= 1
    ensures forall k :: 0 <= k < |r| ==> sep !in r[k]
    decreases |s|
  {
    if s == [] then [[]]
    else
      var rest := Split(s[1..], sep);
      if s[0] == sep then [[]] + rest
      else [[s[0]] + rest[0]] + rest[1..]
  }

  /** `sep.join(tokens)`. */
  function Join(tokens: seq<string>, sep: char): string
    requires |tokens| >= 1
  {
    if |tokens| == 1 then tokens[0] else tokens[0] + [sep] + Join(tokens[1..], sep)
  }

  /** Splitting and joining back gives the original string. */
  lemma {:induction false} JoinSplit(s: string, sep: char)
    ensures Join(Split(s, sep), sep) == s
    decreases |s|
  {
    if s != [] {
      var rest := Split(s[1..], sep);
      JoinSplit(s[1..], sep);
      if s[0] == sep {
        assert Split(s, sep)[1..] == rest;
        assert s == [sep] + s[1..];
      } else {
        var r := Split(s, sep);
        assert r[0] == [s[0]] + rest[0] && r[1..] == rest[1..];
        if |rest| > 1 {
          assert Join(rest, sep) == rest[0] + [sep] + Join(rest[1..], sep);
        }
        assert s == [s[0]] + s[1..];
      }
    }
  }

  /** A token followed by a separator becomes the first element of the split. */
  lemma {:induction false} SplitAfterToken(a: string, b: string, sep: char)
    requires sep !in a
    ensures Split(a + [sep] + b, sep) == [a] + Split(b, sep)
    decreases |a|
  {
    var s := a + [sep] + b;
    if a == [] {
      assert s[0] == sep && s[1..] == b;
    } else {
      assert s[0] == a[0] && s[1..] == a[1..] + [sep] + b;
      SplitAfterToken(a[1..], b, sep);
      assert [a[0]] + a[1..] == a;
    }
  }

  /** A string without separators splits into itself. */
  lemma {:induction false} SplitToken(a: string, sep: char)
    requires sep !in a
    ensures Split(a, sep) == [a]
    decreases |a|
  {
    if a != [] {
      SplitToken(a[1..], sep);
      assert [a[0]] + a[1..] == a;
    }
  }

  /** Joining separator-free tokens and splitting again gives the tokens back. */
  lemma {:induction false} SplitJoin(tokens: seq<string>, sep: char)
    requires |tokens| >= 1
    requires forall k :: 0 <= k < |tokens| ==> sep !in tokens[k]
    ensures Split(Join(tokens, sep), sep) == tokens
    decreases |tokens|
  {
    if |tokens| == 1 {
      SplitToken(tokens[0], sep);
    } else {
      SplitJoin(tokens[1..], sep);
      SplitAfterToken(tokens[0], Join(tokens[1..], sep), sep);
      assert tokens == [tokens[0]] + tokens[1..];
    }
  }

  /** Every character of a join is the separator or a character of some token. */
  lemma {:induction false} JoinChars(tokens: seq<string>, sep: char, c: char)
    requires |tokens| >= 1
    requires c in Join(tokens, sep)
    ensures c == sep || exists k :: 0 <= k < |tokens| && c in tokens[k]
    decreases |tokens|
  {
    if |tokens| > 1 {
      var rest := Join(tokens[1..], sep);
      if c !in tokens[0] && c != sep {
        assert c in rest;
        JoinChars(tokens[1..], sep, c);
        var k :| 0 <= k < |tokens[1..]| && c in tokens[1..][k];
        assert c in tokens[k + 1];
      }
    }
  }

  // ---------------------------------------------------------------------------
  // os.path.join (POSIX)
  // ---------------------------------------------------------------------------

  /** posixpath.join for two components: an absolute second component
      replaces the first; a separator is inserted only when needed. */
  function PathJoin2(a: string, b: string): string {
    if StartsWith(b, "/") then b
    else if a == [] || a[|a| - 1] == '/' then a + b
    else a + "/" + b
  }

  /** posixpath.join(parts[0], parts[1], ...). */
  function PathJoin(parts: seq<string>): string
    requires |parts| >= 1
    decreases |parts|
  {
    if |parts| == 1 then parts[0]
    else PathJoin2(PathJoin(parts[..|parts| - 1]), parts[|parts| - 1])
  }

  /** A component that is non-empty and neither starts nor ends with '/'. */
  predicate PlainComponent(s: string) {
    s != [] && s[0] != '/' && s[|s| - 1] != '/'
  }

  /** Joining plain components is joining them with '/'. */
  lemma {:induction false} PathJoinPlain(parts: seq<string>)
    requires |parts| >= 1
    requires forall k :: 0 <= k < |parts| ==> PlainComponent(parts[k])
    ensures PathJoin(parts) == Join(parts, '/')
    ensures PathJoin(parts) != [] && PathJoin(parts)[|PathJoin(parts)| - 1] != '/'
    decreases |parts|
  {
    if |parts| > 1 {
      var init := parts[..|parts| - 1];
      var last := parts[|parts| - 1];
      PathJoinPlain(init);
      JoinSnoc(init, last, '/');
      assert parts == init + [last];
      assert !StartsWith(last, "/");
      assert PathJoin(parts) == PathJoin(init) + "/" + last;
    }
  }

  /** Joining with one more token at the end appends a separator and the token. */
  lemma {:induction false} JoinSnoc(tokens: seq<string>, last: string, sep: char)
    requires |tokens| >= 1
    ensures Join(tokens + [last], sep) == Join(tokens, sep) + [sep] + last
    decreases |tokens|
  {
    if |tokens| > 1 {
      JoinSnoc(tokens[1..], last, sep);
      assert (tokens + [last])[1..] == tokens[1..] + [last];
    }
  }

  // ---------------------------------------------------------------------------
  // str(n) for a non-negative int
  // ---------------------------------------------------------------------------

  function DigitChar(d: nat): char
    requires d < 10
  {
    ('0' as int + d) as char
  }

  function NatToDecimal(n: nat): (r: string)
    ensures |r| >= 1
    ensures forall k :: 0 <= k < |r| ==> '0' <= r[k] <= '9'
    ensures |r| > 1 ==> r[0] != '0'
  {
    if n < 10 then [DigitChar(n)] else NatToDecimal(n / 10) + [DigitChar(n % 10)]
  }

  /** Reads back a string of decimal digits. */
  function DecimalValue(s: string): nat
    requires forall k :: 0 <= k < |s| ==> '0' <= s[k] <= '9'
  {
    if s == [] then 0 else 10 * DecimalValue(s[..|s| - 1]) + (s[|s| - 1] - '0') as nat
  }

  lemma {:induction false} DecimalRoundTrip(n: nat)
    ensures DecimalValue(NatToDecimal(n)) == n
  {
    if n >= 10 {
      var q, d := n / 10, n % 10;
      DecimalRoundTrip(q);
      var p := NatToDecimal(q);
      var r := NatToDecimal(n);
      assert r == p + [DigitChar(d)];
      assert r[..|r| - 1] == p;
      assert (r[|r| - 1] - '0') as nat == d;
      assert n == 10 * q + d;
    }
  }

  /** Distinct numbers have distinct decimal spellings, so comparing
      `str(year)` with the catalogue's year text is comparing the years. */
  lemma NatToDecimalInjective(a: nat, b: nat)
    requires NatToDecimal(a) == NatToDecimal(b)
    ensures a == b
  {
    DecimalRoundTrip(a);
    DecimalRoundTrip(b);
  }
}
