/** Character-level helpers shared by the backend (Python `str.strip`,
    `str.lower`, `sorted` on strings) and the frontend (JavaScript
    `String.prototype.trim`). */
module Text {

  /** The characters Python's `str.isspace` accepts, i.e. what `strip()`
      with no argument removes. */
  const PythonWhitespace: set<char> :=
    {'\t', '\n', '\U{B}', '\U{C}', '\r', '\U{1C}', '\U{1D}', '\U{1E}', '\U{1F}', ' ',
     '\U{85}', '\U{A0}', '\U{1680}',
     '\U{2000}', '\U{2001}', '\U{2002}', '\U{2003}', '\U{2004}', '\U{2005}',
     '\U{2006}', '\U{2007}', '\U{2008}', '\U{2009}', '\U{200A}',
     '\U{2028}', '\U{2029}', '\U{202F}', '\U{205F}', '\U{3000}'}

  /** ECMAScript WhiteSpace and LineTerminator, i.e. what `trim()` removes. */
  const JsWhitespace: set<char> :=
    {'\t', '\n', '\U{B}', '\U{C}', '\r', ' ', '\U{A0}', '\U{1680}',
     '\U{2000}', '\U{2001}', '\U{2002}', '\U{2003}', '\U{2004}', '\U{2005}',
     '\U{2006}', '\U{2007}', '\U{2008}', '\U{2009}', '\U{200A}',
     '\U{2028}', '\U{2029}', '\U{202F}', '\U{205F}', '\U{3000}', '\U{FEFF}'}

  predicate AllIn(s: string, ws: set<char>)
  {
    forall i :: 0 <= i < |s| ==> s[i] in ws
  }

  /** Drops the leading characters that belong to `ws`. */
  function StripStart(s: string, ws: set<char>): string
  {
    if s == [] || s[0] !in ws then s else StripStart(s[1..], ws)
  }

  /** Drops the trailing characters that belong to `ws`. */
  function StripEnd(s: string, ws: set<char>): string
  {
    if s == [] || s[|s| - 1] !in ws then s else StripEnd(s[..|s| - 1], ws)
  }

  /** What `StripStart` removes is whitespace and what it keeps does not
      start with whitespace. */
  lemma {:induction false} StripStartSpec(s: string, ws: set<char>)
    ensures var r := StripStart(s, ws);
      |r| <= |s| && r == s[|s| - |r|..] && AllIn(s[..|s| - |r|], ws) && (r != [] ==> r[0] !in ws)
  {
    if s != [] && s[0] in ws {
      StripStartSpec(s[1..], ws);
      var r := StripStart(s, ws);
      assert s[1..][..|s[1..]| - |r|] == s[1..|s| - |r|];
    }
  }

  /** What `StripEnd` removes is whitespace and what it keeps does not end
      with whitespace. */
  lemma {:induction false} StripEndSpec(s: string, ws: set<char>)
    ensures var r := StripEnd(s, ws);
      |r| <= |s| && r == s[..|r|] && AllIn(s[|r|..], ws) && (r != [] ==> r[|r| - 1] !in ws)
  {
    if s != [] && s[|s| - 1] in ws {
      StripEndSpec(s[..|s| - 1], ws);
      var r := StripEnd(s, ws);
      assert s[..|s| - 1][|r|..] + [s[|s| - 1]] == s[|r|..];
    }
  }

  /** Both ends: Python `strip()` with `PythonWhitespace`, JavaScript
      `trim()` with `JsWhitespace`. */
  function Strip(s: string, ws: set<char>): string
  {
    StripEnd(StripStart(s, ws), ws)
  }

  /** The stripped string is a contiguous slice of the input, everything
      dropped on either side is whitespace, and what is kept has no
      whitespace at either end. */
  lemma StripSpec(s: string, ws: set<char>)
    ensures var r := Strip(s, ws);
      r != [] ==> r[0] !in ws && r[|r| - 1] !in ws
    ensures var r := Strip(s, ws);
      exists a, b :: 0 <= a <= b <= |s| && r == s[a..b] && AllIn(s[..a], ws) && AllIn(s[b..], ws)
  {
    var t := StripStart(s, ws);
    StripStartSpec(s, ws);
    StripEndSpec(t, ws);
    var r := Strip(s, ws);
    if r != [] {
      assert r[0] == t[0];
    }
    var a := |s| - |t|;
    var b := a + |r|;
    assert r == s[a..b];
    assert s[b..] == t[|r|..];
  }

  /** A string strips to nothing exactly when all of it is whitespace. */
  lemma StripEmptyIffAllWhitespace(s: string, ws: set<char>)
    ensures Strip(s, ws) == [] <==> AllIn(s, ws)
  {
    var t := StripStart(s, ws);
    StripStartSpec(s, ws);
    StripEndSpec(t, ws);
    if Strip(s, ws) == [] {
      assert t[0..] == t;
      assert t == [] by {
        if t != [] {
          assert false;
        }
      }
      assert s[..|s| - |t|] == s;
    } else {
      var r := Strip(s, ws);
      assert t != [] && r[0] == t[0];
      assert s[|s| - |t|] == t[0];
    }
  }

  /** A string that does not start or end with whitespace strips to itself. */
  lemma StripUnchanged(s: string, ws: set<char>)
    requires s != [] ==> s[0] !in ws && s[|s| - 1] !in ws
    ensures Strip(s, ws) == s
  {
  }

  /** Stripping a stripped string changes nothing. */
  lemma StripIdempotent(s: string, ws: set<char>)
    ensures Strip(Strip(s, ws), ws) == Strip(s, ws)
  {
    StripSpec(s, ws);
    StripUnchanged(Strip(s, ws), ws);
  }

  /** ASCII lower-casing of one character. */
  function LowerChar(c: char): (d: char)
  {
    if 'A' <= c <= 'Z' then (c as int - 'A' as int + 'a' as int) as char else c
  }

  /** Python `lower()` restricted to the ASCII letters. */
  function Lower(s: string): string
  {
    if s == [] then [] else [LowerChar(s[0])] + Lower(s[1..])
  }

  lemma {:induction false} LowerSpec(s: string)
    ensures |Lower(s)| == |s|
    ensures forall i :: 0 <= i < |s| ==> Lower(s)[i] == LowerChar(s[i])
  {
    if s != [] {
      LowerSpec(s[1..]);
    }
  }

  lemma {:induction false} LowerIdempotent(s: string)
    ensures Lower(Lower(s)) == Lower(s)
  {
    if s != [] {
      LowerIdempotent(s[1..]);
    }
  }

  /** Python string order: code point by code point, a proper prefix first. */
  predicate LexLess(a: string, b: string)
  {
    if a == [] then b != []
    else if b == [] then false
    else if a[0] != b[0] then a[0] < b[0]
    else LexLess(a[1..], b[1..])
  }

  lemma {:induction false} LexLessIrreflexive(a: string)
    ensures !LexLess(a, a)
  {
    if a != [] {
      LexLessIrreflexive(a[1..]);
    }
  }

  lemma {:induction false} LexLessTransitive(a: string, b: string, c: string)
    requires LexLess(a, b) && LexLess(b, c)
    ensures LexLess(a, c)
  {
    if a != [] && b != [] && c != [] && a[0] == b[0] && b[0] == c[0] {
      LexLessTransitive(a[1..], b[1..], c[1..]);
    }
  }

  lemma {:induction false} LexLessTotal(a: string, b: string)
    requires a != b
    ensures LexLess(a, b) || LexLess(b, a)
  {
    if a != [] && b != [] && a[0] == b[0] {
      assert a == [a[0]] + a[1..] && b == [b[0]] + b[1..];
      LexLessTotal(a[1..], b[1..]);
    }
  }

  lemma {:induction false} LexLessAsymmetric(a: string, b: string)
    requires LexLess(a, b)
    ensures !LexLess(b, a)
  {
    if a != [] && b != [] && a[0] == b[0] {
      LexLessAsymmetric(a[1..], b[1..]);
    }
  }

  predicate StrictlySorted(s: seq<string>)
  {
    forall i, j :: 0 <= i < j < |s| ==> LexLess(s[i], s[j])
  }

  /** `m` comes before every other member of `s`. */
  predicate IsLeast(m: string, s: set<string>)
  {
    m in s && forall y :: y in s && y != m ==> LexLess(m, y)
  }

  lemma {:induction false} LeastExists(s: set<string>)
    requires s != {}
    ensures exists m :: IsLeast(m, s)
    decreases |s|
  {
    var x :| x in s;
    var rest := s - {x};
    if rest == {} {
      assert s == {x};
      assert IsLeast(x, s);
    } else {
      LeastExists(rest);
      var m :| IsLeast(m, rest);
      if LexLess(x, m) {
        forall y | y in s && y != x ensures LexLess(x, y) {
          if y != m {
            LexLessTransitive(x, m, y);
          }
        }
        assert IsLeast(x, s);
      } else {
        LexLessTotal(x, m);
        assert IsLeast(m, s);
      }
    }
  }

  lemma LeastUnique(s: set<string>)
    ensures forall m1, m2 :: IsLeast(m1, s) && IsLeast(m2, s) ==> m1 == m2
  {
    forall m1, m2 | IsLeast(m1, s) && IsLeast(m2, s) ensures m1 == m2 {
      if m1 != m2 {
        LexLessAsymmetric(m1, m2);
      }
    }
  }

  /** Python `sorted` applied to a set of strings. */
  function SortedStrings(s: set<string>): (r: seq<string>)
    ensures StrictlySorted(r)
    ensures forall k :: k in r <==> k in s
    ensures |r| == |s|
    decreases |s|
  {
    if s == {} then []
    else
      LeastExists(s);
      LeastUnique(s);
      var m :| IsLeast(m, s);
      var rest := SortedStrings(s - {m});
      assert forall j :: 0 <= j < |rest| ==> LexLess(m, rest[j]) by {
        forall j | 0 <= j < |rest| ensures LexLess(m, rest[j]) {
          assert rest[j] in s - {m};
        }
      }
      [m] + rest
  }

  /** No string occurs twice. */
  predicate Distinct(s: seq<string>)
  {
    forall i, j :: 0 <= i < |s| && 0 <= j < |s| && s[i] == s[j] ==> i == j
  }

  /** In a strictly sorted sequence no string occurs twice. */
  lemma SortedDistinct(s: seq<string>)
    requires StrictlySorted(s)
    ensures Distinct(s)
  {
    forall i, j | 0 <= i < |s| && 0 <= j < |s| && s[i] == s[j] ensures i == j {
      if i != j {
        LexLessIrreflexive(s[i]);
      }
    }
  }
}
