/** Text handling of the formatter: Python's `str.strip()`, the record split
    `re.split(';+|,+|\t+| +', line.strip())`, and `s.ljust(n)[:n]`. */
module Text {

  /** Python's `str.isspace()` characters, which `strip()` removes. */
  predicate IsWhitespace(c: char) {
    || c == ' '
    || '\t' <= c <= '\r'
    || '\U{1C}' <= c <= '\U{1F}'
    || c == '\U{85}' || c == '\U{A0}' || c == '\U{1680}'
    || '\U{2000}' <= c <= '\U{200A}'
    || c == '\U{2028}' || c == '\U{2029}' || c == '\U{202F}' || c == '\U{205F}' || c == '\U{3000}'
  }

  predicate AllWhitespace(s: string) {
    forall k :: 0 <= k < |s| ==> IsWhitespace(s[k])
  }

  /** No whitespace at either end. */
  predicate Trimmed(s: string) {
    s == [] || (!IsWhitespace(s[0]) && !IsWhitespace(s[|s| - 1]))
  }

  /** `lstrip()`: the longest suffix not starting with whitespace. */
  function TrimStart(s: string): (r: string)
    ensures |r| <= |s| && r == s[|s| - |r|..]
    ensures AllWhitespace(s[..|s| - |r|])
    ensures r == [] || !IsWhitespace(r[0])
  {
    if s == [] || !IsWhitespace(s[0]) then s
    else
      var r := TrimStart(s[1..]);
      assert AllWhitespace(s[..|s| - |r|]) by {
        var w, v := s[..|s| - |r|], s[1..][..|s| - 1 - |r|];
        forall k | 0 < k < |w| ensures IsWhitespace(w[k]) {
          assert w[k] == v[k - 1];
        }
      }
      r
  }

  /** `rstrip()`: the longest prefix not ending with whitespace. */
  function TrimEnd(s: string): (r: string)
    ensures |r| <= |s| && r == s[..|r|]
    ensures AllWhitespace(s[|r|..])
    ensures r == [] || !IsWhitespace(r[|r| - 1])
  {
    if s == [] || !IsWhitespace(s[|s| - 1]) then s
    else
      var r := TrimEnd(s[..|s| - 1]);
      assert AllWhitespace(s[|r|..]) by {
        var w, v := s[|r|..], s[..|s| - 1][|r|..];
        forall k | 0 <= k < |w| - 1 ensures IsWhitespace(w[k]) {
          assert w[k] == v[k];
        }
      }
      r
  }

  /** `strip()`. */
  function Strip(s: string): (r: string)
    ensures Trimmed(r)
    ensures |r| <= |s|
  {
    TrimEnd(TrimStart(s))
  }

  /** Whitespace in front of a text that does not start with whitespace is
      exactly what `lstrip()` removes. */
  lemma {:induction false} TrimStartExact(a: string, m: string)
    requires AllWhitespace(a) && (m == [] || !IsWhitespace(m[0]))
    ensures TrimStart(a + m) == m
    decreases |a|
  {
    if a == [] {
      assert a + m == m;
    } else {
      assert (a + m)[0] == a[0];
      assert (a + m)[1..] == a[1..] + m;
      assert AllWhitespace(a[1..]) by {
        forall k | 0 <= k < |a| - 1 ensures IsWhitespace(a[1..][k]) {
          assert a[1..][k] == a[k + 1];
        }
      }
      TrimStartExact(a[1..], m);
    }
  }

  /** Whitespace after a text that does not end with whitespace is exactly
      what `rstrip()` removes. */
  lemma {:induction false} TrimEndExact(m: string, b: string)
    requires AllWhitespace(b) && (m == [] || !IsWhitespace(m[|m| - 1]))
    ensures TrimEnd(m + b) == m
    decreases |b|
  {
    if b == [] {
      assert m + b == m;
    } else {
      var n := |b| - 1;
      assert (m + b)[|m + b| - 1] == b[n];
      assert (m + b)[..|m + b| - 1] == m + b[..n];
      assert AllWhitespace(b[..n]) by {
        forall k | 0 <= k < n ensures IsWhitespace(b[..n][k]) {
          assert b[..n][k] == b[k];
        }
      }
      TrimEndExact(m, b[..n]);
    }
  }

  /** Strip removes exactly the whitespace around the text, whatever it is. */
  lemma StripExact(a: string, m: string, b: string)
    requires AllWhitespace(a) && AllWhitespace(b) && Trimmed(m)
    ensures Strip(a + m + b) == m
  {
    assert a + m + b == a + (m + b);
    if m == [] {
      assert AllWhitespace(b) && m + b == b;
      TrimStartExact(a + b, []);
      assert a + b + [] == a + b;
      assert AllWhitespace(a + b) by {
        forall k | 0 <= k < |a + b| ensures IsWhitespace((a + b)[k]) {
          if k < |a| { assert (a + b)[k] == a[k]; } else { assert (a + b)[k] == b[k - |a|]; }
        }
      }
      TrimEndExact([], []);
    } else {
      assert (m + b)[0] == m[0];
      TrimStartExact(a, m + b);
      TrimEndExact(m, b);
    }
  }

  /** A trimmed text is its own strip. */
  lemma StripTrimmed(r: string)
    requires Trimmed(r)
    ensures Strip(r) == r
  {
    assert [] + r == r && r + [] == r;
    TrimStartExact([], r);
    TrimEndExact(r, []);
  }

  /** Strip is idempotent. */
  lemma StripIdempotent(s: string)
    ensures Strip(Strip(s)) == Strip(s)
  {
    StripTrimmed(Strip(s));
  }

  // ---------------------------------------------------------------------
  // re.split(';+|,+|\t+| +', s)

  /** The characters the split pattern separates on. */
  predicate IsDelimiter(c: char) {
    c == ';' || c == ',' || c == '\t' || c == ' '
  }

  predicate DelimiterFree(s: string) {
    forall k :: 0 <= k < |s| ==> !IsDelimiter(s[k])
  }

  /** What one alternative of the pattern matches: one delimiter, repeated. */
  predicate IsRun(r: string) {
    |r| > 0 && IsDelimiter(r[0]) && forall k :: 0 <= k < |r| ==> r[k] == r[0]
  }

  /** Length of the maximal run of `s[0]` at the head of `s` (the greedy `+`). */
  function RunLength(s: string): (n: nat)
    requires |s| > 0
    ensures 1 <= n <= |s|
    ensures forall k :: 0 <= k < n ==> s[k] == s[0]
    ensures n < |s| ==> s[n] != s[0]
  {
    if |s| == 1 || s[1] != s[0] then 1 else 1 + RunLength(s[1..])
  }

  /** The fields `re.split` returns: the text between successive matches. */
  function Split(s: string): (fields: seq<string>)
    ensures |fields| >= 1
    decreases |s|
  {
    if s == [] then [[]]
    else if IsDelimiter(s[0]) then [[]] + Split(s[RunLength(s)..])
    else
      var rest := Split(s[1..]);
      [[s[0]] + rest[0]] + rest[1..]
  }

  /** The matches themselves: the delimiter runs `re.split` cuts at. */
  function Runs(s: string): seq<string>
    decreases |s|
  {
    if s == [] then []
    else if IsDelimiter(s[0]) then [s[..RunLength(s)]] + Runs(s[RunLength(s)..])
    else Runs(s[1..])
  }

  /** Fields interleaved with the runs between them. */
  function Join(fields: seq<string>, runs: seq<string>): string
    requires |fields| == |runs| + 1
  {
    if runs == [] then fields[0] else fields[0] + runs[0] + Join(fields[1..], runs[1..])
  }

  predicate AllDelimiterFree(fields: seq<string>) {
    forall i :: 0 <= i < |fields| ==> DelimiterFree(fields[i])
  }

  predicate AllRuns(runs: seq<string>) {
    forall i :: 0 <= i < |runs| ==> IsRun(runs[i])
  }

  /** An empty field lies only between two runs of different delimiters. */
  predicate Maximal(fields: seq<string>, runs: seq<string>)
    requires |fields| == |runs| + 1 && AllRuns(runs)
  {
    forall i :: 0 < i < |runs| && fields[i] == [] ==> runs[i - 1][0] != runs[i][0]
  }

  /** `fields` and `runs` cut `s` at maximal runs of one delimiter kind. */
  predicate Decomposes(s: string, fields: seq<string>, runs: seq<string>) {
    && |fields| == |runs| + 1
    && AllDelimiterFree(fields)
    && AllRuns(runs)
    && Maximal(fields, runs)
    && Join(fields, runs) == s
  }

  /** Text without delimiters joins the first field. */
  lemma {:induction false} SplitFieldPrefix(a: string, t: string)
    requires DelimiterFree(a)
    ensures Split(a + t) == [a + Split(t)[0]] + Split(t)[1..]
    ensures Runs(a + t) == Runs(t)
    decreases |a|
  {
    if a != [] {
      assert (a + t)[0] == a[0];
      assert (a + t)[1..] == a[1..] + t;
      SplitFieldPrefix(a[1..], t);
      assert [a[0]] + (a[1..] + Split(t)[0]) == a + Split(t)[0];
    } else {
      assert a + t == t;
      assert [] + Split(t)[0] == Split(t)[0];
      assert [Split(t)[0]] + Split(t)[1..] == Split(t);
    }
  }

  /** A maximal run ends the first field. */
  lemma SplitAtRun(r: string, t: string)
    requires IsRun(r)
    requires t == [] || t[0] != r[0]
    ensures Split(r + t) == [[]] + Split(t)
    ensures Runs(r + t) == [r] + Runs(t)
  {
    var s := r + t;
    var n := RunLength(s);
    assert s[0] == r[0];
    assert forall k :: 0 <= k < |r| ==> s[k] == r[k] == r[0];
    assert |r| < |s| ==> s[|r|] == t[0];
    assert n == |r|;
    assert s[n..] == t;
    assert s[..n] == r;
  }

  lemma SplitDelimiterFree(a: string)
    requires DelimiterFree(a)
    ensures Split(a) == [a] && Runs(a) == []
  {
    SplitFieldPrefix(a, []);
    assert a + [] == a;
  }

  /** Split and Runs decompose every string. */
  lemma {:induction false} SplitDecomposes(s: string)
    ensures Decomposes(s, Split(s), Runs(s))
    decreases |s|
  {
    if s == [] {
    } else if IsDelimiter(s[0]) {
      var n := RunLength(s);
      var t := s[n..];
      SplitDecomposes(t);
      assert s == s[..n] + t;
      assert IsRun(s[..n]) by {
        forall k | 0 <= k < n ensures s[..n][k] == s[..n][0] {
          assert s[..n][k] == s[k];
        }
      }
      assert t == [] || t[0] != s[..n][0];
      RunThenDecomposes(s[..n], t, Split(t), Runs(t));
      assert Split(s) == [[]] + Split(t) && Runs(s) == [s[..n]] + Runs(t);
    } else {
      var t := s[1..];
      SplitDecomposes(t);
      assert s == [s[0]] + t;
      CharThenDecomposes(s[0], t, Split(t), Runs(t));
      assert Split(s) == [[s[0]] + Split(t)[0]] + Split(t)[1..] && Runs(s) == Runs(t);
    }
  }

  /** Fields never contain a delimiter. */
  lemma SplitFieldsDelimiterFree(s: string)
    ensures AllDelimiterFree(Split(s))
  {
    SplitDecomposes(s);
  }

  /** A maximal run in front of a decomposed text opens an empty first field. */
  lemma RunThenDecomposes(r: string, t: string, fields: seq<string>, runs: seq<string>)
    requires IsRun(r) && (t == [] || t[0] != r[0])
    requires Decomposes(t, fields, runs)
    ensures Decomposes(r + t, [[]] + fields, [r] + runs)
  {
    var f, rs := [[]] + fields, [r] + runs;
    assert AllDelimiterFree(f) by {
      forall i | 0 < i < |f| ensures DelimiterFree(f[i]) {
        assert f[i] == fields[i - 1];
      }
    }
    assert AllRuns(rs) by {
      forall i | 0 < i < |rs| ensures IsRun(rs[i]) {
        assert rs[i] == runs[i - 1];
      }
    }
    RunsStayMaximal(r, t, fields, runs);
    assert f[1..] == fields && rs[1..] == runs;
  }

  lemma RunsStayMaximal(r: string, t: string, fields: seq<string>, runs: seq<string>)
    requires IsRun(r) && (t == [] || t[0] != r[0])
    requires Decomposes(t, fields, runs)
    ensures AllRuns([r] + runs) && Maximal([[]] + fields, [r] + runs)
  {
    var f, rs := [[]] + fields, [r] + runs;
    assert AllRuns(rs) by {
      forall i | 0 < i < |rs| ensures IsRun(rs[i]) {
        assert rs[i] == runs[i - 1];
      }
    }
    if runs != [] && fields[0] == [] {
      assert t == [] + runs[0] + Join(fields[1..], runs[1..]);
      assert t[0] == runs[0][0];
    }
    forall i | 0 < i < |rs| && f[i] == []
      ensures rs[i - 1][0] != rs[i][0]
    {
      assert f[i] == fields[i - 1] && rs[i] == runs[i - 1];
      if i > 1 {
        assert rs[i - 1] == runs[i - 2];
      }
    }
  }

  /** A field character in front of a decomposed text joins its first field. */
  lemma CharThenDecomposes(c: char, t: string, fields: seq<string>, runs: seq<string>)
    requires !IsDelimiter(c)
    requires Decomposes(t, fields, runs)
    ensures Decomposes([c] + t, [[c] + fields[0]] + fields[1..], runs)
  {
    var f := [[c] + fields[0]] + fields[1..];
    assert AllDelimiterFree(f) by {
      assert DelimiterFree(fields[0]);
      forall i | 0 < i < |f| ensures DelimiterFree(f[i]) {
        assert f[i] == fields[i];
      }
    }
    assert Maximal(f, runs) by {
      forall i | 0 < i < |runs| && f[i] == []
        ensures runs[i - 1][0] != runs[i][0]
      {
        assert f[i] == fields[i];
      }
    }
    if runs != [] {
      assert f[1..] == fields[1..];
    }
  }

  /** Dropping the first field and run of a decomposition leaves a
      decomposition of the rest, which does not continue the dropped run. */
  lemma DecomposesTail(s: string, fields: seq<string>, runs: seq<string>)
    requires Decomposes(s, fields, runs) && runs != []
    ensures var t := Join(fields[1..], runs[1..]);
      && Decomposes(t, fields[1..], runs[1..])
      && s == fields[0] + (runs[0] + t)
      && (t == [] || t[0] != runs[0][0])
  {
    var t := Join(fields[1..], runs[1..]);
    assert Maximal(fields[1..], runs[1..]) by {
      forall i | 0 < i < |runs[1..]| && fields[1..][i] == []
        ensures runs[1..][i - 1][0] != runs[1..][i][0]
      {
        assert fields[1..][i] == fields[i + 1];
      }
    }
    if t != [] {
      if fields[1] != [] {
        assert t[0] == fields[1][0];
      } else {
        assert |runs| > 1 && runs[1][0] != runs[0][0];
        assert t == runs[1] + Join(fields[2..], runs[2..]);
        assert t[0] == runs[1][0];
      }
    }
  }

  /** Split and Runs are the only decomposition: re.split cuts nowhere else. */
  lemma {:induction false} SplitUnique(s: string, fields: seq<string>, runs: seq<string>)
    requires Decomposes(s, fields, runs)
    ensures fields == Split(s) && runs == Runs(s)
    decreases |runs|
  {
    if runs == [] {
      SplitDelimiterFree(s);
      assert fields == [fields[0]];
    } else {
      var t := Join(fields[1..], runs[1..]);
      DecomposesTail(s, fields, runs);
      SplitUnique(t, fields[1..], runs[1..]);
      SplitAtRun(runs[0], t);
      SplitFieldPrefix(fields[0], runs[0] + t);
      assert Split(runs[0] + t) == [[]] + fields[1..];
      assert fields[0] + [] == fields[0];
      assert fields == [fields[0]] + fields[1..];
      assert runs == [runs[0]] + runs[1..];
    }
  }

  /** A run of one repeated delimiter cuts once: `a;;;b` gives `a` and `b`. */
  lemma SplitRepeatedDelimiter(a: string, r: string, b: string)
    requires DelimiterFree(a) && DelimiterFree(b) && IsRun(r)
    ensures Split(a + r + b) == [a, b]
  {
    SplitDelimiterFree(b);
    if b != [] {
      assert !IsDelimiter(b[0]);
    }
    SplitAtRun(r, b);
    SplitFieldPrefix(a, r + b);
    assert a + r + b == a + (r + b);
    assert a + [] == a;
  }

  /** Two runs of different delimiters leave an empty field: `a, b` gives `a`, ``, `b`. */
  lemma SplitMixedDelimiters(a: string, r1: string, r2: string, b: string)
    requires DelimiterFree(a) && DelimiterFree(b) && IsRun(r1) && IsRun(r2)
    requires r1[0] != r2[0]
    ensures Split(a + r1 + r2 + b) == [a, [], b]
  {
    SplitDelimiterFree(b);
    if b != [] {
      assert !IsDelimiter(b[0]);
    }
    SplitAtRun(r2, b);
    assert (r2 + b)[0] == r2[0];
    SplitAtRun(r1, r2 + b);
    SplitFieldPrefix(a, r1 + (r2 + b));
    assert a + r1 + r2 + b == a + (r1 + (r2 + b));
    assert a + [] == a;
  }

  lemma SplitExamples()
    ensures Split("a;;;b") == ["a", "b"]
    ensures Split("a, b") == ["a", "", "b"]
  {
    SplitRepeatedDelimiter("a", ";;;", "b");
    assert "a" + ";;;" + "b" == "a;;;b";
    SplitMixedDelimiters("a", ",", " ", "b");
    assert "a" + "," + " " + "b" == "a, b";
  }

  // ---------------------------------------------------------------------
  // s.ljust(n)[:n]

  function Spaces(n: nat): (r: string)
    ensures |r| == n && forall k :: 0 <= k < n ==> r[k] == ' '
  {
    seq(n, _ => ' ')
  }

  /** `s.ljust(n)[:n]`: exactly `n` characters, `s` cut or padded with spaces. */
  function Fit(s: string, n: nat): (r: string)
    ensures |r| == n
    ensures forall k :: 0 <= k < n ==> r[k] == if k < |s| then s[k] else ' '
  {
    if |s| >= n then s[..n] else s + Spaces(n - |s|)
  }

  /** `rstrip(' ')`: what a reader of a fixed-width column takes as its text. */
  function TrimSpaces(s: string): (r: string)
    ensures |r| <= |s| && r == s[..|r|]
    ensures forall k :: |r| <= k < |s| ==> s[k] == ' '
    ensures r == [] || r[|r| - 1] != ' '
  {
    if s == [] || s[|s| - 1] != ' ' then s else TrimSpaces(s[..|s| - 1])
  }

  /** A space-free text is read back from its padded column, cut to the width. */
  lemma FitReadBack(s: string, n: nat)
    requires forall k :: 0 <= k < |s| ==> s[k] != ' '
    ensures |s| <= n ==> TrimSpaces(Fit(s, n)) == s
    ensures |s| > n ==> TrimSpaces(Fit(s, n)) == s[..n]
  {
    var f := Fit(s, n);
    var t := TrimSpaces(f);
    var m := if |s| <= n then |s| else n;
    assert m > 0 ==> f[m - 1] == s[m - 1];
    assert forall k :: m <= k < n ==> f[k] == ' ';
    assert t != [] ==> t[|t| - 1] == f[|t| - 1];
    assert |t| == m;
    assert t == f[..m];
  }
}
