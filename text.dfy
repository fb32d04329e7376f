/**
  The few functions of Go's `strings` and `unicode` packages that the core relies on,
  over strings as sequences of characters.
 */
module Text {

  /** Go's `unicode.IsSpace`: ASCII white space, NEL, NBSP and the other Unicode White_Space code points. */
  predicate IsSpace(c: char) {
    || c == ' ' || c == '\t' || c == '\n' || c == '\U{000B}' || c == '\U{000C}' || c == '\r'
    || c == '\U{0085}' || c == '\U{00A0}' || c == '\U{1680}'
    || ('\U{2000}' <= c <= '\U{200A}')
    || c == '\U{2028}' || c == '\U{2029}' || c == '\U{202F}' || c == '\U{205F}' || c == '\U{3000}'
  }

  /** The cutset `"\""` of `strings.Trim(s, "\"")`. */
  predicate IsQuote(c: char) {
    c == '"'
  }

  /** Go's `strings.HasPrefix`. */
  predicate HasPrefix(s: string, prefix: string) {
    |prefix| <= |s| && s[..|prefix|] == prefix
  }

  /** Go's `strings.TrimLeftFunc`: drops the longest prefix whose characters all satisfy `f`. */
  function TrimLeftFunc(s: string, f: char -> bool): (r: string)
    ensures |r| <= |s| && r == s[|s| - |r|..]
    ensures r == [] || !f(r[0])
  {
    if |s| > 0 && f(s[0]) then TrimLeftFunc(s[1..], f) else s
  }

  /** Go's `strings.TrimRightFunc`: drops the longest suffix whose characters all satisfy `f`. */
  function TrimRightFunc(s: string, f: char -> bool): (r: string)
    ensures |r| <= |s| && r == s[..|r|]
    ensures r == [] || !f(r[|r| - 1])
  {
    if |s| > 0 && f(s[|s| - 1]) then TrimRightFunc(s[..|s| - 1], f) else s
  }

  /** Every character TrimLeftFunc drops satisfies `f`. */
  lemma {:induction false} TrimLeftFuncDrops(s: string, f: char -> bool)
    ensures forall i :: 0 <= i < |s| - |TrimLeftFunc(s, f)| ==> f(s[i])
  {
    if |s| > 0 && f(s[0]) {
      TrimLeftFuncDrops(s[1..], f);
      assert forall i :: 1 <= i < |s| ==> s[i] == s[1..][i - 1];
    }
  }

  /** Every character TrimRightFunc drops satisfies `f`. */
  lemma {:induction false} TrimRightFuncDrops(s: string, f: char -> bool)
    ensures forall i :: |TrimRightFunc(s, f)| <= i < |s| ==> f(s[i])
  {
    if |s| > 0 && f(s[|s| - 1]) {
      TrimRightFuncDrops(s[..|s| - 1], f);
    }
  }

  /** Go's `strings.TrimSpace`. */
  function TrimSpace(s: string): string {
    TrimRightFunc(TrimLeftFunc(s, IsSpace), IsSpace)
  }

  /** Go's `strings.Trim(s, "\"")`: strips every leading and every trailing double quote. */
  function TrimQuotes(s: string): string {
    TrimRightFunc(TrimLeftFunc(s, IsQuote), IsQuote)
  }

  /** What strings.Trim(s, "\"") leaves neither begins nor ends with a double quote. */
  lemma TrimQuotesEnds(s: string)
    ensures var r := TrimQuotes(s); r == [] || (r[0] != '"' && r[|r| - 1] != '"')
  {
    var l := TrimLeftFunc(s, IsQuote);
    var r := TrimRightFunc(l, IsQuote);
    if r != [] {
      assert r[0] == l[0];
    }
  }

  /** Nothing is trimmed from a string whose first and last characters fail `f`. */
  lemma TrimFuncNoop(s: string, f: char -> bool)
    requires s == [] || (!f(s[0]) && !f(s[|s| - 1]))
    ensures TrimRightFunc(TrimLeftFunc(s, f), f) == s
  {
  }

  /** TrimSpace leaves alone a string that neither begins nor ends with white space. */
  lemma TrimSpaceNoop(s: string)
    requires s == [] || (!IsSpace(s[0]) && !IsSpace(s[|s| - 1]))
    ensures TrimSpace(s) == s
  {
    TrimFuncNoop(s, IsSpace);
  }

  /** A value between double quotes begins and ends with a double quote. */
  lemma QuotedEnds(v: string)
    ensures var q := "\"" + v + "\""; q[0] == '"' && q[|q| - 1] == '"'
  {
  }

  /** Trimming quotes from a quoted value that neither begins nor ends with a quote gives back the value. */
  lemma {:induction false} TrimQuotesOfQuoted(v: string)
    requires v == [] || (v[0] != '"' && v[|v| - 1] != '"')
    ensures TrimQuotes("\"" + v + "\"") == v
  {
    var w := v + "\"";
    var q := "\"" + w;
    assert "\"" + v + "\"" == q;
    assert IsQuote(q[0]) && q[1..] == w;
    var l := TrimLeftFunc(q, IsQuote);
    assert l == TrimLeftFunc(w, IsQuote);
    if v == [] {
      assert w[1..] == [];
      assert l == [];
    } else {
      assert !IsQuote(w[0]);
      assert l == w;
      assert IsQuote(w[|w| - 1]) && w[..|w| - 1] == v;
      assert TrimRightFunc(w, IsQuote) == TrimRightFunc(v, IsQuote);
      assert !IsQuote(v[|v| - 1]);
      assert TrimRightFunc(v, IsQuote) == v;
    }
  }

  /** White space and then quotes trimmed from a quoted value that neither begins nor ends with a quote give back the value. */
  lemma {:induction false} TrimQuotedValue(v: string)
    requires v == [] || (v[0] != '"' && v[|v| - 1] != '"')
    ensures TrimQuotes(TrimSpace("\"" + v + "\"")) == v
  {
    TrimQuotesOfQuoted(v);
    TrimSpaceOfQuoted(v);
  }

  /** A value between double quotes has no white space to trim. */
  lemma TrimSpaceOfQuoted(v: string)
    ensures TrimSpace("\"" + v + "\"") == "\"" + v + "\""
  {
    QuotedEnds(v);
    TrimSpaceNoop("\"" + v + "\"");
  }

  /** Index of the first `c` in `s`, or -1 (Go's `strings.IndexByte`). */
  function IndexOf(s: string, c: char): (i: int)
    ensures -1 <= i < |s|
    ensures i == -1 <==> c !in s
    ensures 0 <= i ==> s[i] == c && c !in s[..i]
  {
    if |s| == 0 then -1
    else if s[0] == c then 0
    else
      var j := IndexOf(s[1..], c);
      assert s[1..][..j + 1] == s[1..j + 2] by { }
      if j < 0 then -1 else j + 1
  }

  /** Go's `strings.SplitN(s, sep, 2)` for a one-character separator: cuts at the first `sep` only. */
  function SplitN2(s: string, sep: char): (parts: seq<string>)
    ensures 1 <= |parts| <= 2
    ensures |parts| == 2 <==> sep in s
    ensures |parts| == 1 ==> parts[0] == s
    ensures |parts| == 2 ==> parts[0] + [sep] + parts[1] == s && sep !in parts[0]
  {
    var i := IndexOf(s, sep);
    if i < 0 then [s]
    else
      assert s[..i] + [sep] + s[i + 1..] == s;
      [s[..i], s[i + 1..]]
  }

  /** A string cut at its first `sep` is cut in exactly one way. */
  lemma CutUnique(a: string, b: string, c: string, d: string, sep: char)
    requires a + [sep] + b == c + [sep] + d
    requires sep !in a && sep !in c
    ensures a == c && b == d
  {
    var s := a + [sep] + b;
    assert forall k :: 0 <= k < |a| ==> s[k] == a[k] != sep;
    assert forall k :: 0 <= k < |c| ==> s[k] == c[k] != sep;
    assert s[|a|] == sep && s[|c|] == sep;
    assert |a| == |c|;
    assert a == s[..|a|] == c;
    assert b == s[|a| + 1..] == d;
  }

  /** Go's `strings.Join(parts, sep)` for a one-character separator. */
  function Join(parts: seq<string>, sep: char): string {
    if |parts| == 0 then ""
    else if |parts| == 1 then parts[0]
    else parts[0] + [sep] + Join(parts[1..], sep)
  }

  /** Go's `strings.Split(s, sep)` for a one-character separator: the pieces between separators. */
  function Split(s: string, sep: char): (parts: seq<string>)
    ensures |parts| >= 1
    ensures forall i :: 0 <= i < |parts| ==> sep !in parts[i]
  {
    if |s| == 0 then [""]
    else
      var rest := Split(s[1..], sep);
      if s[0] == sep then
        assert s == [sep] + s[1..];
        [""] + rest
      else
        var parts := [[s[0]] + rest[0]] + rest[1..];
        assert rest == [rest[0]] + rest[1..];
        assert parts[1..] == rest[1..];
        assert s == [s[0]] + s[1..];
        parts
  }

  /** Joining the pieces of a split gives back the string. */
  lemma {:induction false} JoinOfSplit(s: string, sep: char)
    ensures Join(Split(s, sep), sep) == s
  {
    if s != [] {
      var c, t := s[0], s[1..];
      assert s == [c] + t;
      JoinOfSplit(t, sep);
      SplitCons(c, t, sep);
      var r := Split(t, sep);
      if c != sep {
        assert r == [r[0]] + r[1..];
        if |r| == 1 {
          assert t == r[0];
        } else {
          assert t == r[0] + [sep] + Join(r[1..], sep);
        }
      }
    }
  }

  /** The empty text is neutral on either side. */
  lemma AppendEmpty(s: string)
    ensures "" + s == s && s + "" == s
  {
  }

  /** Text appended after text appended after a prefix is appended after the prefix. */
  lemma AppendAfter(prefix: string, before: string, next: string)
    ensures (prefix + before) + next == prefix + (before + next)
  {
  }

  /** The text of a file made of `lines`, each followed by a newline. */
  function Unlines(lines: seq<string>): string {
    if lines == [] then "" else Unlines(lines[..|lines| - 1]) + lines[|lines| - 1] + "\n"
  }

  lemma {:induction false} UnlinesAppend(a: seq<string>, b: seq<string>)
    ensures Unlines(a + b) == Unlines(a) + Unlines(b)
  {
    if b != [] {
      var n := |b| - 1;
      assert (a + b)[..|a + b| - 1] == a + b[..n];
      UnlinesAppend(a, b[..n]);
    } else {
      assert a + b == a;
    }
  }

  /** Split of a string that starts with `c`: a separator opens a new piece, anything else joins the first. */
  lemma SplitCons(c: char, r: string, sep: char)
    ensures Split([c] + r, sep) == (if c == sep then [""] + Split(r, sep) else [[c] + Split(r, sep)[0]] + Split(r, sep)[1..])
  {
    var s := [c] + r;
    assert s[0] == c && s[1..] == r;
  }

  /** The pieces SplitCons builds from `c` and a concatenation of pieces, built on the left part alone. */
  lemma ConsPieces(c: char, ra: seq<string>, rb: seq<string>, sep: char)
    requires |ra| >= 1
    ensures var l := ra + rb;
      (if c == sep then [""] + l else [[c] + l[0]] + l[1..])
      == (if c == sep then [""] + ra else [[c] + ra[0]] + ra[1..]) + rb
  {
    var l := ra + rb;
    if c != sep {
      assert l[1..] == ra[1..] + rb;
    }
  }

  /** The inductive step of SplitConcat: one more character in front of the left side. */
  lemma SplitConcatStep(c: char, t: string, b: string, sep: char)
    requires Split(t + [sep] + b, sep) == Split(t, sep) + Split(b, sep)
    ensures Split([c] + (t + [sep] + b), sep) == Split([c] + t, sep) + Split(b, sep)
  {
    SplitCons(c, t + [sep] + b, sep);
    SplitCons(c, t, sep);
    ConsPieces(c, Split(t, sep), Split(b, sep), sep);
  }

  /** Splitting at a separator splits the two sides independently. */
  lemma {:induction false} SplitConcat(a: string, b: string, sep: char)
    ensures Split(a + [sep] + b, sep) == Split(a, sep) + Split(b, sep)
  {
    if a == [] {
      assert a + [sep] + b == [sep] + b;
      SplitCons(sep, b, sep);
    } else {
      var c, t := a[0], a[1..];
      assert a == [c] + t;
      assert a + [sep] + b == [c] + (t + [sep] + b);
      SplitConcat(t, b, sep);
      SplitConcatStep(c, t, b, sep);
    }
  }

  /** A string without separator is a single piece. */
  lemma {:induction false} SplitNoSep(s: string, sep: char)
    requires sep !in s
    ensures Split(s, sep) == [s]
  {
    if s != [] {
      SplitNoSep(s[1..], sep);
      assert [s[0]] + s[1..] == s;
    }
  }

  /** Splitting joined pieces recovers the pieces when none contains the separator. */
  lemma {:induction false} SplitOfJoin(parts: seq<string>, sep: char)
    requires parts != []
    requires forall i :: 0 <= i < |parts| ==> sep !in parts[i]
    ensures Split(Join(parts, sep), sep) == parts
  {
    if |parts| == 1 {
      SplitNoSep(parts[0], sep);
    } else {
      SplitConcat(parts[0], Join(parts[1..], sep), sep);
      SplitOfJoin(parts[1..], sep);
      SplitNoSep(parts[0], sep);
    }
  }

  /** A file of newline-terminated lines followed by `tail` splits into those lines and the pieces of `tail`. */
  lemma {:induction false} SplitUnlines(lines: seq<string>, tail: string)
    requires forall i :: 0 <= i < |lines| ==> '\n' !in lines[i]
    ensures Split(Unlines(lines) + tail, '\n') == lines + Split(tail, '\n')
  {
    if lines != [] {
      var n := |lines| - 1;
      var init, last := lines[..n], lines[n];
      assert Unlines(lines) + tail == (Unlines(init) + last) + ['\n'] + tail;
      SplitConcat(Unlines(init) + last, tail, '\n');
      SplitUnlines(init, last);
      SplitNoSep(last, '\n');
      assert init + [last] == lines;
    } else {
      assert Unlines(lines) + tail == tail;
    }
  }
}
