/** The Python `str` operations that the receipt pipeline relies on, on `seq<char>`. */
module PyStr {

  /** Printable ASCII, `' '..'~'`. */
  predicate Printable(c: char) {
    ' ' <= c <= '~'
  }

  /** `str.isspace()` for one character: the characters `str.strip()` removes. */
  predicate IsSpace(c: char) {
    c == ' ' || ('\t' <= c <= '\r') || ('\U{1C}' <= c <= '\U{1F}') || c == '\U{85}' || c == '\U{A0}'
    || c == '\U{1680}' || ('\U{2000}' <= c <= '\U{200A}') || c == '\U{2028}' || c == '\U{2029}'
    || c == '\U{202F}' || c == '\U{205F}' || c == '\U{3000}'
  }

  /** `s.lstrip()`: drops the longest prefix of whitespace. */
  function TrimStart(s: string): (r: string)
    ensures |r| <= |s| && r == s[|s| - |r|..]
    ensures forall i :: 0 <= i < |s| - |r| ==> IsSpace(s[i])
    ensures r == [] || !IsSpace(r[0])
  {
    if s != [] && IsSpace(s[0]) then TrimStart(s[1..]) else s
  }

  /** `s.rstrip()`: drops the longest suffix of whitespace. */
  function TrimEnd(s: string): (r: string)
    ensures |r| <= |s| && r == s[..|r|]
    ensures forall i :: |r| <= i < |s| ==> IsSpace(s[i])
    ensures r == [] || !IsSpace(r[|r| - 1])
  {
    if s != [] && IsSpace(s[|s| - 1]) then TrimEnd(s[..|s| - 1]) else s
  }

  /** `s.strip()`. */
  function Strip(s: string): string {
    TrimEnd(TrimStart(s))
  }

  /** Index of the first occurrence of `c`. */
  function IndexOf(s: string, c: char): (i: nat)
    requires c in s
    ensures i < |s| && s[i] == c && c !in s[..i]
  {
    if s[0] == c then 0 else 1 + IndexOf(s[1..], c)
  }

  /** `"\n".join(lines)`. */
  function Join(lines: seq<string>): string {
    JoinWith("\n", lines)
  }

  /** `sep.join(parts)`. */
  function JoinWith(sep: string, parts: seq<string>): string {
    if |parts| == 0 then []
    else if |parts| == 1 then parts[0]
    else parts[0] + sep + JoinWith(sep, parts[1..])
  }

  /** `s.split("\n")`: the pieces between newlines; never empty. */
  function SplitNl(s: string): (r: seq<string>)
    ensures |r| >= 1
    ensures forall i :: 0 <= i < |r| ==> '\n' !in r[i]
  {
    if '\n' !in s then [s]
    else
      var i := IndexOf(s, '\n');
      [s[..i]] + SplitNl(s[i + 1..])
  }

  /** `s.splitlines()` on a text whose only line boundary is `\n`: like `split("\n")`,
      except that the empty text has no lines and a final newline opens no line. */
  function SplitLines(s: string): seq<string> {
    if s == [] then []
    else
      var p := SplitNl(s);
      if p[|p| - 1] == [] then p[..|p| - 1] else p
  }

  /** `pat in s` for strings. */
  predicate Contains(s: string, pat: string) {
    |s| >= |pat| && (s[..|pat|] == pat || (s != [] && Contains(s[1..], pat)))
  }

  /** `s.replace(pat, rep)`: every leftmost, non-overlapping occurrence of `pat`. */
  function Replace(s: string, pat: string, rep: string): string
    requires |pat| > 0
  {
    if |s| < |pat| then s
    else if s[..|pat|] == pat then rep + Replace(s[|pat|..], pat, rep)
    else [s[0]] + Replace(s[1..], pat, rep)
  }

  /** `os.path.basename(p)` on POSIX: what follows the last `/`. */
  function Basename(p: string): (r: string)
    ensures '/' !in r
    ensures |r| <= |p| && r == p[|p| - |r|..]
  {
    if p == [] then []
    else if p[|p| - 1] == '/' then []
    else Basename(p[..|p| - 1]) + [p[|p| - 1]]
  }

  /** `os.path.join(dir, name)` on POSIX, for two components. */
  function PathJoin(dir: string, name: string): string {
    if |name| > 0 && name[0] == '/' then name
    else if dir == [] || dir[|dir| - 1] == '/' then dir + name
    else dir + "/" + name
  }

  /** No two adjacent characters of `s` are both `c`. */
  predicate NoRun(s: string, c: char) {
    forall i :: 0 <= i < |s| - 1 ==> !(s[i] == c && s[i + 1] == c)
  }

  /** `s` ends with `suf`. */
  predicate EndsWith(s: string, suf: string) {
    |suf| <= |s| && s[|s| - |suf|..] == suf
  }

  // ---- Lemmas about joining and splitting lines ----

  lemma {:induction false} JoinSplitNl(s: string)
    ensures Join(SplitNl(s)) == s
    decreases |s|
  {
    if '\n' in s {
      var i := IndexOf(s, '\n');
      JoinSplitNl(s[i + 1..]);
      assert SplitNl(s)[1..] == SplitNl(s[i + 1..]);
      assert s == s[..i] + "\n" + s[i + 1..];
    }
  }

  lemma {:induction false} SplitNlJoin(lines: seq<string>)
    requires |lines| >= 1
    requires forall k :: 0 <= k < |lines| ==> '\n' !in lines[k]
    ensures SplitNl(Join(lines)) == lines
  {
    if |lines| > 1 {
      var rest := Join(lines[1..]);
      assert Join(lines) == lines[0] + "\n" + rest;
      FirstNewline(lines[0], rest);
      SplitNlJoin(lines[1..]);
      assert lines == [lines[0]] + lines[1..];
    }
  }

  /** The first newline of `a + "\n" + rest`, when `a` has none, is the one after `a`. */
  lemma FirstNewline(a: string, rest: string)
    requires '\n' !in a
    ensures var s := a + "\n" + rest;
      '\n' in s && IndexOf(s, '\n') == |a| && s[..|a|] == a && s[|a| + 1..] == rest
  {
    var s := a + "\n" + rest;
    assert s[|a|] == '\n';
    assert s[..|a|] == a;
    assert forall j :: 0 <= j < |a| ==> s[j] == a[j];
    assert s[|a| + 1..] == rest;
  }

  /** A non-empty sequence is its front followed by its last element. */
  lemma LastSplit<T>(s: seq<T>)
    requires s != []
    ensures s == s[..|s| - 1] + [s[|s| - 1]]
  {
  }

  lemma TailConcat<T>(a: seq<T>, b: seq<T>)
    requires a != []
    ensures (a + b)[0] == a[0] && (a + b)[1..] == a[1..] + b
  {
  }

  lemma {:induction false} JoinSnoc(lines: seq<string>, e: string)
    requires lines != []
    ensures Join(lines + [e]) == Join(lines) + "\n" + e
    decreases |lines|
  {
    if |lines| > 1 {
      JoinSnoc(lines[1..], e);
      assert (lines + [e])[1..] == lines[1..] + [e];
    } else {
      assert lines + [e] == [lines[0], e];
      assert [lines[0], e][1..] == [e];
      assert JoinWith("\n", [e]) == e;
      assert Join(lines) == lines[0];
    }
  }

  lemma {:induction false} JoinHead(lines: seq<string>)
    requires lines != [] && lines[0] != []
    ensures Join(lines) != [] && Join(lines)[0] == lines[0][0]
  {
  }

  lemma JoinLast(lines: seq<string>)
    requires lines != [] && lines[|lines| - 1] != []
    ensures Join(lines) != [] && Join(lines)[|Join(lines)| - 1] == lines[|lines| - 1][|lines[|lines| - 1]| - 1]
  {
    var n := |lines|;
    if n > 1 {
      LastSplit(lines);
      JoinSnoc(lines[..n - 1], lines[n - 1]);
    }
  }

  /** `splitlines` undoes `"\n".join` when the lines hold no newline and the last is not empty. */
  lemma SplitLinesJoin(lines: seq<string>)
    requires lines != [] && lines[|lines| - 1] != []
    requires forall k :: 0 <= k < |lines| ==> '\n' !in lines[k]
    ensures SplitLines(Join(lines)) == lines
  {
    SplitNlJoin(lines);
    JoinLast(lines);
    SplitLinesOfPieces(Join(lines), lines);
  }

  lemma SplitLinesOfPieces(s: string, lines: seq<string>)
    requires s != [] && SplitNl(s) == lines && lines[|lines| - 1] != []
    ensures SplitLines(s) == lines
  {
  }

  // ---- Lemmas about stripping ----

  lemma TrimStartNoop(s: string)
    requires s == [] || !IsSpace(s[0])
    ensures TrimStart(s) == s
  {
  }

  lemma TrimEndNoop(s: string)
    requires s == [] || !IsSpace(s[|s| - 1])
    ensures TrimEnd(s) == s
  {
  }

  lemma TrimEndTwice(s: string)
    ensures TrimEnd(TrimEnd(s)) == TrimEnd(s)
  {
    TrimEndNoop(TrimEnd(s));
  }

  /** Stripping the end of `a + b` only touches `b` when `b` is not all whitespace. */
  lemma {:induction false} TrimEndConcat(a: string, b: string)
    requires TrimEnd(b) != []
    ensures TrimEnd(a + b) == a + TrimEnd(b)
    decreases |b|
  {
    var ab := a + b;
    assert ab[|ab| - 1] == b[|b| - 1];
    if IsSpace(b[|b| - 1]) {
      assert ab[..|ab| - 1] == a + b[..|b| - 1];
      TrimEndConcat(a, b[..|b| - 1]);
    }
  }

  lemma TrimEndSpace(a: string)
    requires a != [] && !IsSpace(a[|a| - 1])
    ensures TrimEnd(a + " ") == a
  {
    assert (a + " ")[..|a|] == a;
    TrimEndNoop(a);
  }

  /** Stripping the end of joined lines strips the end of the last line only, when that line
      is not all whitespace. */
  lemma TrimEndJoin(lines: seq<string>)
    requires lines != [] && TrimEnd(lines[|lines| - 1]) != []
    ensures TrimEnd(Join(lines)) == Join(lines[..|lines| - 1] + [TrimEnd(lines[|lines| - 1])])
  {
    var n := |lines|;
    var last := lines[n - 1];
    var front := lines[..n - 1];
    LastSplit(lines);
    if n > 1 {
      JoinSnocTrim(front, last);
    }
  }

  lemma JoinSnocTrim(front: seq<string>, last: string)
    requires front != [] && TrimEnd(last) != []
    ensures TrimEnd(Join(front + [last])) == Join(front + [TrimEnd(last)])
  {
    JoinSnoc(front, last);
    JoinSnoc(front, TrimEnd(last));
    TrimEndConcat(Join(front) + "\n", last);
  }

  // ---- Lemmas about paths and replacement ----

  /** The base name of a path is what follows its last slash. */
  lemma {:induction false} BasenameAfterSlash(dir: string, name: string)
    requires '/' !in name
    ensures Basename(dir + "/" + name) == name
    decreases |name|
  {
    var p := dir + "/" + name;
    if name == [] {
      assert p[|p| - 1] == '/';
    } else {
      var n := |name|;
      var front := dir + "/" + name[..n - 1];
      assert name == name[..n - 1] + [name[n - 1]];
      assert p == front + [name[n - 1]];
      assert p[..|p| - 1] == front;
      BasenameAfterSlash(dir, name[..n - 1]);
    }
  }


  /** Replacing a pattern that starts with a character absent from `s` only touches the part after `s`. */
  lemma {:induction false} ReplaceAfter(s: string, pat: string, rep: string, t: string)
    requires |pat| > 0 && pat[0] !in s
    ensures Replace(s + t, pat, rep) == s + Replace(t, pat, rep)
    decreases |s|
  {
    if s == [] {
      assert s + t == t;
    } else {
      var st := s + t;
      HeadOfConcat(s, t);
      ReplaceAfter(s[1..], pat, rep, t);
      if |st| < |pat| {
        assert Replace(t, pat, rep) == t;
      } else {
        assert st[..|pat|] != pat by {
          assert st[..|pat|][0] == s[0];
        }
        ReplaceSkip(st, pat, rep);
        ConsRest(s, Replace(t, pat, rep));
      }
    }
  }

  lemma HeadOfConcat(s: string, t: string)
    requires s != []
    ensures (s + t)[0] == s[0] && (s + t)[1..] == s[1..] + t
  {
  }

  lemma ConsRest(s: string, b: string)
    requires s != []
    ensures [s[0]] + (s[1..] + b) == s + b
  {
    assert s == [s[0]] + s[1..];
  }

  lemma ReplaceWhole(pat: string, rep: string)
    requires |pat| > 0
    ensures Replace(pat, pat, rep) == rep
  {
    assert pat[|pat|..] == [];
    assert Replace([], pat, rep) == [];
  }

  /** A replacement no longer than its pattern never lengthens the text. */
  lemma {:induction false} ReplaceShrinks(s: string, pat: string, rep: string)
    requires |pat| > 0 && |rep| <= |pat|
    ensures |Replace(s, pat, rep)| <= |s|
    decreases |s|
  {
    if |s| >= |pat| {
      if s[..|pat|] == pat {
        ReplaceShrinks(s[|pat|..], pat, rep);
      } else {
        ReplaceShrinks(s[1..], pat, rep);
      }
    }
  }

  lemma ReplaceSkip(s: string, pat: string, rep: string)
    requires 0 < |pat| <= |s| && s[..|pat|] != pat
    ensures Replace(s, pat, rep) == [s[0]] + Replace(s[1..], pat, rep)
  {
  }

  lemma ReplaceHit(s: string, pat: string, rep: string)
    requires 0 < |pat| <= |s| && s[..|pat|] == pat
    ensures Replace(s, pat, rep) == rep + Replace(s[|pat|..], pat, rep)
  {
  }

  /** A text lacking one of the pattern's characters is returned unchanged by `replace`. */
  lemma {:induction false} ReplaceMissing(s: string, pat: string, rep: string, j: nat)
    requires j < |pat| && pat[j] !in s
    ensures Replace(s, pat, rep) == s
    decreases |s|
  {
    if |s| >= |pat| {
      assert s[..|pat|][j] == s[j];
      assert pat[j] !in s[1..];
      ReplaceMissing(s[1..], pat, rep, j);
      assert [s[0]] + s[1..] == s;
    }
  }

  /** Without an occurrence of the pattern, `replace` returns the text unchanged. */
  lemma {:induction false} ReplaceAbsent(s: string, pat: string, rep: string)
    requires |pat| > 0 && !Contains(s, pat)
    ensures Replace(s, pat, rep) == s
    decreases |s|
  {
    if |s| >= |pat| {
      ReplaceAbsent(s[1..], pat, rep);
      assert [s[0]] + s[1..] == s;
    }
  }
}
