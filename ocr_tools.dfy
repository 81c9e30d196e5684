/** `OCRTools` from app/tools/transformer_tools.py: the cleanup of Tesseract's text, and the
    processor check and file naming around it. The cleanup is a chain of pure rewrites:

      1. drop every character outside printable ASCII except the newline;
      2. squeeze runs of spaces to one space;
      3. squeeze runs of newlines to one newline;
      4. strip every line;
      5. rewrite the four receipt labels (module OcrLabels);
      6. drop lines of at most two characters;
      7. strip the whole text. */
module OcrTools {
  import opened Wrappers
  import opened PyStr
  import opened OcrLabels


  /** The characters step 1 keeps: `[\x20-\x7E\n]`. */
  predicate Kept(c: char) {
    Printable(c) || c == '\n'
  }

  /** Every character of `s` is kept by step 1. */
  predicate AllKept(s: string) {
    forall i :: 0 <= i < |s| ==> Kept(s[i])
  }

  /** Step 1: `re.sub(r'[^\x20-\x7E\n]', '', s)`. */
  function DropNonPrintable(s: string): (r: string)
    ensures AllKept(r)
    ensures |r| <= |s| && forall i :: 0 <= i < |r| ==> r[i] in s
    ensures AllKept(s) ==> r == s
  {
    if s == [] then []
    else
      var rest := DropNonPrintable(s[1..]);
      assert forall i :: 0 <= i < |rest| ==> rest[i] in s;
      if Kept(s[0]) then [s[0]] + rest else rest
  }

  /** Steps 2 and 3: `re.sub(c + '+', c, s)` for `c` a space or a newline — a run of `c`
      becomes one `c`. A `c` followed by another `c` is dropped. */
  function Squeeze(s: string, c: char): (r: string)
    ensures NoRun(r, c)
    ensures NoRun(s, c) ==> r == s
    ensures forall d :: d != c && NoRun(s, d) ==> NoRun(r, d)
    ensures |r| <= |s| && forall i :: 0 <= i < |r| ==> r[i] in s
    ensures s != [] ==> r != [] && r[0] == s[0]
  {
    if |s| < 2 then s
    else
      var rest := Squeeze(s[1..], c);
      assert forall i :: 0 <= i < |rest| ==> rest[i] in s;
      assert forall d :: NoRun(s, d) ==> NoRun(s[1..], d) by {
        forall d | NoRun(s, d)
          ensures NoRun(s[1..], d)
        {
          NoRunTail(s, 1, d);
        }
      }
      if s[0] == c && s[1] == c then rest
      else
        assert forall d :: rest[0] == s[1] && !(s[0] == d && s[1] == d) && NoRun(rest, d) ==> NoRun([s[0]] + rest, d) by {
          forall d | rest[0] == s[1] && !(s[0] == d && s[1] == d) && NoRun(rest, d)
            ensures NoRun([s[0]] + rest, d)
          {
            NoRunCons([s[0]], rest, d);
          }
        }
        [s[0]] + rest
  }

  /** `line.strip()` for each line. */
  function StripEach(lines: seq<string>): (r: seq<string>)
    ensures |r| == |lines| && forall i :: 0 <= i < |r| ==> r[i] == Strip(lines[i])
  {
    seq(|lines|, i requires 0 <= i < |lines| => Strip(lines[i]))
  }

  /** The lines longer than two characters, in order. */
  function LongLines(lines: seq<string>): (r: seq<string>)
    ensures |r| <= |lines|
    ensures forall i :: 0 <= i < |r| ==> |r[i]| > 2 && r[i] in lines
    ensures (forall i :: 0 <= i < |lines| ==> |lines[i]| > 2) ==> r == lines
  {
    if lines == [] then []
    else
      var rest := LongLines(lines[1..]);
      assert forall i :: 0 <= i < |rest| ==> rest[i] in lines;
      if |lines[0]| > 2 then [lines[0]] + rest else rest
  }

  /** Step 4: `'\n'.join([line.strip() for line in s.splitlines()])`. */
  function TrimLines(s: string): string {
    Join(StripEach(SplitLines(s)))
  }

  /** Step 6: `'\n'.join([line for line in s.splitlines() if len(line) > 2])`. */
  function DropShortLines(s: string): string {
    Join(LongLines(SplitLines(s)))
  }

  /** Steps 1 to 4. */
  function Normalize(s: string): string {
    TrimLines(Squeeze(Squeeze(DropNonPrintable(s), ' '), '\n'))
  }

  /** `__process_ocr_output`: the whole cleanup. */
  function Clean(s: string): string {
    Strip(DropShortLines(LabelPasses(Normalize(s))))
  }

  // ---- What each step keeps ----

  /** One step of step 1: the first character is kept exactly when it is printable ASCII or a
      newline. */
  lemma DropNonPrintableStep(s: string)
    requires s != []
    ensures DropNonPrintable(s) == (if Kept(s[0]) then [s[0]] else []) + DropNonPrintable(s[1..])
  {
  }

  /** Step 1 works character by character, in order. */
  lemma {:induction false} DropNonPrintableConcat(a: string, b: string)
    ensures DropNonPrintable(a + b) == DropNonPrintable(a) + DropNonPrintable(b)
    decreases |a|
  {
    if a == [] {
      assert a + b == b;
    } else {
      DropNonPrintableConcat(a[1..], b);
      DropNonPrintableStep(a);
      DropNonPrintableStep(a + b);
      TailConcat(a, b);
      PrefixJoin(if Kept(a[0]) then [a[0]] else [], DropNonPrintable(a[1..] + b), DropNonPrintable(a[1..]),
        DropNonPrintable(b), DropNonPrintable(a + b), DropNonPrintable(a));
    }
  }

  /** A single character is kept exactly when it is printable ASCII or a newline, whatever
      surrounds it. */
  lemma DropNonPrintableSingle(x: char)
    ensures DropNonPrintable([x]) == if Kept(x) then [x] else []
  {
    DropNonPrintableStep([x]);
    assert [x][1..] == [];
  }

  /** Step 1 keeps every occurrence of every printable character and newline, and nothing else. */
  lemma {:induction false} DropNonPrintableCounts(s: string)
    ensures forall c :: Kept(c) ==> multiset(DropNonPrintable(s))[c] == multiset(s)[c]
    ensures forall c :: !Kept(c) ==> multiset(DropNonPrintable(s))[c] == 0
    decreases |s|
  {
    if s != [] {
      DropNonPrintableCounts(s[1..]);
      assert s == [s[0]] + s[1..];
    }
  }

  /** The number of runs of `c` in `s`, counted by their last character. */
  function RunEnds(s: string, c: char): nat {
    if s == [] then 0
    else (if s[0] == c && (|s| == 1 || s[1] != c) then 1 else 0) + RunEnds(s[1..], c)
  }

  lemma {:induction false} RunEndsPositive(s: string, c: char)
    requires c in s
    ensures RunEnds(s, c) >= 1
    decreases |s|
  {
    if !(s[0] == c && (|s| == 1 || s[1] != c)) {
      assert c in s[1..] by {
        if s[0] == c {
          assert s[1..][0] == c;
        } else {
          var i :| 0 <= i < |s| && s[i] == c;
          assert s[1..][i - 1] == c;
        }
      }
      RunEndsPositive(s[1..], c);
    }
  }

  /** One step of `Squeeze`: a `c` followed by another `c` is dropped, any other first
      character is kept. */
  lemma SqueezeStep(s: string, c: char)
    requires |s| >= 2
    ensures Squeeze(s, c) == (if s[0] == c && s[1] == c then [] else [s[0]]) + Squeeze(s[1..], c)
  {
  }

  /** The counts after one step of `Squeeze`, for any `u` counted like the rest. */
  lemma SqueezeCountsStep(s: string, c: char, r: string, u: string, k: nat)
    requires |s| >= 2
    requires r == (if s[0] == c && s[1] == c then [] else [s[0]]) + u
    requires forall d :: d != c ==> multiset(u)[d] == multiset(s[1..])[d]
    requires multiset(u)[c] == k
    ensures forall d :: d != c ==> multiset(r)[d] == multiset(s)[d]
    ensures multiset(r)[c] == (if s[0] == c && s[1] != c then 1 else 0) + k
  {
    assert s == [s[0]] + s[1..];
  }

  /** Steps 2 and 3 turn every run of `c` into exactly one `c` and keep every other character. */
  lemma {:induction false} SqueezeCounts(s: string, c: char)
    ensures forall d :: d != c ==> multiset(Squeeze(s, c))[d] == multiset(s)[d]
    ensures multiset(Squeeze(s, c))[c] == RunEnds(s, c)
    decreases |s|
  {
    if |s| < 2 {
      if s != [] {
        assert s[1..] == [];
      }
    } else {
      SqueezeCounts(s[1..], c);
      SqueezeStep(s, c);
      SqueezeCountsStep(s, c, Squeeze(s, c), Squeeze(s[1..], c), RunEnds(s[1..], c));
    }
  }

  /** Steps 2 and 3 keep `c` in a text that has one. */
  lemma SqueezeKeepsChar(s: string, c: char)
    ensures c in s <==> c in Squeeze(s, c)
  {
    if c in s {
      SqueezeCounts(s, c);
      RunEndsPositive(s, c);
      assert multiset(Squeeze(s, c))[c] > 0;
    }
  }

  /** A run of `c` cannot reach across a character other than `c`, so the text is squeezed
      piece by piece, in order. */
  lemma {:induction false} SqueezeConcat(a: string, b: string, c: char)
    requires a != [] && a[|a| - 1] != c
    ensures Squeeze(a + b, c) == Squeeze(a, c) + Squeeze(b, c)
    decreases |a|
  {
    if |a| == 1 {
      if b != [] {
        SqueezeStep(a + b, c);
        TailConcat(a, b);
        assert a[1..] == [];
      }
    } else {
      assert a[1..][|a| - 2] == a[|a| - 1];
      SqueezeConcat(a[1..], b, c);
      SqueezeStep(a, c);
      SqueezeStep(a + b, c);
      TailConcat(a, b);
      PrefixJoin(if a[0] == c && a[1] == c then [] else [a[0]], Squeeze(a[1..] + b, c), Squeeze(a[1..], c),
        Squeeze(b, c), Squeeze(a + b, c), Squeeze(a, c));
    }
  }

  /** Step 4 leaves every line without leading or trailing whitespace, and a second
      application changes nothing. */
  lemma StripEachStripped(lines: seq<string>)
    ensures forall i :: 0 <= i < |lines| ==>
      StripEach(lines)[i] == [] || (!IsSpace(StripEach(lines)[i][0]) && !IsSpace(StripEach(lines)[i][|StripEach(lines)[i]| - 1]))
    ensures StripEach(StripEach(lines)) == StripEach(lines)
  {
    var r := StripEach(lines);
    forall i | 0 <= i < |lines|
      ensures r[i] == [] || (!IsSpace(r[i][0]) && !IsSpace(r[i][|r[i]| - 1]))
      ensures Strip(r[i]) == r[i]
    {
      var t := TrimStart(lines[i]);
      assert r[i] == TrimEnd(t) && r[i] == t[..|r[i]|];
      if r[i] != [] {
        assert r[i][0] == t[0];
      }
      TrimStartNoop(r[i]);
      TrimEndNoop(r[i]);
    }
  }

  /** One step of `LongLines`. */
  lemma LongLinesStep(lines: seq<string>)
    requires lines != []
    ensures LongLines(lines) == (if |lines[0]| > 2 then [lines[0]] else []) + LongLines(lines[1..])
  {
  }

  lemma PrefixJoin<T>(x: seq<T>, p: seq<T>, q: seq<T>, r: seq<T>, whole: seq<T>, left: seq<T>)
    requires whole == x + p && p == q + r && left == x + q
    ensures whole == left + r
  {
  }

  /** Step 6 works line by line, in order. */
  lemma {:induction false} LongLinesConcat(a: seq<string>, b: seq<string>)
    ensures LongLines(a + b) == LongLines(a) + LongLines(b)
    decreases |a|
  {
    if a == [] {
      assert a + b == b;
    } else {
      LongLinesConcat(a[1..], b);
      LongLinesStep(a);
      LongLinesStep(a + b);
      TailConcat(a, b);
      PrefixJoin(if |a[0]| > 2 then [a[0]] else [], LongLines(a[1..] + b), LongLines(a[1..]), LongLines(b),
        LongLines(a + b), LongLines(a));
    }
  }

  /** A single line is kept exactly when it is longer than two characters. */
  lemma LongLinesSingle(l: string)
    ensures LongLines([l]) == if |l| > 2 then [l] else []
  {
    LongLinesStep([l]);
    assert [l][1..] == [];
  }

  /** Step 6 keeps every line longer than two characters. */
  lemma {:induction false} LongLinesKeeps(lines: seq<string>)
    ensures forall i :: 0 <= i < |lines| && |lines[i]| > 2 ==> lines[i] in LongLines(lines)
    decreases |lines|
  {
    if lines != [] {
      LongLinesKeeps(lines[1..]);
      forall i | 0 < i < |lines| && |lines[i]| > 2
        ensures lines[i] in LongLines(lines)
      {
        assert lines[1..][i - 1] == lines[i];
      }
    }
  }

  // ---- What steps 1 to 4 leave ----

  /** A text after steps 1 to 3 has only kept characters and no double space. */
  predicate Tidy(s: string) {
    AllKept(s) && NoRun(s, ' ')
  }

  /** A line: printable characters only (so no newline) and no double space. */
  predicate TidyLine(t: string) {
    (forall i :: 0 <= i < |t| ==> Printable(t[i])) && NoRun(t, ' ')
  }

  /** A line after step 4. */
  predicate StrippedLine(t: string) {
    TidyLine(t) && (t == [] || (!IsSpace(t[0]) && !IsSpace(t[|t| - 1])))
  }

  lemma TidySlice(s: string, a: nat, b: nat)
    requires Tidy(s) && a <= b <= |s|
    ensures Tidy(s[a..b])
  {
    var t := s[a..b];
    forall i | 0 <= i < |t| - 1
      ensures !(t[i] == ' ' && t[i + 1] == ' ')
    {
      assert t[i] == s[a + i] && t[i + 1] == s[a + i + 1];
    }
  }

  lemma TidyLineSlice(t: string, a: nat, b: nat)
    requires TidyLine(t) && a <= b <= |t|
    ensures TidyLine(t[a..b])
  {
    var u := t[a..b];
    forall i | 0 <= i < |u| - 1
      ensures !(u[i] == ' ' && u[i + 1] == ' ')
    {
      assert u[i] == t[a + i] && u[i + 1] == t[a + i + 1];
    }
  }

  /** A tidy text without a newline is a tidy line. */
  lemma TidyNoNewline(t: string)
    requires Tidy(t) && '\n' !in t
    ensures TidyLine(t)
  {
    forall i | 0 <= i < |t|
      ensures Printable(t[i])
    {
      assert Kept(t[i]) && t[i] != '\n';
    }
  }

  lemma TidyLinesCons(h: string, rest: seq<string>)
    requires TidyLine(h) && forall k :: 0 <= k < |rest| ==> TidyLine(rest[k])
    ensures forall k :: 0 <= k < |[h] + rest| ==> TidyLine(([h] + rest)[k])
  {
  }

  lemma {:induction false} SplitNlTidy(s: string)
    requires Tidy(s)
    ensures forall k :: 0 <= k < |SplitNl(s)| ==> TidyLine(SplitNl(s)[k])
    decreases |s|
  {
    if '\n' in s {
      var i := IndexOf(s, '\n');
      TidySlice(s, i + 1, |s|);
      SplitNlTidy(s[i + 1..]);
      TidySlice(s, 0, i);
      assert '\n' !in s[..i];
      TidyNoNewline(s[..i]);
      TidyLinesCons(s[..i], SplitNl(s[i + 1..]));
    } else {
      TidyNoNewline(s);
    }
  }

  lemma SplitLinesTidy(s: string)
    requires Tidy(s)
    ensures forall k :: 0 <= k < |SplitLines(s)| ==> TidyLine(SplitLines(s)[k])
  {
    if s != [] {
      SplitNlTidy(s);
    }
  }

  lemma StripLine(t: string)
    requires TidyLine(t)
    ensures StrippedLine(Strip(t))
  {
    StrippedFrom(t, TrimStart(t), TrimEnd(TrimStart(t)));
  }

  /** A tidy line with a whitespace-free start and end cut off is a stripped line. */
  lemma StrippedFrom(t: string, a: string, b: string)
    requires TidyLine(t)
    requires |a| <= |t| && a == t[|t| - |a|..] && (a == [] || !IsSpace(a[0]))
    requires |b| <= |a| && b == a[..|b|] && (b == [] || !IsSpace(b[|b| - 1]))
    ensures StrippedLine(b)
  {
    TidyLineSlice(t, |t| - |a|, |t|);
    TidyLineSlice(a, 0, |b|);
    if b != [] {
      assert b[0] == a[0];
    }
  }



  /** The lines that step 5 works on: the stripped lines of the text after steps 1 to 3. */
  function Lines(s: string): seq<string> {
    StripEach(SplitLines(Squeeze(Squeeze(DropNonPrintable(s), ' '), '\n')))
  }

  /** Steps 1 to 4 leave printable lines without double spaces or surrounding whitespace. */
  lemma LinesStripped(s: string)
    ensures Normalize(s) == Join(Lines(s))
    ensures forall k :: 0 <= k < |Lines(s)| ==> StrippedLine(Lines(s)[k])
  {
    var c := Squeeze(Squeeze(DropNonPrintable(s), ' '), '\n');
    assert AllKept(c);
    SplitLinesTidy(c);
    forall k | 0 <= k < |Lines(s)|
      ensures StrippedLine(Lines(s)[k])
    {
      StripLine(SplitLines(c)[k]);
    }
  }

  // ---- What step 5 leaves ----

  /** A line after step 6. Stripping its end and rewriting the labels again gives it back: a
      label at its end that stripping cut to `Valor:` is restored to `Valor: `. */
  predicate LineOK(k: string) {
    LineShape(k) && Rewrite(TrimEnd(k), AllLabels) == k
  }

  /** The shape of a `LineOK` line: at most one space is stripped from its end. */
  predicate LineShape(k: string) {
    |k| > 2 && TidyLine(k) && !IsSpace(k[0])
    && |TrimEnd(k)| > 2 && (TrimEnd(k) == k || TrimEnd(k) + " " == k)
  }

  lemma PrintableSpace(c: char)
    requires Printable(c) && c != ' '
    ensures !IsSpace(c)
  {
  }

  lemma LabelledTidy(t: string)
    requires TidyLine(t)
    ensures TidyLine(Rewrite(t, AllLabels))
  {
    var k := Rewrite(t, AllLabels);
    RewriteChars(t, AllLabels);
    RewriteNoRun(t, AllLabels);
    forall i | 0 <= i < |k|
      ensures Printable(k[i])
    {
      if k[i] in t {
        var j :| 0 <= j < |t| && t[j] == k[i];
      }
    }
  }

  /** The end of a labelled line that ends in a replacement. */
  lemma LabelledEnd(k: string, x: Label)
    requires EndsWith(k, Replacement(x)) && Rewrite(k, AllLabels) == k
    ensures TrimEnd(k) + " " == k && |TrimEnd(k)| > 2
    ensures Rewrite(TrimEnd(k), AllLabels) == k
  {
    var p := k[..|k| - |Replacement(x)|];
    LabelledEndShape(k, p, x);
    RestoreLabel(p, x, AllLabels);
  }

  lemma LabelledEndShape(k: string, p: string, x: Label)
    requires EndsWith(k, Replacement(x)) && p == k[..|k| - |Replacement(x)|]
    ensures k == p + Replacement(x) && TrimEnd(k) == p + Colon(x)
    ensures TrimEnd(k) + " " == k && |TrimEnd(k)| > 2
  {
    ReplacementShape(x);
    var c := Colon(x);
    assert c[|c| - 1] == Replacement(x)[|c| - 1];
    ColonEnd(k, p, Replacement(x), c);
  }

  /** `k` ending in `c + " "`, with `c` ending in a colon, loses exactly that space. */
  lemma ColonEnd(k: string, p: string, r: string, c: string)
    requires EndsWith(k, r) && p == k[..|k| - |r|]
    requires c + " " == r && |c| > 2 && c[|c| - 1] == ':'
    ensures k == p + r && TrimEnd(k) == p + c
    ensures TrimEnd(k) + " " == k && |TrimEnd(k)| > 2
  {
    assert k == p + r;
    assert k == (p + c) + " ";
    assert (p + c)[|p + c| - 1] == ':';
    TrimEndSpace(p + c);
  }



  lemma LineOKFrom(k: string)
    requires |k| > 2 && TidyLine(k) && !IsSpace(k[0]) && Rewrite(k, AllLabels) == k
    requires k[|k| - 1] == ' ' ==> EndsWithLabel(k, AllLabels)
    ensures LineOK(k)
  {
    if k[|k| - 1] == ' ' {
      var x :| x in AllLabels && EndsWith(k, Replacement(x));
      LabelledEnd(k, x);
    } else {
      PrintableSpace(k[|k| - 1]);
      TrimEndNoop(k);
    }
  }

  lemma LabelledHead(t: string)
    requires t != [] && !IsSpace(t[0])
    ensures !IsSpace(Rewrite(t, AllLabels)[0])
  {
    RewriteHead(t, AllLabels);
  }

  /** Every line that step 6 keeps is a `LineOK` line. */
  lemma LabelledLineOK(t: string)
    requires StrippedLine(t) && |Rewrite(t, AllLabels)| > 2
    ensures LineOK(Rewrite(t, AllLabels))
  {
    var k := Rewrite(t, AllLabels);
    LabelledTidy(t);
    LabelledHead(t);
    RewriteIdempotent(t, AllLabels);
    if k[|k| - 1] == ' ' {
      RewriteTrailingSpace(t, AllLabels);
    }
    LineOKFrom(k);
  }

  // ---- The shape of the output ----

  lemma {:induction false} LongLinesSnoc(lines: seq<string>, e: string)
    requires |e| <= 2
    ensures LongLines(lines + [e]) == LongLines(lines)
    decreases |lines|
  {
    if lines == [] {
      assert LongLines([e]) == LongLines([e][1..]);
    } else {
      assert (lines + [e])[1..] == lines[1..] + [e];
      LongLinesSnoc(lines[1..], e);
    }
  }

  lemma LongLinesDropLast(lines: seq<string>)
    requires lines != [] && |lines[|lines| - 1]| <= 2
    ensures LongLines(lines[..|lines| - 1]) == LongLines(lines)
  {
    var n := |lines|;
    LastSplit(lines);
    LongLinesSnoc(lines[..n - 1], lines[n - 1]);
  }

  lemma SplitLinesEmptyLast(lines: seq<string>)
    requires |lines| > 1 && lines[|lines| - 1] == []
    requires forall k :: 0 <= k < |lines| ==> '\n' !in lines[k]
    ensures SplitLines(Join(lines)) == lines[..|lines| - 1]
  {
    SplitNlJoin(lines);
    assert Join(lines) == lines[0] + "\n" + Join(lines[1..]);
  }

  /** Splitting joined lines again loses at most a final empty line, which step 6 drops anyway. */
  lemma LongLinesSplit(lines: seq<string>)
    requires forall k :: 0 <= k < |lines| ==> '\n' !in lines[k]
    ensures LongLines(SplitLines(Join(lines))) == LongLines(lines)
  {
    var n := |lines|;
    if n > 0 && lines[n - 1] != [] {
      SplitLinesJoin(lines);
    } else if n > 1 {
      SplitLinesEmptyLast(lines);
      LongLinesDropLast(lines);
    }
  }

  /** The lines of the output before the final strip. */
  function OutLines(s: string): seq<string> {
    LongLines(RewriteEach(Lines(s), AllLabels))
  }

  lemma RewriteEachNoNewline(lines: seq<string>)
    requires forall k :: 0 <= k < |lines| ==> StrippedLine(lines[k])
    ensures forall k :: 0 <= k < |RewriteEach(lines, AllLabels)| ==> TidyLine(RewriteEach(lines, AllLabels)[k])
    ensures forall k :: 0 <= k < |RewriteEach(lines, AllLabels)| ==> '\n' !in RewriteEach(lines, AllLabels)[k]
  {
    forall k | 0 <= k < |lines|
      ensures TidyLine(RewriteEach(lines, AllLabels)[k])
    {
      LabelledTidy(lines[k]);
    }
  }

  /** The output is the final strip of the kept lines, and every kept line is a `LineOK` line. */
  lemma CleanShape(s: string)
    ensures Clean(s) == Strip(Join(OutLines(s)))
    ensures forall k :: 0 <= k < |OutLines(s)| ==> LineOK(OutLines(s)[k])
  {
    var t := Lines(s);
    var rt := RewriteEach(t, AllLabels);
    LinesStripped(s);
    LabelPassesAreOnePass(Join(t));
    RewriteJoin(t, AllLabels);
    RewriteEachNoNewline(t);
    LongLinesSplit(rt);
    forall k | 0 <= k < |OutLines(s)|
      ensures LineOK(OutLines(s)[k])
    {
      var j :| 0 <= j < |rt| && rt[j] == OutLines(s)[k];
      LabelledLineOK(t[j]);
    }
  }

  /** A line of the output. */
  predicate OutLine(l: string) {
    TidyLine(l) && |l| > 2 && !IsSpace(l[0])
  }

  /** The kept lines with the end of the last one stripped: the lines of the output. */
  function FinalLines(lines: seq<string>): (r: seq<string>)
    requires lines != []
    ensures |r| == |lines| && r[..|r| - 1] == lines[..|lines| - 1]
    ensures r[|r| - 1] == TrimEnd(lines[|lines| - 1])
  {
    lines[..|lines| - 1] + [TrimEnd(lines[|lines| - 1])]
  }

  /** `TrimEnd` applied to each line. */
  function TrimEndEach(lines: seq<string>): (r: seq<string>)
    ensures |r| == |lines| && forall i :: 0 <= i < |r| ==> r[i] == TrimEnd(lines[i])
  {
    seq(|lines|, i requires 0 <= i < |lines| => TrimEnd(lines[i]))
  }

  lemma TrimmedLine(k: string)
    requires LineShape(k)
    ensures OutLine(TrimEnd(k)) && !IsSpace(TrimEnd(k)[|TrimEnd(k)| - 1])
  {
    TidyLineSlice(k, 0, |TrimEnd(k)|);
  }

  lemma FinalLinesOK(lines: seq<string>)
    requires lines != [] && forall k :: 0 <= k < |lines| ==> LineShape(lines[k])
    ensures forall k :: 0 <= k < |lines| ==> OutLine(FinalLines(lines)[k])
    ensures var last := FinalLines(lines)[|lines| - 1]; |last| > 2 && !IsSpace(last[|last| - 1])
  {
    var n := |lines|;
    TrimmedLine(lines[n - 1]);
    forall k | 0 <= k < n - 1
      ensures OutLine(FinalLines(lines)[k])
    {
      assert FinalLines(lines)[k] == FinalLines(lines)[..n - 1][k];
    }
  }

  /** The final strip only strips the end of the last kept line. */
  lemma StripJoin(lines: seq<string>)
    requires lines != [] && forall k :: 0 <= k < |lines| ==> LineShape(lines[k])
    ensures Strip(Join(lines)) == Join(FinalLines(lines))
  {
    JoinHead(lines);
    TrimStartNoop(Join(lines));
    TrimEndJoin(lines);
  }

  lemma {:induction false} JoinTidy(lines: seq<string>)
    requires forall k :: 0 <= k < |lines| ==> OutLine(lines[k])
    ensures Tidy(Join(lines)) && NoRun(Join(lines), '\n')
    decreases |lines|
  {
    if |lines| > 1 {
      var a, rest := lines[0], Join(lines[1..]);
      JoinTidy(lines[1..]);
      JoinHead(lines[1..]);
      var nl := "\n";
      NoRunCons(a, nl, ' ');
      NoRunCons(a + nl, rest, ' ');
      NoRunCons(a, nl, '\n');
      NoRunCons(a + nl, rest, '\n');
      var j := a + nl + rest;
      forall i | 0 <= i < |j|
        ensures Kept(j[i])
      {
        if i > |a| {
          assert j[i] == rest[i - |a| - 1];
        }
      }
    } else if |lines| == 1 {
      assert forall i :: 0 <= i < |lines[0]| ==> Printable(lines[0][i]);
    }
  }

  lemma StripFinalLine(lines: seq<string>, k: nat)
    requires k < |lines| && LineShape(lines[k])
    ensures Strip(FinalLines(lines)[k]) == TrimEnd(lines[k])
  {
    var r := FinalLines(lines);
    var n := |lines|;
    if k < n - 1 {
      assert r[k] == r[..n - 1][k];
      TrimStartNoop(lines[k]);
    } else {
      TrimmedLine(lines[k]);
      TrimStartNoop(r[k]);
      TrimEndTwice(lines[k]);
    }
  }

  lemma StripEachFinal(lines: seq<string>)
    requires lines != [] && forall k :: 0 <= k < |lines| ==> LineShape(lines[k])
    ensures StripEach(FinalLines(lines)) == TrimEndEach(lines)
  {
    StripEachFinalAt(lines);
    SameLines(StripEach(FinalLines(lines)), TrimEndEach(lines));
  }

  lemma SameLines(a: seq<string>, b: seq<string>)
    requires |a| == |b| && forall k :: 0 <= k < |a| ==> a[k] == b[k]
    ensures a == b
  {
  }

  lemma StripEachFinalAt(lines: seq<string>)
    requires lines != [] && forall k :: 0 <= k < |lines| ==> LineShape(lines[k])
    ensures |StripEach(FinalLines(lines))| == |TrimEndEach(lines)|
    ensures forall k :: 0 <= k < |lines| ==> StripEach(FinalLines(lines))[k] == TrimEndEach(lines)[k]
  {
    forall k | 0 <= k < |lines|
      ensures StripEach(FinalLines(lines))[k] == TrimEndEach(lines)[k]
    {
      StripFinalLine(lines, k);
    }
  }

  lemma RewriteTrimmed(lines: seq<string>)
    requires forall k :: 0 <= k < |lines| ==> LineOK(lines[k])
    ensures RewriteEach(TrimEndEach(lines), AllLabels) == lines
  {
  }

  lemma LineShapes(lines: seq<string>)
    requires forall k :: 0 <= k < |lines| ==> LineOK(lines[k])
    ensures forall k :: 0 <= k < |lines| ==> LineShape(lines[k])
  {
  }

  lemma CleanEmpty()
    ensures Clean([]) == []
  {
    assert DropNonPrintable([]) == [];
    assert SplitLines([]) == [];
    assert StripEach([]) == [];
    assert Normalize([]) == [];
    LabelPassesAreOnePass([]);
    assert LongLines([]) == [];
    assert DropShortLines([]) == [];
  }

  /** Steps 1 to 4 change nothing in a text made of output lines, except that they strip the
      end of every line. */
  lemma NormalizeFinal(lines: seq<string>)
    requires lines != [] && forall k :: 0 <= k < |lines| ==> LineShape(lines[k])
    ensures Normalize(Join(FinalLines(lines))) == Join(TrimEndEach(lines))
  {
    var f := FinalLines(lines);
    FinalLinesOK(lines);
    JoinTidy(f);
    var y := Join(f);
    assert DropNonPrintable(y) == y;
    assert Squeeze(y, ' ') == y;
    assert Squeeze(y, '\n') == y;
    SplitLinesJoin(f);
    StripEachFinal(lines);
  }

  /** Step 6 keeps every line of a text made of `LineShape` lines. */
  lemma DropShortJoin(lines: seq<string>)
    requires forall k :: 0 <= k < |lines| ==> LineShape(lines[k])
    ensures DropShortLines(Join(lines)) == Join(lines)
  {
    forall k | 0 <= k < |lines|
      ensures '\n' !in lines[k]
    {
      assert forall i :: 0 <= i < |lines[k]| ==> Printable(lines[k][i]);
    }
    LongLinesSplit(lines);
  }

  /** Step 5 gives back the kept lines from their stripped ends. */
  lemma RelabelTrimmed(lines: seq<string>)
    requires forall k :: 0 <= k < |lines| ==> LineOK(lines[k])
    ensures LabelPasses(Join(TrimEndEach(lines))) == Join(lines)
  {
    var te := TrimEndEach(lines);
    LabelPassesAreOnePass(Join(te));
    RewriteJoin(te, AllLabels);
    RewriteTrimmed(lines);
  }

  /** The cleanup leaves the stripped join of `LineOK` lines unchanged. */
  lemma CleanFixed(lines: seq<string>)
    requires forall k :: 0 <= k < |lines| ==> LineOK(lines[k])
    ensures Clean(Strip(Join(lines))) == Strip(Join(lines))
  {
    if lines == [] {
      CleanEmpty();
    } else {
      LineShapes(lines);
      StripJoin(lines);
      NormalizeFinal(lines);
      RelabelTrimmed(lines);
      DropShortJoin(lines);
    }
  }

  /** Cleaning a cleaned text changes nothing. */
  lemma CleanIdempotent(s: string)
    ensures Clean(Clean(s)) == Clean(s)
  {
    CleanShape(s);
    CleanFixed(OutLines(s));
  }

  // ---- What the output looks like ----

  lemma FinalLinesNoNewline(lines: seq<string>)
    requires lines != [] && forall k :: 0 <= k < |lines| ==> LineShape(lines[k])
    ensures forall k :: 0 <= k < |lines| ==> OutLine(FinalLines(lines)[k]) && '\n' !in FinalLines(lines)[k]
  {
    FinalLinesOK(lines);
    forall k | 0 <= k < |lines|
      ensures '\n' !in FinalLines(lines)[k]
    {
      var l := FinalLines(lines)[k];
      assert forall i :: 0 <= i < |l| ==> Printable(l[i]);
    }
  }

  /** The output holds only printable ASCII and newlines, has no double space and no empty
      line, no leading or trailing whitespace, and every line is longer than two characters. */
  lemma CleanOutput(s: string)
    ensures AllKept(Clean(s))
    ensures NoRun(Clean(s), ' ') && NoRun(Clean(s), '\n')
    ensures Clean(s) == [] || (!IsSpace(Clean(s)[0]) && !IsSpace(Clean(s)[|Clean(s)| - 1]))
    ensures forall k :: 0 <= k < |SplitLines(Clean(s))| ==> |SplitLines(Clean(s))[k]| > 2
  {
    CleanShape(s);
    var lines := OutLines(s);
    if lines == [] {
      assert Clean(s) == [];
    } else {
      LineShapes(lines);
      StripJoin(lines);
      var f := FinalLines(lines);
      FinalLinesNoNewline(lines);
      FinalLinesOK(lines);
      JoinTidy(f);
      JoinHead(f);
      JoinLast(f);
      SplitLinesJoin(f);
    }
  }

  lemma JoinSpace(lines: seq<string>, t: string)
    requires lines != []
    ensures Join(lines[..|lines| - 1] + [t]) + " " == Join(lines[..|lines| - 1] + [t + " "])
  {
    var front := lines[..|lines| - 1];
    if front == [] {
      assert front + [t] == [t] && front + [t + " "] == [t + " "];
    } else {
      JoinSnoc(front, t);
      JoinSnoc(front, t + " ");
    }
  }

  /** Every label in the output is written in its canonical form `Valor: ` (and so on), except
      that a label at the very end of the output has lost its trailing space to the final strip. */
  lemma CleanLabels(s: string)
    ensures Canonical(Clean(s), AllLabels) || Canonical(Clean(s) + " ", AllLabels)
  {
    CleanShape(s);
    var lines := OutLines(s);
    RelabelTrimmed(lines);
    LabelPassesAreOnePass(Join(TrimEndEach(lines)));
    RewriteCanonical(Join(TrimEndEach(lines)), AllLabels);
    if lines == [] {
      assert Clean(s) == [];
    } else {
      LineShapes(lines);
      StripJoin(lines);
      var last := lines[|lines| - 1];
      LastSplit(lines);
      if TrimEnd(last) != last {
        JoinSpace(lines, TrimEnd(last));
      }
    }
  }

  // ---- The OCR tool ----

  /** The file the OCR text of `imagePath` is saved to: the image's base name with `.jpeg`
      replaced by `.txt`, in the OCR text directory. */
  function OcrTextPath(textDir: string, imagePath: string): string {
    PathJoin(textDir, Replace(Basename(imagePath), ".jpeg", ".txt"))
  }

  /** For a downloaded image `<dir>/<id>.jpeg` whose id has no dot or slash, the text goes to
      `<id>.txt` in the OCR text directory. */
  lemma OcrTextPathOfImage(textDir: string, dir: string, id: string)
    requires '/' !in id && '.' !in id
    ensures OcrTextPath(textDir, dir + "/" + id + ".jpeg") == PathJoin(textDir, id + ".txt")
  {
    assert dir + "/" + id + ".jpeg" == dir + "/" + (id + ".jpeg");
    BasenameAfterSlash(dir, id + ".jpeg");
    ReplaceAfter(id, ".jpeg", ".txt", ".jpeg");
    ReplaceWhole(".jpeg", ".txt");
  }

  /** The one OCR processor `extract_text_from_image_with_ocr` supports. */
  predicate Supported(processor: string) {
    processor == "pytesseract"
  }

  /** `OCRTools`: the configured processor, and the text files written so far (path, text). */
  class OCRTools {
    var processor: string
    var written: seq<(string, string)>

    constructor(processor: string := "pytesseract")
      ensures this.processor == processor && written == []
    {
      this.processor := processor;
      written := [];
    }

    /** `__process_ocr_output`; what its output looks like is proved about `Clean` above. */
    static method ProcessOcrOutput(ocrText: string) returns (r: string)
      ensures r == Clean(ocrText)
    {
      r := Clean(ocrText);
    }

    /** `extract_text_from_image_with_ocr`. `tesseractText` is what Tesseract reads from the
        image, `textDir` is the OCR text directory setting and `saveError` the exception, if
        any, that `__save_ocr_text_to_file` raises (the setting missing from the configuration,
        the directory or the file failing to open). Only the `pytesseract` processor is
        supported; its cleaned text is saved next to the others and returned, and a failed
        save lets its exception out and records nothing. */
    method ExtractTextFromImage(imagePath: string, tesseractText: string, textDir: string, saveError: Option<string>)
      returns (r: Result<string>)
      modifies this
      ensures processor == old(processor)
      ensures r == if !Supported(processor) then Err("Unsupported OCR processor: " + processor)
                   else if saveError.Some? then Err(saveError.value)
                   else Ok(Clean(tesseractText))
      ensures written == old(written)
                         + if Supported(processor) && saveError.None?
                           then [(OcrTextPath(textDir, imagePath), Clean(tesseractText))] else []
    {
      if Supported(processor) {
        var text := ProcessOcrOutput(tesseractText);
        if saveError.Some? {
          r := Err(saveError.value);
        } else {
          written := written + [(OcrTextPath(textDir, imagePath), text)];
          r := Ok(text);
        }
      } else {
        r := Err("Unsupported OCR processor: " + processor);
      }
    }
  }
}
