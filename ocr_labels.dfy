/** The receipt-label rewrites of the OCR cleanup: `re.sub(r'(?i)valor[: ]+', 'Valor: ', ...)` and
    its three siblings for `data`, `hora` and `total`.

    `Rewrite(s, ls)` is one left-to-right, leftmost, non-overlapping, greedy pass that rewrites every
    label of `ls`. The source runs four passes, one label each (`LabelPasses`); the main facts of
    this module are that those four passes equal the single pass over all four labels, and that
    a pass is idempotent and leaves every label in its canonical spelling. */
module OcrLabels {
  import opened Wrappers
  import opened PyStr

  datatype Label = Valor | Data | Hora | Total

  const AllLabels: set<Label> := {Valor, Data, Hora, Total}

  /** The word the pattern matches, case-insensitively. */
  function Word(l: Label): string {
    match l
    case Valor => "valor"
    case Data => "data"
    case Hora => "hora"
    case Total => "total"
  }

  /** The replacement text of the pattern. */
  function Replacement(l: Label): string {
    match l
    case Valor => "Valor: "
    case Data => "Data: "
    case Hora => "Hora: "
    case Total => "Total: "
  }

  /** ASCII lower-casing; the label words hold only ASCII letters, and no other character
      folds to one of their letters, so this decides `(?i)` for them. */
  function Lower(c: char): char {
    if 'A' <= c <= 'Z' then (c as int + 32) as char else c
  }

  /** The class `[: ]`. */
  predicate IsSep(c: char) {
    c == ':' || c == ' '
  }

  /** `s` starts with the lower-case word `w`, ignoring case. */
  predicate StartsCi(s: string, w: string) {
    |s| >= |w| && forall i :: 0 <= i < |w| ==> Lower(s[i]) == w[i]
  }

  /** The pattern `(?i)<word>[: ]+` matches at the start of `s`. */
  predicate LabelAt(s: string, l: Label) {
    |s| > |Word(l)| && StartsCi(s, Word(l)) && IsSep(s[|Word(l)|])
  }

  /** Length of the longest prefix of `s` in `[: ]*`. */
  function SepRun(s: string): (n: nat)
    ensures n <= |s|
    ensures forall i :: 0 <= i < n ==> IsSep(s[i])
    ensures n == |s| || !IsSep(s[n])
  {
    if s != [] && IsSep(s[0]) then 1 + SepRun(s[1..]) else 0
  }

  /** End of the greedy match of `(?i)<word>[: ]+` at the start of `s`. */
  function MatchEnd(s: string, l: Label): (n: nat)
    requires LabelAt(s, l)
    ensures |Word(l)| < n <= |s|
    ensures forall i :: |Word(l)| <= i < n ==> IsSep(s[i])
    ensures n == |s| || !IsSep(s[n])
  {
    |Word(l)| + SepRun(s[|Word(l)|..])
  }

  /** The label of `ls` whose pattern matches at the start of `s`, if any. */
  function Which(s: string, ls: set<Label>): (r: Option<Label>)
    ensures r.Some? ==> r.value in ls && LabelAt(s, r.value)
    ensures r.None? ==> forall l :: l in ls ==> !LabelAt(s, l)
  {
    if Valor in ls && LabelAt(s, Valor) then Some(Valor)
    else if Data in ls && LabelAt(s, Data) then Some(Data)
    else if Hora in ls && LabelAt(s, Hora) then Some(Hora)
    else if Total in ls && LabelAt(s, Total) then Some(Total)
    else None
  }

  /** One `re.sub` pass rewriting the labels of `ls`: scan left to right; where a pattern
      matches, emit its replacement and resume after the whole match; else copy one character. */
  function Rewrite(s: string, ls: set<Label>): (r: string)
    ensures s == [] <==> r == []
    ensures s != [] && !IsSep(s[0]) ==> !IsSep(r[0])
    ensures s != [] && s[0] == '\n' ==> r[0] == '\n'
    decreases |s|
  {
    if s == [] then []
    else
      match Which(s, ls)
      case Some(l) => Replacement(l) + Rewrite(s[MatchEnd(s, l)..], ls)
      case None => [s[0]] + Rewrite(s[1..], ls)
  }

  /** The four passes of the source, in its order. */
  function LabelPasses(s: string): string {
    Rewrite(Rewrite(Rewrite(Rewrite(s, {Valor}), {Data}), {Hora}), {Total})
  }

  // ---- Facts about the four words ----

  lemma ReplacementShape(l: Label)
    ensures |Replacement(l)| == |Word(l)| + 2 && |Word(l)| >= 4
    ensures StartsCi(Replacement(l), Word(l))
    ensures Replacement(l)[|Word(l)|] == ':' && Replacement(l)[|Word(l)| + 1] == ' '
    ensures 'A' <= Replacement(l)[0] <= 'Z' && 'a' <= Replacement(l)[1] <= 'z'
  {
  }

  lemma WordLetters(l: Label)
    ensures forall i :: 0 <= i < |Word(l)| ==> 'a' <= Word(l)[i] <= 'z'
  {
  }

  /** No proper suffix of one word starts like another word: two characters always tell them apart. */
  lemma Incomparable(k: Label, l: Label, j: nat)
    requires 1 <= j < |Word(k)|
    ensures Word(k)[j] != Word(l)[0] || (j + 1 < |Word(k)| && Word(k)[j + 1] != Word(l)[1])
  {
  }

  /** Two words never match at the same place: their first letters differ. */
  lemma LabelUnique(s: string, k: Label, l: Label)
    requires LabelAt(s, k) && LabelAt(s, l)
    ensures k == l
  {
    assert Lower(s[0]) == Word(k)[0] && Lower(s[0]) == Word(l)[0];
  }

  /** No pattern matches strictly inside the word of a match. */
  lemma NoLabelInside(s: string, x: Label, j: nat, k: Label)
    requires StartsCi(s, Word(x)) && 1 <= j < |Word(x)|
    ensures !LabelAt(s[j..], k)
  {
    Incomparable(x, k, j);
    assert Lower(s[j]) == Word(x)[j];
    if j + 1 < |Word(x)| {
      assert Lower(s[j + 1]) == Word(x)[j + 1];
    }
    assert s[j..][0] == s[j] && (|s| > j + 1 ==> s[j..][1] == s[j + 1]);
  }

  lemma LabelAtPrefix(p: string, t: string, l: Label)
    requires |p| > |Word(l)|
    ensures LabelAt(p + t, l) <==> LabelAt(p, l)
  {
    assert forall i :: 0 <= i < |p| ==> (p + t)[i] == p[i];
  }

  lemma {:induction false} SepRunConcat(a: string, b: string)
    requires b == [] || !IsSep(b[0])
    ensures SepRun(a + b) == SepRun(a)
  {
    if a != [] {
      if IsSep(a[0]) {
        assert (a + b)[1..] == a[1..] + b;
        SepRunConcat(a[1..], b);
      }
    } else {
      assert a + b == b;
    }
  }

  lemma WhichNone(t: string, ls: set<Label>)
    requires forall l :: l in ls ==> !LabelAt(t, l)
    ensures Which(t, ls) == None
  {
  }

  lemma WhichSome(t: string, ls: set<Label>, x: Label)
    requires x in ls && LabelAt(t, x)
    ensures Which(t, ls) == Some(x)
  {
    if Which(t, ls) != Some(x) {
      LabelUnique(t, x, Which(t, ls).value);
    }
  }

  /** The whole text of one match: a word followed by separators only. */
  predicate IsRegion(seg: string, x: Label) {
    LabelAt(seg, x) && MatchEnd(seg, x) == |seg|
  }

  lemma ReplacementIsRegion(x: Label)
    ensures IsRegion(Replacement(x), x)
  {
    ReplacementShape(x);
    var r := Replacement(x)[|Word(x)|..];
    assert r == ": ";
    assert SepRun(r[1..]) == 1;
  }

  /** Where no pattern of `ls` matches inside `u`, a pass copies `u` unchanged. */
  lemma {:induction false} CopyPrefix(u: string, w: string, ls: set<Label>)
    requires forall i :: 0 <= i < |u| ==> Which((u + w)[i..], ls).None?
    ensures Rewrite(u + w, ls) == u + Rewrite(w, ls)
    decreases |u|
  {
    if u == [] {
      assert u + w == w;
    } else {
      var s := u + w;
      assert s[0..] == s;
      forall i | 0 <= i < |u[1..]|
        ensures Which((u[1..] + w)[i..], ls).None?
      {
        assert (u[1..] + w)[i..] == s[i + 1..];
      }
      CopyPrefix(u[1..], w, ls);
      CopyStep(s, u, w, Rewrite(w, ls), ls);
    }
  }

  lemma CopyStep(s: string, u: string, w: string, rw: string, ls: set<Label>)
    requires s == u + w && u != [] && Which(s, ls).None?
    requires Rewrite(u[1..] + w, ls) == u[1..] + rw
    ensures Rewrite(s, ls) == u + rw
  {
    RewriteNone(s, ls);
    ConsTail(s, u, w);
    ConsAlgebra(s[0], u, Rewrite(s[1..], ls), rw);
  }

  lemma ConsTail(s: string, u: string, w: string)
    requires s == u + w && u != []
    ensures s[1..] == u[1..] + w && s[0] == u[0]
  {
  }

  lemma ConsAlgebra(c: char, u: string, rest: string, rw: string)
    requires u != [] && c == u[0] && rest == u[1..] + rw
    ensures [c] + rest == u + rw
  {
    assert u == [u[0]] + u[1..];
  }




  lemma RewriteSome(s: string, ls: set<Label>, x: Label)
    requires s != [] && Which(s, ls) == Some(x)
    ensures Rewrite(s, ls) == Replacement(x) + Rewrite(s[MatchEnd(s, x)..], ls)
  {
  }

  lemma RewriteNone(s: string, ls: set<Label>)
    requires s != [] && Which(s, ls) == None
    ensures Rewrite(s, ls) == [s[0]] + Rewrite(s[1..], ls)
  {
  }

  /** Inside the text of a match of `x`, no pattern other than `x` at its start matches. */
  lemma NoOtherLabelInRegion(seg: string, x: Label, w: string, i: nat, l: Label)
    requires IsRegion(seg, x) && i < |seg|
    requires i > 0 || l != x
    ensures !LabelAt((seg + w)[i..], l)
  {
    var s := seg + w;
    LabelAtPrefix(seg, w, x);
    if i == 0 {
      assert s[0..] == s;
      if LabelAt(s, l) {
        LabelUnique(s, l, x);
      }
    } else if i < |Word(x)| {
      assert StartsCi(s, Word(x));
      NoLabelInside(s, x, i, l);
    } else {
      assert IsSep(s[i]) && s[i..][0] == s[i];
    }
  }

  lemma RegionStepMatch(seg: string, x: Label, w: string, ls: set<Label>)
    requires IsRegion(seg, x) && x in ls
    requires w == [] || !IsSep(w[0])
    ensures Rewrite(seg + w, ls) == Replacement(x) + Rewrite(w, ls)
  {
    var s := seg + w;
    RegionMatchEnd(seg, x, w);
    WhichSome(s, ls, x);
    RewriteSome(s, ls, x);
  }

  /** A match region followed by a non-separator is matched exactly. */
  lemma RegionMatchEnd(seg: string, x: Label, w: string)
    requires IsRegion(seg, x)
    requires w == [] || !IsSep(w[0])
    ensures LabelAt(seg + w, x) && MatchEnd(seg + w, x) == |seg| && (seg + w)[|seg|..] == w
  {
    LabelAtPrefix(seg, w, x);
    MatchEndConcat(seg, w, x);
    SliceConcat(seg, w, |seg|);
  }

  lemma MatchEndConcat(seg: string, w: string, x: Label)
    requires LabelAt(seg, x) && LabelAt(seg + w, x)
    requires w == [] || !IsSep(w[0])
    ensures MatchEnd(seg + w, x) == MatchEnd(seg, x)
  {
    var k := |Word(x)|;
    SliceConcat(seg, w, k);
    SepRunConcat(seg[k..], w);
  }

  lemma RegionStepCopy(seg: string, x: Label, w: string, ls: set<Label>)
    requires IsRegion(seg, x) && x !in ls
    ensures Rewrite(seg + w, ls) == seg + Rewrite(w, ls)
  {
    forall i | 0 <= i < |seg|
      ensures Which((seg + w)[i..], ls).None?
    {
      forall l | l in ls
        ensures !LabelAt((seg + w)[i..], l)
      {
        NoOtherLabelInRegion(seg, x, w, i, l);
      }
      WhichNone((seg + w)[i..], ls);
    }
    CopyPrefix(seg, w, ls);
  }

  /** A pass maps the text of one whole match to the replacement when it rewrites that label,
      and leaves it alone otherwise; what follows is rewritten on its own. */
  lemma RegionStep(seg: string, x: Label, w: string, ls: set<Label>)
    requires IsRegion(seg, x)
    requires w == [] || !IsSep(w[0])
    ensures Rewrite(seg + w, ls) == (if x in ls then Replacement(x) else seg) + Rewrite(w, ls)
  {
    if x in ls {
      RegionStepMatch(seg, x, w, ls);
    } else {
      RegionStepCopy(seg, x, w, ls);
    }
  }

  /** A replacement placed within a label's length of the start never completes that label. */
  lemma ReplacementBlocks(pre: string, rest: string, k: Label, l: Label)
    requires 1 <= |pre| <= |Word(l)|
    ensures !LabelAt(pre + (Replacement(k) + rest), l)
  {
    ReplacementShape(k);
    var t := pre + (Replacement(k) + rest);
    assert t[|pre|] == Replacement(k)[0] && t[|pre| + 1] == Replacement(k)[1];
    assert Lower(t[|pre|]) == Word(k)[0] && Lower(t[|pre| + 1]) == Word(k)[1];
    if |pre| < |Word(l)| {
      Incomparable(l, k, |pre|);
    }
  }

  lemma ShiftHead(pre: string, w: string, r: string)
    requires w != []
    ensures pre + ([w[0]] + r) == (pre + [w[0]]) + r
    ensures (pre + [w[0]]) + w[1..] == pre + w
  {
    assert w == [w[0]] + w[1..];
  }

  /** A pass never creates a match that starts before the text it rewrites. */
  lemma {:induction false} NoNewMatch(pre: string, w: string, ls: set<Label>, l: Label)
    requires |pre| >= 1 && !LabelAt(pre + w, l)
    ensures !LabelAt(pre + Rewrite(w, ls), l)
    decreases |w|
  {
    if w == [] {
      assert Rewrite(w, ls) == w;
    } else {
      match Which(w, ls)
      case Some(k) =>
        var rest := Rewrite(w[MatchEnd(w, k)..], ls);
        assert Rewrite(w, ls) == Replacement(k) + rest;
        if |pre| > |Word(l)| {
          LabelAtPrefix(pre, w, l);
          LabelAtPrefix(pre, Rewrite(w, ls), l);
        } else {
          ReplacementBlocks(pre, rest, k, l);
        }
      case None =>
        RewriteNone(w, ls);
        ShiftHead(pre, w, Rewrite(w[1..], ls));
        NoNewMatch(pre + [w[0]], w[1..], ls, l);
    }
  }

  /** `w` starts with a label word followed by a colon (as a replacement does). */
  predicate LabelColon(w: string, x: Label) {
    |w| > |Word(x)| && StartsCi(w, Word(x)) && w[|Word(x)|] == ':'
  }

  /** Places where a text can be cut without a match straddling the cut. */
  predicate SafeCut(w: string, x: Label) {
    w == [] || w[0] == '\n' || LabelColon(w, x)
  }

  lemma CutLabelAt(u: string, w: string, l: Label, x: Label)
    requires u != [] && SafeCut(w, x)
    ensures LabelAt(u + w, l) <==> LabelAt(u, l)
  {
    if |u| > |Word(l)| {
      LabelAtPrefix(u, w, l);
    } else if w == [] {
      assert u + w == u;
    } else {
      var s := u + w;
      var n := |u|;
      assert s[n] == w[0];
      if w[0] != '\n' {
        assert Lower(w[0]) == Word(x)[0] && Lower(w[1]) == Word(x)[1];
        assert s[n + 1] == w[1];
        if n < |Word(l)| {
          Incomparable(l, x, n);
        }
      }
    }
  }

  lemma WhichCut(u: string, w: string, ls: set<Label>, x: Label)
    requires u != [] && SafeCut(w, x)
    ensures Which(u + w, ls) == Which(u, ls)
  {
    CutLabelAt(u, w, Valor, x);
    CutLabelAt(u, w, Data, x);
    CutLabelAt(u, w, Hora, x);
    CutLabelAt(u, w, Total, x);
  }

  lemma SafeCutHead(w: string, x: Label)
    requires SafeCut(w, x)
    ensures w == [] || !IsSep(w[0])
  {
    if w != [] && w[0] != '\n' {
      assert Lower(w[0]) == Word(x)[0];
    }
  }

  lemma SliceConcat(u: string, w: string, n: nat)
    requires n <= |u|
    ensures (u + w)[n..] == u[n..] + w
  {
  }

  lemma MatchEndCut(u: string, w: string, l: Label, x: Label)
    requires LabelAt(u, l) && SafeCut(w, x)
    ensures LabelAt(u + w, l) && MatchEnd(u + w, l) == MatchEnd(u, l)
    ensures (u + w)[MatchEnd(u, l)..] == u[MatchEnd(u, l)..] + w
  {
    LabelAtPrefix(u, w, l);
    SafeCutHead(w, x);
    SepRunConcat(u[|Word(l)|..], w);
    SliceConcat(u, w, |Word(l)|);
    SliceConcat(u, w, MatchEnd(u, l));
  }

  lemma ConcatAssoc(p: string, a: string, b: string)
    ensures p + (a + b) == (p + a) + b
  {
  }

  lemma MatchHeadCut(u: string, w: string, ls: set<Label>, x: Label, l: Label)
    requires u != [] && SafeCut(w, x) && Which(u, ls) == Some(l)
    ensures Rewrite(u + w, ls) == Replacement(l) + Rewrite(u[MatchEnd(u, l)..] + w, ls)
  {
    WhichCut(u, w, ls, x);
    MatchEndCut(u, w, l, x);
    RewriteSome(u + w, ls, l);
  }

  lemma ConcatMatchStep(u: string, w: string, ls: set<Label>, x: Label, l: Label)
    requires u != [] && SafeCut(w, x) && Which(u, ls) == Some(l)
    requires Rewrite(u[MatchEnd(u, l)..] + w, ls) == Rewrite(u[MatchEnd(u, l)..], ls) + Rewrite(w, ls)
    ensures Rewrite(u + w, ls) == Rewrite(u, ls) + Rewrite(w, ls)
  {
    MatchHeadCut(u, w, ls, x, l);
    RewriteSome(u, ls, l);
    ConcatAssoc(Replacement(l), Rewrite(u[MatchEnd(u, l)..], ls), Rewrite(w, ls));
  }

  lemma CopyHeadCut(u: string, w: string, ls: set<Label>, x: Label)
    requires u != [] && SafeCut(w, x) && Which(u, ls) == None
    ensures Rewrite(u + w, ls) == [u[0]] + Rewrite(u[1..] + w, ls)
  {
    WhichCut(u, w, ls, x);
    assert (u + w)[1..] == u[1..] + w;
    RewriteNone(u + w, ls);
  }

  lemma ConcatCopyStep(u: string, w: string, ls: set<Label>, x: Label)
    requires u != [] && SafeCut(w, x) && Which(u, ls) == None
    requires Rewrite(u[1..] + w, ls) == Rewrite(u[1..], ls) + Rewrite(w, ls)
    ensures Rewrite(u + w, ls) == Rewrite(u, ls) + Rewrite(w, ls)
  {
    CopyHeadCut(u, w, ls, x);
    RewriteNone(u, ls);
    ConcatAssoc([u[0]], Rewrite(u[1..], ls), Rewrite(w, ls));
  }

  /** Where a pass resumes after the first step at the start of `s`. */
  function Advance(s: string, ls: set<Label>): (n: nat)
    requires s != []
    ensures 0 < n <= |s|
  {
    match Which(s, ls)
    case Some(l) => MatchEnd(s, l)
    case None => 1
  }

  lemma ConcatStep(u: string, w: string, ls: set<Label>, x: Label)
    requires u != [] && SafeCut(w, x)
    requires Rewrite(u[Advance(u, ls)..] + w, ls) == Rewrite(u[Advance(u, ls)..], ls) + Rewrite(w, ls)
    ensures Rewrite(u + w, ls) == Rewrite(u, ls) + Rewrite(w, ls)
  {
    match Which(u, ls)
    case Some(l) => ConcatMatchStep(u, w, ls, x, l);
    case None => ConcatCopyStep(u, w, ls, x);
  }

  lemma {:induction false} RewriteConcatNonEmpty(u: string, w: string, ls: set<Label>, x: Label)
    requires SafeCut(w, x) && u != []
    ensures Rewrite(u + w, ls) == Rewrite(u, ls) + Rewrite(w, ls)
    decreases |u|
  {
    var t := u[Advance(u, ls)..];
    if t != [] {
      RewriteConcatNonEmpty(t, w, ls, x);
    } else {
      assert t + w == w;
    }
    ConcatStep(u, w, ls, x);
  }

  /** A pass works separately on the two sides of a newline, and of the start of a label word
      followed by a colon. */
  lemma RewriteConcat(u: string, w: string, ls: set<Label>, x: Label)
    requires SafeCut(w, x)
    ensures Rewrite(u + w, ls) == Rewrite(u, ls) + Rewrite(w, ls)
  {
    if u == [] {
      assert u + w == w;
      assert Rewrite(u, ls) == [];
    } else {
      RewriteConcatNonEmpty(u, w, ls, x);
    }
  }



  // ---- The source's four passes are one simultaneous pass ----

  /** The text of a match, split off the front of `s`. */
  lemma MatchRegion(s: string, x: Label)
    requires LabelAt(s, x)
    ensures IsRegion(s[..MatchEnd(s, x)], x)
    ensures s == s[..MatchEnd(s, x)] + s[MatchEnd(s, x)..]
    ensures s[MatchEnd(s, x)..] == [] || !IsSep(s[MatchEnd(s, x)..][0])
  {
    var m := MatchEnd(s, x);
    var seg, w := s[..m], s[m..];
    assert s == seg + w;
    LabelAtPrefix(seg, w, x);
    SepRunConcat(seg[|Word(x)|..], w);
    SliceConcat(seg, w, |Word(x)|);
  }

  /** A region keeps its label: whatever a pass does to it, the result is a region of `x`. */
  lemma RegionPass(seg: string, x: Label, w: string, ls: set<Label>)
    requires IsRegion(seg, x)
    requires w == [] || !IsSep(w[0])
    ensures Rewrite(seg + w, ls) == (if x in ls then Replacement(x) else seg) + Rewrite(w, ls)
    ensures IsRegion(if x in ls then Replacement(x) else seg, x)
    ensures Rewrite(w, ls) == [] || !IsSep(Rewrite(w, ls)[0])
  {
    RegionStep(seg, x, w, ls);
    ReplacementIsRegion(x);
  }

  lemma PassesMatchStep(s: string, x: Label)
    requires Which(s, AllLabels) == Some(x)
    ensures LabelPasses(s) == Replacement(x) + LabelPasses(s[MatchEnd(s, x)..])
  {
    var m := MatchEnd(s, x);
    MatchRegion(s, x);
    var seg, w := s[..m], s[m..];
    var w1 := Rewrite(w, {Valor});
    var w2 := Rewrite(w1, {Data});
    var w3 := Rewrite(w2, {Hora});
    RegionPass(seg, x, w, {Valor});
    var r1 := if x == Valor then Replacement(x) else seg;
    RegionPass(r1, x, w1, {Data});
    var r2 := if x == Data then Replacement(x) else r1;
    RegionPass(r2, x, w2, {Hora});
    var r3 := if x == Hora then Replacement(x) else r2;
    RegionPass(r3, x, w3, {Total});
  }

  /** With no match at the start, a pass copies the first character. */
  lemma PassCopy(c: char, w: string, ls: set<Label>)
    requires forall l :: l in ls ==> !LabelAt([c] + w, l)
    ensures Rewrite([c] + w, ls) == [c] + Rewrite(w, ls)
  {
    WhichNone([c] + w, ls);
    assert ([c] + w)[1..] == w;
    RewriteNone([c] + w, ls);
  }

  lemma PassesCopyStep(s: string)
    requires s != [] && Which(s, AllLabels) == None
    ensures LabelPasses(s) == [s[0]] + LabelPasses(s[1..])
  {
    var c, w := s[0], s[1..];
    assert s == [c] + w;
    var w1 := Rewrite(w, {Valor});
    var w2 := Rewrite(w1, {Data});
    var w3 := Rewrite(w2, {Hora});
    PassCopy(c, w, {Valor});
    NoNewMatch([c], w, {Valor}, Data);
    NoNewMatch([c], w, {Valor}, Hora);
    NoNewMatch([c], w, {Valor}, Total);
    PassCopy(c, w1, {Data});
    NoNewMatch([c], w1, {Data}, Hora);
    NoNewMatch([c], w1, {Data}, Total);
    PassCopy(c, w2, {Hora});
    NoNewMatch([c], w2, {Hora}, Total);
    PassCopy(c, w3, {Total});
  }

  /** The source's four passes, one label each in the order valor, data, hora, total, rewrite
      exactly what one simultaneous pass over all four labels rewrites: no pass creates or
      destroys a match for a later one. */
  lemma {:induction false} LabelPassesAreOnePass(s: string)
    ensures LabelPasses(s) == Rewrite(s, AllLabels)
    decreases |s|
  {
    if s != [] {
      match Which(s, AllLabels)
      case Some(x) =>
        LabelPassesAreOnePass(s[MatchEnd(s, x)..]);
        PassesMatchStep(s, x);
        RewriteSome(s, AllLabels, x);
      case None =>
        LabelPassesAreOnePass(s[1..]);
        PassesCopyStep(s);
        RewriteNone(s, AllLabels);
    }
  }

  // ---- Idempotence and canonical labels ----

  /** A pass creates no match at the start of a text whose first character it copies. */
  lemma CopyHeadStays(c: char, w: string, ls: set<Label>)
    requires forall l :: l in ls ==> !LabelAt([c] + w, l)
    ensures forall l :: l in ls ==> !LabelAt([c] + Rewrite(w, ls), l)
  {
    forall l | l in ls
      ensures !LabelAt([c] + Rewrite(w, ls), l)
    {
      NoNewMatch([c], w, ls, l);
    }
  }

  lemma IdempotentCopyStep(s: string, ls: set<Label>)
    requires s != [] && Which(s, ls) == None
    requires Rewrite(Rewrite(s[1..], ls), ls) == Rewrite(s[1..], ls)
    ensures Rewrite(Rewrite(s, ls), ls) == Rewrite(s, ls)
  {
    Uncons(s);
    IdempotentCons(s[0], s[1..], ls);
  }

  lemma Uncons(s: string)
    requires s != []
    ensures s == [s[0]] + s[1..]
  {
  }

  lemma IdempotentCons(c: char, w: string, ls: set<Label>)
    requires forall l :: l in ls ==> !LabelAt([c] + w, l)
    requires Rewrite(Rewrite(w, ls), ls) == Rewrite(w, ls)
    ensures Rewrite(Rewrite([c] + w, ls), ls) == Rewrite([c] + w, ls)
  {
    PassCopy(c, w, ls);
    CopyHeadStays(c, w, ls);
    PassCopy(c, Rewrite(w, ls), ls);
  }


  lemma IdempotentMatchStep(s: string, ls: set<Label>, x: Label)
    requires s != [] && Which(s, ls) == Some(x)
    requires Rewrite(Rewrite(s[MatchEnd(s, x)..], ls), ls) == Rewrite(s[MatchEnd(s, x)..], ls)
    ensures Rewrite(Rewrite(s, ls), ls) == Rewrite(s, ls)
  {
    var w := s[MatchEnd(s, x)..];
    MatchRegion(s, x);
    RewriteSome(s, ls, x);
    ReplacementIsRegion(x);
    RegionStep(Replacement(x), x, Rewrite(w, ls), ls);
  }

  /** Rewriting a second time changes nothing. */
  lemma {:induction false} RewriteIdempotent(s: string, ls: set<Label>)
    ensures Rewrite(Rewrite(s, ls), ls) == Rewrite(s, ls)
    decreases |s|
  {
    if s != [] {
      match Which(s, ls)
      case Some(x) =>
        RewriteIdempotent(s[MatchEnd(s, x)..], ls);
        IdempotentMatchStep(s, ls, x);
      case None =>
        RewriteIdempotent(s[1..], ls);
        IdempotentCopyStep(s, ls);
    }
  }

  /** `t` starts with the canonical spelling of `l`'s label, and no separator follows it. */
  predicate CanonicalAt(t: string, l: Label) {
    var r := Replacement(l);
    |t| >= |r| && t[..|r|] == r && (|t| == |r| || !IsSep(t[|r|]))
  }

  /** Every match of a pattern of `ls` in `t` is already the canonical label. */
  predicate Canonical(t: string, ls: set<Label>) {
    forall i, l :: 0 <= i < |t| && l in ls && LabelAt(t[i..], l) ==> CanonicalAt(t[i..], l)
  }

  /** No pattern matches inside a replacement except at its start. */
  lemma NoMatchInsideReplacement(x: Label, w: string, i: nat, l: Label)
    requires 0 < i < |Replacement(x)|
    ensures !LabelAt((Replacement(x) + w)[i..], l)
  {
    ReplacementIsRegion(x);
    NoOtherLabelInRegion(Replacement(x), x, w, i, l);
  }

  lemma CanonicalHead(x: Label, w: string, l: Label)
    requires w == [] || !IsSep(w[0])
    requires LabelAt(Replacement(x) + w, l)
    ensures CanonicalAt(Replacement(x) + w, l)
  {
    ReplacementIsRegion(x);
    LabelAtPrefix(Replacement(x), w, x);
    LabelUnique(Replacement(x) + w, x, l);
    assert (Replacement(x) + w)[..|Replacement(x)|] == Replacement(x);
  }

  lemma CanonicalMatchStep(s: string, ls: set<Label>, x: Label)
    requires s != [] && Which(s, ls) == Some(x)
    requires Canonical(Rewrite(s[MatchEnd(s, x)..], ls), ls)
    ensures Canonical(Rewrite(s, ls), ls)
  {
    var w := s[MatchEnd(s, x)..];
    var rw := Rewrite(w, ls);
    MatchRegion(s, x);
    RewriteSome(s, ls, x);
    var t := Replacement(x) + rw;
    var n := |Replacement(x)|;
    forall i, l | 0 <= i < |t| && l in ls && LabelAt(t[i..], l)
      ensures CanonicalAt(t[i..], l)
    {
      if i == 0 {
        assert t[0..] == t;
        CanonicalHead(x, rw, l);
      } else if i < n {
        NoMatchInsideReplacement(x, rw, i, l);
      } else {
        assert t[i..] == rw[i - n..];
      }
    }
  }

  lemma CanonicalCons(c: char, t: string, ls: set<Label>)
    requires Canonical(t, ls)
    requires forall l :: l in ls ==> !LabelAt([c] + t, l)
    ensures Canonical([c] + t, ls)
  {
    var ct := [c] + t;
    assert ct[0..] == ct;
    forall i, l | 0 <= i < |ct| && l in ls && LabelAt(ct[i..], l)
      ensures CanonicalAt(ct[i..], l)
    {
      if i > 0 {
        assert ct[i..] == t[i - 1..];
      }
    }
  }

  lemma CanonicalCopyStep(s: string, ls: set<Label>)
    requires s != [] && Which(s, ls) == None
    requires Canonical(Rewrite(s[1..], ls), ls)
    ensures Canonical(Rewrite(s, ls), ls)
  {
    ConsTail(s, [s[0]], s[1..]);
    RewriteNone(s, ls);
    CopyHeadStays(s[0], s[1..], ls);
    CanonicalCons(s[0], Rewrite(s[1..], ls), ls);
  }


  /** After a pass every label of `ls` is written in its canonical spelling (`Valor: ` and so on)
      and is not followed by a further `:` or space. */
  lemma {:induction false} RewriteCanonical(s: string, ls: set<Label>)
    ensures Canonical(Rewrite(s, ls), ls)
    decreases |s|
  {
    if s != [] {
      match Which(s, ls)
      case Some(x) =>
        RewriteCanonical(s[MatchEnd(s, x)..], ls);
        CanonicalMatchStep(s, ls, x);
      case None =>
        RewriteCanonical(s[1..], ls);
        CanonicalCopyStep(s, ls);
    }
  }

  lemma CanonicalSuffix(t: string, ls: set<Label>, k: nat)
    requires Canonical(t, ls) && k <= |t|
    ensures Canonical(t[k..], ls)
  {
    forall i, l | 0 <= i < |t[k..]| && l in ls && LabelAt(t[k..][i..], l)
      ensures CanonicalAt(t[k..][i..], l)
    {
      assert t[k..][i..] == t[k + i..];
    }
  }

  lemma {:induction false} CanonicalFixed(t: string, ls: set<Label>)
    requires Canonical(t, ls)
    ensures Rewrite(t, ls) == t
    decreases |t|
  {
    if t != [] {
      match Which(t, ls)
      case Some(x) =>
        var n := |Replacement(x)|;
        CanonicalStart(t, ls, x);
        CanonicalSuffix(t, ls, n);
        CanonicalFixed(t[n..], ls);
        CanonicalFixedMatch(t, ls, x);
      case None =>
        CanonicalSuffix(t, ls, 1);
        CanonicalFixed(t[1..], ls);
        CanonicalFixedNone(t, ls);
    }
  }

  /** A canonical text starting with a match starts with the replacement, followed by no
      separator. */
  lemma CanonicalStart(t: string, ls: set<Label>, x: Label)
    requires Canonical(t, ls) && t != [] && x in ls && LabelAt(t, x)
    ensures |t| >= |Replacement(x)| && t == Replacement(x) + t[|Replacement(x)|..]
    ensures t[|Replacement(x)|..] == [] || !IsSep(t[|Replacement(x)|..][0])
  {
    assert t[0..] == t;
    assert CanonicalAt(t[0..], x);
  }

  lemma CanonicalFixedMatch(t: string, ls: set<Label>, x: Label)
    requires t != [] && Which(t, ls) == Some(x)
    requires |t| >= |Replacement(x)| && t == Replacement(x) + t[|Replacement(x)|..]
    requires t[|Replacement(x)|..] == [] || !IsSep(t[|Replacement(x)|..][0])
    requires Rewrite(t[|Replacement(x)|..], ls) == t[|Replacement(x)|..]
    ensures Rewrite(t, ls) == t
  {
    ReplacementIsRegion(x);
    RegionStepMatch(Replacement(x), x, t[|Replacement(x)|..], ls);
  }

  lemma CanonicalFixedNone(t: string, ls: set<Label>)
    requires t != [] && Which(t, ls) == None && Rewrite(t[1..], ls) == t[1..]
    ensures Rewrite(t, ls) == t
  {
    RewriteNone(t, ls);
    ConsAlgebra(t[0], t, t[1..], []);
  }


  /** The texts a pass leaves unchanged are exactly those whose labels are all canonical. */
  lemma FixedIffCanonical(t: string, ls: set<Label>)
    ensures Rewrite(t, ls) == t <==> Canonical(t, ls)
  {
    RewriteCanonical(t, ls);
    if Canonical(t, ls) {
      CanonicalFixed(t, ls);
    }
  }

  // ---- What a pass can put into a text ----

  /** A pass starts its output with the first input character or with a capital letter. */
  lemma RewriteHead(s: string, ls: set<Label>)
    requires s != []
    ensures Rewrite(s, ls)[0] == s[0] || 'A' <= Rewrite(s, ls)[0] <= 'Z'
  {
    match Which(s, ls)
    case Some(x) =>
      RewriteSome(s, ls, x);
      ReplacementShape(x);
    case None =>
      RewriteNone(s, ls);
  }

  /** Every character of `r` is a character of `s` or printable ASCII. */
  predicate CharsFrom(r: string, s: string) {
    forall i :: 0 <= i < |r| ==> r[i] in s || ' ' <= r[i] <= '~'
  }

  lemma CharsFromConcat(p: string, q: string, s: string)
    requires CharsFrom(p, s) && CharsFrom(q, s)
    ensures CharsFrom(p + q, s)
  {
    forall i | 0 <= i < |p + q|
      ensures (p + q)[i] in s || ' ' <= (p + q)[i] <= '~'
    {
      if i >= |p| {
        assert (p + q)[i] == q[i - |p|];
      }
    }
  }

  lemma CharsFromTail(r: string, s: string, k: nat)
    requires k <= |s| && CharsFrom(r, s[k..])
    ensures CharsFrom(r, s)
  {
    forall i | 0 <= i < |r|
      ensures r[i] in s || ' ' <= r[i] <= '~'
    {
      if r[i] in s[k..] {
        var j :| k <= j < |s| && s[j] == r[i];
      }
    }
  }

  lemma CharsFromHead(s: string, ls: set<Label>)
    requires s != []
    ensures CharsFrom(Rewrite(s, ls)[..|Rewrite(s, ls)| - |Rewrite(s[Advance(s, ls)..], ls)|], s)
    ensures Rewrite(s, ls) == Rewrite(s, ls)[..|Rewrite(s, ls)| - |Rewrite(s[Advance(s, ls)..], ls)|] + Rewrite(s[Advance(s, ls)..], ls)
  {
    var rest := Rewrite(s[Advance(s, ls)..], ls);
    var head: string;
    match Which(s, ls)
    case Some(x) =>
      RewriteSome(s, ls, x);
      head := Replacement(x);
      assert CharsFrom(head, s) by {
        ReplacementPrintable(x);
      }
    case None =>
      RewriteNone(s, ls);
      head := [s[0]];
      assert head[0] in s;
    HeadSplit(head, rest);
  }

  /** A replacement is printable ASCII. */
  lemma ReplacementPrintable(x: Label)
    ensures forall i :: 0 <= i < |Replacement(x)| ==> ' ' <= Replacement(x)[i] <= '~'
  {
  }

  lemma HeadSplit(head: string, rest: string)
    ensures (head + rest)[..|head + rest| - |rest|] == head
  {
  }


  lemma CharsFromStep(s: string, ls: set<Label>)
    requires s != []
    requires CharsFrom(Rewrite(s[Advance(s, ls)..], ls), s[Advance(s, ls)..])
    ensures CharsFrom(Rewrite(s, ls), s)
  {
    var k := Advance(s, ls);
    var rest := Rewrite(s[k..], ls);
    CharsFromTail(rest, s, k);
    CharsFromHead(s, ls);
    var r := Rewrite(s, ls);
    CharsFromConcat(r[..|r| - |rest|], rest, s);
  }

  /** Every output character is an input character or a printable ASCII one from a label. */
  lemma {:induction false} RewriteChars(s: string, ls: set<Label>)
    ensures CharsFrom(Rewrite(s, ls), s)
    decreases |s|
  {
    if s != [] {
      RewriteChars(s[Advance(s, ls)..], ls);
      CharsFromStep(s, ls);
    }
  }

  lemma NoRunCons(a: string, b: string, c: char)
    requires NoRun(a, c) && NoRun(b, c)
    requires a == [] || b == [] || a[|a| - 1] != c || b[0] != c
    ensures NoRun(a + b, c)
  {
    var ab := a + b;
    forall i | 0 <= i < |ab| - 1
      ensures !(ab[i] == c && ab[i + 1] == c)
    {
      if i + 1 < |a| {
        assert ab[i] == a[i] && ab[i + 1] == a[i + 1];
      } else if i >= |a| {
        assert ab[i] == b[i - |a|] && ab[i + 1] == b[i - |a| + 1];
      }
    }
  }

  lemma ReplacementNoRun(x: Label)
    ensures NoRun(Replacement(x), ' ') && Replacement(x)[|Replacement(x)| - 1] == ' '
  {
    ReplacementShape(x);
    var r := Replacement(x);
    WordLetters(x);
    forall i | 0 <= i < |r| - 1
      ensures !(r[i] == ' ' && r[i + 1] == ' ')
    {
      if i + 1 < |Word(x)| {
        assert Lower(r[i + 1]) == Word(x)[i + 1];
      }
    }
  }

  lemma NoRunTail(s: string, k: nat, c: char)
    requires NoRun(s, c) && k <= |s|
    ensures NoRun(s[k..], c)
  {
    forall i | 0 <= i < |s[k..]| - 1
      ensures !(s[k..][i] == c && s[k..][i + 1] == c)
    {
      assert s[k..][i] == s[k + i] && s[k..][i + 1] == s[k + i + 1];
    }
  }

  /** A pass creates no double space: a label swallows the whole run of separators after it,
      and what follows a replacement is never a space. */
  lemma {:induction false} RewriteNoRun(s: string, ls: set<Label>)
    requires NoRun(s, ' ')
    ensures NoRun(Rewrite(s, ls), ' ')
    decreases |s|
  {
    if s != [] {
      match Which(s, ls)
      case Some(x) =>
        var m := MatchEnd(s, x);
        var w := s[m..];
        NoRunTail(s, m, ' ');
        RewriteNoRun(w, ls);
        RewriteSome(s, ls, x);
        ReplacementNoRun(x);
        NoRunCons(Replacement(x), Rewrite(w, ls), ' ');
      case None =>
        var w := s[1..];
        NoRunTail(s, 1, ' ');
        RewriteNoRun(w, ls);
        RewriteNone(s, ls);
        if w != [] {
          RewriteHead(w, ls);
          assert s[1] == w[0];
        }
        NoRunCons([s[0]], Rewrite(w, ls), ' ');
    }
  }

  /** The output of a pass ends with a label's replacement. */
  predicate EndsWithLabel(r: string, ls: set<Label>) {
    exists x :: x in ls && EndsWith(r, Replacement(x))
  }

  lemma EndsWithLabelConcat(p: string, r: string, ls: set<Label>)
    requires EndsWithLabel(r, ls)
    ensures EndsWithLabel(p + r, ls)
  {
    var x :| x in ls && EndsWith(r, Replacement(x));
    assert (p + r)[|p + r| - |Replacement(x)|..] == r[|r| - |Replacement(x)|..];
  }

  /** The trailing-space fact for one step, given it for what follows the step. */
  predicate TrailingSpaceFact(s: string, ls: set<Label>) {
    TrailingFact(Rewrite(s, ls), s, ls)
  }

  /** `r`, the output for `s`, ends with a space only where `s` does or after a replacement. */
  predicate TrailingFact(r: string, s: string, ls: set<Label>) {
    r != [] && r[|r| - 1] == ' ' ==> (s != [] && s[|s| - 1] == ' ') || EndsWithLabel(r, ls)
  }

  /** The trailing-space fact for `p + rt`, the output for `s`, from the fact for `rt`, the
      output for `s[k..]`. */
  lemma TrailingStep(p: string, rt: string, s: string, k: nat, ls: set<Label>)
    requires 0 < k <= |s| && TrailingFact(rt, s[k..], ls)
    requires rt == [] ==> !(p != [] && p[|p| - 1] == ' ') || s[|s| - 1] == ' ' || EndsWithLabel(p, ls)
    ensures TrailingFact(p + rt, s, ls)
  {
    var r := p + rt;
    if rt == [] {
      assert r == p;
    } else {
      assert r[|r| - 1] == rt[|rt| - 1];
      if rt[|rt| - 1] == ' ' {
        if EndsWithLabel(rt, ls) {
          EndsWithLabelConcat(p, rt, ls);
        } else {
          assert s[k..] != [] && s[k..][|s[k..]| - 1] == s[|s| - 1];
        }
      }
    }
  }

  lemma TrailingMatch(s: string, ls: set<Label>, x: Label)
    requires s != [] && Which(s, ls) == Some(x)
    requires TrailingSpaceFact(s[MatchEnd(s, x)..], ls)
    ensures TrailingSpaceFact(s, ls)
  {
    RewriteSome(s, ls, x);
    assert EndsWith(Replacement(x), Replacement(x));
    TrailingStep(Replacement(x), Rewrite(s[MatchEnd(s, x)..], ls), s, MatchEnd(s, x), ls);
  }

  lemma TrailingCopy(s: string, ls: set<Label>)
    requires s != [] && Which(s, ls) == None
    requires TrailingSpaceFact(s[1..], ls)
    ensures TrailingSpaceFact(s, ls)
  {
    RewriteNone(s, ls);
    TrailingStep([s[0]], Rewrite(s[1..], ls), s, 1, ls);
  }

  /** A pass ends its output with a space only where the input ends with one or where the
      output ends with a label's replacement. */
  lemma {:induction false} RewriteTrailingSpace(s: string, ls: set<Label>)
    requires Rewrite(s, ls) != [] && Rewrite(s, ls)[|Rewrite(s, ls)| - 1] == ' '
    ensures s[|s| - 1] == ' ' || EndsWithLabel(Rewrite(s, ls), ls)
  {
    TrailingSpace(s, ls);
  }

  lemma {:induction false} TrailingSpace(s: string, ls: set<Label>)
    ensures TrailingSpaceFact(s, ls)
    decreases |s|
  {
    if s != [] {
      match Which(s, ls)
      case Some(x) =>
        TrailingSpace(s[MatchEnd(s, x)..], ls);
        TrailingMatch(s, ls, x);
      case None =>
        TrailingSpace(s[1..], ls);
        TrailingCopy(s, ls);
    }
  }

  // ---- Lines, and a label that lost its trailing space ----

  /** A pass applied to each line of a list. */
  function RewriteEach(lines: seq<string>, ls: set<Label>): (r: seq<string>)
    ensures |r| == |lines| && forall i :: 0 <= i < |r| ==> r[i] == Rewrite(lines[i], ls)
  {
    if lines == [] then [] else [Rewrite(lines[0], ls)] + RewriteEach(lines[1..], ls)
  }

  lemma NewlineHead(t: string, ls: set<Label>)
    ensures Rewrite("\n" + t, ls) == "\n" + Rewrite(t, ls)
  {
    var s := "\n" + t;
    assert Lower(s[0]) == '\n';
    WhichNone(s, ls);
    assert s[1..] == t;
    RewriteNone(s, ls);
  }

  lemma JoinStep(a: string, rest: seq<string>, ls: set<Label>)
    requires rest != []
    ensures Rewrite(a + "\n" + Join(rest), ls) == Rewrite(a, ls) + "\n" + Rewrite(Join(rest), ls)
  {
    var w := "\n" + Join(rest);
    assert a + "\n" + Join(rest) == a + w;
    RewriteConcat(a, w, ls, Valor);
    NewlineHead(Join(rest), ls);
  }

  /** On text whose lines are separated by newlines, a pass works line by line: no pattern
      matches across a newline. */
  lemma {:induction false} RewriteJoin(lines: seq<string>, ls: set<Label>)
    ensures Rewrite(Join(lines), ls) == Join(RewriteEach(lines, ls))
    decreases |lines|
  {
    if |lines| > 1 {
      RewriteJoin(lines[1..], ls);
      JoinStep(lines[0], lines[1..], ls);
      assert RewriteEach(lines, ls)[1..] == RewriteEach(lines[1..], ls);
    }
  }

  /** A replacement is left alone by a pass. */
  lemma ReplacementFixed(x: Label, ls: set<Label>)
    requires x in ls
    ensures Rewrite(Replacement(x), ls) == Replacement(x)
  {
    ReplacementIsRegion(x);
    RegionStepMatch(Replacement(x), x, [], ls);
    assert Replacement(x) + [] == Replacement(x);
  }

  /** The replacement without its trailing space, `Valor:` and so on. */
  function Colon(x: Label): (r: string)
    ensures r + " " == Replacement(x) && |r| > |Word(x)|
  {
    ReplacementShape(x);
    Replacement(x)[..|Replacement(x)| - 1]
  }

  /** A pass turns `Valor:` back into `Valor: `. */
  lemma ColonRewrite(x: Label, ls: set<Label>)
    requires x in ls
    ensures Rewrite(Colon(x), ls) == Replacement(x)
  {
    ReplacementShape(x);
    var c := Colon(x);
    assert c[..|Word(x)|] == Replacement(x)[..|Word(x)|];
    assert LabelAt(c, x);
    WhichSome(c, ls, x);
    assert SepRun(c[|Word(x)|..]) == 1;
    RewriteSome(c, ls, x);
    assert c[MatchEnd(c, x)..] == [];
  }

  /** If a text ending in a replacement is left alone by a pass, then the same text without
      the replacement's trailing space is rewritten back to it. */
  lemma RestoreLabel(p: string, x: Label, ls: set<Label>)
    requires x in ls && Rewrite(p + Replacement(x), ls) == p + Replacement(x)
    ensures Rewrite(p + Colon(x), ls) == p + Replacement(x)
  {
    ReplacementShape(x);
    assert LabelColon(Replacement(x), x);
    assert Colon(x)[..|Word(x)| + 1] == Replacement(x)[..|Word(x)| + 1];
    assert LabelColon(Colon(x), x);
    RewriteConcat(p, Replacement(x), ls, x);
    ReplacementFixed(x, ls);
    RewriteConcat(p, Colon(x), ls, x);
    ColonRewrite(x, ls);
  }
}
