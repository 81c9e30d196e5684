/** `process_ocr_output` from app/tools/cv_tools.py: the older OCR cleanup, three chained
    `str.replace` calls — `",  "` becomes `"."`, every `"$"` is deleted, and `"RG"` becomes `"R$"`. */
module CvTools {
  import opened PyStr

  function ProcessOcrOutput(s: string): string {
    Replace(Replace(Replace(s, ",  ", "."), "$", ""), "RG", "R$")
  }

  /** The text has no `RG`. */
  predicate NoRG(s: string) {
    forall i :: 0 <= i < |s| - 1 ==> !(s[i] == 'R' && s[i + 1] == 'G')
  }

  /** Every `$` of the text comes right after an `R`. */
  predicate DollarAfterR(s: string) {
    forall i :: 0 <= i < |s| && s[i] == '$' ==> i > 0 && s[i - 1] == 'R'
  }

  /** Deleting `$` leaves none. */
  lemma {:induction false} DeleteDollar(s: string)
    ensures '$' !in Replace(s, "$", "")
    decreases |s|
  {
    if |s| >= 1 {
      DeleteDollar(s[1..]);
      if s[..1] != "$" {
        assert s[0] != '$';
      }
    }
  }

  /** The `RG` pass starts its output with the first input character or with `R`. */
  lemma RGHead(u: string)
    requires u != []
    ensures Replace(u, "RG", "R$") != [] && (Replace(u, "RG", "R$")[0] == u[0] || Replace(u, "RG", "R$")[0] == 'R')
  {
  }

  lemma ConsNoRG(c: char, t: string)
    requires NoRG(t) && (c == 'R' && t != [] ==> t[0] != 'G')
    ensures NoRG([c] + t)
  {
    var r := [c] + t;
    forall i | 0 <= i < |r| - 1
      ensures !(r[i] == 'R' && r[i + 1] == 'G')
    {
      if i >= 1 {
        assert r[i] == t[i - 1] && r[i + 1] == t[i];
      }
    }
  }

  lemma ConsDollar(c: char, t: string)
    requires DollarAfterR(t) && c != '$' && (t != [] && t[0] == '$' ==> c == 'R')
    ensures DollarAfterR([c] + t)
  {
    var r := [c] + t;
    forall i | 0 <= i < |r| && r[i] == '$'
      ensures i > 0 && r[i - 1] == 'R'
    {
      assert r[i] == t[i - 1];
      if i > 1 {
        assert r[i - 1] == t[i - 2];
      }
    }
  }

  lemma MatchMarks(t: string)
    requires NoRG(t) && DollarAfterR(t) && (t != [] ==> t[0] != '$')
    ensures NoRG("R$" + t) && DollarAfterR("R$" + t)
  {
    assert "R$" + t == ['R'] + (['$'] + t);
    ConsNoRG('$', t);
    ConsNoRG('R', ['$'] + t);
    var r := "R$" + t;
    forall i | 0 <= i < |r| && r[i] == '$'
      ensures i > 0 && r[i - 1] == 'R'
    {
      if i > 2 {
        assert r[i] == t[i - 2] && r[i - 1] == t[i - 3];
      }
    }
  }

  lemma MatchNoRG(t: string)
    requires NoRG(t)
    ensures NoRG("R$" + t)
  {
    assert "R$" + t == ['R'] + (['$'] + t);
    ConsNoRG('$', t);
    ConsNoRG('R', ['$'] + t);
  }

  /** The `RG` pass at an `RG`: `R$`, then the rest rewritten. */
  lemma RGHitStep(u: string)
    requires |u| >= 2 && u[..2] == "RG"
    requires NoRG(Replace(u[2..], "RG", "R$"))
    requires '$' !in u ==> DollarAfterR(Replace(u[2..], "RG", "R$"))
    ensures NoRG(Replace(u, "RG", "R$"))
    ensures '$' !in u ==> DollarAfterR(Replace(u, "RG", "R$"))
  {
    var t := Replace(u[2..], "RG", "R$");
    ReplaceHit(u, "RG", "R$");
    if '$' !in u {
      if t != [] {
        RGHead(u[2..]);
        assert u[2..][0] == u[2];
      }
      MatchMarks(t);
    } else {
      MatchNoRG(t);
    }
  }

  /** The `RG` pass elsewhere: the first character, then the rest rewritten. */
  lemma RGSkipStep(u: string)
    requires |u| >= 2 && u[..2] != "RG"
    requires NoRG(Replace(u[1..], "RG", "R$"))
    requires '$' !in u ==> DollarAfterR(Replace(u[1..], "RG", "R$"))
    ensures NoRG(Replace(u, "RG", "R$"))
    ensures '$' !in u ==> DollarAfterR(Replace(u, "RG", "R$"))
  {
    var t := Replace(u[1..], "RG", "R$");
    ReplaceSkip(u, "RG", "R$");
    RGHead(u[1..]);
    assert u[1..][0] == u[1];
    assert u[0] == 'R' ==> u[1] != 'G';
    ConsNoRG(u[0], t);
    if '$' !in u {
      ConsDollar(u[0], t);
    }
  }

  /** After the `RG` pass no `RG` is left, and on a text without `$` every `$` it writes
      follows an `R`. */
  lemma {:induction false} RGPass(u: string)
    ensures NoRG(Replace(u, "RG", "R$"))
    ensures '$' !in u ==> DollarAfterR(Replace(u, "RG", "R$"))
    decreases |u|
  {
    if |u| >= 2 {
      if u[..2] == "RG" {
        RGPass(u[2..]);
        if '$' !in u {
          assert '$' !in u[2..];
        }
        RGHitStep(u);
      } else {
        RGPass(u[1..]);
        if '$' !in u {
          assert '$' !in u[1..];
        }
        RGSkipStep(u);
      }
    }
  }

  /** The output never contains `RG`, and every `$` in it directly follows an `R`: the input's
      `$` are all deleted, and only the `RG` rewrite writes one. */
  lemma ProcessOcrOutputMarks(s: string)
    ensures NoRG(ProcessOcrOutput(s)) && DollarAfterR(ProcessOcrOutput(s))
  {
    var u := Replace(Replace(s, ",  ", "."), "$", "");
    DeleteDollar(Replace(s, ",  ", "."));
    RGPass(u);
  }

  /** The output is never longer than the input, and a text with none of the three patterns
      is returned unchanged. */
  lemma ProcessOcrOutputLength(s: string)
    ensures |ProcessOcrOutput(s)| <= |s|
    ensures !Contains(s, ",  ") && !Contains(s, "$") && !Contains(s, "RG") ==> ProcessOcrOutput(s) == s
  {
    var a := Replace(s, ",  ", ".");
    var b := Replace(a, "$", "");
    ReplaceShrinks(s, ",  ", ".");
    ReplaceShrinks(a, "$", "");
    ReplaceShrinks(b, "RG", "R$");
    if !Contains(s, ",  ") && !Contains(s, "$") && !Contains(s, "RG") {
      ReplaceAbsent(s, ",  ", ".");
      ReplaceAbsent(s, "$", "");
      ReplaceAbsent(s, "RG", "R$");
    }
  }

  /** The rewrite is not idempotent: deleting a `$` can bring a comma and two spaces together. */
  lemma ProcessOcrOutputNotIdempotent()
    ensures ProcessOcrOutput(",$  ") == ",  "
    ensures ProcessOcrOutput(",  ") == "."
  {
    assert Replace(",$  ", ",  ", ".") == ",$  ";
    assert Replace(",$  ", "$", "") == ",  ";
    assert Replace(",  ", "RG", "R$") == ",  ";
    assert Replace(",  ", ",  ", ".") == ".";
    assert Replace(".", "$", "") == ".";
    assert Replace(".", "RG", "R$") == ".";
  }

  /** An `R$` already in the text loses its `$`: the `$` pass runs before the `RG` pass, which
      does not bring it back. */
  lemma ProcessOcrOutputDropsDollar(t: string)
    requires ',' !in t && '$' !in t && 'G' !in t
    ensures ProcessOcrOutput("R$" + t) == "R" + t
  {
    ReplaceMissing("R$" + t, ",  ", ".", 0);
    DollarPassAfterR(t);
    ReplaceMissing("R" + t, "RG", "R$", 1);
  }

  lemma DollarPassAfterR(t: string)
    requires '$' !in t
    ensures Replace("R$" + t, "$", "") == "R" + t
  {
    assert "R$" + t == ['R'] + "$" + t;
    SkipThenHit('R', "$", t, "");
    ReplaceMissing(t, "$", "", 0);
  }

  /** A one-character pattern right after a different character. */
  lemma SkipThenHit(c: char, pat: string, t: string, rep: string)
    requires |pat| == 1 && c != pat[0]
    ensures Replace([c] + pat + t, pat, rep) == [c] + rep + Replace(t, pat, rep)
  {
    var s, u := [c] + pat + t, pat + t;
    assert s[..1][0] == c && s[1..] == u;
    ReplaceSkip(s, pat, rep);
    assert u[..1] == pat && u[1..] == t;
    ReplaceHit(u, pat, rep);
  }

  /** `RG`, the usual misreading of `R$`, becomes `R$`. */
  lemma ProcessOcrOutputFixesRG(t: string)
    requires ',' !in t && '$' !in t && 'G' !in t
    ensures ProcessOcrOutput("RG" + t) == "R$" + t
  {
    var s := "RG" + t;
    ReplaceMissing(s, ",  ", ".", 0);
    ReplaceMissing(s, "$", "", 0);
    assert s[..2] == "RG" && s[2..] == t;
    ReplaceMissing(t, "RG", "R$", 1);
  }
}
