/** A worked instance of `generateSlug` on an accented name. */
module SlugExample {
  import Text
  import opened Slug

  lemma {:induction false} StripMarksAppend(a: string, b: string)
    ensures StripMarks(a + b) == StripMarks(a) + StripMarks(b)
  {
    if a == [] {
      assert a + b == b;
    } else {
      assert (a + b)[1..] == a[1..] + b;
      StripMarksAppend(a[1..], b);
    }
  }

  lemma {:induction false} StripMarksKeepsUnmarked(s: string)
    requires forall i :: 0 <= i < |s| ==> !IsMark(s[i])
    ensures StripMarks(s) == s
  {
    if s != [] {
      assert !IsMark(s[0]);
      StripMarksKeepsUnmarked(s[1..]);
    }
  }

  /** Only letters and digits. */
  predicate AllAlnum(s: string)
  {
    s == [] || (IsAlnum(s[0]) && AllAlnum(s[1..]))
  }

  lemma CollapseCons(c: char, s: string)
    requires IsAlnum(c)
    ensures Collapse([c] + s) == [c] + Collapse(s)
  {
    var cs := [c] + s;
    assert cs[0] == c && cs[1..] == s;
  }

  lemma ConsSplit(a: string, b: string)
    requires a != []
    ensures a + b == [a[0]] + (a[1..] + b) && a == [a[0]] + a[1..]
  {
  }

  lemma {:induction false} CollapseAlnumPrefix(a: string, b: string)
    requires AllAlnum(a)
    ensures Collapse(a + b) == a + Collapse(b)
  {
    if a == [] {
      assert a + b == b;
    } else {
      var t := a[1..];
      ConsSplit(a, b);
      CollapseAlnumPrefix(t, b);
      CollapseCons(a[0], t + b);
      ConsSplit(a, Collapse(b));
    }
  }

  /** Only characters below U+00E0, none of which decomposes. */
  predicate Plain(s: string)
  {
    forall i :: 0 <= i < |s| ==> s[i] < 'à'
  }

  /** Characters below U+00E0 have no decomposition. */
  lemma {:induction false} NfdKeepsPlain(s: string)
    requires Plain(s)
    ensures Nfd(s) == s
  {
    if s != [] {
      NfdKeepsPlain(s[1..]);
      assert NfdChar(s[0]) == [s[0]];
    }
  }

  /** Decomposing plain text around one character decomposes just that character. */
  lemma NfdOneChar(a: string, c: char, b: string)
    requires Plain(a)
    requires Plain(b)
    ensures Nfd(a + [c] + b) == a + NfdChar(c) + b
  {
    var ac := a + [c];
    var d := NfdChar(c);
    NfdAppend(ac, b);
    NfdAppend(a, [c]);
    assert [c][1..] == [];
    assert Nfd([c]) == d + [];
    assert d + [] == d;
    NfdKeepsPlain(a);
    NfdKeepsPlain(b);
    assert Nfd(ac) == a + d;
    assert Nfd(ac + b) == a + d + b;
    assert a + [c] + b == ac + b;
  }

  lemma AcuteI()
    ensures NfdChar('í') == ['i', '\U{0301}']
  {
  }

  lemma ClinicaWords()
    ensures "clínica vida" == "cl" + ['í'] + "nica vida"
    ensures "cl" + ['i', '\U{0301}'] == "cli" + ['\U{0301}']
    ensures Plain("cl") && Plain("nica vida")
  {
  }

  lemma NfdStep(s: string)
    requires s == "clínica vida"
    ensures Nfd(s) == "cli" + ['\U{0301}'] + "nica vida"
  {
    ClinicaWords();
    NfdOneChar("cl", 'í', "nica vida");
    AcuteI();
  }

  /** Removing marks from unmarked text around one mark drops just that mark. */
  lemma StripOneMark(a: string, m: char, b: string)
    requires forall i :: 0 <= i < |a| ==> !IsMark(a[i])
    requires forall i :: 0 <= i < |b| ==> !IsMark(b[i])
    requires IsMark(m)
    ensures StripMarks(a + [m] + b) == a + b
  {
    var am := a + [m];
    StripMarksAppend(am, b);
    StripMarksAppend(a, [m]);
    assert [m][1..] == [];
    assert StripMarks([m]) == [];
    StripMarksKeepsUnmarked(a);
    StripMarksKeepsUnmarked(b);
    assert a + [] == a;
    assert StripMarks(am) == a;
    assert StripMarks(am + b) == a + b;
    assert a + [m] + b == am + b;
  }

  lemma StripStep(s: string)
    requires s == "cli" + ['\U{0301}'] + "nica vida"
    ensures StripMarks(s) == "clinica vida"
  {
    var rest := "nica vida";
    StripOneMark("cli", '\U{0301}', rest);
    assert "cli" + rest == "clinica vida";
  }

  lemma CollapseKeepsAlnum(w: string)
    requires AllAlnum(w)
    ensures Collapse(w) == w
  {
    CollapseAlnumPrefix(w, []);
    assert w + [] == w;
  }

  /** A space before a word becomes a hyphen. */
  lemma CollapseSpaceWord(w: string)
    requires AllAlnum(w)
    requires w != []
    ensures Collapse([' '] + w) == "-" + w
  {
    var sw := [' '] + w;
    assert sw[1..] == w;
    assert IsAlnum(w[0]);
    assert SkipRun(w) == w;
    CollapseKeepsAlnum(w);
  }

  /** Two words joined by a space collapse to the words joined by a hyphen. */
  lemma CollapseWords(a: string, w: string)
    requires AllAlnum(a)
    requires AllAlnum(w)
    requires w != []
    ensures Collapse(a + ([' '] + w)) == a + ("-" + w)
  {
    CollapseAlnumPrefix(a, [' '] + w);
    CollapseSpaceWord(w);
  }

  lemma ClinicaVidaWords()
    ensures "clinica vida" == "clinica" + ([' '] + "vida")
    ensures "clinica" + ("-" + "vida") == "clinica-vida"
    ensures AllAlnum("clinica") && AllAlnum("vida")
  {
  }

  lemma CollapseStep(s: string)
    requires s == "clinica vida"
    ensures Collapse(s) == "clinica-vida"
  {
    ClinicaVidaWords();
    CollapseWords("clinica", "vida");
  }

  lemma LowerStep(s: string)
    requires s == "Clínica Vida"
    ensures Text.Lower(s) == "clínica vida"
  {
  }

  /** "Clínica Vida" becomes "clinica-vida": the accent is dropped, the space becomes a hyphen. */
  lemma ClinicaVida(name: string)
    requires name == "Clínica Vida"
    ensures GenerateSlug(name) == "clinica-vida"
  {
    var lower := Text.Lower(name);
    LowerStep(name);
    var nfd := Nfd(lower);
    NfdStep(lower);
    var stripped := StripMarks(nfd);
    StripStep(nfd);
    var collapsed := Collapse(stripped);
    CollapseStep(stripped);
    assert IsSlug(collapsed);
    SlugFixesTrimAll(collapsed);
  }
}
