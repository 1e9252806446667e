/** Hostname labels.  Two streaming normalisers (one that never emits a leading hyphen, one
    that does and trims afterwards) against one reference: split on everything that is not
    alphanumeric, drop empty pieces, join with hyphens, default to "service". */
module Hostname {
  predicate Alnum(c: char) {
    'a' <= c <= 'z' || 'A' <= c <= 'Z' || '0' <= c <= '9'
  }

  predicate AllAlnum(s: string) {
    forall i :: 0 <= i < |s| ==> Alnum(s[i])
  }

  predicate Lowercase(s: string) {
    forall i :: 0 <= i < |s| ==> !('A' <= s[i] <= 'Z')
  }

  // ------------------------------------------------------------------ reference

  /** `split` on non-alphanumerics: at least one piece, pieces possibly empty. */
  function Pieces(s: string): (p: seq<string>)
    ensures p != []
    ensures forall i :: 0 <= i < |p| ==> AllAlnum(p[i])
  {
    if s == [] then [""]
    else
      var p := Pieces(s[..|s| - 1]);
      var c := s[|s| - 1];
      if Alnum(c) then p[|p| - 1 := p[|p| - 1] + [c]] else p + [""]
  }

  function DropEmpty(p: seq<string>): (w: seq<string>)
    ensures forall x :: x in w ==> x in p && x != ""
  {
    if p == [] then []
    else
      var w := DropEmpty(p[..|p| - 1]);
      if p[|p| - 1] == "" then w else w + [p[|p| - 1]]
  }

  function Join(w: seq<string>): string {
    if w == [] then ""
    else if |w| == 1 then w[0]
    else Join(w[..|w| - 1]) + "-" + w[|w| - 1]
  }

  function Words(s: string): seq<string> {
    DropEmpty(Pieces(s))
  }

  function Label(s: string): string {
    if Words(s) == [] then "service" else Join(Words(s))
  }

  ghost predicate WordList(w: seq<string>) {
    forall i :: 0 <= i < |w| ==> w[i] != "" && AllAlnum(w[i])
  }

  lemma WordsAreWords(s: string)
    ensures WordList(Words(s))
  {
    var w := Words(s);
    forall i | 0 <= i < |w| ensures w[i] != "" && AllAlnum(w[i]) {
      assert w[i] in w;
    }
  }

  /** One more character: a new word, a longer last word, or nothing. */
  lemma WordsSnoc(s: string, c: char)
    ensures var p, w, w' := Pieces(s), Words(s), Words(s + [c]);
            if !Alnum(c) then w' == w
            else if p[|p| - 1] == "" then w' == w + [[c]]
            else w != [] && w[|w| - 1] == p[|p| - 1] && w' == w[|w| - 1 := w[|w| - 1] + [c]]
    ensures var p, p' := Pieces(s), Pieces(s + [c]);
            if Alnum(c) then p'[|p'| - 1] == p[|p| - 1] + [c] else p'[|p'| - 1] == ""
  {
    var t := s + [c];
    assert t[..|t| - 1] == s && t[|t| - 1] == c;
    var p, p' := Pieces(s), Pieces(t);
    if Alnum(c) {
      var n := |p| - 1;
      assert p'[..n] == p[..n];
      var d := DropEmpty(p[..n]);
      assert DropEmpty(p') == d + [p[n] + [c]];
      if p[n] == "" {
        assert p[n] + [c] == [c];
      } else {
        assert Words(s) == d + [p[n]];
        assert (d + [p[n]])[|d| := p[n] + [c]] == d + [p[n] + [c]];
      }
    } else {
      assert p'[..|p'| - 1] == p;
    }
  }

  lemma JoinSnoc(w: seq<string>, x: string)
    ensures Join(w + [x]) == if w == [] then x else Join(w) + "-" + x
  {
    assert (w + [x])[..|w|] == w;
  }

  lemma JoinLonger(w: seq<string>, c: char)
    requires w != []
    ensures Join(w[|w| - 1 := w[|w| - 1] + [c]]) == Join(w) + [c]
  {
    var n := |w| - 1;
    assert w[n := w[n] + [c]][..n] == w[..n];
  }

  /** A joined word list starts and ends with a character of a word. */
  lemma {:induction false} JoinEnds(w: seq<string>)
    requires w != [] && WordList(w)
    ensures Join(w) != "" && Alnum(Join(w)[0]) && Alnum(Join(w)[|Join(w)| - 1])
  {
    if |w| > 1 {
      JoinEnds(w[..|w| - 1]);
    }
    assert w[0] != "" && w[|w| - 1] != "";
  }

  // ------------------------------------------------------------- streaming loops

  /** The last character was not alphanumeric (or there was none). */
  predicate Open(s: string) {
    Pieces(s)[|Pieces(s)| - 1] == ""
  }

  /** The streaming loop has emitted the words so far, with a dash once they are separated. */
  ghost predicate Streamed(s: string, out: string, lastDash: bool) {
    && out == Join(Words(s)) + Dash(lastDash)
    && (lastDash <==> Words(s) != [] && Open(s))
  }

  function Dash(present: bool): string {
    if present then "-" else ""
  }

  lemma {:induction false} StreamLetter(s: string, c: char, out: string, lastDash: bool)
    requires Streamed(s, out, lastDash) && Alnum(c)
    ensures Streamed(s + [c], out + [c], false)
  {
    WordsSnoc(s, c);
    var w := Words(s);
    if Open(s) {
      JoinSnoc(w, [c]);
      assert w == [] ==> out + [c] == [c];
      assert w != [] ==> out + [c] == Join(w) + "-" + [c];
    } else {
      JoinLonger(w, c);
      assert out == Join(w);
    }
    assert out + [c] == Join(Words(s + [c])) + Dash(false);
  }

  lemma {:induction false} StreamSeparator(s: string, c: char, out: string, lastDash: bool)
    requires Streamed(s, out, lastDash) && !Alnum(c)
    ensures !lastDash && out != "" ==> Streamed(s + [c], out + "-", true)
    ensures lastDash || out == "" ==> Streamed(s + [c], out, lastDash)
  {
    WordsSnoc(s, c);
    WordsAreWords(s);
    if Words(s) != [] {
      JoinEnds(Words(s));
      assert !lastDash ==> out == Join(Words(s));
    }
  }

  function TrimEnd(s: string): string {
    if s != "" && s[|s| - 1] == '-' then TrimEnd(s[..|s| - 1]) else s
  }

  /** What is left of the output without trailing dashes. */
  lemma TrimStreamed(s: string, out: string, lastDash: bool)
    requires Streamed(s, out, lastDash)
    ensures TrimEnd(out) == Join(Words(s))
    ensures Join(Words(s)) == "" <==> Words(s) == []
  {
    WordsAreWords(s);
    if Words(s) != [] {
      JoinEnds(Words(s));
    }
    assert lastDash ==> out[..|out| - 1] == Join(Words(s));
    assert !lastDash ==> out == Join(Words(s));
  }

  /** `service_hostname` / `normalize_hostname_label`, on the lowercased characters. */
  method Normalize(s: string) returns (out: string)
    ensures out == Label(s)
  {
    out := "";
    var lastDash := false;
    for i := 0 to |s|
      invariant Streamed(s[..i], out, lastDash)
    {
      assert s[..i + 1] == s[..i] + [s[i]];
      if Alnum(s[i]) {
        StreamLetter(s[..i], s[i], out, lastDash);
        out := out + [s[i]];
        lastDash := false;
      } else {
        StreamSeparator(s[..i], s[i], out, lastDash);
        if !lastDash && out != "" {
          out := out + "-";
          lastDash := true;
        }
      }
    }
    assert s[..|s|] == s;
    TrimStreamed(s, out, lastDash);
    while out != "" && out[|out| - 1] == '-'
      invariant TrimEnd(out) == Join(Words(s))
      decreases |out|
    {
      out := out[..|out| - 1];
    }
    if out == "" {
      out := "service";
    }
  }

  /** `trimmingCharacters(in: "-")`. */
  function Trim(s: string): string {
    if s == "" then ""
    else if s[0] == '-' then Trim(s[1..])
    else if s[|s| - 1] == '-' then Trim(s[..|s| - 1])
    else s
  }

  lemma {:induction false} TrimTrailing(w: string, trail: bool)
    requires w != "" ==> w[0] != '-' && w[|w| - 1] != '-'
    requires w == "" ==> !trail
    ensures Trim(w + Dash(trail)) == w
  {
    assert Trim(w) == w;
    var t := w + Dash(trail);
    if trail {
      assert t[..|t| - 1] == w && t[0] == w[0];
    } else {
      assert t == w;
    }
  }

  lemma {:induction false} TrimAround(w: string, lead: bool, trail: bool)
    requires w != "" ==> w[0] != '-' && w[|w| - 1] != '-'
    requires w == "" ==> !trail
    ensures Trim(Dash(lead) + w + Dash(trail)) == w
  {
    TrimTrailing(w, trail);
    var s := Dash(lead) + w + Dash(trail);
    assert s[|Dash(lead)|..] == w + Dash(trail);
    if !lead {
      assert s == w + Dash(trail);
    }
  }

  /** What the first variant has emitted after `s`. */
  function Body(s: string): string {
    Join(Words(s)) + Dash(Words(s) != [] && Open(s))
  }

  predicate Leads(s: string) {
    s != "" && !Alnum(s[0])
  }

  /** The variant that may emit a leading hyphen. */
  ghost predicate Hyphenated(s: string, result: string, lastHyphen: bool) {
    && result == Dash(Leads(s)) + Body(s)
    && (lastHyphen <==> s != "" && Open(s))
    && (Words(s) == [] ==> Open(s) && (s == "" || Leads(s)))
  }

  lemma {:induction false} LetterFacts(s: string, c: char)
    requires Alnum(c)
    ensures Body(s + [c]) == Body(s) + [c] && !Open(s + [c]) && Words(s + [c]) != []
    ensures Leads(s + [c]) <==> s != "" && Leads(s)
  {
    WordsSnoc(s, c);
    assert Streamed(s, Body(s), Words(s) != [] && Open(s));
    StreamLetter(s, c, Body(s), Words(s) != [] && Open(s));
    assert (s + [c])[0] == if s == "" then c else s[0];
    assert Body(s + [c]) == Join(Words(s + [c])) + "";
  }

  lemma HyphenStepLetter(s: string, c: char, result: string, lastHyphen: bool)
    requires Hyphenated(s, result, lastHyphen) && Alnum(c)
    ensures Hyphenated(s + [c], result + [c], false)
  {
    LetterFacts(s, c);
    var lead := Dash(Leads(s));
    assert lead + Body(s) + [c] == lead + (Body(s) + [c]);
  }

  lemma SeparatorFacts(s: string, c: char)
    requires !Alnum(c)
    ensures Words(s + [c]) == Words(s) && Open(s + [c])
    ensures Leads(s + [c]) <==> s == "" || Leads(s)
  {
    WordsSnoc(s, c);
    assert (s + [c])[0] == if s == "" then c else s[0];
  }

  lemma HyphenStepOther(s: string, c: char, result: string, lastHyphen: bool)
    requires Hyphenated(s, result, lastHyphen) && !Alnum(c)
    ensures Hyphenated(s + [c], if lastHyphen then result else result + "-", true)
  {
    SeparatorFacts(s, c);
    var lead, j := Dash(Leads(s)), Join(Words(s));
    if s == "" {
      assert Words(s) == [] && result == "" && lead + (j + Dash(false)) == "";
      assert "" + "-" == Dash(true) + (j + Dash(false));
    } else if !lastHyphen {
      assert lead + (j + Dash(false)) + "-" == lead + (j + Dash(true));
    }
  }

  lemma TrimHyphenated(s: string, result: string, lastHyphen: bool)
    requires Hyphenated(s, result, lastHyphen)
    ensures Trim(result) == Join(Words(s))
    ensures Join(Words(s)) == "" <==> Words(s) == []
  {
    WordsAreWords(s);
    if Words(s) != [] {
      JoinEnds(Words(s));
    }
    var lead, trail := Leads(s), Words(s) != [] && Open(s);
    TrimAround(Join(Words(s)), lead, trail);
    assert result == Dash(lead) + Join(Words(s)) + Dash(trail);
  }

  /** `sanitizeLabel` of the route table, on the lowercased characters. */
  method SanitizeLabel(s: string) returns (out: string)
    requires Lowercase(s)
    ensures out == Label(s)
  {
    var result := "";
    var previousWasHyphen := false;
    for i := 0 to |s|
      invariant Hyphenated(s[..i], result, previousWasHyphen)
    {
      assert s[..i + 1] == s[..i] + [s[i]];
      if 'a' <= s[i] <= 'z' || '0' <= s[i] <= '9' {
        HyphenStepLetter(s[..i], s[i], result, previousWasHyphen);
        result := result + [s[i]];
        previousWasHyphen := false;
      } else {
        HyphenStepOther(s[..i], s[i], result, previousWasHyphen);
        if !previousWasHyphen {
          result := result + "-";
          previousWasHyphen := true;
        }
      }
    }
    assert s[..|s|] == s;
    TrimHyphenated(s, result, previousWasHyphen);
    var trimmed := Trim(result);
    out := if trimmed == "" then "service" else trimmed;
  }

  // ------------------------------------------------------------------ idempotence

  /** Splitting `a-w` adds the piece `w` to the pieces of `a`. */
  lemma {:induction false} PiecesOfSeparated(a: string, w: string)
    requires AllAlnum(w)
    ensures Pieces(a + "-" + w) == Pieces(a) + [w]
  {
    if w == "" {
      assert a + "-" + w == a + "-";
      assert (a + "-")[..|a|] == a;
    } else {
      var n := |w| - 1;
      PiecesOfSeparated(a, w[..n]);
      var t := a + "-" + w;
      assert t[..|t| - 1] == a + "-" + w[..n];
      assert w == w[..n] + [w[n]];
    }
  }

  lemma {:induction false} PiecesOfWord(w: string)
    requires AllAlnum(w)
    ensures Pieces(w) == [w]
  {
    if w != "" {
      PiecesOfWord(w[..|w| - 1]);
      assert w == w[..|w| - 1] + [w[|w| - 1]];
    }
  }

  lemma {:induction false} PiecesOfJoin(w: seq<string>)
    requires w != [] && WordList(w)
    ensures Pieces(Join(w)) == w
  {
    if |w| == 1 {
      PiecesOfWord(w[0]);
    } else {
      var init, last := w[..|w| - 1], w[|w| - 1];
      PiecesOfJoin(init);
      PiecesOfSeparated(Join(init), last);
      assert w == init + [last];
    }
  }

  lemma {:induction false} NothingToDrop(w: seq<string>)
    requires WordList(w)
    ensures DropEmpty(w) == w
  {
    if w != [] {
      NothingToDrop(w[..|w| - 1]);
    }
  }

  /** Normalising a label changes nothing. */
  lemma LabelIdempotent(s: string)
    ensures Label(Label(s)) == Label(s)
  {
    var w := if Words(s) == [] then ["service"] else Words(s);
    WordsAreWords(s);
    assert Label(s) == Join(w);
    PiecesOfJoin(w);
    NothingToDrop(w);
  }

  // ------------------------------------------------------------------ letters

  /** The letters and digits of a string, in order. */
  function Letters(s: string): string {
    if s == "" then ""
    else Letters(s[..|s| - 1]) + (if Alnum(s[|s| - 1]) then [s[|s| - 1]] else "")
  }

  lemma LettersSnoc(s: string, c: char)
    ensures Letters(s + [c]) == Letters(s) + (if Alnum(c) then [c] else "")
  {
    assert (s + [c])[..|s|] == s;
  }

  lemma {:induction false} NewWordLetters(w: seq<string>, c: char)
    requires Alnum(c)
    ensures Letters(Join(w + [[c]])) == Letters(Join(w)) + [c]
  {
    JoinSnoc(w, [c]);
    LettersSnoc(Join(w), '-');
    LettersSnoc(Join(w) + "-", c);
    if w == [] {
      LettersSnoc("", c);
      assert "" + [c] == [c];
    }
  }

  lemma {:induction false} BodyLetters(s: string)
    ensures Letters(Join(Words(s))) == Letters(s)
  {
    if s == "" {
      assert Words(s) == [];
    } else {
      var t, c := s[..|s| - 1], s[|s| - 1];
      assert s == t + [c];
      BodyLetters(t);
      WordsSnoc(t, c);
      var w := Words(t);
      if Alnum(c) && Open(t) {
        NewWordLetters(w, c);
      } else if Alnum(c) {
        JoinLonger(w, c);
        LettersSnoc(Join(w), c);
      }
    }
  }

  /** A label has exactly the letters and digits of the name, in order; a name without any
      becomes "service". */
  lemma LabelKeepsLetters(s: string)
    ensures if Letters(s) == "" then Label(s) == "service" else Letters(Label(s)) == Letters(s)
  {
    BodyLetters(s);
    WordsAreWords(s);
    if Words(s) != [] {
      JoinEnds(Words(s));
      var j := Join(Words(s));
      assert Letters(j) == Letters(j[..|j| - 1]) + [j[|j| - 1]];
    }
  }

  predicate LabelChar(c: char) {
    'a' <= c <= 'z' || '0' <= c <= '9' || c == '-'
  }

  lemma {:induction false} PiecesLowercase(s: string)
    requires Lowercase(s)
    ensures forall i :: 0 <= i < |Pieces(s)| ==> Lowercase(Pieces(s)[i])
  {
    if s != "" {
      PiecesLowercase(s[..|s| - 1]);
    }
  }

  lemma {:induction false} JoinChars(w: seq<string>)
    requires WordList(w) && forall i :: 0 <= i < |w| ==> Lowercase(w[i])
    ensures forall i :: 0 <= i < |Join(w)| ==> LabelChar(Join(w)[i])
  {
    if |w| > 1 {
      JoinChars(w[..|w| - 1]);
    }
  }

  /** A label is never empty and has only lower-case letters, digits and hyphens. */
  lemma LabelChars(s: string)
    requires Lowercase(s)
    ensures Label(s) != ""
    ensures forall i :: 0 <= i < |Label(s)| ==> LabelChar(Label(s)[i])
  {
    WordsAreWords(s);
    PiecesLowercase(s);
    var w := Words(s);
    if w != [] {
      JoinEnds(w);
      forall i | 0 <= i < |w| ensures Lowercase(w[i]) {
        assert w[i] in w;
      }
      JoinChars(w);
    }
  }
}
