/** Section titles (packages/diff_engine/normalize.py, and the text comparison in
    packages/policy_engine/changes.py): white space and case are folded so that layout never reads as
    a change of wording. */
module Titles {
  import opened Wording

  /** What the character tables say: white space, digits, the smart quotes and dashes that are
      straightened, and how a character case-folds. */
  datatype Alphabet = Alphabet(blank: char -> bool, digit: char -> bool, straighten: char -> char,
                               casefold: char -> string)

  predicate Punctuation(c: char) {
    c in " \t\"'.,:;-()" || c == '\U{2013}'
  }

  /** Folding leaves the characters of a class alone and never makes one out of another character. */
  ghost predicate Keeps(casefold: char -> string, kind: char -> bool) {
    && (forall c :: kind(c) ==> casefold(c) == [c])
    && (forall c :: !kind(c) ==> casefold(c) != [] && forall k :: 0 <= k < |casefold(c)| ==> !kind(casefold(c)[k]))
  }

  /** White space, digits and punctuation have no case, and what folding yields is folded. */
  ghost predicate Proper(a: Alphabet) {
    && a.blank(' ')
    && Keeps(a.casefold, a.blank) && Keeps(a.casefold, a.digit) && Keeps(a.casefold, Punctuation)
    && (forall c, k :: 0 <= k < |a.casefold(c)| ==> a.casefold(a.casefold(c)[k]) == [a.casefold(c)[k]])
  }

  function AsciiLower(c: char): string {
    if 'A' <= c <= 'Z' then [(c as int + 32) as char] else [c]
  }

  function Ascii(): Alphabet {
    Alphabet(c => c in " \t\n\r", c => '0' <= c <= '9', c => c, AsciiLower)
  }

  predicate Letter(c: char) {
    'a' <= c <= 'z' || 'A' <= c <= 'Z'
  }

  lemma LowerLetter(c: char)
    ensures |AsciiLower(c)| == 1 && AsciiLower(AsciiLower(c)[0]) == AsciiLower(c)
    ensures AsciiLower(c) == [c] || (Letter(c) && Letter(AsciiLower(c)[0]))
  {
  }

  lemma KeepsLetterless(kind: char -> bool)
    requires forall c :: kind(c) ==> !Letter(c)
    ensures Keeps(AsciiLower, kind)
  {
    hide AsciiLower, Letter;
    forall c
      ensures kind(c) ==> AsciiLower(c) == [c]
      ensures |AsciiLower(c)| == 1 && (!kind(c) ==> !kind(AsciiLower(c)[0]))
    {
      LowerLetter(c);
    }
  }

  /** Plain text is such an alphabet. */
  lemma AsciiProper()
    ensures Proper(Ascii())
  {
    var a := Ascii();
    assert forall c :: (a.blank(c) || a.digit(c) || Punctuation(c)) ==> !Letter(c);
    hide AsciiLower, Letter, Keeps, Punctuation;
    KeepsLetterless(a.blank);
    KeepsLetterless(a.digit);
    KeepsLetterless(Punctuation);
    forall c, k | 0 <= k < |AsciiLower(c)| ensures AsciiLower(AsciiLower(c)[k]) == [AsciiLower(c)[k]] {
      LowerLetter(c);
      LowerLetter(AsciiLower(c)[k]);
    }
  }

  function Straighten(a: Alphabet, s: string): string {
    seq(|s|, i requires 0 <= i < |s| => a.straighten(s[i]))
  }

  /** Every run of white space becomes one space. */
  function Collapse(a: Alphabet, s: string): string {
    if s == "" then ""
    else
      var c, rest := s[|s| - 1], s[..|s| - 1];
      if !a.blank(c) then Collapse(a, rest) + [c]
      else if rest != "" && a.blank(rest[|rest| - 1]) then Collapse(a, rest)
      else Collapse(a, rest) + " "
  }

  function TrimRight(kind: char -> bool, s: string): string {
    if s != "" && kind(s[|s| - 1]) then TrimRight(kind, s[..|s| - 1]) else s
  }

  function TrimLeft(kind: char -> bool, s: string): string {
    if s != "" && kind(s[0]) then TrimLeft(kind, s[1..]) else s
  }

  function Strip(kind: char -> bool, s: string): string {
    TrimLeft(kind, TrimRight(kind, s))
  }

  /** The form that section titles are aligned by. */
  function NormalizeForMatch(a: Alphabet, text: string): string {
    Expand(a.casefold, Strip(a.blank, Collapse(a, Straighten(a, text))))
  }

  /** Trailing digits, with the white space after them, and then white space at both ends. */
  function StripFootnoteNumber(a: Alphabet, title: string): string {
    Strip(a.blank, TrimRight(a.digit, TrimRight(a.blank, title)))
  }

  /** The form that section titles are compared by. */
  function CanonicalTitle(a: Alphabet, title: string): string {
    Expand(a.casefold,
         Strip(Punctuation, StripFootnoteNumber(a, Strip(a.blank, Collapse(a, Straighten(a, title))))))
  }

  /** The form in which obligation fields are compared. */
  function NormText(a: Alphabet, v: string): string {
    Expand(a.casefold, Strip(a.blank, Collapse(a, v)))
  }

  // --- trimming commutes with folding ---

  lemma {:induction false} FoldTrimRight(casefold: char -> string, kind: char -> bool, s: string)
    requires Keeps(casefold, kind)
    ensures Expand(casefold, TrimRight(kind, s)) == TrimRight(kind, Expand(casefold, s))
  {
    if s != "" {
      var t, c := s[..|s| - 1], s[|s| - 1];
      if kind(c) {
        FoldTrimRight(casefold, kind, t);
        assert (Expand(casefold, t) + [c])[..|Expand(casefold, t)|] == Expand(casefold, t);
      } else {
        var f := Expand(casefold, s);
        assert f[|f| - 1] == casefold(c)[|casefold(c)| - 1];
      }
    }
  }

  lemma {:induction false} FoldTrimLeft(casefold: char -> string, kind: char -> bool, s: string)
    requires Keeps(casefold, kind)
    ensures Expand(casefold, TrimLeft(kind, s)) == TrimLeft(kind, Expand(casefold, s))
  {
    if s != "" {
      var t, c := s[1..], s[0];
      assert s == [c] + t;
      ExpandJoin(casefold, [c], t);
      assert Expand(casefold, [c]) == casefold(c) by {
        assert [c][..0] == "";
      }
      if kind(c) {
        FoldTrimLeft(casefold, kind, t);
        assert ([c] + Expand(casefold, t))[1..] == Expand(casefold, t);
      } else {
        assert Expand(casefold, s)[0] == casefold(c)[0];
      }
    }
  }

  lemma FoldStrip(casefold: char -> string, kind: char -> bool, s: string)
    requires Keeps(casefold, kind)
    ensures Expand(casefold, Strip(kind, s)) == Strip(kind, Expand(casefold, s))
  {
    FoldTrimRight(casefold, kind, s);
    FoldTrimLeft(casefold, kind, TrimRight(kind, s));
  }

  /** The canonical title is a function of the normalised one: it drops a footnote number and outer
      punctuation, and nothing else. */
  lemma CanonicalFromNormalized(a: Alphabet, title: string)
    requires Proper(a)
    ensures CanonicalTitle(a, title) == Strip(Punctuation, StripFootnoteNumber(a, NormalizeForMatch(a, title)))
  {
    hide Strip, TrimRight, TrimLeft, Expand, Collapse, Straighten;
    var s := Strip(a.blank, Collapse(a, Straighten(a, title)));
    FoldStrip(a.casefold, Punctuation, StripFootnoteNumber(a, s));
    FoldStrip(a.casefold, a.blank, TrimRight(a.digit, TrimRight(a.blank, s)));
    FoldTrimRight(a.casefold, a.digit, TrimRight(a.blank, s));
    FoldTrimRight(a.casefold, a.blank, s);
  }

  /** Titles that align are never reported as reworded. */
  lemma AlignedTitlesAgree(a: Alphabet, s: string, t: string)
    requires Proper(a) && NormalizeForMatch(a, s) == NormalizeForMatch(a, t)
    ensures CanonicalTitle(a, s) == CanonicalTitle(a, t)
  {
    CanonicalFromNormalized(a, s);
    CanonicalFromNormalized(a, t);
  }

  // --- canonical titles are already in comparison form ---

  /** The only white space is single spaces. */
  ghost predicate Tidy(a: Alphabet, s: string) {
    && (forall i :: 0 <= i < |s| && a.blank(s[i]) ==> s[i] == ' ')
    && (forall i, j :: 0 <= i && j == i + 1 && j < |s| && a.blank(s[i]) ==> !a.blank(s[j]))
  }

  lemma {:induction false} CollapseTidy(a: Alphabet, s: string)
    requires a.blank(' ')
    ensures Tidy(a, Collapse(a, s))
    ensures s != "" ==> Collapse(a, s) != ""
                        && (a.blank(s[|s| - 1]) <==> a.blank(Collapse(a, s)[|Collapse(a, s)| - 1]))
  {
    if s != "" {
      CollapseTidy(a, s[..|s| - 1]);
    }
  }

  lemma {:induction false} TidyCollapse(a: Alphabet, s: string)
    requires Tidy(a, s)
    ensures Collapse(a, s) == s
  {
    if s != "" {
      var t := s[..|s| - 1];
      assert s == t + [s[|s| - 1]];
      TidyCollapse(a, t);
      if a.blank(s[|s| - 1]) {
        assert t != "" ==> !a.blank(s[|t| - 1]);
      }
    }
  }

  lemma {:induction false} TrimRightPart(kind: char -> bool, s: string)
    ensures var r := TrimRight(kind, s);
            |r| <= |s| && r == s[..|r|] && (r != "" ==> !kind(r[|r| - 1]))
            && forall k :: |r| <= k < |s| ==> kind(s[k])
  {
    if s != "" && kind(s[|s| - 1]) { TrimRightPart(kind, s[..|s| - 1]); }
  }

  lemma {:induction false} TrimLeftPart(kind: char -> bool, s: string)
    ensures var r := TrimLeft(kind, s);
            |r| <= |s| && r == s[|s| - |r|..] && (r != "" ==> !kind(r[0]))
            && forall k :: 0 <= k < |s| - |r| ==> kind(s[k])
  {
    if s != "" && kind(s[0]) {
      var t := s[1..];
      TrimLeftPart(kind, t);
      forall k | 0 <= k < |s| - |TrimLeft(kind, t)| ensures kind(s[k]) {
        assert k > 0 ==> s[k] == t[k - 1];
      }
    }
  }

  /** `s[i..j]` is what is left of `s` when its class is taken off both ends. */
  ghost predicate Trimmed(kind: char -> bool, s: string, i: nat, j: nat) {
    && i <= j <= |s|
    && (forall k :: 0 <= k < i ==> kind(s[k])) && (forall k :: j <= k < |s| ==> kind(s[k]))
    && (i < j ==> !kind(s[i]) && !kind(s[j - 1]))
  }

  lemma StripExactly(kind: char -> bool, s: string) returns (i: nat, j: nat)
    ensures Trimmed(kind, s, i, j) && Strip(kind, s) == s[i..j]
  {
    var r := TrimRight(kind, s);
    TrimRightPart(kind, s);
    TrimLeftPart(kind, r);
    j := |r|;
    i := |r| - |TrimLeft(kind, r)|;
    assert s[i..j] == r[i..];
    if i < j {
      assert s[i..j][0] == s[i];
    }
  }

  // --- the comparison forms, word by word ---

  /** The words with single spaces between them, and a space where white space stands at an end. */
  ghost function Layout(a: Alphabet, s: string): string {
    var ws := SplitBy(a.blank, s);
    if s == "" then "" else if ws == [] then " "
    else Edge(a, s[0]) + Spaced(ws) + Edge(a, s[|s| - 1])
  }

  lemma LayoutWord(a: Alphabet, t: string, c: char)
    requires a.blank(' ') && !a.blank(c)
    ensures Layout(a, t + [c]) == Layout(a, t) + [c]
  {
    var ws := SplitBy(a.blank, t);
    NoWords(a.blank, t);
    NextSpaced(a.blank, ws, Fresh(a.blank, t), c);
    SplitSnoc(a.blank, t, c);
    hide SplitBy, Spaced, Next;
    var s := t + [c];
    assert Edge(a, s[|s| - 1]) == "";
    if t == "" {
      assert s == [c];
    } else if ws == [] {
      assert Edge(a, s[0]) == " ";
    } else {
      Regroup(Edge(a, t[0]), Spaced(ws), Edge(a, t[|t| - 1]), [c]);
    }
  }

  lemma Regroup(a: string, b: string, c: string, d: string)
    ensures a + (b + c + d) + "" == a + b + c + d
  {
  }

  lemma LayoutBlank(a: Alphabet, t: string, c: char)
    requires a.blank(' ') && a.blank(c)
    ensures Layout(a, t + [c]) == if t != "" && a.blank(t[|t| - 1]) then Layout(a, t) else Layout(a, t) + " "
  {
    SplitSnoc(a.blank, t, c);
    NoWords(a.blank, t);
    hide SplitBy, Spaced;
  }

  lemma {:induction false} CollapseLayout(a: Alphabet, s: string)
    requires a.blank(' ')
    ensures Collapse(a, s) == Layout(a, s)
  {
    if s == "" {
    } else {
      var t, c := s[..|s| - 1], s[|s| - 1];
      assert s == t + [c];
      CollapseLayout(a, t);
      hide Layout;
      if a.blank(c) {
        LayoutBlank(a, t, c);
      } else {
        LayoutWord(a, t, c);
      }
    }
  }

  function Edge(a: Alphabet, c: char): string {
    if a.blank(c) then " " else ""
  }

  lemma TrimEdges(kind: char -> bool, left: string, s: string, right: string)
    requires kind(' ') && left in {"", " "} && right in {"", " "}
    requires s != "" && !kind(s[0]) && !kind(s[|s| - 1])
    ensures TrimLeft(kind, left + s) == s && TrimRight(kind, s + right) == s
  {
    assert left == " " ==> (left + s)[1..] == s;
    assert left == "" ==> left + s == s;
    assert right == " " ==> (s + right)[..|s|] == s;
    assert right == "" ==> s + right == s;
  }

  lemma StripEdges(kind: char -> bool, left: string, s: string, right: string)
    requires kind(' ') && left in {"", " "} && right in {"", " "}
    requires s != "" && !kind(s[0]) && !kind(s[|s| - 1])
    ensures Strip(kind, left + s + right) == s
  {
    var t := left + s;
    assert t[|t| - 1] == s[|s| - 1];
    assert TrimRight(kind, t + right) == t by {
      if right == " " {
        assert (t + right)[..|t|] == t;
      } else {
        assert t + right == t;
      }
    }
    TrimEdges(kind, left, s, right);
  }

  lemma CollapseStrip(a: Alphabet, s: string)
    requires a.blank(' ')
    ensures Strip(a.blank, Collapse(a, s)) == Spaced(SplitBy(a.blank, s))
  {
    var ws := SplitBy(a.blank, s);
    CollapseLayout(a, s);
    hide Collapse;
    if ws != [] {
      SplitWords(a.blank, s);
      SpacedEnds(a.blank, ws);
      hide Strip, SplitBy;
      StripEdges(a.blank, Edge(a, s[0]), Spaced(ws), Edge(a, s[|s| - 1]));
    } else if s != "" {
      assert TrimRight(a.blank, " ") == TrimRight(a.blank, " "[..0]) == "";
    }
  }

  /** Fields are compared by their words, case-folded, with white space between words all alike. */
  lemma NormTextExactly(a: Alphabet, v: string)
    requires a.blank(' ')
    ensures NormText(a, v) == Expand(a.casefold, Spaced(SplitBy(a.blank, v)))
  {
    CollapseStrip(a, v);
  }

  lemma {:induction false} StraightenExactly(a: Alphabet, s: string)
    ensures Straighten(a, s) == Expand(c => [a.straighten(c)], s)
  {
    if s == "" {
    } else {
      var t := s[..|s| - 1];
      StraightenExactly(a, t);
      assert Straighten(a, s) == Straighten(a, t) + [a.straighten(s[|s| - 1])];
    }
  }

  /** Titles are aligned by their words too, with quotes and dashes straightened. */
  lemma NormalizeExactly(a: Alphabet, text: string)
    requires a.blank(' ')
    ensures NormalizeForMatch(a, text)
            == Expand(a.casefold, Spaced(SplitBy(a.blank, Expand(c => [a.straighten(c)], text))))
  {
    StraightenExactly(a, text);
    CollapseStrip(a, Straighten(a, text));
  }

  lemma TidySlice(a: Alphabet, s: string, lo: nat, hi: nat)
    requires Tidy(a, s) && lo <= hi <= |s|
    ensures Tidy(a, s[lo..hi])
  {
  }

  /** Trimming keeps a string tidy and leaves its class off both ends. */
  lemma StripTidy(a: Alphabet, kind: char -> bool, s: string)
    requires Tidy(a, s)
    ensures Tidy(a, TrimRight(kind, s)) && Tidy(a, Strip(kind, s))
    ensures var r := Strip(kind, s); r != "" ==> !kind(r[0]) && !kind(r[|r| - 1])
  {
    var r := TrimRight(kind, s);
    TrimRightPart(kind, s);
    TidySlice(a, s, 0, |r|);
    assert s[0..|r|] == s[..|r|];
    TrimLeftPart(kind, r);
    TidySlice(a, r, |r| - |TrimLeft(kind, r)|, |r|);
  }

  lemma StripIdle(kind: char -> bool, s: string)
    requires s != "" ==> !kind(s[0]) && !kind(s[|s| - 1])
    ensures Strip(kind, s) == s
  {
  }

  lemma {:induction false} FoldTwice(a: Alphabet, s: string)
    requires Proper(a)
    ensures Expand(a.casefold, Expand(a.casefold, s)) == Expand(a.casefold, s)
  {
    if s != "" {
      var t, c := s[..|s| - 1], s[|s| - 1];
      FoldTwice(a, t);
      ExpandJoin(a.casefold, Expand(a.casefold, t), a.casefold(c));
      FoldFixed(a.casefold, a.casefold(c));
    }
  }

  lemma {:induction false} FoldFixed(casefold: char -> string, s: string)
    requires forall k :: 0 <= k < |s| ==> casefold(s[k]) == [s[k]]
    ensures Expand(casefold, s) == s
  {
    if s != "" { FoldFixed(casefold, s[..|s| - 1]); }
  }

  /** Folding a tidy string keeps it tidy, because white space stays where it was. */
  lemma {:induction false} FoldTidy(a: Alphabet, s: string)
    requires Proper(a) && Tidy(a, s)
    ensures Tidy(a, Expand(a.casefold, s))
    ensures s != "" ==> Expand(a.casefold, s) != ""
                        && (a.blank(s[|s| - 1])
                            <==> a.blank(Expand(a.casefold, s)[|Expand(a.casefold, s)| - 1]))
  {
    if s != "" {
      var t, c := s[..|s| - 1], s[|s| - 1];
      FoldTidy(a, t);
      assert a.blank(c) && t != "" ==> !a.blank(s[|t| - 1]);
    }
  }

  /** Comparing canonical titles as obligation fields compares them as they are. */
  lemma CanonicalIsNormal(a: Alphabet, title: string)
    requires Proper(a)
    ensures NormText(a, CanonicalTitle(a, title)) == CanonicalTitle(a, title)
  {
    var canon := CanonicalTitle(a, title);
    CanonicalTidy(a, title);
    hide Strip, Expand, Collapse, Straighten, CanonicalTitle, Tidy;
    TidyCollapse(a, canon);
    StripIdle(a.blank, canon);
  }

  lemma CanonicalTidy(a: Alphabet, title: string)
    requires Proper(a)
    ensures var canon := CanonicalTitle(a, title);
            && Tidy(a, canon) && Expand(a.casefold, canon) == canon
            && (canon != "" ==> !a.blank(canon[0]) && !a.blank(canon[|canon| - 1]))
  {
    var start := Collapse(a, Straighten(a, title));
    CollapseTidy(a, Straighten(a, title));
    StripTidy(a, a.blank, start);
    var s := Strip(a.blank, start);
    StripTidy(a, a.blank, s);
    StripTidy(a, a.digit, TrimRight(a.blank, s));
    StripTidy(a, a.blank, TrimRight(a.digit, TrimRight(a.blank, s)));
    var cut := StripFootnoteNumber(a, s);
    StripTidy(a, Punctuation, cut);
    var r := Strip(Punctuation, cut);
    FoldTidy(a, r);
    FoldTwice(a, r);
    FoldStrip(a.casefold, Punctuation, cut);
    FoldTidy(a, cut);
    StripTidy(a, Punctuation, Expand(a.casefold, cut));
    assert CanonicalTitle(a, title) == Expand(a.casefold, r);
  }

  /** The normalised title is tidy, with no white space at its ends. */
  lemma NormalizedTidy(a: Alphabet, text: string)
    requires Proper(a)
    ensures var n := NormalizeForMatch(a, text);
            Tidy(a, n) && (n != "" ==> !a.blank(n[0]) && !a.blank(n[|n| - 1]))
  {
    var c := Collapse(a, Straighten(a, text));
    CollapseTidy(a, Straighten(a, text));
    StripTidy(a, a.blank, c);
    FoldTidy(a, Strip(a.blank, c));
    FoldTidy(a, c);
    StripTidy(a, a.blank, Expand(a.casefold, c));
    FoldStrip(a.casefold, a.blank, c);
  }

  /** A trimmed part trimmed again, by a class that takes in the first. */
  lemma TrimmedTwice(kind: char -> bool, wider: char -> bool, s: string, i: nat, j: nat, k: nat, l: nat)
    requires Trimmed(kind, s, i, j) && Trimmed(wider, s[i..j], k, l)
    requires forall x :: 0 <= x < |s| && kind(s[x]) ==> wider(s[x])
    ensures Trimmed(wider, s, i + k, i + l) && s[i..j][k..l] == s[i + k..i + l]
  {
    var t := s[i..j];
    assert forall x :: 0 <= x < |t| ==> t[x] == s[i + x];
    forall x | 0 <= x < i + k ensures wider(s[x]) {
      if x >= i { assert wider(t[x - i]); }
    }
    forall x | i + l <= x < |s| ensures wider(s[x]) {
      if x < j { assert wider(t[x - i]); }
    }
  }

  /** The canonical title is the normalised one without its trailing digits and then without punctuation and
      spaces at its ends. */
  lemma CanonicalExactly(a: Alphabet, title: string) returns (i: nat, j: nat, k: nat)
    requires Proper(a)
    ensures var n := NormalizeForMatch(a, title);
            && k <= |n| && (forall x :: k <= x < |n| ==> a.digit(n[x])) && (k > 0 ==> !a.digit(n[k - 1]))
            && Trimmed(Punctuation, n[..k], i, j) && CanonicalTitle(a, title) == n[..k][i..j]
  {
    NormalizedTidy(a, title);
    CanonicalFromNormalized(a, title);
    hide NormalizeForMatch, CanonicalTitle, Strip, Trimmed, Tidy;
    i, j, k := CutParts(a, NormalizeForMatch(a, title));
  }

  lemma CutParts(a: Alphabet, n: string) returns (i: nat, j: nat, k: nat)
    requires Tidy(a, n) && (n != "" ==> !a.blank(n[|n| - 1]))
    ensures k <= |n| && (forall x :: k <= x < |n| ==> a.digit(n[x])) && (k > 0 ==> !a.digit(n[k - 1]))
    ensures Trimmed(Punctuation, n[..k], i, j)
    ensures Strip(Punctuation, StripFootnoteNumber(a, n)) == n[..k][i..j]
  {
    assert TrimRight(a.blank, n) == n;
    var m := TrimRight(a.digit, n);
    TrimRightPart(a.digit, n);
    k := |m|;
    TidySlice(a, n, 0, k);
    assert n[0..k] == m;
    hide TrimRight, Trimmed, Strip;
    i, j := TrimTidy(a, m);
  }

  lemma TrimTidy(a: Alphabet, m: string) returns (i: nat, j: nat)
    requires Tidy(a, m)
    ensures Trimmed(Punctuation, m, i, j) && Strip(Punctuation, Strip(a.blank, m)) == m[i..j]
  {
    hide Strip, Trimmed;
    var p, q := StripExactly(a.blank, m);
    assert Strip(a.blank, m) == m[p..q];
    var u, v := StripExactly(Punctuation, m[p..q]);
    TrimmedTwice(a.blank, Punctuation, m, p, q, u, v);
    i, j := p + u, p + v;
  }
}
