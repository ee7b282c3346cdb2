/** Words of a text: what lies between its separators, and what joining the words with single spaces gives. */
module Wording {

  /** The maximal runs of characters that are not separators, in order. */
  function SplitBy(sep: char -> bool, s: string): seq<string> {
    if s == "" then [] else Next(sep, SplitBy(sep, s[..|s| - 1]), Fresh(sep, s[..|s| - 1]), s[|s| - 1])
  }

  /** The next character starts a word. */
  predicate Fresh(sep: char -> bool, s: string) {
    s == "" || sep(s[|s| - 1])
  }

  function Next(sep: char -> bool, ws: seq<string>, opens: bool, c: char): seq<string> {
    if sep(c) then ws else if opens || ws == [] then ws + [[c]] else Grow(ws, c)
  }

  /** The last word, one character longer. */
  function Grow(ws: seq<string>, c: char): seq<string>
    requires ws != []
  {
    ws[..|ws| - 1] + [ws[|ws| - 1] + [c]]
  }

  /** The words with one space between each two. */
  function Spaced(ws: seq<string>): string {
    if ws == [] then ""
    else if |ws| == 1 then ws[0]
    else Spaced(ws[..|ws| - 1]) + " " + ws[|ws| - 1]
  }

  /** Every character replaced by what `f` makes of it. */
  function Expand(f: char -> string, s: string): string {
    if s == "" then "" else Expand(f, s[..|s| - 1]) + f(s[|s| - 1])
  }

  ghost predicate IsWord(sep: char -> bool, w: string) {
    w != "" && forall k :: 0 <= k < |w| ==> !sep(w[k])
  }

  // --- what these are, without their definitions ---

  lemma ExpandExactly(f: char -> string, s: string, t: string, c: char)
    ensures Expand(f, "") == "" && Expand(f, [c]) == f(c)
    ensures Expand(f, s + t) == Expand(f, s) + Expand(f, t)
  {
    assert [c][..0] == "";
    ExpandJoin(f, s, t);
  }

  lemma {:induction false} ExpandJoin(f: char -> string, s: string, t: string)
    ensures Expand(f, s + t) == Expand(f, s) + Expand(f, t)
  {
    if t == "" {
      assert s + t == s;
    } else {
      var front, c := t[..|t| - 1], t[|t| - 1];
      ExpandJoin(f, s, front);
      assert (s + t)[..|s + t| - 1] == s + front && (s + t)[|s + t| - 1] == c;
      assert Expand(f, s + t) == Expand(f, s + front) + f(c);
      assert Expand(f, t) == Expand(f, front) + f(c);
    }
  }

  lemma {:induction false} SplitWords(sep: char -> bool, s: string)
    ensures forall k :: 0 <= k < |SplitBy(sep, s)| ==> IsWord(sep, SplitBy(sep, s)[k])
  {
    if s == "" {
    } else {
      SplitWords(sep, s[..|s| - 1]);
    }
  }

  /** A text of words and separators splits into its words: a separator at its end adds nothing, and a word
      after a separator, or alone, is one more. */
  lemma SplitExactly(sep: char -> bool, s: string, w: string)
    ensures SplitBy(sep, "") == []
    ensures forall c :: sep(c) ==> SplitBy(sep, s + [c]) == SplitBy(sep, s)
    ensures IsWord(sep, w) && Fresh(sep, s) ==> SplitBy(sep, s + w) == SplitBy(sep, s) + [w]
  {
    forall c | sep(c) ensures SplitBy(sep, s + [c]) == SplitBy(sep, s) {
      SplitSnoc(sep, s, c);
    }
    if IsWord(sep, w) && Fresh(sep, s) {
      WordEnds(sep, s, w);
    }
  }

  lemma SplitSnoc(sep: char -> bool, s: string, c: char)
    ensures SplitBy(sep, s + [c]) == Next(sep, SplitBy(sep, s), Fresh(sep, s), c)
  {
    hide Next, Fresh;
    var t := s + [c];
    assert t[..|t| - 1] == s && t[|t| - 1] == c;
  }

  lemma {:induction false} NoWords(sep: char -> bool, s: string)
    ensures SplitBy(sep, s) == [] <==> forall k :: 0 <= k < |s| ==> sep(s[k])
  {
    if s == "" {
    } else {
      NoWords(sep, s[..|s| - 1]);
    }
  }

  lemma {:induction false} WordEnds(sep: char -> bool, s: string, w: string)
    requires IsWord(sep, w) && Fresh(sep, s)
    ensures SplitBy(sep, s + w) == SplitBy(sep, s) + [w]
  {
    hide SplitBy;
    var v, c := w[..|w| - 1], w[|w| - 1];
    assert w == v + [c] && s + w == s + v + [c];
    SplitSnoc(sep, s + v, c);
    if v == "" {
      assert s + v == s && w == [c];
    } else {
      assert IsWord(sep, v);
      WordEnds(sep, s, v);
      assert (s + v)[|s + v| - 1] == v[|v| - 1];
      GrowLast(SplitBy(sep, s), v, c);
    }
  }

  lemma GrowLast(ws: seq<string>, v: string, c: char)
    ensures Grow(ws + [v], c) == ws + [v + [c]]
  {
  }

  lemma SpacedGrow(ws: seq<string>, c: char)
    requires ws != []
    ensures Spaced(Grow(ws, c)) == Spaced(ws) + [c]
  {
    var more := Grow(ws, c);
    assert more[..|more| - 1] == ws[..|ws| - 1];
  }

  lemma SpacedSnoc(ws: seq<string>, w: string)
    ensures Spaced(ws + [w]) == if ws == [] then w else Spaced(ws) + " " + w
  {
    assert (ws + [w])[..|ws|] == ws;
  }

  lemma NextSpaced(sep: char -> bool, ws: seq<string>, opens: bool, c: char)
    requires !sep(c)
    ensures Next(sep, ws, opens, c) != []
    ensures Spaced(Next(sep, ws, opens, c))
            == if ws == [] then [c] else Spaced(ws) + (if opens then " " else "") + [c]
  {
    if ws == [] {
      assert [] + [[c]] == [[c]];
    } else if opens {
      SpacedSnoc(ws, [c]);
    } else {
      SpacedGrow(ws, c);
      hide Spaced;
      assert Spaced(ws) + "" == Spaced(ws);
    }
  }

  /** Spaced words begin with the first word's first character and end with the last word's last. */
  lemma {:induction false} SpacedEnds(sep: char -> bool, ws: seq<string>)
    requires ws != [] && forall k :: 0 <= k < |ws| ==> IsWord(sep, ws[k])
    ensures var s := Spaced(ws); s != "" && !sep(s[0]) && !sep(s[|s| - 1])
  {
    var t, w := ws[..|ws| - 1], ws[|ws| - 1];
    assert IsWord(sep, w);
    if |ws| > 1 {
      SpacedEnds(sep, t);
    }
  }

  lemma {:induction false} SpacedNonEmpty(sep: char -> bool, ws: seq<string>)
    requires forall k :: 0 <= k < |ws| ==> IsWord(sep, ws[k])
    ensures Spaced(ws) == "" <==> ws == []
  {
    if |ws| > 1 {
      assert IsWord(sep, ws[|ws| - 1]);
    }
  }

  /** Spacing loses nothing: the words are read back by splitting. */
  lemma {:induction false} SplitSpaced(sep: char -> bool, ws: seq<string>)
    requires sep(' ') && forall k :: 0 <= k < |ws| ==> IsWord(sep, ws[k])
    ensures SplitBy(sep, Spaced(ws)) == ws
  {
    if ws == [] {
    } else {
      var t, w := ws[..|ws| - 1], ws[|ws| - 1];
      assert IsWord(sep, w);
      assert ws == t + [w];
      SplitSpaced(sep, t);
      if t == [] {
        SplitExactly(sep, "", w);
        assert "" + w == w;
      } else {
        SplitExactly(sep, Spaced(t), "");
        SplitExactly(sep, Spaced(t) + " ", w);
      }
    }
  }
}
