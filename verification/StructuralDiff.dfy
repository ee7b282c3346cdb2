/** Alignment of two section lists by title (packages/diff_engine/structural_diff.py). */
module StructuralDiff {
  import opened GreedyPairs
  import opened Increasing
  import opened Options
  import opened Sorting
  import opened Titles
  import Sections

  type Section = Sections.Section

  datatype Relation = SameNumber | Renumbered

  datatype StructuralAlignment = StructuralAlignment(
    matched: seq<Edge>, relations: seq<Relation>, leftoverOld: seq<nat>, leftoverNew: seq<nat>)

  function Key(al: Alphabet, s: Section): string {
    NormalizeForMatch(al, s.title)
  }

  function Keys(al: Alphabet, ss: seq<Section>): (ks: seq<string>)
    ensures |ks| == |ss| && forall i :: 0 <= i < |ss| ==> ks[i] == Key(al, ss[i])
  {
    seq(|ss|, i requires 0 <= i < |ss| => Key(al, ss[i]))
  }

  // --- the choice for one old section ---

  /** The sections among the first `k` with the title `key`. */
  function Indices(al: Alphabet, ns: seq<Section>, key: string, k: nat): (js: seq<nat>)
    requires k <= |ns|
    ensures forall i :: 0 <= i < |js| ==> js[i] < k && Key(al, ns[js[i]]) == key
  {
    if k == 0 then []
    else Indices(al, ns, key, k - 1) + (if Key(al, ns[k - 1]) == key then [k - 1] else [])
  }

  lemma {:induction false} IndicesComplete(al: Alphabet, ns: seq<Section>, k: nat, j: nat)
    requires j < k <= |ns|
    ensures j in Indices(al, ns, Key(al, ns[j]), k)
  {
    if j < k - 1 { IndicesComplete(al, ns, k - 1, j); }
  }

  function Unused(js: seq<nat>, used: set<nat>): (r: seq<nat>)
    ensures forall i :: 0 <= i < |r| ==> r[i] in js && r[i] !in used
  {
    if js == [] then []
    else
      var j, rest := js[|js| - 1], Unused(js[..|js| - 1], used);
      assert forall x :: x in js[..|js| - 1] ==> x in js;
      rest + (if j in used then [] else [j])
  }

  lemma {:induction false} UnusedComplete(js: seq<nat>, used: set<nat>, j: nat)
    requires j in js && j !in used
    ensures j in Unused(js, used)
  {
    if j != js[|js| - 1] { UnusedComplete(js[..|js| - 1], used, j); }
  }

  function Distance(a: nat, b: nat): nat {
    if a < b then b - a else a - b
  }

  /** The candidate whose number is nearest, the first such one. */
  function Closest(ns: seq<Section>, number: nat, js: seq<nat>): (r: Option<nat>)
    requires forall i :: 0 <= i < |js| ==> js[i] < |ns|
    ensures r.None? <==> js == []
    ensures r.Some? ==> r.value < |ns|
    ensures r.Some? ==>
              forall i :: 0 <= i < |js| ==> Distance(ns[r.value].number, number) <= Distance(ns[js[i]].number, number)
  {
    if js == [] then None
    else
      var rest, j := Closest(ns, number, js[..|js| - 1]), js[|js| - 1];
      if rest.None? || Distance(ns[j].number, number) < Distance(ns[rest.value].number, number) then Some(j) else rest
  }

  lemma {:induction false} ClosestAmong(ns: seq<Section>, number: nat, js: seq<nat>)
    requires js != [] && forall i :: 0 <= i < |js| ==> js[i] < |ns|
    ensures Closest(ns, number, js).value in js
  {
    var t := js[..|js| - 1];
    if t == [] {
    } else {
      ClosestAmong(ns, number, t);
      assert forall x :: x in t ==> x in js;
    }
  }

  /** The candidates for an old section: the unused new ones with its title. */
  function Candidates(al: Alphabet, ns: seq<Section>, used: set<nat>, s: Section): (js: seq<nat>)
    ensures forall i :: 0 <= i < |js| ==> js[i] < |ns| && js[i] !in used && Key(al, ns[js[i]]) == Key(al, s)
  {
    var all := Indices(al, ns, Key(al, s), |ns|);
    assert forall x :: x in all ==> x < |ns| && Key(al, ns[x]) == Key(al, s);
    Unused(all, used)
  }

  lemma CandidatesComplete(al: Alphabet, ns: seq<Section>, used: set<nat>, s: Section, j: nat)
    requires j < |ns| && j !in used && Key(al, ns[j]) == Key(al, s)
    ensures j in Candidates(al, ns, used, s)
  {
    IndicesComplete(al, ns, |ns|, j);
    UnusedComplete(Indices(al, ns, Key(al, s), |ns|), used, j);
  }

  function Partner(al: Alphabet, ns: seq<Section>, used: set<nat>, s: Section): (r: Option<nat>)
    ensures r.Some? ==> r.value < |ns| && r.value !in used && Key(al, ns[r.value]) == Key(al, s)
  {
    var js := Candidates(al, ns, used, s);
    if js != [] then
      ClosestAmong(ns, s.number, js);
      Closest(ns, s.number, js)
    else None
  }

  lemma NoPartner(al: Alphabet, ns: seq<Section>, used: set<nat>, s: Section, j: nat)
    requires Partner(al, ns, used, s).None? && j < |ns| && j !in used
    ensures Key(al, ns[j]) != Key(al, s)
  {
    if Key(al, ns[j]) == Key(al, s) {
      CandidatesComplete(al, ns, used, s, j);
    }
  }

  /** The pairs found for the first `k` old sections. */
  function Aligned(al: Alphabet, os: seq<Section>, ns: seq<Section>, k: nat): seq<Edge>
    requires k <= |os|
  {
    if k == 0 then []
    else
      var es := Aligned(al, os, ns, k - 1);
      match Partner(al, ns, Rights(es), os[k - 1])
      case None => es
      case Some(j) => es + [Edge(k - 1, j)]
  }

  function Group(byTitle: map<string, seq<nat>>, key: string): seq<nat> {
    if key in byTitle then byTitle[key] else []
  }

  /** Every title's group holds the sections among the first `k` that have it. */
  ghost predicate Groups(al: Alphabet, ns: seq<Section>, byTitle: map<string, seq<nat>>, k: nat)
    requires k <= |ns|
  {
    forall key :: Group(byTitle, key) == Indices(al, ns, key, k)
  }

  lemma GroupsStep(al: Alphabet, ns: seq<Section>, byTitle: map<string, seq<nat>>, k: nat)
    requires k < |ns| && Groups(al, ns, byTitle, k)
    ensures var key := Key(al, ns[k]); Groups(al, ns, byTitle[key := Group(byTitle, key) + [k]], k + 1)
  {
    hide Key;
    var key := Key(al, ns[k]);
    var more := byTitle[key := Group(byTitle, key) + [k]];
    forall other ensures Group(more, other) == Indices(al, ns, other, k + 1) {
      assert Group(byTitle, other) == Indices(al, ns, other, k);
    }
  }

  lemma NoGroups(al: Alphabet, ns: seq<Section>)
    ensures Groups(al, ns, map[], 0)
  {
    hide Key;
  }

  method GroupByTitle(al: Alphabet, ns: seq<Section>) returns (byTitle: map<string, seq<nat>>)
    ensures Groups(al, ns, byTitle, |ns|)
  {
    hide Groups, Key, Indices;
    byTitle := map[];
    NoGroups(al, ns);
    for j := 0 to |ns|
      invariant Groups(al, ns, byTitle, j)
    {
      GroupsStep(al, ns, byTitle, j);
      var key := Key(al, ns[j]);
      byTitle := byTitle[key := Group(byTitle, key) + [j]];
    }
  }

  method Nearest(ns: seq<Section>, number: nat, js: seq<nat>) returns (best: nat)
    requires js != [] && forall i :: 0 <= i < |js| ==> js[i] < |ns|
    ensures Closest(ns, number, js) == Some(best)
  {
    best := js[0];
    assert js[..1][..0] == [];
    for k := 1 to |js|
      invariant best < |ns| && Closest(ns, number, js[..k]) == Some(best)
    {
      assert js[..k + 1][..k] == js[..k];
      if Distance(ns[js[k]].number, number) < Distance(ns[best].number, number) {
        best := js[k];
      }
    }
    assert js[..|js|] == js;
  }

  /** What holds after the first `k` old sections have been looked at. */
  ghost predicate AlignedUpTo(al: Alphabet, os: seq<Section>, ns: seq<Section>, k: nat, matched: seq<Edge>,
                              relations: seq<Relation>)
    requires k <= |os|
  {
    && matched == Aligned(al, os, ns, k) && |relations| == |matched|
    && forall i :: 0 <= i < |matched| ==>
         && matched[i].left < |os| && matched[i].right < |ns|
         && relations[i] == if ns[matched[i].right].number == os[matched[i].left].number then SameNumber else Renumbered
  }

  lemma AlignStep(al: Alphabet, os: seq<Section>, ns: seq<Section>, i: nat, matched: seq<Edge>,
                  relations: seq<Relation>)
    requires i < |os| && AlignedUpTo(al, os, ns, i, matched, relations)
    ensures i !in Lefts(matched)
    ensures match Partner(al, ns, Rights(matched), os[i])
            case None => AlignedUpTo(al, os, ns, i + 1, matched, relations)
            case Some(j) => AlignedUpTo(al, os, ns, i + 1, matched + [Edge(i, j)],
                                        relations + [if ns[j].number == os[i].number then SameNumber else Renumbered])
  {
    hide Partner, Key, OneToOne, Rights;
    AlignedPairs(al, os, ns, i);
  }

  /** The old sections among the first `i` that found no partner. */
  function Leftover(i: nat, matched: seq<Edge>): seq<nat> {
    Others(i, Lefts(matched))
  }

  lemma LeftoverStep(i: nat, matched: seq<Edge>, j: nat)
    requires i !in Lefts(matched)
    ensures Leftover(i + 1, matched) == Leftover(i, matched) + [i]
    ensures Leftover(i + 1, matched + [Edge(i, j)]) == Leftover(i, matched)
    ensures Rights(matched + [Edge(i, j)]) == Rights(matched) + {j}
  {
    OthersStep(i, Lefts(matched));
    assert (matched + [Edge(i, j)])[..|matched|] == matched;
  }

  method Candidate(al: Alphabet, ns: seq<Section>, byTitle: map<string, seq<nat>>, used: set<nat>, s: Section)
    returns (r: Option<nat>)
    requires Groups(al, ns, byTitle, |ns|)
    ensures r == Partner(al, ns, used, s)
  {
    assert Group(byTitle, Key(al, s)) == Indices(al, ns, Key(al, s), |ns|);
    var candidates := Unused(Group(byTitle, Key(al, s)), used);
    assert candidates == Candidates(al, ns, used, s);
    hide Unused, Indices, Closest, Key, Group, Groups, Candidates;
    if candidates == [] {
      return None;
    }
    var j := Nearest(ns, s.number, candidates);
    r := Some(j);
  }

  method AlignSections(al: Alphabet, os: seq<Section>, ns: seq<Section>) returns (r: StructuralAlignment)
    ensures AlignedUpTo(al, os, ns, |os|, r.matched, r.relations)
    ensures r.leftoverOld == Leftover(|os|, r.matched) && r.leftoverNew == Others(|ns|, Rights(r.matched))
  {
    hide Groups, Partner, Leftover, Others;
    var byTitle := GroupByTitle(al, ns);
    var matched, relations, usedNew := [], [], {};
    var leftoverOld: seq<nat> := [];
    NothingLeft();
    for i := 0 to |os|
      invariant AlignedUpTo(al, os, ns, i, matched, relations) && usedNew == Rights(matched)
      invariant leftoverOld == Leftover(i, matched)
    {
      var partner := Candidate(al, ns, byTitle, usedNew, os[i]);
      AlignStep(al, os, ns, i, matched, relations);
      hide AlignedUpTo;
      if partner.None? {
        LeftoverStep(i, matched, 0);
        leftoverOld := leftoverOld + [i];
      } else {
        var j := partner.value;
        LeftoverStep(i, matched, j);
        usedNew := usedNew + {j};
        matched := matched + [Edge(i, j)];
        relations := relations + [if ns[j].number == os[i].number then SameNumber else Renumbered];
      }
    }
    r := StructuralAlignment(matched, relations, leftoverOld, Others(|ns|, usedNew));
  }

  lemma NothingLeft()
    ensures Leftover(0, []) == []
  {
  }

  // --- what alignment guarantees ---

  /** Pairs share a title and no section is used twice. */
  lemma {:induction false} AlignedPairs(al: Alphabet, os: seq<Section>, ns: seq<Section>, k: nat)
    requires k <= |os|
    ensures var es := Aligned(al, os, ns, k);
            && OneToOne(es)
            && (forall i :: 0 <= i < |es| ==>
                  es[i].left < k && es[i].right < |ns| && Key(al, os[es[i].left]) == Key(al, ns[es[i].right]))
            && (forall x :: x in Lefts(es) ==> x < k) && (forall x :: x in Rights(es) ==> x < |ns|)
  {
    hide Partner, Key, OneToOne, Lefts, Rights;
    if k == 0 {
      NoPairs();
    } else {
      AlignedPairs(al, os, ns, k - 1);
      var t, partner := Aligned(al, os, ns, k - 1), Partner(al, ns, Rights(Aligned(al, os, ns, k - 1)), os[k - 1]);
      if partner.Some? {
        PairApart(t, Edge(k - 1, partner.value));
      }
    }
  }

  lemma NoPairs()
    ensures OneToOne([]) && Lefts([]) == {} && Rights([]) == {}
  {
  }

  lemma PairApart(es: seq<Edge>, e: Edge)
    requires OneToOne(es) && e.left !in Lefts(es) && e.right !in Rights(es)
    ensures OneToOne(es + [e])
    ensures Lefts(es + [e]) == Lefts(es) + {e.left} && Rights(es + [e]) == Rights(es) + {e.right}
  {
    BlockedBySides(es, e);
    assert (es + [e])[..|es|] == es;
  }

  /** No title is left over on both sides. */
  lemma {:induction false} AlignedMaximal(al: Alphabet, os: seq<Section>, ns: seq<Section>, k: nat, i: nat, j: nat)
    requires k <= |os| && i < k && j < |ns|
    requires i !in Lefts(Aligned(al, os, ns, k)) && j !in Rights(Aligned(al, os, ns, k))
    ensures Key(al, os[i]) != Key(al, ns[j])
  {
    hide Partner, Key;
    var t, partner := Aligned(al, os, ns, k - 1), Partner(al, ns, Rights(Aligned(al, os, ns, k - 1)), os[k - 1]);
    if partner.Some? {
      assert (t + [Edge(k - 1, partner.value)])[..|t|] == t;
    }
    if i < k - 1 {
      AlignedMaximal(al, os, ns, k - 1, i, j);
    } else {
      NoPartner(al, ns, Rights(t), os[k - 1], j);
    }
  }

  // --- counting titles ---

  function Counts(b: bool): nat {
    if b then 1 else 0
  }

  /** How many of the first `n` sections outside `used` have the title `x`. */
  function RestCount(keys: seq<string>, n: nat, used: set<nat>, x: string): nat
    requires n <= |keys|
  {
    if n == 0 then 0 else RestCount(keys, n - 1, used, x) + Counts(n - 1 !in used && keys[n - 1] == x)
  }

  /** How many of the paired sections have it. */
  function LeftCount(keys: seq<string>, es: seq<Edge>, x: string): nat
    requires forall k :: 0 <= k < |es| ==> es[k].left < |keys|
  {
    if es == [] then 0 else LeftCount(keys, es[..|es| - 1], x) + Counts(keys[es[|es| - 1].left] == x)
  }

  /** Marking a section as used takes exactly its title from those left over. */
  lemma {:induction false} RestRemove(keys: seq<string>, n: nat, used: set<nat>, i: nat, x: string)
    requires n <= |keys| && i !in used
    ensures RestCount(keys, n, used, x)
            == RestCount(keys, n, used + {i}, x) + Counts(i < n && i < |keys| && keys[i] == x)
  {
    if n == 0 {
    } else {
      RestRemove(keys, n - 1, used, i, x);
    }
  }

  lemma {:induction false} RestAll(keys: seq<string>, n: nat, x: string)
    requires n <= |keys|
    ensures RestCount(keys, n, {}, x) == multiset(keys[..n])[x]
  {
    if n == 0 {
    } else {
      RestAll(keys, n - 1, x);
      assert keys[..n] == keys[..n - 1] + [keys[n - 1]];
    }
  }

  lemma {:induction false} RestMember(keys: seq<string>, n: nat, used: set<nat>, i: nat)
    requires i < n <= |keys| && i !in used
    ensures RestCount(keys, n, used, keys[i]) > 0
  {
    if i < n - 1 { RestMember(keys, n - 1, used, i); }
  }

  lemma {:induction false} RestWitness(keys: seq<string>, n: nat, used: set<nat>, x: string) returns (i: nat)
    requires n <= |keys| && RestCount(keys, n, used, x) > 0
    ensures i < n && i !in used && keys[i] == x
  {
    if n - 1 !in used && keys[n - 1] == x {
      i := n - 1;
    } else {
      i := RestWitness(keys, n - 1, used, x);
    }
  }

  /** The titles of a list are those of its paired sections and those of the ones left over. */
  lemma {:induction false} KeysSplit(keys: seq<string>, es: seq<Edge>, x: string)
    requires OneToOne(es) && forall k :: 0 <= k < |es| ==> es[k].left < |keys|
    ensures multiset(keys)[x] == LeftCount(keys, es, x) + RestCount(keys, |keys|, Lefts(es), x)
  {
    hide RestCount;
    if es == [] {
      RestAll(keys, |keys|, x);
      assert keys[..|keys|] == keys;
    } else {
      var t, e := es[..|es| - 1], es[|es| - 1];
      KeysSplit(keys, t, x);
      LeftsOnly(t, e);
      RestRemove(keys, |keys|, Lefts(t), e.left, x);
    }
  }

  lemma {:induction false} LeftsOnly(t: seq<Edge>, e: Edge)
    requires forall k :: 0 <= k < |t| ==> t[k].left != e.left
    ensures e.left !in Lefts(t)
  {
    if t == [] {
    } else {
      LeftsOnly(t[..|t| - 1], e);
    }
  }

  function Flip(es: seq<Edge>): (r: seq<Edge>)
    ensures |r| == |es| && forall k :: 0 <= k < |es| ==> r[k] == Edge(es[k].right, es[k].left)
  {
    seq(|es|, k requires 0 <= k < |es| => Edge(es[k].right, es[k].left))
  }

  lemma {:induction false} FlipSides(es: seq<Edge>)
    ensures Lefts(Flip(es)) == Rights(es)
  {
    if es == [] {
    } else {
      FlipSides(es[..|es| - 1]);
      assert Flip(es)[..|es| - 1] == Flip(es[..|es| - 1]);
    }
  }

  lemma {:induction false} SharedKeys(a: seq<string>, b: seq<string>, es: seq<Edge>, x: string)
    requires forall k :: 0 <= k < |es| ==> es[k].left < |a| && es[k].right < |b| && a[es[k].left] == b[es[k].right]
    ensures LeftCount(a, es, x) == LeftCount(b, Flip(es), x)
  {
    if es == [] {
    } else {
      SharedKeys(a, b, es[..|es| - 1], x);
      assert Flip(es)[..|es| - 1] == Flip(es[..|es| - 1]);
    }
  }

  /** With equal titles on both sides, equal titles are left over. */
  lemma EqualRests(a: seq<string>, b: seq<string>, es: seq<Edge>, x: string)
    requires multiset(a) == multiset(b) && OneToOne(es)
    requires forall k :: 0 <= k < |es| ==> es[k].left < |a| && es[k].right < |b| && a[es[k].left] == b[es[k].right]
    ensures RestCount(a, |a|, Lefts(es), x) == RestCount(b, |b|, Rights(es), x)
  {
    hide RestCount, LeftCount, Lefts, Rights;
    KeysSplit(a, es, x);
    KeysSplit(b, Flip(es), x);
    FlipSides(es);
    SharedKeys(a, b, es, x);
  }

  lemma AllUsed(n: nat, used: set<nat>)
    requires forall i: nat :: i < n ==> i in used
    ensures Others(n, used) == []
  {
    OthersIs(n, used, []);
  }

  /** When both lists have the same titles, counted with repetition, alignment pairs every section,
      whatever the order and the numbers. */
  lemma SameTitlesAlign(al: Alphabet, os: seq<Section>, ns: seq<Section>)
    requires multiset(Keys(al, os)) == multiset(Keys(al, ns))
    ensures var es := Aligned(al, os, ns, |os|);
            Others(|os|, Lefts(es)) == [] && Others(|ns|, Rights(es)) == []
  {
    hide Aligned, Others, RestCount, Key, Lefts, Rights;
    var es := Aligned(al, os, ns, |os|);
    forall i: nat | i < |os| ensures i in Lefts(es) {
      OldPaired(al, os, ns, i);
    }
    forall j: nat | j < |ns| ensures j in Rights(es) {
      NewPaired(al, os, ns, j);
    }
    AllUsed(|os|, Lefts(es));
    AllUsed(|ns|, Rights(es));
  }

  lemma TitleRests(al: Alphabet, os: seq<Section>, ns: seq<Section>, x: string)
    requires multiset(Keys(al, os)) == multiset(Keys(al, ns))
    ensures var es, a, b := Aligned(al, os, ns, |os|), Keys(al, os), Keys(al, ns);
            RestCount(a, |a|, Lefts(es), x) == RestCount(b, |b|, Rights(es), x)
  {
    hide Aligned, RestCount, Key, Lefts, Rights, OneToOne;
    AlignedPairs(al, os, ns, |os|);
    EqualRests(Keys(al, os), Keys(al, ns), Aligned(al, os, ns, |os|), x);
  }

  lemma OldPaired(al: Alphabet, os: seq<Section>, ns: seq<Section>, i: nat)
    requires multiset(Keys(al, os)) == multiset(Keys(al, ns)) && i < |os|
    ensures i in Lefts(Aligned(al, os, ns, |os|))
  {
    hide Aligned, RestCount, Key, Keys, Lefts, Rights;
    var es, a, b := Aligned(al, os, ns, |os|), Keys(al, os), Keys(al, ns);
    TitleRests(al, os, ns, a[i]);
    if i !in Lefts(es) {
      RestMember(a, |os|, Lefts(es), i);
      var j := RestWitness(b, |ns|, Rights(es), a[i]);
      AlignedMaximal(al, os, ns, |os|, i, j);
    }
  }

  lemma NewPaired(al: Alphabet, os: seq<Section>, ns: seq<Section>, j: nat)
    requires multiset(Keys(al, os)) == multiset(Keys(al, ns)) && j < |ns|
    ensures j in Rights(Aligned(al, os, ns, |os|))
  {
    hide Aligned, RestCount, Key, Keys, Lefts, Rights;
    var es, a, b := Aligned(al, os, ns, |os|), Keys(al, os), Keys(al, ns);
    TitleRests(al, os, ns, b[j]);
    if j !in Rights(es) {
      RestMember(b, |ns|, Rights(es), j);
      var i := RestWitness(a, |os|, Lefts(es), b[j]);
      AlignedMaximal(al, os, ns, |os|, i, j);
    }
  }

  /** A list whose sections have distinct numbers aligns with itself section by section. */
  lemma {:induction false} SelfAligned(al: Alphabet, os: seq<Section>, k: nat)
    requires forall i, j :: 0 <= i < j < |os| ==> os[i].number != os[j].number
    requires k <= |os|
    ensures var es := Aligned(al, os, os, k);
            && |es| == k && (forall i :: 0 <= i < k ==> es[i] == Edge(i, i))
            && (forall x :: x in Rights(es) <==> 0 <= x < k)
  {
    hide Partner, Key, Rights;
    if k == 0 {
      NoPairs();
    } else {
      SelfAligned(al, os, k - 1);
      var t := Aligned(al, os, os, k - 1);
      SelfPartner(al, os, k - 1, Rights(t));
      RightsSnoc(t, Edge(k - 1, k - 1));
    }
  }

  lemma RightsSnoc(es: seq<Edge>, e: Edge)
    ensures Rights(es + [e]) == Rights(es) + {e.right}
  {
    assert (es + [e])[..|es|] == es;
  }

  lemma SelfPartner(al: Alphabet, os: seq<Section>, k: nat, used: set<nat>)
    requires forall i, j :: 0 <= i < j < |os| ==> os[i].number != os[j].number
    requires k < |os| && k !in used
    ensures Partner(al, os, used, os[k]) == Some(k)
  {
    hide Key;
    CandidatesComplete(al, os, used, os[k], k);
    var js := Candidates(al, os, used, os[k]);
    hide Candidates, Closest;
    var best := Closest(os, os[k].number, js).value;
    var i :| 0 <= i < |js| && js[i] == k;
    assert Distance(os[best].number, os[k].number) <= Distance(os[js[i]].number, os[k].number) == 0;
    assert os[best].number == os[k].number;
  }

  // --- the alignment on titles and numbers ---

  /** `x` is no farther from `n` than `y` is. */
  predicate NoFarther(x: int, y: int, n: int) {
    if y >= n then 2 * n - y <= x <= y else y <= x <= 2 * n - y
  }

  lemma DistanceExactly(x: nat, y: nat, n: nat)
    ensures Distance(x, n) <= Distance(y, n) <==> NoFarther(x, y, n)
  {
  }

  lemma {:induction false} IndicesIncrease(al: Alphabet, ns: seq<Section>, key: string, k: nat)
    requires k <= |ns|
    ensures Increases(Indices(al, ns, key, k))
  {
    hide Key;
    if k == 0 {
    } else {
      IndicesIncrease(al, ns, key, k - 1);
    }
  }

  lemma {:induction false} UnusedIncrease(js: seq<nat>, used: set<nat>)
    requires Increases(js)
    ensures Increases(Unused(js, used)) && forall x :: x in Unused(js, used) ==> x in js
  {
    if js == [] {
    } else {
      var t := js[..|js| - 1];
      UnusedIncrease(t, used);
      forall x | x in Unused(t, used) ensures x < js[|js| - 1] {
        LastIsMost(js, x);
        assert x in t;
        var i :| 0 <= i < |t| && t[i] == x;
      }
      assert forall i :: 0 <= i < |Unused(t, used)| ==> Unused(t, used)[i] in Unused(t, used);
    }
  }

  /** Of candidates equally near the first is taken. */
  lemma {:induction false} ClosestFirst(ns: seq<Section>, number: nat, js: seq<nat>, i: nat)
    requires Increases(js) && i < |js| && forall k :: 0 <= k < |js| ==> js[k] < |ns|
    requires Distance(ns[js[i]].number, number) <= Distance(ns[Closest(ns, number, js).value].number, number)
    ensures Closest(ns, number, js).value <= js[i]
  {
    var t, last := js[..|js| - 1], js[|js| - 1];
    hide Distance;
    if i < |t| {
      assert js[i] == t[i] < last;
      if Closest(ns, number, t).value == Closest(ns, number, js).value {
        ClosestFirst(ns, number, t, i);
      }
    } else if t != [] {
      ClosestAmong(ns, number, js);
      var r := Closest(ns, number, js).value;
      LastIsMost(js, r);
    }
  }

  /** The section chosen for an old one: of the new sections with the same normalised title that are not taken, one
      whose number is nearest, and of those the first; none only when there is none. */
  ghost predicate Chosen(al: Alphabet, ns: seq<Section>, taken: set<nat>, s: Section, r: Option<nat>) {
    if r.None? then forall j: nat :: !Open(al, ns, taken, s, j)
    else
      && Open(al, ns, taken, s, r.value)
      && forall j: nat :: Open(al, ns, taken, s, j) ==>
           NoFarther(ns[r.value].number, ns[j].number, s.number)
           && (NoFarther(ns[j].number, ns[r.value].number, s.number) ==> r.value <= j)
  }

  ghost predicate Open(al: Alphabet, ns: seq<Section>, taken: set<nat>, s: Section, j: nat) {
    j < |ns| && j !in taken && NormalizeForMatch(al, ns[j].title) == NormalizeForMatch(al, s.title)
  }

  lemma PartnerExactly(al: Alphabet, ns: seq<Section>, taken: set<nat>, s: Section)
    ensures Chosen(al, ns, taken, s, Partner(al, ns, taken, s))
  {
    var js, r := Candidates(al, ns, taken, s), Partner(al, ns, taken, s);
    IndicesIncrease(al, ns, Key(al, s), |ns|);
    UnusedIncrease(Indices(al, ns, Key(al, s), |ns|), taken);
    hide NormalizeForMatch, Candidates, Closest, Distance;
    forall j: nat | Open(al, ns, taken, s, j) ensures j in js {
      CandidatesComplete(al, ns, taken, s, j);
    }
    if r.Some? {
      forall j: nat | Open(al, ns, taken, s, j)
        ensures NoFarther(ns[r.value].number, ns[j].number, s.number)
        ensures NoFarther(ns[j].number, ns[r.value].number, s.number) ==> r.value <= j
      {
        var i :| 0 <= i < |js| && js[i] == j;
        DistanceExactly(ns[r.value].number, ns[j].number, s.number);
        DistanceExactly(ns[j].number, ns[r.value].number, s.number);
        if NoFarther(ns[j].number, ns[r.value].number, s.number) {
          ClosestFirst(ns, s.number, js, i);
        }
      }
    }
  }

  /** The alignment goes through the old sections in order and gives each the section chosen for it. */
  lemma AlignedExactly(al: Alphabet, os: seq<Section>, ns: seq<Section>, i: nat) returns (r: Option<nat>)
    requires i < |os|
    ensures Aligned(al, os, ns, 0) == []
    ensures var es := Aligned(al, os, ns, i);
            && Chosen(al, ns, set e | e in es :: e.right, os[i], r)
            && Aligned(al, os, ns, i + 1) == if r.Some? then es + [Edge(i, r.value)] else es
  {
    var es := Aligned(al, os, ns, i);
    r := Partner(al, ns, Rights(es), os[i]);
    PartnerExactly(al, ns, Rights(es), os[i]);
    RightsAreTaken(es);
    hide Chosen, Partner, Rights;
  }

  lemma {:induction false} RightsAreTaken(es: seq<Edge>)
    ensures Rights(es) == set e | e in es :: e.right
  {
    if es == [] {
    } else {
      var t, last := es[..|es| - 1], es[|es| - 1];
      assert es == t + [last];
      RightsAreTaken(t);
      assert (set e | e in es :: e.right) == (set e | e in t :: e.right) + {last.right};
    }
  }
}
