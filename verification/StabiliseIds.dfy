/** Renaming ids by first appearance (scripts/export-website-template-fixtures.ts:136-145).
    The JSON text is read as the tokens the source's regular expression cuts it into: a
    UUID, a `page-<n>` id, or the text in between. */
module StabiliseIds {
  import opened Prelude
  import opened Decimal

  datatype Token = Text(text: string) | PageId(id: string) | Uuid(id: string)

  /** An output token: text as it was, or the stable id `fx-<theme>-<page|item>-<n>`. */
  datatype Out = Plain(text: string) | Renamed(page: bool, n: nat)

  function Render(themeKey: string, o: Out): string {
    match o
    case Plain(text) => text
    case Renamed(page, n) => "fx-" + themeKey + (if page then "-page-" else "-item-") + ToDecimal(n)
  }

  /** The ids in order of first appearance. */
  function Ids(tokens: seq<Token>): seq<Token> {
    if tokens == [] then []
    else
      var before, last := Ids(tokens[..|tokens| - 1]), tokens[|tokens| - 1];
      if last.Text? then before else Add(before, last)
  }

  function Position(ids: seq<Token>, t: Token): (i: nat)
    requires t in ids
    ensures i < |ids| && ids[i] == t
  {
    if ids[|ids| - 1] == t then |ids| - 1 else Position(ids[..|ids| - 1], t)
  }

  lemma {:induction false} IdsAreTheIds(tokens: seq<Token>)
    ensures Distinct(Ids(tokens))
    ensures forall t :: t in Ids(tokens) <==> t in tokens && !t.Text?
    decreases |tokens|
  {
    if tokens != [] {
      var before, last := tokens[..|tokens| - 1], tokens[|tokens| - 1];
      IdsAreTheIds(before);
      assert forall t :: t in tokens <==> t in before || t == last;
    }
  }

  function OutOf(ids: seq<Token>, t: Token): Out
    requires t.Text? || t in ids
  {
    if t.Text? then Plain(t.text) else Renamed(t.PageId?, Position(ids, t) + 1)
  }

  function Stabilised(tokens: seq<Token>): seq<Out> {
    IdsAreTheIds(tokens);
    seq(|tokens|, i requires 0 <= i < |tokens| => OutOf(Ids(tokens), tokens[i]))
  }

  lemma PositionUnique(ids: seq<Token>, t: Token, i: nat)
    requires Distinct(ids) && i < |ids| && ids[i] == t
    ensures Position(ids, t) == i
  {
  }

  /** One more token keeps the ids already seen where they are. */
  lemma {:induction false} Grow(tokens: seq<Token>, t: Token)
    ensures Distinct(Ids(tokens))
    ensures Ids(tokens + [t]) == if t.Text? then Ids(tokens) else Add(Ids(tokens), t)
    ensures forall s :: s in Ids(tokens)
                        ==> s in Ids(tokens + [t]) && Position(Ids(tokens + [t]), s) == Position(Ids(tokens), s)
    ensures !t.Text? && t !in Ids(tokens)
            ==> t in Ids(tokens + [t]) && Position(Ids(tokens + [t]), t) == |Ids(tokens)|
  {
    var before, after := Ids(tokens), Ids(tokens + [t]);
    assert (tokens + [t])[..|tokens|] == tokens;
    IdsAreTheIds(tokens);
    IdsAreTheIds(tokens + [t]);
    forall s | s in before ensures s in after && Position(after, s) == Position(before, s) {
      PositionUnique(after, s, Position(before, s));
    }
    if !t.Text? && t !in before {
      PositionUnique(after, t, |before|);
    }
  }

  lemma {:induction false} GrowOutput(tokens: seq<Token>, t: Token)
    ensures t.Text? || t in Ids(tokens + [t])
    ensures Stabilised(tokens + [t]) == Stabilised(tokens) + [OutOf(Ids(tokens + [t]), t)]
  {
    Grow(tokens, t);
    IdsAreTheIds(tokens);
    IdsAreTheIds(tokens + [t]);
    hide Ids, Position;
    var more := tokens + [t];
    forall i | 0 <= i < |tokens| ensures Stabilised(more)[i] == Stabilised(tokens)[i] {
      assert more[i] == tokens[i];
    }
    assert more[|tokens|] == t;
  }

  /** The map once these ids have been seen: each with its output. */
  ghost predicate Holds(renamed: map<Token, Out>, ids: seq<Token>) {
    && renamed.Keys == Elements(ids)
    && (forall t :: t in renamed ==> !t.Text? && renamed[t] == OutOf(ids, t))
  }

  lemma KnownOutput(renamed: map<Token, Out>, ids: seq<Token>, t: Token)
    requires Holds(renamed, ids)
    ensures t in renamed <==> t in ids
    ensures t in renamed ==> renamed[t] == OutOf(ids, t)
  {
    assert t in renamed <==> t in Elements(ids);
  }

  lemma PositionGrows(ids: seq<Token>, t: Token, s: Token)
    requires Distinct(ids) && t !in ids && s in ids + [t]
    ensures Position(ids + [t], s) == if s == t then |ids| else Position(ids, s)
  {
    assert (ids + [t])[..|ids|] == ids;
  }

  lemma {:induction false} NewOutput(renamed: map<Token, Out>, ids: seq<Token>, t: Token)
    requires Holds(renamed, ids) && Distinct(ids) && !t.Text? && t !in ids
    ensures Renamed(t.PageId?, |renamed| + 1) == OutOf(ids + [t], t)
    ensures Holds(renamed[t := Renamed(t.PageId?, |renamed| + 1)], ids + [t])
  {
    hide Position, Distinct;
    OnePerId(renamed, ids);
    PositionGrows(ids, t, t);
    var more := renamed[t := Renamed(t.PageId?, |renamed| + 1)];
    assert Elements(ids + [t]) == Elements(ids) + {t};
    forall s | s in more ensures s in ids + [t] && !s.Text? && more[s] == OutOf(ids + [t], s) {
      KnownOutput(renamed, ids, s);
      if s != t {
        PositionGrows(ids, t, s);
      }
    }
  }

  /** The scan, with the `renamed` map. */
  method StabiliseTokens(tokens: seq<Token>) returns (out: seq<Out>)
    ensures out == Stabilised(tokens)
  {
    var renamed: map<Token, Out> := map[];
    out := [];
    EmptyScan();
    assert Holds(renamed, []);
    hide Stabilised, Ids, Position, Holds, Distinct, OutOf;
    for i := 0 to |tokens|
      invariant out == Stabilised(tokens[..i]) && Holds(renamed, Ids(tokens[..i]))
    {
      var t := tokens[i];
      ghost var ids := Ids(tokens[..i]);
      assert tokens[..i + 1] == tokens[..i] + [t];
      Grow(tokens[..i], t);
      GrowOutput(tokens[..i], t);
      KnownOutput(renamed, ids, t);
      if t.Text? {
        TextOutput(ids, t);
        out := out + [Plain(t.text)];
      } else {
        if t !in renamed {
          NewOutput(renamed, ids, t);
          renamed := renamed[t := Renamed(t.PageId?, |renamed| + 1)];
        }
        out := out + [renamed[t]];
      }
    }
    assert tokens[..|tokens|] == tokens;
  }

  lemma TextOutput(ids: seq<Token>, t: Token)
    requires t.Text?
    ensures OutOf(ids, t) == Plain(t.text)
  {
  }

  lemma OnePerId(renamed: map<Token, Out>, ids: seq<Token>)
    requires Distinct(ids) && renamed.Keys == Elements(ids)
    ensures |renamed| == |ids|
  {
    DistinctSize(ids);
    assert |renamed| == |renamed.Keys|;
  }

  lemma EmptyScan()
    ensures Ids([]) == [] && Stabilised([]) == []
  {
  }

  // ------------------------------------------------------------------ a canonical form

  /** `r` renames ids to ids, page ids to page ids and UUIDs to UUIDs, no two to the same. */
  ghost predicate IsRenaming(r: map<Token, Token>) {
    && (forall t :: t in r ==> !t.Text? && !r[t].Text? && r[t].PageId? == t.PageId?)
    && (forall s, t :: s in r && t in r && s != t ==> r[s] != r[t])
  }

  ghost predicate Renames(r: map<Token, Token>, a: seq<Token>, b: seq<Token>) {
    && IsRenaming(r) && |a| == |b|
    && forall i :: 0 <= i < |a| ==> if a[i].Text? then b[i] == a[i] else a[i] in r && b[i] == r[a[i]]
  }

  lemma {:induction false} RenamedIds(r: map<Token, Token>, a: seq<Token>, b: seq<Token>)
    requires Renames(r, a, b)
    ensures |Ids(a)| == |Ids(b)|
    ensures forall i :: 0 <= i < |Ids(a)| ==> Ids(a)[i] in r && Ids(b)[i] == r[Ids(a)[i]]
    decreases |a|
  {
    if a != [] {
      var n := |a| - 1;
      RenamedIds(r, a[..n], b[..n]);
      var before, before' := Ids(a[..n]), Ids(b[..n]);
      if !a[n].Text? {
        if a[n] in before {
          assert before'[Position(before, a[n])] == b[n];
        } else {
          forall i | 0 <= i < |before'| ensures before'[i] != b[n] {
            assert before[i] != a[n];
          }
        }
      }
    }
  }

  /** Two ids get the same stable id exactly when they are the same id. */
  lemma NeverCollapse(tokens: seq<Token>, i: nat, j: nat)
    requires i < |tokens| && j < |tokens|
    ensures Stabilised(tokens)[i] == Stabilised(tokens)[j] <==> tokens[i] == tokens[j]
  {
    IdsAreTheIds(tokens);
  }

  /** An injective renaming of the ids does not change the output. */
  lemma RenamingIsInvisible(r: map<Token, Token>, a: seq<Token>, b: seq<Token>)
    requires Renames(r, a, b)
    ensures Stabilised(a) == Stabilised(b)
  {
    RenamedIds(r, a, b);
    IdsAreTheIds(a);
    IdsAreTheIds(b);
    forall i | 0 <= i < |a| && !a[i].Text? ensures Position(Ids(b), b[i]) == Position(Ids(a), a[i]) {
      PositionUnique(Ids(b), b[i], Position(Ids(a), a[i]));
    }
  }

  lemma FewerIds(a: seq<Token>, b: seq<Token>)
    requires Stabilised(a) == Stabilised(b)
    ensures |Ids(a)| <= |Ids(b)|
  {
    IdsAreTheIds(a);
    IdsAreTheIds(b);
    if |Ids(a)| > 0 {
      hide Ids, Position;
      var last := |Ids(a)| - 1;
      var t := Ids(a)[last];
      assert t in Ids(a);
      assert t in a;
      var i :| 0 <= i < |a| && a[i] == t;
      PositionUnique(Ids(a), t, last);
      assert |a| == |Stabilised(a)| == |b|;
      assert OutOf(Ids(a), a[i]) == Stabilised(a)[i] == Stabilised(b)[i] == OutOf(Ids(b), b[i]);
    }
  }

  lemma {:induction false} SameOut(a: seq<Token>, b: seq<Token>, i: nat)
    requires Stabilised(a) == Stabilised(b) && i < |a|
    ensures |a| == |b|
    ensures a[i].Text? ==> b[i] == a[i]
    ensures !a[i].Text? ==> b[i].PageId? == a[i].PageId? && b[i].Uuid? == a[i].Uuid?
    ensures !a[i].Text? ==> a[i] in Ids(a) && b[i] in Ids(b) && Position(Ids(a), a[i]) == Position(Ids(b), b[i])
  {
    IdsAreTheIds(a);
    IdsAreTheIds(b);
    hide Ids, Position;
    assert |a| == |Stabilised(a)| == |b|;
    assert OutOf(Ids(a), a[i]) == Stabilised(a)[i] == Stabilised(b)[i] == OutOf(Ids(b), b[i]);
  }

  /** Each id of one document to the id the other one has first seen at the same place. */
  function Matching(ids: seq<Token>, ids': seq<Token>): map<Token, Token>
    requires |ids| == |ids'|
  {
    map t | t in ids :: ids'[Position(ids, t)]
  }

  lemma MatchingIsInjective(ids: seq<Token>, ids': seq<Token>)
    requires |ids| == |ids'| && Distinct(ids')
    ensures var r := Matching(ids, ids'); forall s, t :: s in r && t in r && s != t ==> r[s] != r[t]
  {
    var r := Matching(ids, ids');
    forall s, t | s in r && t in r && s != t ensures r[s] != r[t] {
      assert ids[Position(ids, s)] != ids[Position(ids, t)];
    }
  }

  lemma {:induction false} MatchingKeepsKinds(a: seq<Token>, b: seq<Token>, t: Token)
    requires Stabilised(a) == Stabilised(b) && |Ids(a)| == |Ids(b)| && t in Ids(a)
    ensures !t.Text? && !Matching(Ids(a), Ids(b))[t].Text? && Matching(Ids(a), Ids(b))[t].PageId? == t.PageId?
  {
    IdsAreTheIds(a);
    var i :| 0 <= i < |a| && a[i] == t;
    hide Ids, Position, Stabilised;
    SameOut(a, b, i);
  }

  /** Equal outputs come only from inputs that are renamings of each other. */
  lemma {:induction false} EqualOutputsAreRenamings(a: seq<Token>, b: seq<Token>) returns (r: map<Token, Token>)
    requires Stabilised(a) == Stabilised(b)
    ensures Renames(r, a, b)
  {
    FewerIds(a, b);
    FewerIds(b, a);
    IdsAreTheIds(a);
    IdsAreTheIds(b);
    assert |a| == |Stabilised(a)| == |b|;
    r := Matching(Ids(a), Ids(b));
    MatchingIsInjective(Ids(a), Ids(b));
    forall i | 0 <= i < |a| ensures if a[i].Text? then b[i] == a[i] else a[i] in r && b[i] == r[a[i]] {
      hide Ids, Position, Stabilised;
      SameOut(a, b, i);
    }
    forall t | t in r ensures !t.Text? && !r[t].Text? && r[t].PageId? == t.PageId? {
      hide Ids, Position, Stabilised;
      MatchingKeepsKinds(a, b, t);
    }
    hide Ids, Position, Stabilised, Matching;
  }

  /** `stabiliseIds` is a canonical form for the documents that differ only in their ids. */
  lemma CanonicalForm(a: seq<Token>, b: seq<Token>)
    ensures Stabilised(a) == Stabilised(b) <==> exists r :: Renames(r, a, b)
  {
    if Stabilised(a) == Stabilised(b) {
      var r := EqualOutputsAreRenamings(a, b);
    }
    if r :| Renames(r, a, b) {
      RenamingIsInvisible(r, a, b);
    }
  }

  /** But text is left as it is: text that already reads like a stable id cannot be told from one. */
  lemma TextLikeAnId(themeKey: string, uuid: string)
    ensures var text, ids := [Text("fx-" + themeKey + "-item-1")], [Uuid(uuid)];
            && Render(themeKey, Stabilised(text)[0]) == Render(themeKey, Stabilised(ids)[0])
            && !exists r :: Renames(r, text, ids)
  {
    var text, ids := [Text("fx-" + themeKey + "-item-1")], [Uuid(uuid)];
    assert text[0].Text? && ids[0] != text[0];
    assert ids[..0] == [];
    assert Ids(ids) == [Uuid(uuid)];
    assert Stabilised(ids)[0] == Renamed(false, 1);
    assert ToDecimal(1) == "1";
  }

  /** Stable ids tell pages from items, and different ones are different strings. */
  lemma RenderInjective(themeKey: string, a: Out, b: Out)
    requires a.Renamed? && b.Renamed?
    ensures "fx-" + themeKey + "-page-" <= Render(themeKey, a) <==> a.page
    ensures "fx-" + themeKey + "-item-" <= Render(themeKey, a) <==> !a.page
    ensures Render(themeKey, a) == Render(themeKey, b) <==> a == b
  {
    KindIsShown(themeKey, a);
    KindIsShown(themeKey, b);
    if Render(themeKey, a) == Render(themeKey, b) {
      var head := |"fx-" + themeKey| + 6;
      assert Render(themeKey, a)[head..] == ToDecimal(a.n) == ToDecimal(b.n);
      DecimalDigits(a.n);
      DecimalDigits(b.n);
    }
  }

  lemma KindIsShown(themeKey: string, o: Out)
    requires o.Renamed?
    ensures Render(themeKey, o)[..|"fx-" + themeKey| + 6] == "fx-" + themeKey + if o.page then "-page-" else "-item-"
    ensures "fx-" + themeKey + "-page-" != "fx-" + themeKey + "-item-"
  {
    assert ("fx-" + themeKey + "-page-")[|"fx-" + themeKey| + 1] == 'p';
    assert ("fx-" + themeKey + "-item-")[|"fx-" + themeKey| + 1] == 'i';
  }
}
