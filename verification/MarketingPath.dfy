/** Which marketing page a path means (src/site-announcements/site-announcement-rules.ts:63-91):
    the chain of string replacements, against the list of path segments it stands for. */
module MarketingPath {
  import opened Prelude

  // ------------------------------------------------------------------ the source's strings

  predicate Ends(c: char) { c == '?' || c == '#' }

  /** `raw.split(/[?#]/)[0]`. */
  function Cut(s: string): (r: string)
    ensures r <= s && forall c :: c in r ==> !Ends(c)
    ensures |r| == |s| || Ends(s[|r|])
  {
    if s == "" || Ends(s[0]) then "" else [s[0]] + Cut(s[1..])
  }

  /** `path.replace(/\/{2,}/g, '/')`. */
  function Collapse(s: string): string {
    if |s| < 2 then s
    else if s[0] == '/' && s[1] == '/' then Collapse(s[1..])
    else [s[0]] + Collapse(s[1..])
  }

  /** `path.replace(/^\/(?:ar|en)(?=\/|$)/, '')`. */
  function StripLocale(s: string): string {
    if ("/ar" <= s || "/en" <= s) && (|s| == 3 || s[3] == '/') then s[3..] else s
  }

  /** `path.replace(/\/+$/, '')`. */
  function StripTrailing(s: string): string {
    if s != "" && s[|s| - 1] == '/' then StripTrailing(s[..|s| - 1]) else s
  }

  /** `normalizeMarketingPath`; `normal` is trim-and-lowercase. */
  function Normalize(normal: string -> string, raw: Option<string>): string {
    if raw.None? || raw.value == "" then "/"
    else
      var cut := normal(Cut(raw.value));
      var rooted := if "/" <= cut then cut else "/" + cut;
      Finish(rooted)
  }

  /** The replacements, on a path that starts with a slash. */
  function Finish(rooted: string): string {
    var unprefixed := StripLocale(Collapse(rooted));
    var stripped := if |unprefixed| > 1 then StripTrailing(unprefixed) else unprefixed;
    if stripped == "" then "/" else stripped
  }

  predicate MatchesPrefix(prefix: string, path: string) {
    if prefix == "/" then path == "/" else path == prefix || prefix + "/" <= path
  }

  /** `matchesPage`. */
  predicate MatchesPage(pages: seq<string>, path: string) {
    pages == [] || exists i :: 0 <= i < |pages| && MatchesPrefix(pages[i], path)
  }

  // ------------------------------------------------------------------ segments

  predicate NoSlash(s: string) { '/' !in s }

  predicate Rooted(s: string) { s == "" || s[0] == '/' }

  predicate Plain(segments: seq<string>) {
    forall i :: 0 <= i < |segments| ==> NoSlash(segments[i])
  }

  /** Segments as they occur in a page's address. */
  predicate Proper(segments: seq<string>) {
    Plain(segments) && forall i :: 0 <= i < |segments| ==> segments[i] != ""
  }

  function Join(segments: seq<string>): (r: string)
    ensures Rooted(r)
  {
    if segments == [] then "" else "/" + segments[0] + Join(segments[1..])
  }

  function PathOf(segments: seq<string>): string {
    if segments == [] then "/" else Join(segments)
  }

  function Head(s: string): (r: string)
    ensures r <= s && NoSlash(r)
    ensures |r| == |s| || s[|r|] == '/'
  {
    if s == "" || s[0] == '/' then "" else [s[0]] + Head(s[1..])
  }

  function Split(s: string): seq<string>
    requires Rooted(s)
    decreases |s|
  {
    if s == "" then [] else [Head(s[1..])] + Split(s[1 + |Head(s[1..])|..])
  }

  function NonEmpty(segments: seq<string>): seq<string> {
    if segments == [] then []
    else (if segments[0] == "" then [] else [segments[0]]) + NonEmpty(segments[1..])
  }

  predicate IsLocale(s: string) { s == "ar" || s == "en" }

  function DropLocale(segments: seq<string>): seq<string> {
    if segments != [] && IsLocale(segments[0]) then segments[1..] else segments
  }

  /** The reference reading of a visitor's path: cut the query and fragment, take the segments
      that are not empty, drop a leading locale. */
  function SegmentsOf(normal: string -> string, raw: Option<string>): seq<string> {
    if raw.None? || raw.value == "" then []
    else
      var cut := normal(Cut(raw.value));
      DropLocale(NonEmpty(Split(if "/" <= cut then cut else "/" + cut)))
  }

  // ------------------------------------------------------------------ strings and segments

  lemma {:induction false} HeadOfJoin(x: string, u: string)
    requires NoSlash(x) && Rooted(u)
    ensures Head(x + u) == x
    decreases |x|
  {
    if x == "" {
      assert x + u == u;
    } else {
      assert (x + u)[1..] == x[1..] + u;
      HeadOfJoin(x[1..], u);
    }
  }

  lemma JoinCons(x: string, rest: seq<string>)
    ensures Join([x] + rest) == "/" + x + Join(rest)
    ensures NoSlash(x) && Plain(rest) ==> Plain([x] + rest)
  {
    assert ([x] + rest)[1..] == rest;
  }

  lemma SplitNothing()
    ensures Split("") == [] && Plain([]) && Join([]) == ""
  {
  }

  lemma {:induction false} SplitIsPlain(s: string)
    requires Rooted(s)
    ensures Plain(Split(s)) && Join(Split(s)) == s
    decreases |s|
  {
    hide Head, Join, Plain, NoSlash;
    if s == "" {
      SplitNothing();
    } else {
      hide Split;
      var x, u := SplitStep(s);
      assert |u| < |s|;
      SplitIsPlain(u);
      JoinCons(x, Split(u));
      assert s == "/" + x + u;
    }
  }

  lemma {:induction false} NonEmptyIsProper(segments: seq<string>)
    requires Plain(segments)
    ensures Proper(NonEmpty(segments))
    decreases |segments|
  {
    if segments != [] {
      NonEmptyIsProper(segments[1..]);
    }
  }

  lemma {:induction false} JoinConcat(s: seq<string>, t: seq<string>)
    ensures Join(s + t) == Join(s) + Join(t)
    decreases |s|
  {
    if s == [] {
      assert s + t == t;
    } else {
      assert (s + t)[1..] == s[1..] + t;
      JoinConcat(s[1..], t);
    }
  }

  lemma HeadDecides(x: string, u: string, y: string, v: string)
    requires NoSlash(x) && NoSlash(y) && Rooted(u) && Rooted(v) && x + u == y + v
    ensures x == y && u == v
  {
    HeadOfJoin(x, u);
    HeadOfJoin(y, v);
    assert (x + u)[|x|..] == u && (y + v)[|y|..] == v;
  }

  /** What follows a joined list up to a slash or the end continues it segment by segment. */
  lemma {:induction false} JoinPrefix(s: seq<string>, t: seq<string>, rest: string)
    requires Plain(s) && Plain(t) && Rooted(rest) && Join(t) == Join(s) + rest
    ensures s <= t
    decreases |s|
  {
    if s != [] {
      assert t != [] by {
        assert |Join(s)| > 0;
      }
      var u, v := Join(s[1..]) + rest, Join(t[1..]);
      JoinStep(s, rest);
      JoinStep(t, "");
      assert Join(t) + "" == Join(t) && v + "" == v;
      hide Join, Head;
      assert ("/" + (s[0] + u))[1..] == s[0] + u && ("/" + (t[0] + v))[1..] == t[0] + v;
      HeadDecides(s[0], u, t[0], v);
      JoinPrefix(s[1..], t[1..], rest);
      assert s == [s[0]] + s[1..] && t == [t[0]] + t[1..];
    }
  }

  lemma JoinStep(s: seq<string>, rest: string)
    requires s != [] && Rooted(rest)
    ensures Join(s) + rest == "/" + (s[0] + (Join(s[1..]) + rest))
    ensures Rooted(Join(s[1..]) + rest)
  {
  }

  lemma JoinInjective(s: seq<string>, t: seq<string>)
    requires Plain(s) && Plain(t) && Join(s) == Join(t)
    ensures s == t
  {
    JoinPrefix(s, t, "");
    JoinPrefix(t, s, "");
  }

  // ------------------------------------------------------------------ matching a page

  /** Matching strings is matching segments: a prefix covers its page and what sits under it
      (`/blog` covers `/blog/a-post`, not `/blogger`), and `/` covers the home page only. */
  lemma {:induction false} MatchesIsSegmentPrefix(s: seq<string>, t: seq<string>)
    requires Proper(s) && Proper(t)
    ensures MatchesPrefix(PathOf(s), PathOf(t)) <==> if s == [] then t == [] else s <= t
  {
    LongerThanSlash(s);
    LongerThanSlash(t);
    if s != [] {
      var p, q := Join(s), PathOf(t);
      if q == p {
        JoinInjective(s, t);
      } else if p + "/" <= q {
        assert t != [];
        assert q == p + q[|p|..];
        JoinPrefix(s, t, q[|p|..]);
      }
      if s <= t {
        var rest := t[|s|..];
        assert t == s + rest;
        JoinConcat(s, rest);
        if rest != [] {
          assert Join(rest)[0] == '/';
          assert q[..|p| + 1] == p + "/";
        } else {
          assert t == s;
        }
      }
    }
  }

  lemma {:induction false} LongerThanSlash(s: seq<string>)
    requires Proper(s)
    ensures s != [] ==> |Join(s)| >= 2 && Join(s) != "/" && Join(s)[|Join(s)| - 1] != '/'
    decreases |s|
  {
    if s != [] {
      var last := s[0][|s[0]| - 1];
      assert last in s[0];
      LongerThanSlash(s[1..]);
    }
  }

  // ------------------------------------------------------------------ normalising a path

  lemma CollapseKeeps(c: char, s: string)
    requires c != '/'
    ensures Collapse([c] + s) == [c] + Collapse(s)
  {
    assert ([c] + s)[1..] == s;
  }

  lemma {:induction false} CollapseSkips(x: string, u: string)
    requires NoSlash(x)
    ensures Collapse(x + u) == x + Collapse(u)
    decreases |x|
  {
    if x == "" {
      assert x + u == u;
    } else {
      CollapseSkips(x[1..], u);
      assert x[0] in x;
      CollapseKeeps(x[0], x[1..] + u);
      hide Collapse;
      assert x + u == [x[0]] + (x[1..] + u);
      assert x + Collapse(u) == [x[0]] + (x[1..] + Collapse(u));
    }
  }

  function Slash(s: string): (r: string)
    ensures r == "" || r == "/"
  {
    if s != "" && s[|s| - 1] == '/' then "/" else ""
  }

  lemma CollapseSlash(s: string)
    requires Rooted(s)
    ensures Collapse("/" + s) == if s == "" then "/" else Collapse(s)
  {
    assert ("/" + s)[1..] == s;
  }

  lemma SlashOf(s: string, x: string, u: string)
    requires s == "/" + (x + u)
    ensures u != "" ==> Slash(s) == Slash(u)
    ensures u == "" && x == "" ==> Slash(s) == "/"
    ensures u == "" && x != "" && NoSlash(x) ==> Slash(s) == ""
  {
    if u != "" {
      assert s[|s| - 1] == u[|u| - 1];
    } else if x != "" {
      assert s[|s| - 1] == x[|x| - 1] && x[|x| - 1] in x;
    }
  }

  lemma SplitStep(s: string) returns (x: string, u: string)
    requires Rooted(s) && s != ""
    ensures s == "/" + (x + u) && NoSlash(x) && Rooted(u) && Split(s) == [x] + Split(u)
  {
    x := Head(s[1..]);
    u := s[1 + |x|..];
  }

  lemma NonEmptyStep(x: string, rest: seq<string>)
    ensures Join(NonEmpty([x] + rest)) == if x == "" then Join(NonEmpty(rest)) else "/" + x + Join(NonEmpty(rest))
  {
    assert ([x] + rest)[1..] == rest;
    if x == "" {
      assert [] + NonEmpty(rest) == NonEmpty(rest);
    } else {
      assert ([x] + NonEmpty(rest))[1..] == NonEmpty(rest);
    }
  }

  /** Collapsing slashes drops exactly the empty segments, but for a slash at the end. */
  lemma {:induction false} CollapseDropsEmpty(s: string)
    requires Rooted(s) && s != ""
    ensures Collapse(s) == Join(NonEmpty(Split(s))) + Slash(s)
    decreases |s|
  {
    hide Collapse, Join, NonEmpty, Split, Slash, Head, NoSlash;
    var x, u := SplitStep(s);
    SlashOf(s, x, u);
    NonEmptyStep(x, Split(u));
    CollapseStep(x, u);
    if u == "" {
      CollapseEmpty();
      assert x + u == x;
      assert "/" + x + "" + "" == "/" + x;
      assert "" + "/" == "/";
    } else {
      CollapseDropsEmpty(u);
      var left := Join(NonEmpty(Split(u)));
      assert "/" + x + (left + Slash(u)) == "/" + x + left + Slash(u);
    }
  }

  lemma CollapseEmpty()
    ensures Split("") == [] && NonEmpty([]) == [] && Join([]) == "" && Collapse("") == ""
  {
  }

  lemma CollapseStep(x: string, u: string)
    requires NoSlash(x) && Rooted(u)
    ensures Collapse("/" + (x + u)) == if x != "" then "/" + x + Collapse(u) else if u == "" then "/" else Collapse(u)
  {
    if x == "" {
      assert x + u == u;
      CollapseSlash(u);
    } else {
      assert x[0] in x;
      hide Collapse;
      CollapseOpens(x, u);
      CollapseSkips(x, u);
      assert "/" + (x + Collapse(u)) == "/" + x + Collapse(u);
    }
  }

  lemma CollapseOpens(x: string, u: string)
    requires x != "" && x[0] != '/'
    ensures Collapse("/" + (x + u)) == "/" + Collapse(x + u)
  {
    assert ("/" + (x + u))[1..] == x + u;
  }

  lemma LocaleIsHead(s: string, x: string, u: string)
    requires s == "/" + (x + u) && NoSlash(x) && Rooted(u)
    ensures StripLocale(s) == if IsLocale(x) then u else s
  {
    assert s[1..] == x + u;
    if IsLocale(x) {
      assert s[..3] == "/" + x;
      assert s[3..] == u;
    }
    if ("/ar" <= s || "/en" <= s) && (|s| == 3 || s[3] == '/') {
      var locale := if "/ar" <= s then "ar" else "en";
      assert s[..3] == "/" + locale;
      assert s[1..] == locale + s[3..];
      HeadDecides(locale, s[3..], x, u);
    }
  }

  lemma {:induction false} StripsTheLocale(segments: seq<string>, tail: string)
    requires Proper(segments) && (tail == "" || tail == "/")
    ensures StripLocale(Join(segments) + tail) == Join(DropLocale(segments)) + tail
  {
    if segments != [] {
      JoinStep(segments, tail);
      LocaleIsHead(Join(segments) + tail, segments[0], Join(segments[1..]) + tail);
    } else {
      assert Join(segments) + tail == tail;
    }
  }

  lemma StripsTheSlash(segments: seq<string>, tail: string)
    requires Proper(segments) && segments != [] && (tail == "" || tail == "/")
    ensures StripTrailing(Join(segments) + tail) == Join(segments)
  {
    LongerThanSlash(segments);
    var p := Join(segments);
    assert (p + "/")[..|p|] == p;
    assert p + "" == p;
  }

  /** The replacements compute the segments: a normalised path is the path of the visitor's
      segments without the empty ones and without the locale. */
  lemma {:induction false} NormalizeIsSegments(normal: string -> string, raw: Option<string>)
    ensures Proper(SegmentsOf(normal, raw))
    ensures Normalize(normal, raw) == PathOf(SegmentsOf(normal, raw))
  {
    if raw.Some? && raw.value != "" {
      var cut := normal(Cut(raw.value));
      var rooted := if "/" <= cut then cut else "/" + cut;
      NormalizeRooted(rooted);
    }
  }

  lemma {:induction false} NormalizeRooted(rooted: string)
    requires Rooted(rooted) && rooted != ""
    ensures var segments := DropLocale(NonEmpty(Split(rooted)));
            Proper(segments) && PathOf(segments) == Finish(rooted)
  {
    SplitIsPlain(rooted);
    NonEmptyIsProper(Split(rooted));
    CollapseDropsEmpty(rooted);
    var segments, tail := NonEmpty(Split(rooted)), Slash(rooted);
    StripsTheLocale(segments, tail);
    var left := DropLocale(segments);
    LongerThanSlash(left);
    if left != [] {
      StripsTheSlash(left, tail);
    } else {
      assert Join(left) + tail == tail;
    }
    hide Split, NonEmpty, Collapse, StripLocale, StripTrailing, Join, Slash;
  }

  /** `normalizeMarketingPath`, rewriting `path` step by step. */
  method NormalizeMarketingPath(normal: string -> string, raw: Option<string>) returns (path: string)
    ensures path == PathOf(SegmentsOf(normal, raw))
  {
    NormalizeIsSegments(normal, raw);
    if raw.None? || raw.value == "" {
      return "/";
    }
    path := normal(Cut(raw.value));
    if !("/" <= path) {
      path := "/" + path;
    }
    path := Collapse(path);
    path := StripLocale(path);
    if |path| > 1 {
      path := StripTrailing(path);
    }
    if path == "" {
      path := "/";
    }
  }

  /** Which pages an announcement shows on, in segments. */
  lemma {:induction false} PagesOf(normal: string -> string, raw: Option<string>, pages: seq<seq<string>>)
    requires forall i :: 0 <= i < |pages| ==> Proper(pages[i])
    ensures var here := SegmentsOf(normal, raw);
            MatchesPage(seq(|pages|, i requires 0 <= i < |pages| => PathOf(pages[i])), Normalize(normal, raw))
            <==> pages == []
                 || exists i :: 0 <= i < |pages| && if pages[i] == [] then here == [] else pages[i] <= here
  {
    NormalizeIsSegments(normal, raw);
    var here := SegmentsOf(normal, raw);
    var paths := seq(|pages|, i requires 0 <= i < |pages| => PathOf(pages[i]));
    forall i | 0 <= i < |pages|
      ensures MatchesPrefix(paths[i], PathOf(here)) <==> if pages[i] == [] then here == [] else pages[i] <= here
    {
      MatchesIsSegmentPrefix(pages[i], here);
    }
    hide MatchesPrefix, Normalize, SegmentsOf, PathOf;
    assert |paths| == |pages|;
  }

  /** Everything from the first `?` or `#` on is ignored, and nothing before it is. */
  lemma QueryIgnored(normal: string -> string, path: string, sign: char, rest: string)
    requires path != "" && '?' !in path && '#' !in path && (sign == '?' || sign == '#')
    ensures Normalize(normal, Some(path + [sign] + rest)) == Normalize(normal, Some(path))
    ensures Normalize(normal, Some(path)) == Finish(if "/" <= normal(path) then normal(path) else "/" + normal(path))
  {
    CutAt(path, []);
    CutAt(path, [sign] + rest);
    assert path + [] == path && path + [sign] + rest == path + ([sign] + rest);
  }

  lemma {:induction false} CutAt(path: string, tail: string)
    requires '?' !in path && '#' !in path && (tail == "" || tail[0] == '?' || tail[0] == '#')
    ensures Cut(path + tail) == path
    decreases |path|
  {
    if path == "" {
      assert path + tail == tail;
    } else {
      assert (path + tail)[1..] == path[1..] + tail;
      CutAt(path[1..], tail);
    }
  }

  lemma NormalizeAgain(normal: string -> string, raw: Option<string>)
    requires var once := Normalize(normal, raw); normal(Cut(once)) == once
    ensures var here := SegmentsOf(normal, raw);
            Normalize(normal, Some(Normalize(normal, raw))) == Normalize(normal, raw)
            <==> here == [] || !IsLocale(here[0])
  {
    NormalizeIsSegments(normal, raw);
    var here, once := SegmentsOf(normal, raw), Normalize(normal, raw);
    NormalizeIsSegments(normal, Some(once));
    LongerThanSlash(here);
    SplitIsPlain(once);
    if here == [] {
      assert Split("/") == [""] + Split("");
      assert NonEmpty(Split("/")) == [];
    } else {
      JoinInjective(Split(once), here);
      ProperIsNonEmpty(here);
      assert SegmentsOf(normal, Some(once)) == DropLocale(here);
      if PathOf(DropLocale(here)) == PathOf(here) {
        PathInjective(DropLocale(here), here);
      }
    }
  }

  lemma PathInjective(s: seq<string>, t: seq<string>)
    requires Proper(s) && Proper(t) && PathOf(s) == PathOf(t)
    ensures s == t
  {
    LongerThanSlash(s);
    LongerThanSlash(t);
    if s != [] && t != [] {
      JoinInjective(s, t);
    }
  }

  lemma {:induction false} ProperIsNonEmpty(segments: seq<string>)
    requires Proper(segments)
    ensures NonEmpty(segments) == segments
    decreases |segments|
  {
    if segments != [] {
      ProperIsNonEmpty(segments[1..]);
      assert segments == [segments[0]] + segments[1..];
    }
  }

  // ------------------------------------------------------------------ normalising again

  function TrimStart(isSpace: char -> bool, s: string): string {
    if s != "" && isSpace(s[0]) then TrimStart(isSpace, s[1..]) else s
  }

  function TrimEnd(isSpace: char -> bool, s: string): (r: string)
    ensures r <= s && (r == "" || !isSpace(r[|r| - 1]))
    ensures r == s <==> !EndsInSpace(isSpace, s)
  {
    if EndsInSpace(isSpace, s) then TrimEnd(isSpace, s[..|s| - 1]) else s
  }

  predicate EndsInSpace(isSpace: char -> bool, s: string) { s != "" && isSpace(s[|s| - 1]) }

  function Trim(isSpace: char -> bool, s: string): string { TrimEnd(isSpace, TrimStart(isSpace, s)) }

  /** What `trim().toLowerCase()` satisfies: it gives text in lower case, brings in no `?` or
      `#`, and of text in lower case it only trims the white space. */
  ghost predicate TrimsAndLowers(normal: string -> string, isSpace: char -> bool, isLower: char -> bool) {
    && !isSpace('/') && isLower('/')
    && (forall s, c :: c in normal(s) ==> isLower(c))
    && (forall s, c :: c in normal(s) && Ends(c) ==> c in s)
    && (forall s :: (forall c :: c in s ==> isLower(c)) ==> normal(s) == Trim(isSpace, s))
  }

  lemma {:induction false} CollapseChars(s: string)
    ensures |Collapse(s)| <= |s| && forall c :: c in Collapse(s) ==> c in s
    decreases |s|
  {
    if |s| >= 2 {
      CollapseChars(s[1..]);
      assert forall c :: c in s[1..] ==> c in s;
    }
  }

  lemma {:induction false} StripTrailingChars(s: string)
    ensures StripTrailing(s) <= s
    decreases |s|
  {
    if s != "" && s[|s| - 1] == '/' {
      StripTrailingChars(s[..|s| - 1]);
    }
  }

  lemma FinishChars(rooted: string)
    requires Rooted(rooted) && rooted != ""
    ensures Finish(rooted) != "" && Finish(rooted)[0] == '/' && |Finish(rooted)| <= |rooted|
    ensures forall c :: c in Finish(rooted) ==> c == '/' || c in rooted
  {
    NormalizeRooted(rooted);
    RootedPath(DropLocale(NonEmpty(Split(rooted))));
    hide PathOf, DropLocale, NonEmpty, Split;
    CollapseChars(rooted);
    StripTrailingChars(StripLocale(Collapse(rooted)));
    hide Collapse, StripTrailing;
  }

  lemma NormalizeChars(normal: string -> string, raw: Option<string>)
    requires raw.Some? && raw.value != ""
    ensures var cut, once := normal(Cut(raw.value)), Normalize(normal, raw);
            && once != "" && once[0] == '/' && |once| <= (if "/" <= cut then |cut| else |cut| + 1)
            && forall c :: c in once ==> c == '/' || c in cut
  {
    var cut := normal(Cut(raw.value));
    FinishChars(if "/" <= cut then cut else "/" + cut);
    hide Finish;
  }

  lemma RootedPath(segments: seq<string>)
    ensures PathOf(segments) != "" && PathOf(segments)[0] == '/'
  {
  }

  lemma {:induction false} CutWhole(s: string)
    requires forall c :: c in s ==> !Ends(c)
    ensures Cut(s) == s
    decreases |s|
  {
    if s != "" {
      assert s[0] in s;
      CutWhole(s[1..]);
    }
  }

  /** What the first pass gives is read again as it is, but for white space at its end. */
  lemma {:induction false} ReadAgain(normal: string -> string, isSpace: char -> bool, isLower: char -> bool, raw: Option<string>)
    requires TrimsAndLowers(normal, isSpace, isLower)
    ensures var once := Normalize(normal, raw);
            && once != "" && once[0] == '/' && normal(Cut(once)) == TrimEnd(isSpace, once)
  {
    var once := Normalize(normal, raw);
    if raw.Some? && raw.value != "" {
      NormalizeChars(normal, raw);
    }
    forall c | c in once ensures isLower(c) && !Ends(c) {
      hide Normalize;
      if c != '/' {
        assert c in normal(Cut(raw.value));
      }
    }
    CutWhole(once);
    hide Normalize, Cut;
    assert TrimStart(isSpace, once) == once;
  }

  /** Normalising again changes nothing if and only if no locale is left in front and no white
      space at the end: `/ar/en/pricing` becomes `/en/pricing` and that `/pricing`; white space
      before a closing slash is not trimmed the first time. */
  lemma {:induction false} NormalizeTwice(normal: string -> string, isSpace: char -> bool, isLower: char -> bool, raw: Option<string>)
    requires TrimsAndLowers(normal, isSpace, isLower)
    ensures var here, once := SegmentsOf(normal, raw), Normalize(normal, raw);
            Normalize(normal, Some(once)) == once
            <==> (here == [] || !IsLocale(here[0])) && !EndsInSpace(isSpace, once)
  {
    var once := Normalize(normal, raw);
    ReadAgain(normal, isSpace, isLower, raw);
    if EndsInSpace(isSpace, once) {
      NormalizeChars(normal, Some(once));
      var t := TrimEnd(isSpace, once);
      hide Normalize, SegmentsOf;
      assert |t| < |once|;
      assert t == "" || "/" <= t;
      assert |once| >= 2;
    } else {
      NormalizeAgain(normal, raw);
    }
  }

  /** The inputs that show the white space: `/pricing /`, and so with any segment. */
  lemma SpaceBeforeSlash(normal: string -> string, isSpace: char -> bool, isLower: char -> bool, segment: string)
    requires TrimsAndLowers(normal, isSpace, isLower) && isSpace(' ') && isLower(' ')
    requires NoSlash(segment) && |segment| > 2 && !EndsInSpace(isSpace, segment)
    requires forall c :: c in segment ==> isLower(c) && !Ends(c)
    ensures Normalize(normal, Some("/" + segment + " /")) == "/" + segment + " "
    ensures Normalize(normal, Some("/" + segment + " ")) == "/" + segment
  {
    var s, t := "/" + segment + " /", "/" + segment + " ";
    assert s == "/" + ((segment + " ") + "/") && t == "/" + (segment + " ");
    CutWhole(s);
    CutWhole(t);
    TrimsTo(isSpace, s);
    assert TrimStart(isSpace, t) == t && t[..|t| - 1] == "/" + segment;
    assert TrimEnd(isSpace, t) == TrimEnd(isSpace, "/" + segment) == "/" + segment;
    hide Normalize, Cut, TrimStart, TrimEnd;
    NormalizesTo(normal, s, s, segment + " ", "/");
    assert "/" + segment == "/" + (segment + "");
    NormalizesTo(normal, t, "/" + segment, segment, "");
    assert "/" + (segment + " ") == "/" + segment + " ";
  }

  lemma TrimsTo(isSpace: char -> bool, s: string)
    requires s != "" && !isSpace(s[0]) && !isSpace(s[|s| - 1])
    ensures Trim(isSpace, s) == s
  {
  }

  lemma NormalizesTo(normal: string -> string, raw: string, read: string, segment: string, tail: string)
    requires raw != "" && normal(Cut(raw)) == read && read == "/" + (segment + tail)
    requires NoSlash(segment) && |segment| > 2 && (tail == "" || tail == "/")
    ensures Normalize(normal, Some(raw)) == "/" + segment
  {
    NormalizeIsSegments(normal, Some(raw));
    HeadOfJoin(segment, tail);
    assert read[1..] == segment + tail && read[1 + |segment|..] == tail;
    assert Split(read) == [segment] + Split(tail);
    OneSegment(segment, tail);
    hide Split, NonEmpty, Join, Normalize, Cut;
    assert DropLocale([segment]) == [segment];
  }

  lemma OneSegment(segment: string, tail: string)
    requires segment != "" && (tail == "" || tail == "/")
    ensures NonEmpty([segment] + Split(tail)) == [segment] && PathOf([segment]) == "/" + segment
  {
    assert Split(tail) == if tail == "" then [] else [""] by {
      assert "/"[1..] == "" && Head("") == "" && Split("") == [];
    }
    assert ([segment] + Split(tail))[1..] == Split(tail);
    assert NonEmpty([]) == [] && [""][1..] == [] && NonEmpty([""]) == [];
    assert Join([segment][1..]) == "";
    assert "/" + segment + "" == "/" + segment;
  }
}
