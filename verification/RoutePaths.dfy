/** Route ids, layout chains and served paths of route files (frontend/routeMapper.ts,
    strippedRoute, generatePath and the first half of generateRouteKeys). */
module RoutePaths {

  const ROUTES := "src/routes/"
  const SPLIT_SUFFIX := "?tsr-split=component"

  /** What "." in a regular expression does not match. */
  predicate IsLineBreak(c: char) {
    c == '\n' || c == '\r' || c == '\U{2028}' || c == '\U{2029}'
  }

  predicate OneLine(s: string) {
    forall c :: c in s ==> !IsLineBreak(c)
  }

  predicate EndsWith(s: string, t: string) {
    |t| <= |s| && s[|s| - |t|..] == t
  }

  predicate StartsAt(s: string, t: string, i: nat) {
    i + |t| <= |s| && s[i..i + |t|] == t
  }

  predicate Includes(s: string, t: string) {
    exists i: nat :: i <= |s| && StartsAt(s, t, i)
  }

  function DropSuffix(s: string, t: string): string {
    if EndsWith(s, t) then s[..|s| - |t|] else s
  }

  /** The greedy match of "^.*src/routes/": the last occurrence on the first line, looked for
      from position i downwards. */
  function DropRoutes(s: string, i: nat): string
    requires i <= |s|
  {
    if StartsAt(s, ROUTES, i) && OneLine(s[..i]) then s[i + |ROUTES|..]
    else if i == 0 then s
    else DropRoutes(s, i - 1)
  }

  function DotSlashes(s: string): (r: string)
    ensures '/' !in r && |r| == |s|
  {
    if s == "" then ""
    else [if s[0] == '/' then '.' else s[0]] + DotSlashes(s[1..])
  }

  function StrippedRoute(file: string): string {
    DotSlashes(DropSuffix(DropSuffix(DropRoutes(file, |file|), SPLIT_SUFFIX), ".tsx"))
  }

  /** An occurrence of "src/routes/" that the greedy match can end with. */
  predicate RoutesAt(s: string, k: int) {
    0 <= k <= |s| && StartsAt(s, ROUTES, k) && OneLine(s[..k])
  }

  /** What is dropped ends with the last such occurrence up to i, if there is one. */
  lemma {:induction false} DropRoutesCase(s: string, i: nat) returns (k: int)
    requires i <= |s|
    ensures -1 <= k <= i && forall j :: k < j <= i ==> !RoutesAt(s, j)
    ensures if k < 0 then DropRoutes(s, i) == s else RoutesAt(s, k) && DropRoutes(s, i) == s[k + |ROUTES|..]
    decreases i
  {
    if RoutesAt(s, i) {
      k := i;
    } else if i == 0 {
      k := -1;
    } else {
      k := DropRoutesCase(s, i - 1);
    }
  }

  /** How the names of route files end: with or without the mark of a split component. */
  predicate IsTail(tail: string) {
    tail == ".tsx" || tail == ".tsx" + SPLIT_SUFFIX
  }

  lemma DropTail(r: string, tail: string)
    requires IsTail(tail)
    ensures DropSuffix(DropSuffix(r + tail, SPLIT_SUFFIX), ".tsx") == r
  {
    DropOwnSuffix(r, ".tsx");
    if tail == ".tsx" {
      assert (r + ".tsx")[|r + ".tsx"| - 1] == 'x' && SPLIT_SUFFIX[|SPLIT_SUFFIX| - 1] == 't';
      assert !EndsWith(r + ".tsx", SPLIT_SUFFIX);
    } else {
      DropOwnSuffix(r + ".tsx", SPLIT_SUFFIX);
      assert r + tail == r + ".tsx" + SPLIT_SUFFIX;
    }
  }

  lemma DropOwnSuffix(s: string, t: string)
    ensures DropSuffix(s + t, t) == s
  {
    assert (s + t)[..|s|] == s && (s + t)[|s|..] == t;
  }

  lemma NoSlashInTail(tail: string)
    requires IsTail(tail)
    ensures '/' !in tail
  {
  }

  lemma RoutesChars(s: string, k: int)
    requires RoutesAt(s, k)
    ensures k + 10 < |s| && s[k] == 's' && s[k + 10] == '/'
  {
    assert s[k..k + |ROUTES|][0] == s[k] && s[k..k + |ROUTES|][10] == s[k + 10];
  }

  lemma NoSlashAfter(q: string, tail: string, k: int)
    requires '/' !in tail && |q| <= k < |q + tail|
    ensures (q + tail)[k] != '/'
  {
    assert (q + tail)[k] == tail[k - |q|] && tail[k - |q|] in tail;
  }

  /** A tail without slashes holds no part of "src/routes/". */
  lemma RoutesBeforeTail(q: string, tail: string, k: nat)
    requires '/' !in tail
    ensures RoutesAt(q + tail, k) <==> RoutesAt(q, k)
  {
    var s := q + tail;
    if RoutesAt(s, k) {
      RoutesChars(s, k);
      if k + 10 >= |q| {
        NoSlashAfter(q, tail, k + 10);
      }
      assert s[k..k + |ROUTES|] == q[k..k + |ROUTES|] && s[..k] == q[..k];
    }
    if RoutesAt(q, k) {
      assert s[k..k + |ROUTES|] == q[k..k + |ROUTES|] && s[..k] == q[..k];
    }
  }

  /** Where a route file's "src/routes/" is the one that counts: on the first line, and no later one
      there. */
  ghost predicate LastRoutes(dir: string, r: string) {
    && (forall c :: c in dir ==> c != '\n' && c != '\r' && c != '\U{2028}' && c != '\U{2029}')
    && forall k :: |dir| < k <= |dir + ROUTES + r| ==> !RoutesAt(dir + ROUTES + r, k)
  }

  lemma Stripped(dir: string, r: string, tail: string)
    requires IsTail(tail)
    ensures StrippedRoute(dir + ROUTES + r + tail) == DotSlashes(r) <==> LastRoutes(dir, r)
  {
    var q := dir + ROUTES + r;
    var s := q + tail;
    NoSlashInTail(tail);
    var k := DropRoutesCase(s, |s|);
    forall j: nat
      ensures RoutesAt(s, j) <==> RoutesAt(q, j)
    {
      RoutesBeforeTail(q, tail, j);
    }
    var c := if k < 0 then 0 else k + |ROUTES|;
    assert DropRoutes(s, |s|) == s[c..] == q[c..] + tail;
    DropTail(q[c..], tail);
    assert StrippedRoute(s) == DotSlashes(q[c..]);
    OwnRoutes(dir, r, q);
    if k == |dir| {
      assert q[c..] == r;
    }
  }

  /** The id of a code-split route file is its dotted path below "src/routes/" exactly when that is
      the last one on the first line of the name. */
  lemma StrippedRouteFile(dir: string, r: string)
    ensures StrippedRoute(dir + "src/routes/" + r + ".tsx?tsr-split=component") == DotSlashes(r) <==> LastRoutes(dir, r)
  {
    SplitTail();
    Stripped(dir, r, ".tsx" + SPLIT_SUFFIX);
  }

  /** The same for a file that is not split, as the root layout. */
  lemma StrippedPlainFile(dir: string, r: string)
    ensures StrippedRoute(dir + "src/routes/" + r + ".tsx") == DotSlashes(r) <==> LastRoutes(dir, r)
  {
    Stripped(dir, r, ".tsx");
  }

  lemma SplitTail()
    ensures ".tsx" + SPLIT_SUFFIX == ".tsx?tsr-split=component"
  {
  }

  lemma OwnRoutes(dir: string, r: string, s: string)
    requires s == dir + ROUTES + r
    ensures RoutesAt(s, |dir|) <==> OneLine(dir)
  {
    assert s[|dir|..|dir| + |ROUTES|] == ROUTES && s[..|dir|] == dir;
  }

  function Split(s: string, c: char): (r: seq<string>)
    ensures r != []
  {
    if s == "" then [""]
    else
      var rest := Split(s[1..], c);
      if s[0] == c then [""] + rest else [[s[0]] + rest[0]] + rest[1..]
  }

  function Join(ps: seq<string>, c: char): string {
    if ps == [] then ""
    else if |ps| == 1 then ps[0]
    else ps[0] + [c] + Join(ps[1..], c)
  }

  lemma {:induction false} JoinSplit(s: string, c: char)
    ensures Join(Split(s, c), c) == s
  {
    if s != "" {
      var rest := Split(s[1..], c);
      JoinSplit(s[1..], c);
      assert s == [s[0]] + s[1..];
      if s[0] == c {
        assert ([""] + rest)[1..] == rest;
      } else {
        assert ([[s[0]] + rest[0]] + rest[1..])[1..] == rest[1..];
      }
    }
  }

  lemma {:induction false} SplitChars(s: string, c: char, p: string)
    requires p in Split(s, c)
    ensures c !in p && forall d :: d in p ==> d in s
  {
    if s != "" {
      var rest := Split(s[1..], c);
      assert s == [s[0]] + s[1..];
      if p in rest {
        SplitChars(s[1..], c, p);
      } else if s[0] != c {
        SplitChars(s[1..], c, rest[0]);
      }
    }
  }

  lemma {:induction false} SplitAfter(p: string, s: string, c: char)
    requires c !in p
    ensures Split(p, c) == [p]
    ensures Split(p + [c] + s, c) == [p] + Split(s, c)
  {
    if p == "" {
      assert p + [c] + s == [c] + s;
    } else {
      SplitAfter(p[1..], s, c);
      assert (p + [c] + s)[1..] == p[1..] + [c] + s;
      assert p == [p[0]] + p[1..];
    }
  }

  lemma {:induction false} SplitJoin(ps: seq<string>, c: char)
    requires ps != [] && forall p :: p in ps ==> c !in p
    ensures Split(Join(ps, c), c) == ps
  {
    if |ps| == 1 {
      SplitAfter(ps[0], "", c);
    } else {
      SplitJoin(ps[1..], c);
      SplitAfter(ps[0], Join(ps[1..], c), c);
      assert ps == [ps[0]] + ps[1..];
    }
  }

  // ---------------------------------------------------------------- served paths

  /** What generatePath makes of a route id before it splits it. */
  function IdText(s: string): string {
    var t := if EndsWith(s, "index.html") && OneLine(s[..|s| - |"index.html"|]) then "index.html" else s;
    DropSuffix(t, ".html")
  }

  function RouteText(file: string): string {
    IdText(StrippedRoute(file))
  }

  function Kept(segments: seq<string>): seq<string> {
    if segments == [] then []
    else (if segments[0] == "index" then [] else [segments[0]]) + Kept(segments[1..])
  }

  function KeptSegments(file: string): seq<string> {
    Kept(Split(RouteText(file), '.'))
  }

  function PathSegment(segment: string): string {
    if segment == "$" then "{rest...}"
    else if segment != "" && segment[0] == '$' then "{" + segment[1..] + "}"
    else segment
  }

  function PathSegments(kept: seq<string>): (r: seq<string>)
    ensures |r| == |kept| && forall i :: 0 <= i < |r| ==> r[i] == PathSegment(kept[i])
  {
    if kept == [] then [] else [PathSegment(kept[0])] + PathSegments(kept[1..])
  }

  function PathOf(file: string): string {
    "/" + Join(PathSegments(KeptSegments(file)), '/')
  }

  lemma {:induction false} KeptConcat(a: seq<string>, b: seq<string>)
    ensures Kept(a + b) == Kept(a) + Kept(b)
  {
    if a == [] {
      assert a + b == b;
    } else {
      assert (a + b)[1..] == a[1..] + b;
      KeptConcat(a[1..], b);
    }
  }

  lemma KeepNext(segments: seq<string>, i: nat)
    requires i < |segments|
    ensures PathSegments(Kept(segments[..i + 1])) ==
      PathSegments(Kept(segments[..i])) + if segments[i] == "index" then [] else [PathSegment(segments[i])]
  {
    assert segments[..i + 1] == segments[..i] + [segments[i]];
    KeptConcat(segments[..i], [segments[i]]);
    assert Kept([segments[i]]) == if segments[i] == "index" then [] else [segments[i]];
  }

  method GeneratePath(file: string) returns (path: string)
    ensures path == PathOf(file)
  {
    var segments := Split(RouteText(file), '.');
    var pathSegments: seq<string> := [];
    for i := 0 to |segments|
      invariant pathSegments == PathSegments(Kept(segments[..i]))
    {
      var segment := segments[i];
      KeepNext(segments, i);
      if segment == "index" { continue; }
      if segment == "$" {
        pathSegments := pathSegments + ["{rest...}"];
        continue;
      }
      if segment != "" && segment[0] == '$' {
        pathSegments := pathSegments + ["{" + segment[1..] + "}"];
        continue;
      }
      pathSegments := pathSegments + [segment];
    }
    assert segments[..|segments|] == segments;
    path := "/" + Join(pathSegments, '/');
  }

  /** The only two spellings of one path segment: a parameter written with a dollar sign and
      the same parameter written out in braces. */
  predicate Twins(a: string, b: string) {
    |a| >= 2 && a[0] == '$' && b == "{" + a[1..] + "}"
  }

  predicate SameSegment(a: string, b: string) {
    a == b || Twins(a, b) || Twins(b, a)
  }

  /** Nothing to tell apart: no segment at all, or a single empty one. */
  predicate Blank(a: seq<string>) {
    a == [] || a == [""]
  }

  predicate SameShape(a: seq<string>, b: seq<string>) {
    || (|a| == |b| && forall i :: 0 <= i < |a| ==> SameSegment(a[i], b[i]))
    || (Blank(a) && Blank(b))
  }

  ghost predicate PlainSegments(a: seq<string>) {
    forall p :: p in a ==> '.' !in p && '/' !in p
  }

  lemma {:induction false} KeptMembers(segments: seq<string>)
    ensures forall p :: p in Kept(segments) <==> p in segments && p != "index"
  {
    if segments != [] {
      KeptMembers(segments[1..]);
      assert segments == [segments[0]] + segments[1..];
    }
  }

  lemma KeptPlain(file: string)
    ensures PlainSegments(KeptSegments(file))
  {
    KeptMembers(Split(RouteText(file), '.'));
    assert forall d :: d in RouteText(file) ==> d in StrippedRoute(file) || d in "index.html";
    forall p | p in KeptSegments(file)
      ensures '.' !in p && '/' !in p
    {
      SplitChars(RouteText(file), '.', p);
    }
  }

  lemma SegmentsCollide(a: string, b: string)
    requires '.' !in a && '.' !in b
    ensures PathSegment(a) == PathSegment(b) <==> SameSegment(a, b)
  {
  }

  lemma JoinInjective(a: seq<string>, b: seq<string>)
    requires forall p :: p in a || p in b ==> '/' !in p
    ensures Join(a, '/') == Join(b, '/') <==> a == b || (Blank(a) && Blank(b))
  {
    if a != [] { SplitJoin(a, '/'); }
    if b != [] { SplitJoin(b, '/'); }
    assert Split("", '/') == [""];
  }

  lemma BlankSegments(a: seq<string>)
    ensures Blank(PathSegments(a)) <==> Blank(a)
  {
  }

  lemma SegmentsCollideAll(a: seq<string>, b: seq<string>)
    requires PlainSegments(a) && PlainSegments(b) && |a| == |b|
    ensures forall i :: 0 <= i < |a| ==> (PathSegments(a)[i] == PathSegments(b)[i] <==> SameSegment(a[i], b[i]))
  {
    forall i | 0 <= i < |a|
      ensures PathSegments(a)[i] == PathSegments(b)[i] <==> SameSegment(a[i], b[i])
    {
      assert a[i] in a && b[i] in b;
      SegmentsCollide(a[i], b[i]);
    }
  }

  lemma EqualByParts(a: seq<string>, b: seq<string>)
    requires |a| == |b|
    ensures a == b <==> forall i :: 0 <= i < |a| ==> a[i] == b[i]
  {
  }

  lemma PathSegmentsAgree(a: seq<string>, b: seq<string>)
    requires PlainSegments(a) && PlainSegments(b)
    ensures PathSegments(a) == PathSegments(b) <==>
      |a| == |b| && forall i :: 0 <= i < |a| ==> SameSegment(a[i], b[i])
  {
    if |a| == |b| {
      SegmentsCollideAll(a, b);
      EqualByParts(PathSegments(a), PathSegments(b));
    } else {
      assert |PathSegments(a)| != |PathSegments(b)|;
    }
  }

  lemma NoSlashes(a: seq<string>)
    requires PlainSegments(a)
    ensures forall p :: p in PathSegments(a) ==> '/' !in p
  {
    forall p | p in PathSegments(a)
      ensures '/' !in p
    {
      var i :| 0 <= i < |a| && p == PathSegment(a[i]);
      assert a[i] in a;
    }
  }

  /** Two route files are served under one path exactly when the segments that are left after
      dropping "index" agree, up to the two spellings of a parameter - or nothing is left. */
  lemma MergeExactly(f: string, g: string)
    ensures PathOf(f) == PathOf(g) <==> SameShape(KeptSegments(f), KeptSegments(g))
  {
    var a, b := KeptSegments(f), KeptSegments(g);
    KeptPlain(f);
    KeptPlain(g);
    var pa, pb := PathSegments(a), PathSegments(b);
    NoSlashes(a);
    NoSlashes(b);
    JoinInjective(pa, pb);
    PathSegmentsAgree(a, b);
    BlankSegments(a);
    BlankSegments(b);
    assert ("/" + Join(pa, '/'))[1..] == Join(pa, '/');
    assert ("/" + Join(pb, '/'))[1..] == Join(pb, '/');
  }

  /** Without braces and empty segments the two files' kept segments must be equal. */
  lemma MergeWithoutBraces(f: string, g: string)
    requires forall p :: p in KeptSegments(f) || p in KeptSegments(g) ==> p != "" && '{' !in p
    ensures PathOf(f) == PathOf(g) <==> KeptSegments(f) == KeptSegments(g)
  {
    MergeExactly(f, g);
    var a, b := KeptSegments(f), KeptSegments(g);
    forall i | 0 <= i < |a| && i < |b|
      ensures SameSegment(a[i], b[i]) ==> a[i] == b[i]
    {
      assert a[i] in a && b[i] in b;
    }
    assert "" in [""];
  }

  // ---------------------------------------------------------------- from file to served path

  lemma {:induction false} DotSlashesConcat(a: string, b: string)
    ensures DotSlashes(a + b) == DotSlashes(a) + DotSlashes(b)
  {
    if a == "" {
      assert a + b == b;
    } else {
      assert (a + b)[1..] == a[1..] + b;
      DotSlashesConcat(a[1..], b);
    }
  }

  lemma {:induction false} NothingToDot(p: string)
    requires '/' !in p
    ensures DotSlashes(p) == p
  {
    if p != "" {
      assert p == [p[0]] + p[1..];
      NothingToDot(p[1..]);
    }
  }

  lemma {:induction false} DottedJoin(segments: seq<string>)
    requires forall p :: p in segments ==> '/' !in p
    ensures DotSlashes(Join(segments, '/')) == Join(segments, '.')
  {
    if |segments| == 1 {
      NothingToDot(segments[0]);
    } else if |segments| > 1 {
      var rest := Join(segments[1..], '/');
      NothingToDot(segments[0]);
      DottedJoin(segments[1..]);
      DotSlashesConcat(segments[0] + "/", rest);
      DotSlashesConcat(segments[0], "/");
      assert DotSlashes("/") == "." by { assert "/"[1..] == ""; }
    }
  }

  lemma {:induction false} SplitLast(u: string, c: char, p: string)
    requires c !in p
    ensures Split(u + [c] + p, c) == Split(u, c) + [p]
  {
    if u == "" {
      SplitAfter("", p, c);
      SplitAfter(p, "", c);
      assert u + [c] + p == "" + [c] + p;
    } else {
      assert (u + [c] + p)[1..] == u[1..] + [c] + p;
      SplitLast(u[1..], c, p);
    }
  }

  lemma HtmlSuffix(s: string) returns (u: string, p: string)
    requires EndsWith(s, ".html")
    ensures p == "html" && '.' !in p && s == u + ['.'] + p
  {
    u, p := s[..|s| - 5], "html";
    assert s == u + s[|s| - 5..];
    assert ".html" == ['.'] + "html";
  }

  /** A dotted id ends in ".html" only if its last segment is "html", after another one. */
  lemma EndsInHtml(segments: seq<string>)
    requires segments != [] && forall p :: p in segments ==> '.' !in p
    requires EndsWith(Join(segments, '.'), ".html")
    ensures segments[|segments| - 1] == "html" && |segments| >= 2
  {
    var u, p := HtmlSuffix(Join(segments, '.'));
    LastOfJoin(segments, u, p);
  }

  lemma LastOfJoin(segments: seq<string>, u: string, p: string)
    requires segments != [] && forall q :: q in segments ==> '.' !in q
    requires Join(segments, '.') == u + ['.'] + p && '.' !in p
    ensures segments[|segments| - 1] == p && |segments| >= 2
  {
    SplitJoin(segments, '.');
    SplitLast(u, '.', p);
  }

  lemma IndexHtmlIsHtml(s: string)
    requires EndsWith(s, "index.html")
    ensures EndsWith(s, ".html")
  {
    assert s[|s| - 5..] == s[|s| - 10..][5..] == ".html";
  }

  lemma {:induction false} JoinSnoc(segments: seq<string>)
    requires |segments| >= 2
    ensures Join(segments, '.') == Join(segments[..|segments| - 1], '.') + "." + segments[|segments| - 1]
  {
    var n := |segments|;
    if n > 2 {
      JoinSnoc(segments[1..]);
      assert segments[1..][..n - 2] == segments[..n - 1][1..];
      assert Join(segments, '.') == segments[0] + "." + Join(segments[1..], '.');
    } else {
      assert segments[..1] == [segments[0]] && segments[1..] == [segments[1]];
    }
  }

  lemma EndsAfterDot(u: string, last: string, t: string)
    requires '.' !in t
    ensures EndsWith(u + "." + last, t) <==> EndsWith(last, t)
  {
    var s := u + "." + last;
    if |t| <= |last| {
      assert s[|s| - |t|..] == last[|last| - |t|..];
    } else if |t| <= |s| {
      var p := |t| - |last| - 1;
      assert s[|s| - |t|..][p] == s[|u|] == '.';
      assert t[p] in t;
    }
  }

  /** A dotted id ends with a dotless word exactly if its last segment does. */
  lemma JoinEndsWith(segments: seq<string>, t: string)
    requires segments != [] && '.' !in t
    ensures EndsWith(Join(segments, '.'), t) <==> EndsWith(segments[|segments| - 1], t)
  {
    if |segments| > 1 {
      JoinSnoc(segments);
      EndsAfterDot(Join(segments[..|segments| - 1], '.'), segments[|segments| - 1], t);
    }
  }

  lemma IndexWord() returns (w: string)
    ensures w == "index" && '.' !in w
  {
    w := "index";
  }

  predicate EndsInIndex(segments: seq<string>) {
    segments != [] && EndsWith(segments[|segments| - 1], "index") && OneLine(Join(segments, '.'))
  }

  /** What the two ".html" replacements leave of the segments of a route id. */
  function WithoutHtml(segments: seq<string>): seq<string> {
    if |segments| < 2 || segments[|segments| - 1] != "html" then segments
    else if EndsInIndex(segments[..|segments| - 1]) then ["index"]
    else segments[..|segments| - 1]
  }

  lemma HtmlWord(u: string)
    ensures EndsWith(u + ".html", "index.html") <==> EndsWith(u, "index")
    ensures EndsWith(u, "index") ==> (OneLine((u + ".html")[..|u| - 5]) <==> OneLine(u))
  {
    var s := u + ".html";
    assert "index.html" == "index" + ".html";
    if |u| >= 5 {
      assert s[|s| - 10..] == u[|u| - 5..] + ".html";
      assert (u[|u| - 5..] + ".html")[..5] == u[|u| - 5..];
      assert s[..|u| - 5] == u[..|u| - 5] && u == u[..|u| - 5] + u[|u| - 5..];
      NoBreakInIndex();
    }
  }

  lemma NoBreakInIndex()
    ensures OneLine("index")
  {
  }

  lemma TextOfHtml(u: string)
    ensures IdText(u + ".html") == if EndsWith(u, "index") && OneLine(u) then "index" else u
  {
    HtmlWord(u);
    DropOwnSuffix(u, ".html");
    DropOwnSuffix("index", ".html");
    assert "index.html" == "index" + ".html";
  }

  lemma HtmlText(init: seq<string>)
    requires init != []
    ensures IdText(Join(init, '.') + ".html") == if EndsInIndex(init) then "index" else Join(init, '.')
  {
    var w := IndexWord();
    JoinEndsWith(init, w);
    TextOfHtml(Join(init, '.'));
  }

  lemma JoinHtml(segments: seq<string>)
    requires |segments| >= 2 && segments[|segments| - 1] == "html"
    ensures Join(segments, '.') == Join(segments[..|segments| - 1], '.') + ".html"
  {
    JoinSnoc(segments);
    var u := Join(segments[..|segments| - 1], '.');
    assert "." + "html" == ".html";
    assert (u + ".") + "html" == u + ("." + "html");
  }

  lemma SplitHtmlText(init: seq<string>)
    requires init != [] && forall p :: p in init ==> '.' !in p
    ensures Split(IdText(Join(init, '.') + ".html"), '.') == if EndsInIndex(init) then ["index"] else init
  {
    HtmlText(init);
    if EndsInIndex(init) {
      IndexIsOneSegment();
    } else {
      SplitJoin(init, '.');
    }
  }

  lemma TextOfPlain(s: string)
    requires !EndsWith(s, ".html")
    ensures IdText(s) == s
  {
    if EndsWith(s, "index.html") {
      IndexHtmlIsHtml(s);
    }
  }

  lemma TextSplit(segments: seq<string>)
    requires segments != [] && forall p :: p in segments ==> '.' !in p
    ensures Split(IdText(Join(segments, '.')), '.') == WithoutHtml(segments)
  {
    if |segments| >= 2 && segments[|segments| - 1] == "html" {
      JoinHtml(segments);
      SplitHtmlText(segments[..|segments| - 1]);
    } else {
      if EndsWith(Join(segments, '.'), ".html") {
        EndsInHtml(segments);
      }
      TextOfPlain(Join(segments, '.'));
      SplitJoin(segments, '.');
    }
  }

  /** What is left of a file's id, split at every dot. */
  lemma KeptOfId(file: string)
    ensures KeptSegments(file) == Kept(WithoutHtml(Split(StrippedRoute(file), '.')))
  {
    var id := StrippedRoute(file);
    JoinSplit(id, '.');
    forall p | p in Split(id, '.')
      ensures '.' !in p
    {
      SplitChars(id, '.', p);
    }
    TextSplit(Split(id, '.'));
  }

  /** A route file below the "src/routes/" that counts is served under what its name there says,
      split at slashes and dots alike: an "html" ending and every "index" are dropped, parameters
      are put in braces. */
  lemma ServedPath(dir: string, r: string)
    requires LastRoutes(dir, r)
    ensures PathOf(dir + "src/routes/" + r + ".tsx?tsr-split=component") ==
      "/" + Join(PathSegments(Kept(WithoutHtml(Split(DotSlashes(r), '.')))), '/')
  {
    StrippedRouteFile(dir, r);
    KeptOfId(dir + "src/routes/" + r + ".tsx?tsr-split=component");
  }

  /** Without dots in its components the components are the segments. */
  lemma ServedSegments(dir: string, segments: seq<string>)
    requires segments != [] && PlainSegments(segments) && LastRoutes(dir, Join(segments, '/'))
    ensures PathOf(dir + "src/routes/" + Join(segments, '/') + ".tsx?tsr-split=component") ==
      "/" + Join(PathSegments(Kept(WithoutHtml(segments))), '/')
  {
    ServedPath(dir, Join(segments, '/'));
    DottedJoin(segments);
    SplitJoin(segments, '.');
  }

  // ---------------------------------------------------------------- layout chains

  /** The prefixes of a route id, built segment by segment; an empty prefix is replaced, not
      extended. */
  function Layouts(prefix: string, parts: seq<string>): (r: seq<string>)
    ensures |r| == |parts|
    decreases |parts|
  {
    if parts == [] then []
    else
      var p := if prefix != "" then prefix + "." + parts[0] else parts[0];
      [p] + Layouts(p, parts[1..])
  }

  function RouteIds(routeId: string): seq<string> {
    if routeId == "index" then ["__root", "index"]
    else if routeId != "__root" then ["__root"] + Layouts("", Split(routeId, '.'))
    else ["__root"]
  }

  lemma LayoutsNext(prefix: string, parts: seq<string>, i: nat)
    requires i < |parts|
    ensures
      var p := if prefix != "" then prefix + "." + parts[i] else parts[i];
      Layouts(prefix, parts[i..]) == [p] + Layouts(p, parts[i + 1..])
  {
    assert parts[i..][1..] == parts[i + 1..];
  }

  method LayoutChain(routeId: string) returns (routeIds: seq<string>)
    ensures routeIds == RouteIds(routeId)
  {
    var parts := Split(routeId, '.');
    routeIds := ["__root"];
    if routeId == "index" {
      routeIds := routeIds + ["index"];
    } else if routeId != "__root" {
      var prefix := "";
      ghost var done: seq<string> := [];
      for i := 0 to |parts|
        invariant routeIds == ["__root"] + done
        invariant Layouts("", parts) == done + Layouts(prefix, parts[i..])
      {
        LayoutsNext(prefix, parts, i);
        prefix := if prefix != "" then prefix + "." + parts[i] else parts[i];
        routeIds := routeIds + [prefix];
        Regroup(done, prefix, Layouts(prefix, parts[i + 1..]));
        done := done + [prefix];
      }
    }
  }

  lemma Regroup<T>(a: seq<T>, x: T, b: seq<T>)
    ensures a + ([x] + b) == (a + [x]) + b
  {
  }

  lemma {:induction false} LayoutsAfter(prefix: string, parts: seq<string>, i: nat)
    requires prefix != "" && i < |parts|
    ensures Layouts(prefix, parts)[i] == prefix + "." + Join(parts[..i + 1], '.')
    decreases |parts|
  {
    if i > 0 {
      var p := prefix + "." + parts[0];
      LayoutsAfter(p, parts[1..], i - 1);
      assert parts[1..][..i] == parts[..i + 1][1..];
      assert p + "." + Join(parts[1..][..i], '.') == prefix + "." + Join(parts[..i + 1], '.');
    }
  }

  lemma {:induction false} LayoutsShort(parts: seq<string>, i: nat)
    requires i < |parts| && parts[0] == "" && |parts| > 1
    ensures |Layouts("", parts)[i]| < |Join(parts, '.')|
    decreases |parts|
  {
    if i > 0 {
      assert Layouts("", parts)[i] == Layouts("", parts[1..])[i - 1];
      if parts[1] == "" && |parts| > 2 {
        LayoutsShort(parts[1..], i - 1);
      } else {
        LayoutsFrom(parts[1..], i - 1);
        JoinPrefixLength(parts[1..], i);
      }
    }
  }

  lemma {:induction false} JoinPrefixLength(parts: seq<string>, i: nat)
    requires 1 <= i <= |parts|
    ensures |Join(parts[..i], '.')| <= |Join(parts, '.')|
    decreases |parts|
  {
    if i > 1 {
      JoinPrefixLength(parts[1..], i - 1);
      assert parts[..i][1..] == parts[1..][..i - 1];
    }
  }

  lemma JoinStep(parts: seq<string>, i: nat)
    requires 0 < i < |parts|
    ensures Join(parts[..i + 1], '.') == parts[0] + "." + Join(parts[1..][..i], '.')
  {
    assert parts[..i + 1][1..] == parts[1..][..i];
  }

  lemma LayoutsFrom(parts: seq<string>, i: nat)
    requires i < |parts| && (parts[0] != "" || |parts| == 1)
    ensures Layouts("", parts)[i] == Join(parts[..i + 1], '.')
  {
    if i == 0 {
      assert parts[..1] == [parts[0]];
    } else {
      LayoutsLater(parts, i);
    }
  }

  lemma LayoutsLater(parts: seq<string>, i: nat)
    requires 0 < i < |parts| && parts[0] != ""
    ensures Layouts("", parts)[i] == Join(parts[..i + 1], '.')
  {
    LayoutsHead(parts);
    var rest := parts[1..];
    LayoutsAfter(parts[0], rest, i - 1);
    assert Layouts("", parts)[i] == Layouts(parts[0], rest)[i - 1];
    assert rest[..i - 1 + 1] == rest[..i];
    JoinStep(parts, i);
  }

  lemma LayoutsHead(parts: seq<string>)
    requires parts != []
    ensures Layouts("", parts) == [parts[0]] + Layouts(parts[0], parts[1..])
  {
  }

  function TrimBlank(parts: seq<string>): seq<string> {
    if parts != [] && parts[0] == "" then TrimBlank(parts[1..]) else parts
  }

  /** For every id: each element of the chain is a join of first segments, leading blank ones left
      out. */
  lemma {:induction false} LayoutsTrimmed(parts: seq<string>, i: nat)
    requires i < |parts|
    ensures Layouts("", parts)[i] == Join(TrimBlank(parts[..i + 1]), '.')
    decreases |parts|
  {
    if parts[0] != "" {
      LayoutsFrom(parts, i);
    } else if i == 0 {
      assert parts[..1] == [""] && [""][1..] == [];
    } else {
      LayoutsTrimmed(parts[1..], i - 1);
      assert parts[..i + 1][1..] == parts[1..][..i];
      assert Layouts("", parts)[i] == Layouts("", parts[1..])[i - 1];
    }
  }

  /** id is the root layout, or the i-th parent layout of the route, or (last i) the route itself. */
  ghost predicate LayoutOf(routeId: string, id: string, i: int) {
    var parts := Split(routeId, '.');
    id == "__root" || (routeId != "__root" && 0 <= i < |parts| && id == Join(TrimBlank(parts[..i + 1]), '.'))
  }

  lemma ChainMembers(routeId: string, id: string)
    ensures id in RouteIds(routeId) <==> exists i :: LayoutOf(routeId, id, i)
  {
    if routeId == "__root" || id == "__root" {
      RootOnly(routeId, id);
    } else {
      BelowRootMembers(routeId, id);
    }
  }

  lemma RootOnly(routeId: string, id: string)
    requires routeId == "__root" || id == "__root"
    ensures id in RouteIds(routeId) <==> exists i :: LayoutOf(routeId, id, i)
  {
    if id == "__root" {
      assert RouteIds(routeId)[0] == id;
      assert LayoutOf(routeId, id, 0);
    }
  }

  lemma BelowRootMembers(routeId: string, id: string)
    requires routeId != "__root" && id != "__root"
    ensures id in RouteIds(routeId) <==> exists i :: LayoutOf(routeId, id, i)
  {
    var parts := Split(routeId, '.');
    var chain := Layouts("", parts);
    if routeId == "index" {
      IndexIsOneSegment();
    }
    IndexChain(routeId);
    RootChain(id, chain, ["__root"] + chain);
    if id in chain {
      var i :| 0 <= i < |chain| && chain[i] == id;
      LayoutsTrimmed(parts, i);
      assert LayoutOf(routeId, id, i);
    }
    if i :| LayoutOf(routeId, id, i) {
      LayoutsTrimmed(parts, i);
      assert chain[i] in chain;
    }
  }

  lemma IndexChain(routeId: string)
    requires routeId != "__root"
    ensures RouteIds(routeId) == ["__root"] + Layouts("", Split(routeId, '.'))
  {
    if routeId == "index" {
      IndexIsOneSegment();
      assert ["index"][1..] == [];
    }
  }

  /** The i-th id of the chain is the join of the first i segments for every i exactly when the
      route id does not start with a separator, i.e. has a first segment (or no second one). */
  lemma LayoutChainExact(routeId: string)
    ensures
      var parts := Split(routeId, '.');
      (forall i :: 0 <= i < |parts| ==> Layouts("", parts)[i] == Join(parts[..i + 1], '.'))
        <==> parts[0] != "" || |parts| == 1
  {
    var parts := Split(routeId, '.');
    if parts[0] != "" || |parts| == 1 {
      forall i | 0 <= i < |parts|
        ensures Layouts("", parts)[i] == Join(parts[..i + 1], '.')
      {
        LayoutsFrom(parts, i);
      }
    } else {
      LayoutsShort(parts, |parts| - 1);
      assert parts[..|parts|] == parts;
    }
  }

  lemma OwnIdLast(routeId: string)
    requires Split(routeId, '.')[0] != "" || |Split(routeId, '.')| == 1
    ensures
      var chain := Layouts("", Split(routeId, '.'));
      chain[|chain| - 1] == routeId
  {
    var parts := Split(routeId, '.');
    JoinSplit(routeId, '.');
    LayoutsFrom(parts, |parts| - 1);
    assert parts[..|parts|] == parts;
  }

  lemma OwnIdMissing(routeId: string)
    requires !(Split(routeId, '.')[0] != "" || |Split(routeId, '.')| == 1)
    ensures routeId !in Layouts("", Split(routeId, '.'))
  {
    var parts := Split(routeId, '.');
    JoinSplit(routeId, '.');
    forall i | 0 <= i < |parts|
      ensures Layouts("", parts)[i] != routeId
    {
      LayoutsShort(parts, i);
    }
  }

  lemma IndexIsOneSegment()
    ensures Split("index", '.') == ["index"]
  {
    SplitAfter("index", "", '.');
  }

  /** The chain of a route ends in, or at all contains, the route's own id under the same
      condition (the root route is its own chain). */
  lemma OwnIdInChain(routeId: string)
    ensures routeId in RouteIds(routeId) <==>
      routeId == "__root" || Split(routeId, '.')[0] != "" || |Split(routeId, '.')| == 1
    ensures routeId in RouteIds(routeId) ==> RouteIds(routeId)[|RouteIds(routeId)| - 1] == routeId
  {
    if routeId == "index" {
      IndexIsOneSegment();
    } else if routeId != "__root" {
      OwnIdBelowRoot(routeId);
    }
  }

  lemma OwnIdBelowRoot(routeId: string)
    requires routeId != "index" && routeId != "__root"
    ensures routeId in RouteIds(routeId) <==> Split(routeId, '.')[0] != "" || |Split(routeId, '.')| == 1
    ensures routeId in RouteIds(routeId) ==> RouteIds(routeId)[|RouteIds(routeId)| - 1] == routeId
  {
    var chain := Layouts("", Split(routeId, '.'));
    RootChain(routeId, chain, RouteIds(routeId));
    if Split(routeId, '.')[0] != "" || |Split(routeId, '.')| == 1 {
      OwnIdLast(routeId);
    } else {
      OwnIdMissing(routeId);
    }
  }

  lemma RootChain(routeId: string, chain: seq<string>, ids: seq<string>)
    requires routeId != "__root" && chain != [] && ids == ["__root"] + chain
    ensures routeId in ids <==> routeId in chain
    ensures ids[|ids| - 1] == chain[|chain| - 1] && chain[|chain| - 1] in chain
  {
    assert forall i :: 1 <= i < |ids| ==> ids[i] == chain[i - 1];
    assert forall i :: 0 <= i < |chain| ==> ids[i + 1] == chain[i];
    assert ids[0] == "__root";
  }

  // ---------------------------------------------------------------- where the promises end

  /** The file "src/routes//a": its id starts with a separator, and its chain misses it. */
  lemma LeadingSeparator()
    ensures ".a" !in RouteIds(".a")
    ensures Layouts("", Split(".a", '.'))[1] != Join(Split(".a", '.')[..2], '.')
  {
  }

  /** A name without slashes directly below "src/routes/" holds no other one. */
  lemma NoSlashName(dir: string, r: string)
    requires OneLine(dir) && '/' !in r
    ensures LastRoutes(dir, r)
  {
    forall k | |dir| < k <= |dir + ROUTES + r|
      ensures !RoutesAt(dir + ROUTES + r, k)
    {
      if RoutesAt(dir + ROUTES + r, k) {
        RoutesChars(dir + ROUTES + r, k);
        NoSlashAfter(dir + ROUTES, r, k + 10);
      }
    }
  }

  lemma ShortName()
    ensures LastRoutes("", "/a")
  {
    var s := "" + ROUTES + "/a";
    forall k | 0 < k <= |s|
      ensures !RoutesAt(s, k)
    {
      if RoutesAt(s, k) {
        RoutesChars(s, k);
      }
    }
  }

  lemma RouteFileOf(r: string)
    ensures
      var file := "src/routes/" + r + ".tsx?tsr-split=component";
      Includes(file, ROUTES) && EndsWith(file, ".tsx" + SPLIT_SUFFIX)
  {
    var q, tail := "src/routes/" + r, ".tsx" + SPLIT_SUFFIX;
    var file := q + tail;
    SplitTail();
    assert file[|q|..] == tail && file[0..|ROUTES|] == ROUTES && StartsAt(file, ROUTES, 0);
  }

  /** That file's name, and its id. */
  lemma LeadingSeparatorFile() returns (file: string)
    ensures Includes(file, ROUTES) && EndsWith(file, ".tsx" + SPLIT_SUFFIX) && StrippedRoute(file) == ".a"
  {
    file := "src/routes/" + "/a" + ".tsx?tsr-split=component";
    RouteFileOf("/a");
    ShortName();
    StrippedRouteFile("", "/a");
    assert "" + "src/routes/" == "src/routes/";
    assert DotSlashes("/a") == ".a" by { assert "/a"[1..] == "a"; NothingToDot("a"); }
  }

  lemma OneSegment(r: string)
    requires r != "" && '/' !in r && '.' !in r && r != "index"
    ensures KeptSegments("src/routes/" + r + ".tsx?tsr-split=component") == [r]
  {
    NoSlashName("", r);
    StrippedRouteFile("", r);
    assert "" + "src/routes/" == "src/routes/";
    NothingToDot(r);
    SplitAfter(r, "", '.');
    KeptOfId("src/routes/" + r + ".tsx?tsr-split=component");
    assert [r][1..] == [];
  }

  /** The files "src/routes/$x" and "src/routes/{x}": different segments, one path. */
  lemma TwoSpellings() returns (a: string, b: string)
    ensures forall f :: f in [a, b] ==> Includes(f, ROUTES) && EndsWith(f, ".tsx" + SPLIT_SUFFIX)
    ensures KeptSegments(a) == ["$x"] && KeptSegments(b) == ["{x}"] && PathOf(a) == PathOf(b)
  {
    a, b := "src/routes/" + "$x" + ".tsx?tsr-split=component", "src/routes/" + "{x}" + ".tsx?tsr-split=component";
    RouteFileOf("$x");
    RouteFileOf("{x}");
    OneSegment("$x");
    OneSegment("{x}");
    assert "$x"[1..] == "x" && "{" + "x" + "}" == "{x}";
    PathSegmentsAgree(["$x"], ["{x}"]);
  }

  // ---------------------------------------------------------------- parameters

  /** A file with two segments, named with a dot, is served under both. */
  lemma ServedPair(dir: string, a: string, b: string)
    requires OneLine(dir) && '/' !in a && '.' !in a && '/' !in b && '.' !in b
    requires a != "index" && b != "index" && b != "html"
    ensures PathOf(dir + "src/routes/" + (a + "." + b) + ".tsx?tsr-split=component") ==
      "/" + PathSegment(a) + "/" + PathSegment(b)
  {
    var r := a + "." + b;
    NoSlashName(dir, r);
    ServedPath(dir, r);
    NothingToDot(r);
    TwoSegments(a, b);
    assert PathSegments([a, b]) == [PathSegment(a), PathSegment(b)];
    JoinTwo(PathSegment(a), PathSegment(b));
  }

  /** A last segment "$" serves everything below the others; "src/routes/browser.$" is such a file. */
  lemma ServedRest(dir: string, name: string)
    requires OneLine(dir) && '/' !in name && '.' !in name && name != "" && name[0] != '$' && name != "index"
    ensures PathOf(dir + "src/routes/" + (name + "." + "$") + ".tsx?tsr-split=component") == "/" + name + "/" + "{rest...}"
  {
    ServedPair(dir, name, "$");
  }

  /** A named parameter is put in braces without its dollar sign. */
  lemma ServedNamed(dir: string, name: string, parameter: string)
    requires OneLine(dir) && '/' !in name && '.' !in name && name != "" && name[0] != '$' && name != "index"
    requires '/' !in parameter && '.' !in parameter && parameter != ""
    ensures PathOf(dir + "src/routes/" + (name + "." + ("$" + parameter)) + ".tsx?tsr-split=component") ==
      "/" + name + "/" + ("{" + parameter + "}")
  {
    NamedSegment(parameter);
    ServedPair(dir, name, "$" + parameter);
  }

  /** An index file is served under what is left of its name. */
  lemma ServedIndex(dir: string, name: string)
    requires OneLine(dir) && '/' !in name && '.' !in name && name != "" && name[0] != '$' && name != "index"
    ensures PathOf(dir + "src/routes/" + (name + "." + "index") + ".tsx?tsr-split=component") == "/" + name
  {
    var r := name + "." + "index";
    NoSlashName(dir, r);
    ServedPath(dir, r);
    NothingToDot(r);
    NameAndIndex(name);
    assert PathSegments([name]) == [name] && Join([name], '/') == name;
  }

  lemma NameAndIndex(name: string)
    requires '.' !in name && name != "index"
    ensures Kept(WithoutHtml(Split(name + "." + "index", '.'))) == [name]
  {
    SplitAfter(name, "index", '.');
    SplitAfter("index", "", '.');
    assert Split(name + ['.'] + "index", '.') == [name, "index"] && "." == ['.'];
    assert WithoutHtml([name, "index"]) == [name, "index"];
    assert [name, "index"][1..] == ["index"] && ["index"][1..] == [];
  }

  /** The file "index" itself is served as "/". */
  lemma ServedRoot(dir: string)
    requires OneLine(dir)
    ensures PathOf(dir + "src/routes/" + "index" + ".tsx?tsr-split=component") == "/"
  {
    NoSlashName(dir, "index");
    ServedPath(dir, "index");
    NothingToDot("index");
    SplitAfter("index", "", '.');
    assert Split("index", '.') == ["index"] && WithoutHtml(["index"]) == ["index"];
    assert ["index"][1..] == [];
  }

  lemma NamedSegment(parameter: string)
    requires parameter != ""
    ensures PathSegment("$" + parameter) == "{" + parameter + "}"
    ensures "$" + parameter != "index" && "$" + parameter != "html"
  {
    var segment := "$" + parameter;
    assert segment[0] == '$' && segment[1..] == parameter;
    assert "index"[0] != '$' && "html"[0] != '$';
  }

  lemma TwoSegments(a: string, b: string)
    requires '.' !in a && '.' !in b && a != "index" && b != "index" && b != "html"
    ensures Kept(WithoutHtml(Split(a + "." + b, '.'))) == [a, b]
  {
    SplitAfter(a, b, '.');
    SplitAfter(b, "", '.');
    assert Split(a + ['.'] + b, '.') == [a, b] && "." == ['.'];
    assert WithoutHtml([a, b]) == [a, b];
    assert [a, b][1..] == [b] && [b][1..] == [];
    assert Kept([b]) == [b];
  }

  lemma JoinTwo(a: string, b: string)
    ensures "/" + Join([a, b], '/') == "/" + a + "/" + b
  {
    assert [a, b][1..] == [b];
  }
}
