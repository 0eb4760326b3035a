/** The chunk graph of a build manifest and the walk that collects the assets of everything a
    chunk imports (frontend/routeMapper.ts, fetchImportRooutes). */
module ImportGraph {
  import opened Wrappers
  import opened OrderedSets

  datatype Chunk = Chunk(file: Option<string>, isEntry: bool, imports: seq<string>, css: seq<string>)

  type Chunks = map<string, Chunk>

  /** A missing file and an empty file name are both skipped. */
  function FilesOf(c: Chunk): seq<string> {
    if c.file.Some? && c.file.value != "" then [c.file.value] else []
  }

  datatype Assets = Assets(js: seq<string>, css: seq<string>)

  datatype Asset = Js(name: string) | Css(name: string)

  predicate Has(a: Assets, x: Asset) {
    match x
    case Js(name) => name in a.js
    case Css(name) => name in a.css
  }

  /** What a chunk carries: the file it names, unless that is empty, and its style sheets. */
  predicate ChunkHas(c: Chunk, x: Asset) {
    match x
    case Js(name) => name != "" && c.file == Some(name)
    case Css(name) => name in c.css
  }

  /** The three ordered sets the walk shares between its calls. */
  datatype Walk = Walk(visited: seq<string>, js: seq<string>, css: seq<string>)

  /** The chunks a walk can still visit: what makes it end on cyclic manifests. */
  ghost function Unvisited(m: Chunks, visited: seq<string>): set<string> {
    m.Keys - set k | k in visited
  }

  lemma Shrinks(m: Chunks, before: seq<string>, after: seq<string>, key: string)
    requires key in m && key !in before && key in after && forall k :: k in before ==> k in after
    ensures Unvisited(m, after) < Unvisited(m, before)
  {
    assert key in Unvisited(m, before) && key !in Unvisited(m, after);
  }

  lemma NotLarger(m: Chunks, before: seq<string>, after: seq<string>)
    requires before <= after
    ensures Unvisited(m, after) <= Unvisited(m, before)
  {
    assert forall k :: k in before ==> k in after;
  }

  function Visit(m: Chunks, w: Walk, key: string): (r: Walk)
    ensures w.visited <= r.visited
    decreases Unvisited(m, w.visited), 0
  {
    if key in w.visited then w
    else if key !in m then w.(visited := w.visited + [key])
    else
      var w' := Walk(w.visited + [key], AddAll(w.js, FilesOf(m[key])), AddAll(w.css, m[key].css));
      Shrinks(m, w.visited, w'.visited, key);
      VisitEach(m, w', m[key].imports)
  }

  function VisitEach(m: Chunks, w: Walk, keys: seq<string>): (r: Walk)
    ensures w.visited <= r.visited
    decreases Unvisited(m, w.visited), |keys|
  {
    if keys == [] then w else
    var w' := Visit(m, w, keys[0]);
    NotLarger(m, w.visited, w'.visited);
    VisitEach(m, w', keys[1..])
  }

  const EMPTY_WALK := Walk([], [], [])

  function Fetch(m: Chunks, routeFile: string): Assets {
    var w := Visit(m, EMPTY_WALK, routeFile);
    Assets(w.js, w.css)
  }

  /** The closure variables of fetchImportRooutes and its recursive visitRoute. */
  class ImportWalk {
    const manifest: Chunks
    var visited: seq<string>
    var js: seq<string>
    var css: seq<string>

    function State(): Walk
      reads this
    {
      Walk(visited, js, css)
    }

    constructor (manifest: Chunks)
      ensures this.manifest == manifest && State() == EMPTY_WALK
    {
      this.manifest, visited, js, css := manifest, [], [], [];
    }

    method VisitRoute(key: string)
      modifies this
      ensures State() == Visit(manifest, old(State()), key)
      decreases Unvisited(manifest, visited)
    {
      if key in visited { return; }
      ghost var before := visited;
      visited := visited + [key];
      if key !in manifest { return; }
      var chunk := manifest[key];
      if chunk.file.Some? && chunk.file.value != "" {
        js := Add(js, chunk.file.value);
      }
      css := AddEach(css, chunk.css);
      ghost var w := State();
      assert w == Walk(before + [key], AddAll(old(js), FilesOf(chunk)), AddAll(old(css), chunk.css));
      for i := 0 to |chunk.imports|
        invariant w.visited <= visited
        invariant VisitEach(manifest, w, chunk.imports) == VisitEach(manifest, State(), chunk.imports[i..])
      {
        Shrinks(manifest, before, w.visited, key);
        NotLarger(manifest, w.visited, visited);
        VisitEachHead(manifest, State(), chunk.imports, i);
        VisitRoute(chunk.imports[i]);
      }
    }
  }

  lemma VisitEachHead(m: Chunks, w: Walk, keys: seq<string>, i: nat)
    requires i < |keys|
    ensures VisitEach(m, w, keys[i..]) == VisitEach(m, Visit(m, w, keys[i]), keys[i + 1..])
  {
    assert keys[i..][1..] == keys[i + 1..];
  }

  method FetchImportRoutes(routeFile: string, manifest: Chunks) returns (a: Assets)
    ensures a == Fetch(manifest, routeFile)
  {
    var walk := new ImportWalk(manifest);
    walk.VisitRoute(routeFile);
    a := Assets(walk.js, walk.css);
  }

  // ---------------------------------------------------------------- reachability

  ghost predicate IsPath(m: Chunks, p: seq<string>) {
    && p != []
    && forall i :: 0 <= i < |p| - 1 ==> p[i] in m && p[i + 1] in m[p[i]].imports
  }

  ghost predicate PathBetween(m: Chunks, p: seq<string>, a: string, b: string, avoid: seq<string>) {
    IsPath(m, p) && p[0] == a && p[|p| - 1] == b && forall k :: k in p ==> k !in avoid
  }

  /** b can be reached from a through imports without touching a member of avoid. */
  ghost predicate Reaches(m: Chunks, a: string, b: string, avoid: seq<string>) {
    exists p :: PathBetween(m, p, a, b, avoid)
  }

  /** Soundness: whatever a walk adds can be reached without its already visited chunks. */
  lemma {:induction false} VisitSound(m: Chunks, w: Walk, key: string, k: string)
    requires k in Visit(m, w, key).visited && k !in w.visited
    ensures Reaches(m, key, k, w.visited)
    decreases Unvisited(m, w.visited), 0
  {
    if k == key {
      assert PathBetween(m, [key], key, k, w.visited);
    } else {
      var w' := Walk(w.visited + [key], AddAll(w.js, FilesOf(m[key])), AddAll(w.css, m[key].css));
      Shrinks(m, w.visited, w'.visited, key);
      var i := VisitEachSound(m, w', m[key].imports, k);
      var p :| PathBetween(m, p, m[key].imports[i], k, w'.visited);
      assert PathBetween(m, [key] + p, key, k, w.visited);
    }
  }

  lemma {:induction false} VisitEachSound(m: Chunks, w: Walk, keys: seq<string>, k: string) returns (i: nat)
    requires k in VisitEach(m, w, keys).visited && k !in w.visited
    ensures i < |keys| && Reaches(m, keys[i], k, w.visited)
    decreases Unvisited(m, w.visited), |keys|
  {
    var w' := Visit(m, w, keys[0]);
    assert forall k :: k in w.visited ==> k in w'.visited;
    NotLarger(m, w.visited, w'.visited);
    if k in w'.visited {
      VisitSound(m, w, keys[0], k);
      i := 0;
    } else {
      var j := VisitEachSound(m, w', keys[1..], k);
      i := j + 1;
      var p :| PathBetween(m, p, keys[i], k, w'.visited);
      assert PathBetween(m, p, keys[i], k, w.visited);
    }
  }

  /** Every chunk added between two states has all its imports in the later state. */
  ghost predicate Closed(m: Chunks, before: seq<string>, after: seq<string>) {
    forall u :: u in after && u !in before && u in m ==> forall v :: v in m[u].imports ==> v in after
  }

  lemma {:induction false} VisitClosed(m: Chunks, w: Walk, key: string)
    ensures key in Visit(m, w, key).visited
    ensures Closed(m, w.visited, Visit(m, w, key).visited)
    decreases Unvisited(m, w.visited), 0
  {
    if key !in w.visited && key in m {
      var w' := Walk(w.visited + [key], AddAll(w.js, FilesOf(m[key])), AddAll(w.css, m[key].css));
      Shrinks(m, w.visited, w'.visited, key);
      VisitEachClosed(m, w', m[key].imports);
      assert w'.visited[|w.visited|] == key;
    }
  }

  lemma {:induction false} VisitEachClosed(m: Chunks, w: Walk, keys: seq<string>)
    ensures forall k :: k in keys ==> k in VisitEach(m, w, keys).visited
    ensures Closed(m, w.visited, VisitEach(m, w, keys).visited)
    decreases Unvisited(m, w.visited), |keys|
  {
    if keys != [] {
      var w' := Visit(m, w, keys[0]);
      var r := VisitEach(m, w', keys[1..]);
      VisitClosed(m, w, keys[0]);
      NotLarger(m, w.visited, w'.visited);
      assert forall k :: k in w.visited ==> k in w'.visited;
      assert forall k :: k in w'.visited ==> k in r.visited;
      VisitEachClosed(m, w', keys[1..]);
      assert keys == [keys[0]] + keys[1..];
    }
  }

  lemma {:induction false} ClosedPath(m: Chunks, before: seq<string>, after: seq<string>, p: seq<string>, i: nat)
    requires Closed(m, before, after) && IsPath(m, p) && p[0] in after
    requires forall k :: k in p ==> k !in before
    requires i < |p|
    ensures p[i] in after
  {
    if i > 0 {
      ClosedPath(m, before, after, p, i - 1);
      assert p[i - 1] in p;
    }
  }

  /** The walk of one chunk, started in any state: it visits exactly the chunks that can be
      reached from it by paths that avoid what was visited before. */
  lemma VisitReaches(m: Chunks, w: Walk, key: string)
    ensures forall k :: k in Visit(m, w, key).visited <==> k in w.visited || Reaches(m, key, k, w.visited)
  {
    var r := Visit(m, w, key);
    assert forall k :: k in w.visited ==> k in r.visited;
    forall k | k in r.visited && k !in w.visited
      ensures Reaches(m, key, k, w.visited)
    {
      VisitSound(m, w, key, k);
    }
    VisitClosed(m, w, key);
    forall k | Reaches(m, key, k, w.visited)
      ensures k in r.visited
    {
      var p :| PathBetween(m, p, key, k, w.visited);
      ClosedPath(m, w.visited, r.visited, p, |p| - 1);
    }
  }

  // ---------------------------------------------------------------- what is collected, in which order

  function AllFiles(m: Chunks, keys: seq<string>): seq<string> {
    if keys == [] then []
    else (if keys[0] in m then FilesOf(m[keys[0]]) else []) + AllFiles(m, keys[1..])
  }

  function AllCss(m: Chunks, keys: seq<string>): seq<string> {
    if keys == [] then []
    else (if keys[0] in m then m[keys[0]].css else []) + AllCss(m, keys[1..])
  }

  lemma {:induction false} AllConcat(m: Chunks, xs: seq<string>, ys: seq<string>)
    ensures AllFiles(m, xs + ys) == AllFiles(m, xs) + AllFiles(m, ys)
    ensures AllCss(m, xs + ys) == AllCss(m, xs) + AllCss(m, ys)
  {
    if xs == [] {
      assert xs + ys == ys;
    } else {
      assert (xs + ys)[1..] == xs[1..] + ys;
      AllConcat(m, xs[1..], ys);
    }
  }

  /** The assets between two states of a walk are those of the chunks visited in between. */
  ghost predicate Collects(m: Chunks, w: Walk, r: Walk) {
    && w.visited <= r.visited
    && r.js == AddAll(w.js, AllFiles(m, r.visited[|w.visited|..]))
    && r.css == AddAll(w.css, AllCss(m, r.visited[|w.visited|..]))
    && (Distinct(w.visited) ==> Distinct(r.visited))
  }

  lemma CollectsTrans(m: Chunks, a: Walk, b: Walk, c: Walk)
    requires Collects(m, a, b) && Collects(m, b, c)
    ensures Collects(m, a, c)
  {
    var ab, bc := b.visited[|a.visited|..], c.visited[|b.visited|..];
    assert c.visited[|a.visited|..] == ab + bc;
    AllConcat(m, ab, bc);
    AddAllConcat(a.js, AllFiles(m, ab), AllFiles(m, bc));
    AddAllConcat(a.css, AllCss(m, ab), AllCss(m, bc));
  }

  lemma CollectsOne(m: Chunks, w: Walk, key: string, js: seq<string>, css: seq<string>)
    requires key !in w.visited
    requires js == (if key in m then FilesOf(m[key]) else []) && css == (if key in m then m[key].css else [])
    ensures Collects(m, w, Walk(w.visited + [key], AddAll(w.js, js), AddAll(w.css, css)))
  {
    assert (w.visited + [key])[|w.visited|..] == [key];
    assert [key][1..] == [];
    assert js + [] == js && css + [] == css;
    assert AllFiles(m, [key]) == js + AllFiles(m, []) && AllCss(m, [key]) == css + AllCss(m, []);
  }

  lemma {:induction false} VisitCollects(m: Chunks, w: Walk, key: string)
    ensures Collects(m, w, Visit(m, w, key))
    decreases Unvisited(m, w.visited), 0
  {
    if key !in w.visited {
      var js, css := if key in m then FilesOf(m[key]) else [], if key in m then m[key].css else [];
      var w' := Walk(w.visited + [key], AddAll(w.js, js), AddAll(w.css, css));
      CollectsOne(m, w, key, js, css);
      if key in m {
        Shrinks(m, w.visited, w'.visited, key);
        VisitEachCollects(m, w', m[key].imports);
        CollectsTrans(m, w, w', Visit(m, w, key));
      }
    }
  }

  lemma {:induction false} VisitEachCollects(m: Chunks, w: Walk, keys: seq<string>)
    ensures Collects(m, w, VisitEach(m, w, keys))
    decreases Unvisited(m, w.visited), |keys|
  {
    if keys != [] {
      var w' := Visit(m, w, keys[0]);
      NotLarger(m, w.visited, w'.visited);
      VisitCollects(m, w, keys[0]);
      VisitEachCollects(m, w', keys[1..]);
      CollectsTrans(m, w, w', VisitEach(m, w', keys[1..]));
    }
  }

  /** The chunks visited for one route file, in the order of their first visit. */
  function VisitOrder(m: Chunks, routeFile: string): seq<string> {
    Visit(m, EMPTY_WALK, routeFile).visited
  }

  lemma FetchLists(m: Chunks, routeFile: string)
    ensures Distinct(VisitOrder(m, routeFile))
    ensures forall k :: k in VisitOrder(m, routeFile) <==> Reaches(m, routeFile, k, [])
    ensures Fetch(m, routeFile).js == Dedup(AllFiles(m, VisitOrder(m, routeFile)))
    ensures Fetch(m, routeFile).css == Dedup(AllCss(m, VisitOrder(m, routeFile)))
  {
    VisitReaches(m, EMPTY_WALK, routeFile);
    VisitCollects(m, EMPTY_WALK, routeFile);
    var order := VisitOrder(m, routeFile);
    assert order[|EMPTY_WALK.visited|..] == order;
  }

  /** First-visit order is depth first: the chunk itself, then for each import in turn the chunks
      that can be reached from it around everything listed before. */
  lemma VisitOrderStep(m: Chunks, w: Walk, key: string, i: nat)
    requires key !in w.visited && key in m && i < |m[key].imports|
    ensures
      var start := Walk(w.visited + [key], AddAll(w.js, FilesOf(m[key])), AddAll(w.css, m[key].css));
      var before := VisitEach(m, start, m[key].imports[..i]).visited;
      var after := VisitEach(m, start, m[key].imports[..i + 1]).visited;
      && start.visited <= before <= after <= Visit(m, w, key).visited
      && (forall k :: k in after <==> k in before || Reaches(m, m[key].imports[i], k, before))
  {
    var imports := m[key].imports;
    var start := Walk(w.visited + [key], AddAll(w.js, FilesOf(m[key])), AddAll(w.css, m[key].css));
    VisitEachConcat(m, start, imports[..i], [imports[i]]);
    assert imports[..i] + [imports[i]] == imports[..i + 1];
    var before := VisitEach(m, start, imports[..i]);
    assert VisitEach(m, before, [imports[i]]) == Visit(m, before, imports[i]);
    VisitReaches(m, before, imports[i]);
    VisitEachConcat(m, start, imports[..i + 1], imports[i + 1..]);
    assert imports[..i + 1] + imports[i + 1..] == imports;
  }

  lemma {:induction false} VisitEachConcat(m: Chunks, w: Walk, xs: seq<string>, ys: seq<string>)
    ensures VisitEach(m, w, xs + ys) == VisitEach(m, VisitEach(m, w, xs), ys)
    decreases |xs|
  {
    if xs == [] {
      assert xs + ys == ys;
    } else {
      assert (xs + ys)[1..] == xs[1..] + ys;
      VisitEachConcat(m, Visit(m, w, xs[0]), xs[1..], ys);
    }
  }

  // ---------------------------------------------------------------- order

  /** The position of the first chunk of the order that carries the asset, or its length. */
  function FirstCarrier(m: Chunks, order: seq<string>, x: Asset): (i: nat)
    ensures i <= |order| && (i < |order| ==> order[i] in m && ChunkHas(m[order[i]], x))
    ensures forall j :: 0 <= j < i && order[j] in m ==> !ChunkHas(m[order[j]], x)
  {
    if order == [] then 0
    else
      var init, last := order[..|order| - 1], order[|order| - 1];
      var i := FirstCarrier(m, init, x);
      assert forall j :: 0 <= j < |init| ==> init[j] == order[j];
      if i < |init| then i else if last in m && ChunkHas(m[last], x) then |init| else |order|
  }

  /** The file names: each once, exactly those that a chunk of the order carries, one chunk's file
      before the next one's. */
  ghost predicate FilesListed(m: Chunks, order: seq<string>, js: seq<string>) {
    && Distinct(js)
    && (forall x :: x in js <==> FirstCarrier(m, order, Js(x)) < |order|)
    && forall i, j :: 0 <= i < j < |js| ==> FirstCarrier(m, order, Js(js[i])) < FirstCarrier(m, order, Js(js[j]))
  }

  /** Where a style sheet comes: by the first chunk that carries it, and inside that chunk's list. */
  ghost predicate CssBefore(m: Chunks, order: seq<string>, a: string, b: string) {
    var i, j := FirstCarrier(m, order, Css(a)), FirstCarrier(m, order, Css(b));
    i < j || (i == j < |order| && FirstIndex(m[order[i]].css, a) < FirstIndex(m[order[i]].css, b))
  }

  ghost predicate CssListed(m: Chunks, order: seq<string>, css: seq<string>) {
    && Distinct(css)
    && (forall x :: x in css <==> FirstCarrier(m, order, Css(x)) < |order|)
    && forall i, j :: 0 <= i < j < |css| ==> CssBefore(m, order, css[i], css[j])
  }

  lemma CarrierNext(m: Chunks, order: seq<string>, k: string, x: Asset)
    ensures FirstCarrier(m, order + [k], x) ==
      var i := FirstCarrier(m, order, x);
      if i < |order| then i else if k in m && ChunkHas(m[k], x) then |order| else |order| + 1
  {
    assert (order + [k])[..|order|] == order;
  }

  ghost predicate Names(m: Chunks, k: string, name: string) {
    k in m && ChunkHas(m[k], Js(name))
  }

  lemma FileCarrier(m: Chunks, order: seq<string>, k: string, js: seq<string>, x: string)
    requires FilesListed(m, order, js)
    ensures FirstCarrier(m, order + [k], Js(x)) ==
      if x in js then FirstCarrier(m, order, Js(x)) else if Names(m, k, x) then |order| else |order| + 1
  {
    CarrierNext(m, order, k, Js(x));
  }

  /** One more chunk that names no file, ... */
  lemma NoFileAdded(m: Chunks, order: seq<string>, k: string, js: seq<string>)
    requires FilesListed(m, order, js) && forall x :: !Names(m, k, x)
    ensures FilesListed(m, order + [k], js)
  {
    forall x
      ensures FirstCarrier(m, order + [k], Js(x)) == if x in js then FirstCarrier(m, order, Js(x)) else |order| + 1
    {
      FileCarrier(m, order, k, js, x);
    }
  }

  /** ... or one. */
  lemma OneFileAdded(m: Chunks, order: seq<string>, k: string, js: seq<string>, name: string)
    requires FilesListed(m, order, js) && forall x :: Names(m, k, x) <==> x == name
    ensures FilesListed(m, order + [k], Add(js, name))
  {
    var before, after := x => FirstCarrier(m, order, Js(x)), x => FirstCarrier(m, order + [k], Js(x));
    forall x
      ensures after(x) == if x in js then before(x) else if x == name then |order| else |order| + 1
    {
      FileCarrier(m, order, k, js, x);
    }
    RankedNext(|order|, before, after, js, name);
    assert forall x :: FirstCarrier(m, order + [k], Js(x)) == after(x);
  }

  lemma FileAdded(m: Chunks, order: seq<string>, k: string, js: seq<string>)
    requires FilesListed(m, order, js)
    ensures FilesListed(m, order + [k], AddAll(js, if k in m then FilesOf(m[k]) else []))
  {
    if k in m && m[k].file.Some? && m[k].file.value != "" {
      var name := m[k].file.value;
      OneFileAdded(m, order, k, js, name);
      assert [name][1..] == [] && AddAll(js, [name]) == AddAll(Add(js, name), []);
    } else {
      NoFileAdded(m, order, k, js);
      assert AddAll(js, if k in m then FilesOf(m[k]) else []) == js;
    }
  }

  lemma CssAdded(m: Chunks, order: seq<string>, k: string, css: seq<string>)
    requires CssListed(m, order, css)
    ensures CssListed(m, order + [k], AddAll(css, if k in m then m[k].css else []))
  {
    var more := if k in m then m[k].css else [];
    var all := AddAll(css, more);
    AddAllMembers(css, more);
    AddAllOrder(css, more);
    assert (order + [k])[..|order|] == order;
    forall x
      ensures FirstCarrier(m, order + [k], Css(x)) ==
        if x in css then FirstCarrier(m, order, Css(x)) else if x in more then |order| else |order| + 1
    {
      CarrierNext(m, order, k, Css(x));
    }
    forall i, j | 0 <= i < j < |all|
      ensures CssBefore(m, order + [k], all[i], all[j])
    {
      if j < |css| {
        assert CssBefore(m, order, css[i], css[j]);
      }
    }
  }

  lemma {:induction false} AllListed(m: Chunks, order: seq<string>)
    ensures FilesListed(m, order, Dedup(AllFiles(m, order))) && CssListed(m, order, Dedup(AllCss(m, order)))
    decreases |order|
  {
    if order != [] {
      var init, k := order[..|order| - 1], order[|order| - 1];
      var js, css := if k in m then FilesOf(m[k]) else [], if k in m then m[k].css else [];
      assert order == init + [k];
      AllListed(m, init);
      AllConcat(m, init, [k]);
      assert [k][1..] == [] && js + [] == js && css + [] == css;
      assert AllFiles(m, [k]) == js + AllFiles(m, []) && AllCss(m, [k]) == css + AllCss(m, []);
      AddAllConcat<string>([], AllFiles(m, init), js);
      AddAllConcat<string>([], AllCss(m, init), css);
      FileAdded(m, init, k, Dedup(AllFiles(m, init)));
      CssAdded(m, init, k, Dedup(AllCss(m, init)));
    }
  }

  /** The walk visits exactly the chunks reachable through imports, each once; it returns the files
      and the style sheets they carry, without duplicates, in the order of the first visit.
      Manifests may be cyclic. */
  lemma FetchExact(m: Chunks, routeFile: string)
    ensures Distinct(VisitOrder(m, routeFile))
    ensures forall k :: k in VisitOrder(m, routeFile) <==> Reaches(m, routeFile, k, [])
    ensures FilesListed(m, VisitOrder(m, routeFile), Fetch(m, routeFile).js)
    ensures CssListed(m, VisitOrder(m, routeFile), Fetch(m, routeFile).css)
  {
    FetchLists(m, routeFile);
    AllListed(m, VisitOrder(m, routeFile));
  }

  lemma {:induction false} AllMembers(m: Chunks, keys: seq<string>, x: Asset)
    ensures Has(Assets(AllFiles(m, keys), AllCss(m, keys)), x) <==>
      exists k :: k in keys && k in m && ChunkHas(m[k], x)
  {
    if keys != [] {
      AllMembers(m, keys[1..], x);
      assert keys == [keys[0]] + keys[1..];
    }
  }

  /** As sets: an asset is returned exactly when some reachable chunk carries it. */
  lemma FetchMembers(m: Chunks, routeFile: string, x: Asset)
    ensures Has(Fetch(m, routeFile), x) <==>
      exists k :: k in m && Reaches(m, routeFile, k, []) && ChunkHas(m[k], x)
  {
    FetchLists(m, routeFile);
    var order := VisitOrder(m, routeFile);
    AllMembers(m, order, x);
    AddAllMembers<string>([], AllFiles(m, order));
    AddAllMembers<string>([], AllCss(m, order));
  }
}
