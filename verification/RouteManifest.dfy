/** The route manifest: for every served path the assets of the main entry, of all layouts above
    the route and of the route itself (frontend/routeMapper.ts, generateRouteKeys and
    generateRouteManifest). */
module RouteManifest {
  import opened Wrappers
  import opened OrderedSets
  import opened ImportGraph
  import opened RoutePaths

  /** The parsed manifest: an object, so its keys are distinct and come in some order. */
  datatype Manifest = Manifest(keys: seq<string>, chunks: Chunks)

  ghost predicate Valid(m: Manifest) {
    Distinct(m.keys) && forall k :: k in m.keys <==> k in m.chunks
  }

  datatype RouteEntry = RouteEntry(path: string, assets: Assets)

  const NO_ASSETS := Assets([], [])

  function Plus(a: Assets, b: Assets): Assets {
    Assets(a.js + b.js, a.css + b.css)
  }

  function DedupAssets(a: Assets): Assets {
    Assets(Dedup(a.js), Dedup(a.css))
  }

  predicate IsRouteFile(file: string) {
    Includes(file, ROUTES) && EndsWith(file, ".tsx" + SPLIT_SUFFIX)
  }

  /** Route files have "src/routes/" somewhere in their name, which ends as that of a split component. */
  lemma IsRouteFileExact(file: string)
    ensures IsRouteFile(file) <==>
      (exists a, b :: file == a + "src/routes/" + b) && exists a :: file == a + ".tsx?tsr-split=component"
  {
    SplitTail();
    if i: nat :| i <= |file| && StartsAt(file, ROUTES, i) {
      assert file == file[..i] + "src/routes/" + file[i + |ROUTES|..];
    }
    if a, b :| file == a + "src/routes/" + b {
      assert StartsAt(file, ROUTES, |a|);
    }
    if EndsWith(file, ".tsx" + SPLIT_SUFFIX) {
      assert file == file[..|file| - 24] + ".tsx?tsr-split=component";
    }
    if a :| file == a + ".tsx?tsr-split=component" {
      assert file[|a|..] == ".tsx?tsr-split=component";
    }
  }

  function RouteFiles(keys: seq<string>): seq<string> {
    if keys == [] then []
    else (if IsRouteFile(keys[0]) then [keys[0]] else []) + RouteFiles(keys[1..])
  }

  /** The first manifest key that strips to the id. */
  function FindKey(keys: seq<string>, id: string): (r: Option<string>)
    ensures r.None? <==> forall k :: k in keys ==> StrippedRoute(k) != id
    ensures r.Some? ==> r.value in keys && StrippedRoute(r.value) == id
  {
    if keys == [] then None
    else if StrippedRoute(keys[0]) == id then Some(keys[0])
    else FindKey(keys[1..], id)
  }

  function FindEntry(keys: seq<string>, chunks: Chunks): (r: Option<string>)
    requires forall k :: k in keys ==> k in chunks
    ensures r.None? <==> forall k :: k in keys ==> !chunks[k].isEntry
    ensures r.Some? ==> r.value in keys && chunks[r.value].isEntry
  {
    if keys == [] then None
    else if chunks[keys[0]].isEntry then Some(keys[0])
    else FindEntry(keys[1..], chunks)
  }

  /** An absent key and the empty key both count as not found. */
  function Truthy(key: Option<string>): seq<string> {
    if key.Some? && key.value != "" then [key.value] else []
  }

  function MainKeys(m: Manifest): seq<string>
    requires Valid(m)
  {
    Truthy(FindEntry(m.keys, m.chunks))
  }

  function LayoutKeys(keys: seq<string>, ids: seq<string>): seq<string> {
    if ids == [] then [] else Truthy(FindKey(keys, ids[0])) + LayoutKeys(keys, ids[1..])
  }

  /** The manifest keys whose import closures a route file pulls in. */
  function SourceKeys(m: Manifest, routeFile: string): seq<string> {
    LayoutKeys(m.keys, RouteIds(StrippedRoute(routeFile)))
  }

  function FetchAll(chunks: Chunks, roots: seq<string>): Assets {
    if roots == [] then NO_ASSETS else Plus(Fetch(chunks, roots[0]), FetchAll(chunks, roots[1..]))
  }

  function Contribution(m: Manifest, routeFile: string): Assets
    requires Valid(m)
  {
    Plus(FetchAll(m.chunks, MainKeys(m)), FetchAll(m.chunks, SourceKeys(m, routeFile)))
  }

  function ContributionTo(m: Manifest, routeFile: string, path: string): Assets
    requires Valid(m)
  {
    if PathOf(routeFile) == path then Contribution(m, routeFile) else NO_ASSETS
  }

  function Contributions(m: Manifest, files: seq<string>, path: string): Assets
    requires Valid(m)
  {
    if files == [] then NO_ASSETS
    else Plus(ContributionTo(m, files[0], path), Contributions(m, files[1..], path))
  }

  function PathsOf(files: seq<string>): seq<string> {
    if files == [] then [] else [PathOf(files[0])] + PathsOf(files[1..])
  }

  /** The paths of the result: each once, in the order of their first route file. */
  function Paths(m: Manifest): seq<string> {
    Dedup(PathsOf(RouteFiles(m.keys)))
  }

  function EntryFor(m: Manifest, path: string): RouteEntry
    requires Valid(m)
  {
    RouteEntry(path, DedupAssets(Contributions(m, RouteFiles(m.keys), path)))
  }

  // ---------------------------------------------------------------- the generator

  lemma PlusAssoc(a: Assets, b: Assets, c: Assets)
    ensures Plus(Plus(a, b), c) == Plus(a, Plus(b, c))
    ensures Plus(NO_ASSETS, a) == a && Plus(a, NO_ASSETS) == a
  {
    assert (a.js + b.js) + c.js == a.js + (b.js + c.js);
    assert (a.css + b.css) + c.css == a.css + (b.css + c.css);
  }

  lemma {:induction false} FetchAllConcat(chunks: Chunks, a: seq<string>, b: seq<string>)
    ensures FetchAll(chunks, a + b) == Plus(FetchAll(chunks, a), FetchAll(chunks, b))
  {
    if a == [] {
      assert a + b == b;
      PlusAssoc(FetchAll(chunks, b), NO_ASSETS, NO_ASSETS);
    } else {
      assert (a + b)[1..] == a[1..] + b;
      FetchAllConcat(chunks, a[1..], b);
      PlusAssoc(Fetch(chunks, a[0]), FetchAll(chunks, a[1..]), FetchAll(chunks, b));
    }
  }

  lemma LayoutNext(m: Manifest, ids: seq<string>, i: nat)
    requires Valid(m) && i < |ids|
    ensures FetchAll(m.chunks, LayoutKeys(m.keys, ids[i..])) ==
      Plus(FetchAll(m.chunks, Truthy(FindKey(m.keys, ids[i]))), FetchAll(m.chunks, LayoutKeys(m.keys, ids[i + 1..])))
  {
    assert ids[i..][1..] == ids[i + 1..];
    FetchAllConcat(m.chunks, Truthy(FindKey(m.keys, ids[i])), LayoutKeys(m.keys, ids[i + 1..]));
  }

  lemma FetchOne(chunks: Chunks, key: string)
    ensures FetchAll(chunks, [key]) == Fetch(chunks, key)
  {
    PlusAssoc(Fetch(chunks, key), NO_ASSETS, NO_ASSETS);
    assert [key][1..] == [];
  }

  /** The body of the loop over the layout ids: the closure of the id's key, if it has one. */
  method FetchLayout(id: string, m: Manifest) returns (chunks: Assets)
    requires Valid(m)
    ensures chunks == FetchAll(m.chunks, Truthy(FindKey(m.keys, id)))
  {
    var key := FindKey(m.keys, id);
    if key.None? || key.value == "" { return NO_ASSETS; }
    chunks := FetchImportRoutes(key.value, m.chunks);
    FetchOne(m.chunks, key.value);
  }

  method GenerateRouteKeys(routeFile: string, m: Manifest) returns (a: Assets)
    requires Valid(m)
    ensures a == FetchAll(m.chunks, SourceKeys(m, routeFile))
  {
    var routeIds := LayoutChain(StrippedRoute(routeFile));
    a := NO_ASSETS;
    ghost var all := FetchAll(m.chunks, LayoutKeys(m.keys, routeIds));
    PlusAssoc(all, NO_ASSETS, NO_ASSETS);
    for i := 0 to |routeIds|
      invariant all == Plus(a, FetchAll(m.chunks, LayoutKeys(m.keys, routeIds[i..])))
    {
      var chunks := FetchLayout(routeIds[i], m);
      LayoutNext(m, routeIds, i);
      PlusAssoc(a, chunks, FetchAll(m.chunks, LayoutKeys(m.keys, routeIds[i + 1..])));
      a := Plus(a, chunks);
    }
    PlusAssoc(a, NO_ASSETS, NO_ASSETS);
  }

  lemma {:induction false} ContributionsConcat(m: Manifest, a: seq<string>, b: seq<string>, path: string)
    requires Valid(m)
    ensures Contributions(m, a + b, path) == Plus(Contributions(m, a, path), Contributions(m, b, path))
  {
    if a == [] {
      assert a + b == b;
      PlusAssoc(Contributions(m, b, path), NO_ASSETS, NO_ASSETS);
    } else {
      assert (a + b)[1..] == a[1..] + b;
      ContributionsConcat(m, a[1..], b, path);
      PlusAssoc(ContributionTo(m, a[0], path), Contributions(m, a[1..], path), Contributions(m, b, path));
    }
  }

  lemma {:induction false} PathsOfConcat(a: seq<string>, b: seq<string>)
    ensures PathsOf(a + b) == PathsOf(a) + PathsOf(b)
  {
    if a == [] {
      assert a + b == b;
    } else {
      assert (a + b)[1..] == a[1..] + b;
      PathsOfConcat(a[1..], b);
    }
  }

  lemma {:induction false} NoContribution(m: Manifest, files: seq<string>, path: string)
    requires Valid(m) && path !in PathsOf(files)
    ensures Contributions(m, files, path) == NO_ASSETS
  {
    if files != [] {
      NoContribution(m, files[1..], path);
    }
  }

  /** What the map of path entries holds once the first route files have been merged. */
  ghost predicate Merged(m: Manifest, files: seq<string>, order: seq<string>, sets: map<string, Assets>)
    requires Valid(m)
  {
    order == Dedup(PathsOf(files)) && SameKeys(order, sets) && MergedEntries(m, files, order, sets)
  }

  ghost predicate SameKeys(order: seq<string>, sets: map<string, Assets>) {
    forall p :: p in sets <==> p in order
  }

  ghost predicate MergedEntries(m: Manifest, files: seq<string>, order: seq<string>, sets: map<string, Assets>)
    requires Valid(m) && SameKeys(order, sets)
  {
    forall p :: p in order ==> MergedEntry(m, files, p, sets[p])
  }

  /** The entry of one path after the given route files. */
  ghost predicate MergedEntry(m: Manifest, files: seq<string>, p: string, entry: Assets)
    requires Valid(m)
  {
    entry == DedupAssets(Contributions(m, files, p))
  }

  function AddAssets(a: Assets, b: Assets): Assets {
    Assets(AddAll(a.js, b.js), AddAll(a.css, b.css))
  }

  lemma ContributionsNext(m: Manifest, files: seq<string>, f: string, path: string)
    requires Valid(m)
    ensures DedupAssets(Contributions(m, files + [f], path)) ==
      AddAssets(DedupAssets(Contributions(m, files, path)), ContributionTo(m, f, path))
  {
    ContributionsConcat(m, files, [f], path);
    PlusAssoc(ContributionTo(m, f, path), NO_ASSETS, NO_ASSETS);
    assert [f][1..] == [];
    var before, more := Contributions(m, files, path), ContributionTo(m, f, path);
    AddAllConcat<string>([], before.js, more.js);
    AddAllConcat<string>([], before.css, more.css);
  }

  lemma OrderNext(files: seq<string>, f: string)
    ensures Dedup(PathsOf(files + [f])) == Add(Dedup(PathsOf(files)), PathOf(f))
    ensures forall p :: p in Dedup(PathsOf(files)) <==> p in PathsOf(files)
  {
    PathsOfConcat(files, [f]);
    assert PathsOf([f]) == [PathOf(f)];
    AddAllConcat<string>([], PathsOf(files), [PathOf(f)]);
    AddAllMembers<string>([], PathsOf(files));
  }

  /** What the entry of one path becomes with the next route file. */
  ghost function NextEntry(m: Manifest, sets: map<string, Assets>, f: string, p: string): Assets
    requires Valid(m)
  {
    var start := if p in sets then sets[p] else NO_ASSETS;
    if p == PathOf(f) then AddAssets(start, Contribution(m, f)) else start
  }

  lemma EntryNext(m: Manifest, files: seq<string>, order: seq<string>, sets: map<string, Assets>, f: string, p: string)
    requires Valid(m) && Merged(m, files, order, sets) && p in Add(order, PathOf(f))
    ensures MergedEntry(m, files + [f], p, NextEntry(m, sets, f, p))
  {
    OrderNext(files, f);
    ContributionsNext(m, files, f, p);
    AddNothing(DedupAssets(Contributions(m, files, p)));
    if p in order {
      assert MergedEntry(m, files, p, sets[p]);
    } else {
      NoContribution(m, files, p);
    }
  }

  lemma AddNothing(a: Assets)
    ensures AddAssets(a, NO_ASSETS) == a
  {
  }

  lemma KeysNext(order: seq<string>, sets: map<string, Assets>, path: string, entry: Assets)
    requires SameKeys(order, sets)
    ensures SameKeys(Add(order, path), sets[path := entry])
  {
  }

  lemma MergedNext(m: Manifest, files: seq<string>, order: seq<string>, sets: map<string, Assets>,
                   f: string, path: string, entry: Assets)
    requires Valid(m) && Merged(m, files, order, sets) && path == PathOf(f)
    requires entry == NextEntry(m, sets, f, path)
    ensures Merged(m, files + [f], Add(order, path), sets[path := entry])
  {
    OrderNext(files, f);
    KeysNext(order, sets, path, entry);
    EntriesNext(m, files, order, sets, f, entry);
  }

  lemma EntriesNext(m: Manifest, files: seq<string>, order: seq<string>, sets: map<string, Assets>, f: string, entry: Assets)
    requires Valid(m) && Merged(m, files, order, sets) && entry == NextEntry(m, sets, f, PathOf(f))
    ensures forall p :: p in Add(order, PathOf(f)) ==>
      p in sets[PathOf(f) := entry] && MergedEntry(m, files + [f], p, sets[PathOf(f) := entry][p])
  {
    forall p | p in Add(order, PathOf(f))
      ensures p in sets[PathOf(f) := entry] && MergedEntry(m, files + [f], p, sets[PathOf(f) := entry][p])
    {
      EntryNext(m, files, order, sets, f, p);
    }
  }

  method FilterRouteFiles(keys: seq<string>) returns (files: seq<string>)
    ensures files == RouteFiles(keys)
  {
    files := [];
    for i := 0 to |keys|
      invariant RouteFiles(keys) == files + RouteFiles(keys[i..])
    {
      assert keys[i..][1..] == keys[i + 1..];
      if IsRouteFile(keys[i]) {
        files := files + [keys[i]];
      }
    }
  }

  method MainEntryChunks(m: Manifest) returns (main: Assets)
    requires Valid(m)
    ensures main == FetchAll(m.chunks, MainKeys(m))
  {
    var mainKey := FindEntry(m.keys, m.chunks);
    main := NO_ASSETS;
    if mainKey.Some? && mainKey.value != "" {
      main := FetchImportRoutes(mainKey.value, m.chunks);
      FetchOne(m.chunks, mainKey.value);
    }
  }

  /** The four loops that add the main and the route's own assets to the entry of one path. */
  method AddRoute(m: Manifest, main: Assets, routeFile: string, start: Assets) returns (entry: Assets)
    requires Valid(m) && main == FetchAll(m.chunks, MainKeys(m))
    ensures entry == AddAssets(start, Contribution(m, routeFile))
  {
    var specific := GenerateRouteKeys(routeFile, m);
    var js := AddEach(start.js, main.js);
    var css := AddEach(start.css, main.css);
    js := AddEach(js, specific.js);
    css := AddEach(css, specific.css);
    AddAllConcat(start.js, main.js, specific.js);
    AddAllConcat(start.css, main.css, specific.css);
    entry := Assets(js, css);
  }

  /** The body of the loop over the route files. */
  method MergeRoute(m: Manifest, main: Assets, routeFile: string, ghost done: seq<string>,
                    order: seq<string>, sets: map<string, Assets>)
    returns (order': seq<string>, sets': map<string, Assets>)
    requires Valid(m) && main == FetchAll(m.chunks, MainKeys(m)) && Merged(m, done, order, sets)
    ensures Merged(m, done + [routeFile], order', sets')
  {
    var path := GeneratePath(routeFile);
    var start := if path in sets then sets[path] else NO_ASSETS;
    var entry := AddRoute(m, main, routeFile, start);
    order', sets' := Add(order, path), sets[path := entry];
    MergedNext(m, done, order, sets, routeFile, path, entry);
  }

  /** One entry per path, in the order of the first route file, with the merged assets. */
  ghost predicate IsManifestOf(m: Manifest, entries: seq<RouteEntry>)
    requires Valid(m)
  {
    && |entries| == |Paths(m)|
    && forall i :: 0 <= i < |entries| ==> entries[i] == EntryFor(m, Paths(m)[i])
  }

  lemma EntriesListed(m: Manifest, order: seq<string>, sets: map<string, Assets>, entries: seq<RouteEntry>)
    requires Valid(m) && Merged(m, RouteFiles(m.keys), order, sets)
    requires |entries| == |order|
    requires forall i :: 0 <= i < |order| ==> entries[i] == RouteEntry(order[i], sets[order[i]])
    ensures IsManifestOf(m, entries)
  {
    assert order == Paths(m);
    forall i | 0 <= i < |entries|
      ensures entries[i] == EntryFor(m, order[i])
    {
      assert order[i] in order;
    }
  }

  lemma MergedStart(m: Manifest)
    requires Valid(m)
    ensures Merged(m, [], [], map[])
  {
  }

  lemma MergedOrder(m: Manifest, files: seq<string>, order: seq<string>, sets: map<string, Assets>)
    requires Valid(m) && Merged(m, files, order, sets)
    ensures forall p :: p in order ==> p in sets
  {
  }

  /** The loop over the route files; the two results are the Map of path entries. */
  method MergeRoutes(m: Manifest, main: Assets, routeKeys: seq<string>)
    returns (order: seq<string>, sets: map<string, Assets>)
    requires Valid(m) && main == FetchAll(m.chunks, MainKeys(m))
    ensures Merged(m, routeKeys, order, sets)
  {
    order, sets := [], map[];
    MergedStart(m);
    ghost var done: seq<string> := [];
    for i := 0 to |routeKeys|
      invariant done == routeKeys[..i] && Merged(m, done, order, sets)
    {
      TakeNext(routeKeys, i);
      order, sets := MergeRoute(m, main, routeKeys[i], done, order, sets);
      done := done + [routeKeys[i]];
    }
    assert done == routeKeys;
  }

  method GenerateRouteManifest(m: Manifest) returns (entries: seq<RouteEntry>)
    requires Valid(m)
    ensures IsManifestOf(m, entries)
  {
    var routeKeys := FilterRouteFiles(m.keys);
    var main := MainEntryChunks(m);
    var order, sets := MergeRoutes(m, main, routeKeys);
    MergedOrder(m, routeKeys, order, sets);
    entries := ListEntries(order, sets);
    EntriesListed(m, order, sets, entries);
  }

  method ListEntries(order: seq<string>, sets: map<string, Assets>) returns (entries: seq<RouteEntry>)
    requires forall p :: p in order ==> p in sets
    ensures |entries| == |order|
    ensures forall i :: 0 <= i < |order| ==> entries[i] == RouteEntry(order[i], sets[order[i]])
  {
    entries := [];
    for i := 0 to |order|
      invariant |entries| == i
      invariant forall j :: 0 <= j < i ==> entries[j] == RouteEntry(order[j], sets[order[j]])
    {
      entries := entries + [RouteEntry(order[i], sets[order[i]])];
    }
  }

  // ---------------------------------------------------------------- what each entry carries

  /** Some chunk in the import closure of root carries the asset. */
  ghost predicate Supplies(chunks: Chunks, root: string, x: Asset) {
    exists k :: k in chunks && Reaches(chunks, root, k, []) && ChunkHas(chunks[k], x)
  }

  ghost predicate ServedUnder(m: Manifest, path: string, f: string) {
    f in m.keys && IsRouteFile(f) && PathOf(f) == path
  }

  /** The key is the main entry or a chosen layout of the route file. */
  ghost predicate Source(m: Manifest, f: string, root: string)
    requires Valid(m)
  {
    root in MainKeys(m) || root in SourceKeys(m, f)
  }

  /** The key is the first entry chunk of the manifest. */
  ghost predicate MainEntry(m: Manifest, key: string)
    requires Valid(m)
  {
    key in m.keys && m.chunks[key].isEntry
    && forall j :: 0 <= j < FirstIndex(m.keys, key) ==> !m.chunks[m.keys[j]].isEntry
  }

  /** The key is the first one of the manifest that strips to the id. */
  ghost predicate FirstKey(m: Manifest, key: string, id: string) {
    key in m.keys && StrippedRoute(key) == id && NoneBefore(m.keys, FirstIndex(m.keys, key), id)
  }

  /** What an entry is made of: the main entry, the root layout, every parent layout that is
      present, and the route itself. */
  ghost predicate RootOf(m: Manifest, f: string, root: string)
    requires Valid(m)
  {
    root != "" &&
    (MainEntry(m, root) || exists id, i :: LayoutOf(StrippedRoute(f), id, i) && FirstKey(m, root, id))
  }

  ghost predicate Wanted(m: Manifest, path: string, x: Asset)
    requires Valid(m)
  {
    exists f, root :: ServedUnder(m, path, f) && RootOf(m, f, root) && Supplies(m.chunks, root, x)
  }

  lemma PlusHas(a: Assets, b: Assets, x: Asset)
    ensures Has(Plus(a, b), x) <==> Has(a, x) || Has(b, x)
  {
  }

  lemma {:induction false} FetchAllMembers(chunks: Chunks, roots: seq<string>, x: Asset)
    ensures Has(FetchAll(chunks, roots), x) <==> exists r :: r in roots && Supplies(chunks, r, x)
  {
    if roots != [] {
      FetchAllMembers(chunks, roots[1..], x);
      FetchMembers(chunks, roots[0], x);
      PlusHas(Fetch(chunks, roots[0]), FetchAll(chunks, roots[1..]), x);
      assert Has(Fetch(chunks, roots[0]), x) <==> Supplies(chunks, roots[0], x);
      assert forall r :: r in roots <==> r == roots[0] || r in roots[1..];
    }
  }

  lemma ContributionMembers(m: Manifest, f: string, x: Asset)
    requires Valid(m)
    ensures Has(Contribution(m, f), x) <==> exists r :: Source(m, f, r) && Supplies(m.chunks, r, x)
  {
    FetchAllMembers(m.chunks, MainKeys(m), x);
    FetchAllMembers(m.chunks, SourceKeys(m, f), x);
    PlusHas(FetchAll(m.chunks, MainKeys(m)), FetchAll(m.chunks, SourceKeys(m, f)), x);
  }

  lemma {:induction false} ContributionsMembers(m: Manifest, files: seq<string>, path: string, x: Asset)
    requires Valid(m)
    ensures Has(Contributions(m, files, path), x) <==>
      exists f :: f in files && PathOf(f) == path && Has(Contribution(m, f), x)
  {
    if files != [] {
      ContributionsMembers(m, files[1..], path, x);
      PlusHas(ContributionTo(m, files[0], path), Contributions(m, files[1..], path), x);
      assert forall f :: f in files <==> f == files[0] || f in files[1..];
    }
  }

  lemma {:induction false} RouteFilesMembers(keys: seq<string>)
    ensures forall f :: f in RouteFiles(keys) <==> f in keys && IsRouteFile(f)
  {
    if keys != [] {
      RouteFilesMembers(keys[1..]);
      assert keys == [keys[0]] + keys[1..];
    }
  }

  lemma {:induction false} PathsOfMembers(files: seq<string>, path: string)
    ensures path in PathsOf(files) <==> exists f :: f in files && PathOf(f) == path
  {
    if files != [] {
      PathsOfMembers(files[1..], path);
      assert files == [files[0]] + files[1..];
    }
  }

  lemma {:induction false} FindEntryFirst(keys: seq<string>, chunks: Chunks, k: string)
    requires (forall k :: k in keys ==> k in chunks) && k in keys
    ensures FindEntry(keys, chunks) == Some(k) <==>
      chunks[k].isEntry && forall j :: 0 <= j < FirstIndex(keys, k) ==> !chunks[keys[j]].isEntry
  {
    if keys[0] != k {
      assert keys == [keys[0]] + keys[1..];
      FindEntryFirst(keys[1..], chunks, k);
      assert FirstIndex(keys, k) == FirstIndex(keys[1..], k) + 1;
      EntryTail(keys, chunks, FirstIndex(keys, k));
    }
  }

  lemma EntryTail(keys: seq<string>, chunks: Chunks, n: nat)
    requires (forall k :: k in keys ==> k in chunks) && 0 < n <= |keys|
    ensures (forall j :: 0 <= j < n ==> !chunks[keys[j]].isEntry) <==>
      !chunks[keys[0]].isEntry && forall j :: 0 <= j < n - 1 ==> !chunks[keys[1..][j]].isEntry
  {
    assert forall j :: 1 <= j < n ==> keys[j] == keys[1..][j - 1];
    if forall j :: 0 <= j < n ==> !chunks[keys[j]].isEntry {
      assert forall j :: 0 <= j < n - 1 ==> keys[1..][j] == keys[j + 1];
    }
  }

  /** The keys the code collects are exactly the main entry, the present layouts and the route. */
  lemma RootExact(m: Manifest, f: string, root: string)
    requires Valid(m)
    ensures Source(m, f, root) <==> RootOf(m, f, root)
  {
    MainExact(m, root);
    LayoutsExact(m, f, root);
  }

  lemma MainExact(m: Manifest, root: string)
    requires Valid(m)
    ensures root in MainKeys(m) <==> root != "" && MainEntry(m, root)
  {
    if root in m.keys {
      FindEntryFirst(m.keys, m.chunks, root);
    }
  }

  lemma LayoutsExact(m: Manifest, f: string, root: string)
    ensures root in SourceKeys(m, f) <==>
      root != "" && exists id, i :: LayoutOf(StrippedRoute(f), id, i) && FirstKey(m, root, id)
  {
    var routeId := StrippedRoute(f);
    LayoutKeysMembers(m.keys, RouteIds(routeId), root);
    if root in m.keys {
      FindKeyFirst(m.keys, root);
    }
    if root in SourceKeys(m, f) {
      var id :| id in RouteIds(routeId) && FindKey(m.keys, id) == Some(root);
      ChainMembers(routeId, id);
      var i :| LayoutOf(routeId, id, i);
      assert FirstKey(m, root, id);
    }
    if id, i :| root != "" && LayoutOf(routeId, id, i) && FirstKey(m, root, id) {
      ChainMembers(routeId, id);
      assert id in RouteIds(routeId) && FindKey(m.keys, id) == Some(root);
    }
  }

  /** The asset set of an entry: exactly the import closures of the main entry, of the root layout,
      of each present parent layout and of the route itself, united over all route files that share
      the path; listed without duplicates. */
  lemma EntryAssets(m: Manifest, path: string, x: Asset)
    requires Valid(m)
    ensures Has(EntryFor(m, path).assets, x) <==> Wanted(m, path, x)
    ensures Distinct(EntryFor(m, path).assets.js) && Distinct(EntryFor(m, path).assets.css)
  {
    var files := RouteFiles(m.keys);
    var all := Contributions(m, files, path);
    DedupOrder(all.js);
    DedupOrder(all.css);
    ContributionsMembers(m, files, path, x);
    RouteFilesMembers(m.keys);
    forall f
      ensures Has(Contribution(m, f), x) <==> exists r :: RootOf(m, f, r) && Supplies(m.chunks, r, x)
    {
      ContributionMembers(m, f, x);
      forall r
        ensures Source(m, f, r) <==> RootOf(m, f, r)
      {
        RootExact(m, f, r);
      }
    }
  }

  /** Emitted paths are pairwise distinct and are exactly the paths of the route files. */
  lemma PathsExact(m: Manifest)
    ensures Distinct(Paths(m))
    ensures forall p :: p in Paths(m) <==> exists f :: f in m.keys && IsRouteFile(f) && PathOf(f) == p
  {
    DedupOrder(PathsOf(RouteFiles(m.keys)));
    RouteFilesMembers(m.keys);
    forall p
      ensures p in PathsOf(RouteFiles(m.keys)) <==> exists f :: f in RouteFiles(m.keys) && PathOf(f) == p
    {
      PathsOfMembers(RouteFiles(m.keys), p);
    }
  }

  lemma {:induction false} LayoutKeysMembers(keys: seq<string>, ids: seq<string>, k: string)
    ensures k in LayoutKeys(keys, ids) <==>
      k != "" && exists id :: id in ids && FindKey(keys, id) == Some(k)
  {
    if ids != [] {
      LayoutKeysMembers(keys, ids[1..], k);
      assert ids == [ids[0]] + ids[1..];
    }
  }

  /** A route's own chunk is among its sources exactly when its id does not start with a
      separator and no earlier manifest key strips to the same id. */
  lemma OwnChunkIncluded(m: Manifest, routeFile: string)
    requires Valid(m) && routeFile in m.keys && IsRouteFile(routeFile)
    ensures
      var id := StrippedRoute(routeFile);
      routeFile in SourceKeys(m, routeFile) <==>
        && (id == "__root" || Split(id, '.')[0] != "" || |Split(id, '.')| == 1)
        && (forall j :: 0 <= j < FirstIndex(m.keys, routeFile) ==> StrippedRoute(m.keys[j]) != id)
  {
    var id := StrippedRoute(routeFile);
    LayoutKeysMembers(m.keys, RouteIds(id), routeFile);
    OwnIdInChain(id);
    FindKeyFirst(m.keys, routeFile);
  }

  ghost predicate NoneBefore(keys: seq<string>, n: nat, id: string)
    requires n <= |keys|
  {
    forall j :: 0 <= j < n ==> StrippedRoute(keys[j]) != id
  }

  lemma NoneBeforeTail(keys: seq<string>, n: nat, id: string)
    requires 0 < n <= |keys|
    ensures NoneBefore(keys, n, id) <==> StrippedRoute(keys[0]) != id && NoneBefore(keys[1..], n - 1, id)
  {
    assert forall j :: 1 <= j < n ==> keys[j] == keys[1..][j - 1];
    if NoneBefore(keys, n, id) {
      assert forall j :: 0 <= j < n - 1 ==> keys[1..][j] == keys[j + 1];
    }
  }

  lemma {:induction false} FindKeyFirst(keys: seq<string>, k: string)
    requires k in keys
    ensures FindKey(keys, StrippedRoute(k)) == Some(k) <==> NoneBefore(keys, FirstIndex(keys, k), StrippedRoute(k))
  {
    if keys[0] != k {
      assert keys == [keys[0]] + keys[1..];
      FindKeyFirst(keys[1..], k);
      assert FirstIndex(keys, k) == FirstIndex(keys[1..], k) + 1;
      NoneBeforeTail(keys, FirstIndex(keys, k), StrippedRoute(k));
    }
  }

  // ---------------------------------------------------------------- order

  /** The position of the first route file served under the path, or the number of keys. */
  function FirstFile(keys: seq<string>, path: string): (i: nat)
    ensures i <= |keys| && (i < |keys| ==> IsRouteFile(keys[i]) && PathOf(keys[i]) == path)
    ensures forall j :: 0 <= j < i ==> !(IsRouteFile(keys[j]) && PathOf(keys[j]) == path)
  {
    if keys == [] then 0
    else
      var init, last := keys[..|keys| - 1], keys[|keys| - 1];
      var i := FirstFile(init, path);
      assert forall j :: 0 <= j < |init| ==> init[j] == keys[j];
      if i < |init| then i else if IsRouteFile(last) && PathOf(last) == path then |init| else |keys|
  }

  /** The paths are those of the route files, each at its first one. */
  ghost predicate PathsListed(keys: seq<string>, paths: seq<string>) {
    && (forall p :: p in paths <==> FirstFile(keys, p) < |keys|)
    && forall i, j :: 0 <= i < j < |paths| ==> FirstFile(keys, paths[i]) < FirstFile(keys, paths[j])
  }

  lemma {:induction false} RouteFilesConcat(a: seq<string>, b: seq<string>)
    ensures RouteFiles(a + b) == RouteFiles(a) + RouteFiles(b)
  {
    if a == [] {
      assert a + b == b;
    } else {
      assert (a + b)[1..] == a[1..] + b;
      RouteFilesConcat(a[1..], b);
    }
  }

  lemma {:induction false} AllPathsListed(keys: seq<string>)
    ensures PathsListed(keys, Dedup(PathsOf(RouteFiles(keys))))
    decreases |keys|
  {
    if keys != [] {
      var init, last := keys[..|keys| - 1], keys[|keys| - 1];
      assert keys == init + [last];
      AllPathsListed(init);
      RouteFilesConcat(init, [last]);
      assert [last][1..] == [] && RouteFiles([last]) == if IsRouteFile(last) then [last] else [];
      if IsRouteFile(last) {
        OrderNext(RouteFiles(init), last);
        PathListed(init, last, Dedup(PathsOf(RouteFiles(init))));
      } else {
        assert RouteFiles(init) + [] == RouteFiles(init);
        NoPathListed(init, last, Dedup(PathsOf(RouteFiles(init))));
      }
    }
  }

  lemma FirstFileNext(keys: seq<string>, key: string, path: string)
    ensures FirstFile(keys + [key], path) ==
      var i := FirstFile(keys, path);
      if i < |keys| then i else if IsRouteFile(key) && PathOf(key) == path then |keys| else |keys| + 1
  {
    assert (keys + [key])[..|keys|] == keys;
  }

  lemma PathListed(keys: seq<string>, key: string, paths: seq<string>)
    requires PathsListed(keys, paths) && IsRouteFile(key)
    ensures PathsListed(keys + [key], Add(paths, PathOf(key)))
  {
    var before, after := p => FirstFile(keys, p), p => FirstFile(keys + [key], p);
    var path := PathOf(key);
    forall p
      ensures after(p) == if p in paths then before(p) else if p == path then |keys| else |keys| + 1
    {
      FirstFileNext(keys, key, p);
    }
    RankedNext(|keys|, before, after, paths, path);
    assert forall p :: after(p) == FirstFile(keys + [key], p);
  }

  lemma NoPathListed(keys: seq<string>, key: string, paths: seq<string>)
    requires PathsListed(keys, paths) && !IsRouteFile(key)
    ensures PathsListed(keys + [key], paths)
  {
    forall p
      ensures FirstFile(keys + [key], p) == if p in paths then FirstFile(keys, p) else |keys| + 1
    {
      FirstFileNext(keys, key, p);
    }
  }

  /** The entries come in the order of the first route file served under each path. */
  lemma PathsInOrder(m: Manifest)
    ensures PathsListed(m.keys, Paths(m))
  {
    AllPathsListed(m.keys);
  }

  lemma {:induction false} MainLeads(m: Manifest, files: seq<string>, path: string) returns (rest: Assets)
    requires Valid(m) && path in PathsOf(files)
    ensures Contributions(m, files, path) == Plus(FetchAll(m.chunks, MainKeys(m)), rest)
  {
    if PathOf(files[0]) == path {
      rest := Plus(FetchAll(m.chunks, SourceKeys(m, files[0])), Contributions(m, files[1..], path));
      PlusAssoc(FetchAll(m.chunks, MainKeys(m)), FetchAll(m.chunks, SourceKeys(m, files[0])),
        Contributions(m, files[1..], path));
    } else {
      rest := MainLeads(m, files[1..], path);
      PlusAssoc(Contributions(m, files[1..], path), NO_ASSETS, NO_ASSETS);
    }
  }

  /** In every entry the assets of the main entry come first. */
  lemma MainFirst(m: Manifest, path: string, key: string)
    requires Valid(m) && path in Paths(m) && key != "" && MainEntry(m, key)
    ensures Fetch(m.chunks, key).js <= EntryFor(m, path).assets.js
    ensures Fetch(m.chunks, key).css <= EntryFor(m, path).assets.css
  {
    var files := RouteFiles(m.keys);
    AddAllMembers<string>([], PathsOf(files));
    var rest := MainLeads(m, files, path);
    MainExact(m, key);
    FetchOne(m.chunks, key);
    FetchExact(m.chunks, key);
    var main := Fetch(m.chunks, key);
    DistinctDedup(main.js);
    DistinctDedup(main.css);
    AddAllConcat<string>([], main.js, rest.js);
    AddAllConcat<string>([], main.css, rest.css);
    AddAllMembers(main.js, rest.js);
    AddAllMembers(main.css, rest.css);
  }

  lemma {:induction false} DistinctDedup(xs: seq<string>)
    requires Distinct(xs)
    ensures Dedup(xs) == xs
    decreases |xs|
  {
    if xs != [] {
      var init, last := xs[..|xs| - 1], xs[|xs| - 1];
      assert xs == init + [last];
      DistinctDedup(init);
      AddAllConcat<string>([], init, [last]);
      assert AddAll(init, [last]) == Add(init, last);
    }
  }

  /** The keys a route file pulls in come in the order of the layout ids they strip to, from the
      root inwards. */
  lemma {:induction false} LayoutsInOrder(keys: seq<string>, ids: seq<string>, a: string, b: string)
    requires a in LayoutKeys(keys, ids) && b in LayoutKeys(keys, ids)
    ensures StrippedRoute(a) in ids && StrippedRoute(b) in ids
    ensures FirstIndex(LayoutKeys(keys, ids), a) < FirstIndex(LayoutKeys(keys, ids), b) <==>
      FirstIndex(ids, StrippedRoute(a)) < FirstIndex(ids, StrippedRoute(b))
  {
    LayoutAt(keys, ids, a);
    LayoutAt(keys, ids, b);
    if StrippedRoute(a) != ids[0] && StrippedRoute(b) != ids[0] {
      LayoutsInOrder(keys, ids[1..], a, b);
    }
  }

  /** Where a layout's key stands: first, or behind the first layout's where it stands among the
      others. */
  lemma LayoutAt(keys: seq<string>, ids: seq<string>, a: string)
    requires a in LayoutKeys(keys, ids)
    ensures StrippedRoute(a) in ids
    ensures StrippedRoute(a) == ids[0] ==>
      FirstIndex(LayoutKeys(keys, ids), a) == 0 && FirstIndex(ids, StrippedRoute(a)) == 0
    ensures StrippedRoute(a) != ids[0] ==>
      && a in LayoutKeys(keys, ids[1..]) && StrippedRoute(a) in ids[1..]
      && FirstIndex(ids, StrippedRoute(a)) == 1 + FirstIndex(ids[1..], StrippedRoute(a))
      && FirstIndex(LayoutKeys(keys, ids), a) ==
           |Truthy(FindKey(keys, ids[0]))| + FirstIndex(LayoutKeys(keys, ids[1..]), a)
  {
    var id := KeysId(keys, ids, a);
    if id == ids[0] {
      LayoutFirst(keys, ids, a);
    } else {
      LayoutBehind(keys, ids, a, id);
    }
  }

  lemma LayoutFirst(keys: seq<string>, ids: seq<string>, a: string)
    requires ids != [] && a != "" && FindKey(keys, ids[0]) == Some(a)
    ensures a in LayoutKeys(keys, ids) && FirstIndex(LayoutKeys(keys, ids), a) == 0
  {
    assert LayoutKeys(keys, ids)[0] == a;
  }

  lemma LayoutBehind(keys: seq<string>, ids: seq<string>, a: string, id: string)
    requires a in LayoutKeys(keys, ids) && id == StrippedRoute(a) != ids[0] && id in ids
    requires a != "" && FindKey(keys, id) == Some(a)
    ensures id in ids[1..] && FirstIndex(ids, id) == 1 + FirstIndex(ids[1..], id)
    ensures a in LayoutKeys(keys, ids[1..])
    ensures FirstIndex(LayoutKeys(keys, ids), a) ==
      |Truthy(FindKey(keys, ids[0]))| + FirstIndex(LayoutKeys(keys, ids[1..]), a)
  {
    var first, others := Truthy(FindKey(keys, ids[0])), LayoutKeys(keys, ids[1..]);
    assert id in ids[1..] && FirstIndex(ids, id) == 1 + FirstIndex(ids[1..], id) by {
      assert ids == [ids[0]] + ids[1..];
      FirstIndexBehind([ids[0]], ids[1..], id);
    }
    assert a in others && a !in first by {
      LayoutKeysMembers(keys, ids[1..], a);
    }
    FirstIndexBehind(first, others, a);
  }

  lemma KeysId(keys: seq<string>, ids: seq<string>, a: string) returns (id: string)
    requires a in LayoutKeys(keys, ids)
    ensures id == StrippedRoute(a) && id in ids && a != "" && FindKey(keys, id) == Some(a)
  {
    LayoutKeysMembers(keys, ids, a);
    id :| id in ids && FindKey(keys, id) == Some(a);
  }

  lemma FirstIndexBehind(xs: seq<string>, ys: seq<string>, x: string)
    requires x !in xs && x in ys
    ensures FirstIndex(xs + ys, x) == |xs| + FirstIndex(ys, x)
  {
    var i := FirstIndex(ys, x);
    assert (xs + ys)[..|xs| + i] == xs + ys[..i];
    FirstIndexUnique(xs + ys, x, |xs| + i);
  }

  // ---------------------------------------------------------------- key order

  ghost predicate OneEntryChunk(chunks: Chunks) {
    forall a, b :: a in chunks && b in chunks && chunks[a].isEntry && chunks[b].isEntry ==> a == b
  }

  /** At most one manifest key for every id that occurs in a layout chain. */
  ghost predicate OneKeyPerLayout(chunks: Chunks) {
    forall f, a, b :: f in chunks && a in chunks && b in chunks && IsRouteFile(f) ==>
      StrippedRoute(a) == StrippedRoute(b) && StrippedRoute(a) in RouteIds(StrippedRoute(f)) ==> a == b
  }

  lemma SourcesIndependent(m: Manifest, n: Manifest, f: string, k: string)
    requires Valid(m) && Valid(n) && m.chunks == n.chunks
    requires OneKeyPerLayout(m.chunks) && f in m.keys && IsRouteFile(f)
    requires k in SourceKeys(m, f)
    ensures k in SourceKeys(n, f)
  {
    var ids := RouteIds(StrippedRoute(f));
    LayoutKeysMembers(m.keys, ids, k);
    LayoutKeysMembers(n.keys, ids, k);
    var id :| id in ids && FindKey(m.keys, id) == Some(k);
    assert k in n.keys;
    assert FindKey(n.keys, id).Some?;
  }

  lemma RootIndependent(m: Manifest, n: Manifest, f: string, root: string)
    requires Valid(m) && Valid(n) && m.chunks == n.chunks
    requires OneEntryChunk(m.chunks) && OneKeyPerLayout(m.chunks) && f in m.keys && IsRouteFile(f)
    requires RootOf(m, f, root)
    ensures RootOf(n, f, root)
  {
    RootExact(m, f, root);
    RootExact(n, f, root);
    if root in SourceKeys(m, f) {
      SourcesIndependent(m, n, f, root);
    } else {
      assert root in n.keys && n.chunks[root].isEntry;
    }
  }

  lemma WantedIndependent(m: Manifest, n: Manifest, path: string, x: Asset)
    requires Valid(m) && Valid(n) && m.chunks == n.chunks
    requires OneEntryChunk(m.chunks) && OneKeyPerLayout(m.chunks)
    requires Wanted(m, path, x)
    ensures Wanted(n, path, x)
  {
    var f, root :| ServedUnder(m, path, f) && RootOf(m, f, root) && Supplies(m.chunks, root, x);
    RootIndependent(m, n, f, root);
    assert ServedUnder(n, path, f);
  }

  /** Permuting the manifest's keys permutes the emitted paths and never changes the asset set of
      any of them. */
  lemma KeyOrderIndependent(m: Manifest, n: Manifest)
    requires Valid(m) && Valid(n) && m.chunks == n.chunks
    requires OneEntryChunk(m.chunks) && OneKeyPerLayout(m.chunks)
    ensures multiset(Paths(m)) == multiset(Paths(n))
    ensures forall p, x :: Has(EntryFor(m, p).assets, x) <==> Has(EntryFor(n, p).assets, x)
  {
    PathsExact(m);
    PathsExact(n);
    SameMultiset(Paths(m), Paths(n));
    forall p, x
      ensures Has(EntryFor(m, p).assets, x) <==> Has(EntryFor(n, p).assets, x)
    {
      EntryAssets(m, p, x);
      EntryAssets(n, p, x);
      if Wanted(m, p, x) { WantedIndependent(m, n, p, x); }
      if Wanted(n, p, x) { WantedIndependent(n, m, p, x); }
    }
  }

  lemma SameMultiset<T>(a: seq<T>, b: seq<T>)
    requires Distinct(a) && Distinct(b) && forall x :: x in a <==> x in b
    ensures multiset(a) == multiset(b)
  {
    forall x
      ensures multiset(a)[x] == multiset(b)[x]
    {
      DistinctCount(a, x);
      DistinctCount(b, x);
    }
  }

  lemma {:induction false} DistinctCount<T>(a: seq<T>, x: T)
    requires Distinct(a)
    ensures multiset(a)[x] == if x in a then 1 else 0
  {
    if a != [] {
      assert a == [a[0]] + a[1..];
      DistinctCount(a[1..], x);
    }
  }

  /** A route file whose id starts with a separator: its own chunk is not among its sources. */
  lemma OwnChunkMissed() returns (m: Manifest, routeFile: string)
    ensures Valid(m) && routeFile in m.keys && IsRouteFile(routeFile) && routeFile !in SourceKeys(m, routeFile)
  {
    routeFile := LeadingSeparatorFile();
    m := Manifest([routeFile], map[routeFile := Chunk(None, false, [], [])]);
    LeadingSeparator();
    LayoutKeysMembers(m.keys, RouteIds(".a"), routeFile);
  }
}
