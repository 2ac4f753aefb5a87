# rollup-plugin-write-output, modelled in Dafny

The plugin runs after a bundling pass has written its chunks. For every
chunk key it picks the first configured target whose pattern matches the
key. It then computes the chunks that entry needs, in dependency order,
and hands the target's handler two things: those chunks as paths relative
to the target artifact, and the same paths as a string of `<script>` tags.

The model has six modules:

- `Wrappers` (wrappers.dfy): `Option`.
- `Graph` (graph.dfy): the chunk graph (`Bundle`, a map from key to the
  ordered list of a chunk's imports), walks along imports (`IsPath`),
  reachability (`Reaches`), acyclicity, and facts about them.
- `Resolver` (resolver.dfy): `createImportResolver`. Class `ImportResolver`
  holds the bundle and the cross-query `cache`. `Search` is the recursive
  depth-first walk. It threads the per-query `colored` set and appends to
  the output list. The source's generator becomes an eager list.
  `EmitCached` is its cached branch and `Visit` its last branch. `Resolve`
  is the function the resolver returns: fill the cache on the first
  query, return the cached list afterwards. `DependencyOrder` and
  `DeclarationOrder` state what a resolved list is. Together they are also
  the invariant every cache entry keeps.
- `MatchRef` (match_ref.dfy): `applyMatchRef`, the `$n` substitution in
  target paths, as a pure function with lemmas that characterise it.
- `Plugin` (plugin.dfy): the body of `writeBundle`. It covers the
  first-match loop over targets, target-path resolution,
  backslash-to-slash normalisation, `htmlScripts`, and the loop over
  chunk keys. The loop returns the handler calls it would make.
- `Scenarios` (scenarios.dfy): small graphs resolved through the class and
  pinned down from its contracts alone. One is the graph of the
  `inject to html` test: two entries that share one import. The other
  three are illustrative graphs: a diamond, an entry with two independent
  imports, and a three-chunk cycle.

How the resolver proof works: `Search` keeps the depth-first invariants.
The chunks that are coloured but not yet emitted (the walks in progress)
are the same set before and after a call. Every import of an emitted chunk
is coloured. Every chunk emitted by the call, and every chunk it colours,
is reachable from its key. An import listed after its importer reaches
that importer back, so it closes a cycle. At the top level, with an empty
colour set, this gives `DependencyOrder`:

- the entry is last;
- no chunk appears twice;
- the list holds exactly the chunks the entry reaches;
- on an acyclic graph every import precedes its importer
  (`AcyclicDependenciesFirst`).

`Visit` also keeps the order of the entry's own imports. Take an import
that is not the entry, was not coloured when the walk began, and is
reached by no import declared before it. It is emitted after every
earlier import other than the entry. At the top level this is
`DeclarationOrder`.

Termination is by the set of bundle keys not yet coloured.

Two behaviours of the code worth noting:

- `$0` in a target template names the whole match (`arr[0]` in
  index.js:7). References count from the whole match, not from the first
  group.
- `search` tests the cache before the colour set (index.js:20-28). A
  cached key that is already coloured still emits the uncoloured part of
  its list. The proof covers this case.

## Model

| member | source | states |
|---|---|---|
| Resolver.ImportResolver.constructor | index.js:10-11 | A new resolver has an empty cache over the given bundle, whose imports all name chunks of the bundle. |
| Resolver.ImportResolver.EmitCached | index.js:20-24 | Appends exactly the chunks of the cached list that are not coloured, in the list's order, then colours every chunk of the list. |
| Resolver.ImportResolver.Search | index.js:19-34 | From a cached key: the output grows by exactly the uncoloured part of the cached list, and the colour set by exactly that list. From a coloured key: output and colour set are unchanged. Otherwise: the output ends with the key, and the key's imports are emitted in declaration order (as for `Visit`). In every case the walk invariants hold: the output only grows and has no repeats. Colouring stays inside the bundle. The set of in-progress chunks is unchanged. Every emitted or newly coloured chunk is reachable from the key. Every import of an emitted chunk is coloured. Any import emitted after its importer reaches that importer back. |
| Resolver.ImportResolver.Visit | index.js:29-33 | For a key neither cached nor coloured: searches the imports in declaration order, then emits the key last, keeping the walk invariants. An import that is new to the walk and reached by no earlier import comes after every earlier import other than the key or one already in progress. |
| Resolver.ImportResolver.Resolve | index.js:12-17 | The first query for a key stores its list in the cache. A later query returns the cached list and changes nothing, so an entry is never overwritten. The list satisfies `DependencyOrder`: entry last, no duplicates, exactly the chunks the entry reaches, closed under imports, and a later import always closes a cycle. It also satisfies `DeclarationOrder`: an import of the entry that no earlier import reaches comes after every earlier import. |
| Resolver.Uncolored | index.js:22 | Keeps exactly the chunks of the cached list that are not coloured, and keeps a repeat-free list repeat-free. |
| Resolver.UncoloredKeepsOrder | index.js:22 | The filtered list is in the cached list's order: any two chunks it keeps occur in the cached list in the same relative order. |
| Resolver.UncoloredOrdered | index.js:22 | Filtering a list whose forward imports all close cycles gives a list with the same property. |
| Resolver.AcyclicDependenciesFirst | index.js:30-33 | On an acyclic graph, every import edge between two chunks of a resolved list points to an earlier position. |
| Resolver.ExactlyOnce | index.js:26-29 | In a resolved list, each chunk the entry reaches occurs exactly once and no other chunk occurs, cycles included. |
| Resolver.DependencyBeforeEntry | index.js:30-33 | A dependency of the entry, other than the entry itself, appears before the entry in its list. |
| Scenarios.ListIsReachableSet | index.js:19-33 | Given a closed set whose members are all reachable from the entry, the resolved list is a permutation of that set. |
| Scenarios.TwoImportsList | index.js:30-33 | An entry importing `x` then `y`, neither importing anything, resolves to exactly `[x, y, entry]`. |
| Scenarios.SharedImportScenario | test/test.js:28-70 | Two entries that import the same chunk resolve to `[foo.js, index.js]` and `[foo.js, options.js]`. |
| Scenarios.DiamondScenario | index.js:12-34 | In the diamond, `index` and `index2` resolve to `[poly, pref, index]` and `[poly, pref, index2]`. A repeated query returns the first list. |
| Scenarios.TwoImportsScenario | index.js:29-33 | An entry `k` importing `a` then `b` resolves to `[a, b, k]`. |
| Scenarios.CycleScenario | index.js:26-29 | In the cycle a, b, c, resolving `a` terminates and lists each chunk once, with `a` last. |
| MatchRef.ApplyMatchRef | index.js:6-8 | Replaces each `$digits` reference from left to right. It has no contract of its own. `NoRefsUnchanged`, `NoTruthyCaptureUnchanged`, `LiteralPrefix`, `OneRef` and `OutputEmptyOnlyForEmpty` characterise it. |
| MatchRef.DecimalValue | index.js:7 | `Number(n)` of the digits: never negative for a digit string, and a single digit gives its own value. |
| MatchRef.Substitute | index.js:7 | The replacement for one reference (a truthy capture, else the reference text) is never empty. It is either the reference itself or one of the captures. |
| MatchRef.OutputEmptyOnlyForEmpty | index.js:6-8 | The substituted path is empty exactly when the template is. |
| MatchRef.DigitRunIsGreedy | index.js:7 | The digits a reference consumes are all ASCII digits and no digit follows them, so they are the longest run, as greedy `\d+` matches. |
| MatchRef.NoRefsUnchanged | index.js:7 | A template with no `$` followed by a digit comes back unchanged. |
| MatchRef.NoTruthyCaptureUnchanged | index.js:7 | When no capture is present and non-empty, every reference stays literally, so the template is unchanged. |
| MatchRef.LiteralPrefix | index.js:7 | A reference-free prefix passes through and leaves the rest of the template's substitution unaffected. |
| MatchRef.OneRef | index.js:7 | A single reference between literal text becomes `arr[n]` (n the decimal value of its digits) when that capture is present and non-empty. Otherwise it stays as `$digits`. The surrounding text is untouched. |
| MatchRef.FirstGroupExample | test/test.js:54-55 | The template `dist/$1.html` with captures `index.js` / `index` gives `dist/index.html`. |
| Plugin.SelectTarget | index.js:46-53 | Returns the first target whose pattern matches the key, with its captures. Returns none exactly when no target matches. |
| Plugin.MatchedKeysExactly | index.js:45-53 | A key gets a handler call exactly when it is enumerated and some target matches it. |
| Plugin.ForwardSlashes | index.js:61 | Same length, no backslash left, each backslash turned into `/`, every other character kept. |
| Plugin.ScriptPath | index.js:59-61 | One chunk's path: resolved in the output directory, made relative to the artifact's directory, then normalised. It never contains a backslash. |
| Plugin.ScriptPaths | index.js:58-61 | One path per resolved chunk, none containing a backslash. |
| Plugin.HtmlScripts | index.js:65 | The tags of all paths joined with nothing between them. It has no contract of its own. `HtmlScriptsAppend` and `HtmlScriptsSingle` determine it for every list. |
| Plugin.HtmlScriptsAppend | index.js:65 | The script markup of a concatenation is the concatenation of the markups: tags appear in list order. |
| Plugin.HtmlScriptsSingle | index.js:65 | One path gives exactly `<script src="p"></script>`. |
| Plugin.WriteBundle | index.js:43-66 | Makes one handler call per matched key, in enumeration order, and none for unmatched keys. Each call uses the first matching target. Its path is the resolved template. Its `scripts` are the relative paths of a list for the key that satisfies `DependencyOrder` and `DeclarationOrder`. Its `htmlScripts` is the tag string of those `scripts`. |

## Left out

- File I/O: reading the target artifact, writing the handler's output back, and the error those can raise. `WriteBundle` returns the handler calls instead of making them. So successive rewrites of one artifact by several keys are not modelled.
- JSON: parsing `.json` artifacts, serialising non-string handler results, and the `.json` extension test. These are library formatting.
- The handler itself. It is caller code, and it runs on file content that is not modelled.
- Node's `path.resolve`, `path.relative` and `path.dirname`. They are the fields of `PathOps`, taken as given host functions.
- The regular-expression engine. `Target.test` stands for `key.match(test)` and returns the captures or nothing. A pattern with the global flag, which makes `match` return all matches instead of groups, is not distinguished.
- The plugin object: `createPlugin`, `name` from package.json, and the async hook wiring. `dir` (`options.dir`) and the key enumeration order of the bundle object are parameters of `WriteBundle`.
- Laziness of the generator. `Search` builds its output eagerly, which yields the same sequence.
- `Number(n)` on very long digit strings loses precision in the source. `DecimalValue` is exact. Both give an index far beyond any capture array, so the reference stays literal either way.
- Assets. A bundle entry that is an asset has no `imports`. If a target matches an asset's key, `bundle[key].imports` at index.js:30 throws. In the model every `Chunk` carries an import list, so that error does not arise.
- An undefined `options.dir`, as with single-file output. `path.resolve(prefix, p)` at index.js:59 then throws. In the model `dir` is always a string.
- Resolver.ImportResolver.constructor: it requires every import to name a key of the bundle (`Closed`), and so does `WriteBundle`. In the source an import outside the bundle reaches `bundle[key].imports` at index.js:30 and throws. The model does not represent that error.
- Resolver.ImportResolver.Resolve: the order is pinned only as far as `DependencyOrder` and `DeclarationOrder` go. The relative order of deeper chunks is not stated. Neither is the order of imports that an earlier import also reaches, or the placement of chunks inside a cycle. For the cycle a, b, c the code yields `[c, b, a]`, but `[b, c, a]` also meets the contract.
- Plugin.WriteBundle: the contract says each call's scripts come from some list satisfying `DependencyOrder` and `DeclarationOrder`. It does not say which one: the exact order can depend on what earlier queries left in the cache, and the body fixes it.
