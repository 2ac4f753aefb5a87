/**
 * The write phase of the plugin: for every chunk key, in the order the host
 * enumerates the bundle, pick the first configured target whose pattern
 * matches the key, resolve the key's ordered chunk list, turn it into paths
 * relative to the target artifact and build the context handed to the
 * target's handler.
 */
module Plugin {
  import opened Wrappers
  import opened Graph
  import opened MatchRef
  import opened Resolver

  /**
   * One configured target. `test` stands for `key.match(test)`: `None` when
   * the pattern does not match, else the captures. `target` is the path
   * template. The handler is not part of this model.
   */
  datatype Target = Target(test: Key -> Option<Captures>, target: string)

  /** The host's path functions, taken as given. */
  datatype PathOps = PathOps(
    resolve: string -> string,               // path.resolve(p), against the working directory
    resolveFrom: (string, string) -> string, // path.resolve(dir, p)
    relative: (string, string) -> string,    // path.relative(from, to)
    dirname: string -> string)               // path.dirname(p)

  /** What the handler receives besides the artifact's content. */
  datatype Context = Context(scripts: seq<string>, htmlScripts: string)

  /** One handler call: the chunk key, the index of the target it matched, the absolute artifact path and the context. */
  datatype Injection = Injection(key: Key, target: nat, path: string, context: Context)

  /** Target `i` is the first whose pattern matches `key`. */
  ghost predicate FirstMatchAt(targets: seq<Target>, key: Key, i: nat) {
    && i < |targets|
    && targets[i].test(key).Some?
    && forall j :: 0 <= j < i ==> targets[j].test(key).None?
  }

  ghost predicate Matches(targets: seq<Target>, key: Key) {
    exists i :: 0 <= i < |targets| && targets[i].test(key).Some?
  }

  /** The keys of `order` that some target matches, in order. */
  ghost function MatchedKeys(targets: seq<Target>, order: seq<Key>): seq<Key> {
    if order == [] then []
    else
      var last := order[|order| - 1];
      MatchedKeys(targets, order[..|order| - 1]) + (if Matches(targets, last) then [last] else [])
  }

  /** A key is handled exactly when it is enumerated and some target matches it. */
  lemma {:induction false} MatchedKeysExactly(targets: seq<Target>, order: seq<Key>, k: Key)
    ensures k in MatchedKeys(targets, order) <==> k in order && Matches(targets, k)
  {
    if order != [] {
      var init := order[..|order| - 1];
      MatchedKeysExactly(targets, init, k);
      assert order == init + [order[|order| - 1]];
    }
  }

  lemma MatchedKeysStep(targets: seq<Target>, order: seq<Key>, i: nat)
    requires i < |order|
    ensures MatchedKeys(targets, order[..i + 1])
         == MatchedKeys(targets, order[..i]) + if Matches(targets, order[i]) then [order[i]] else []
  {
    assert order[..i + 1][..i] == order[..i];
  }

  /** The loop over `targets` that stops at the first match. */
  method SelectTarget(targets: seq<Target>, key: Key) returns (m: Option<(nat, Captures)>)
    ensures m.Some? ==> FirstMatchAt(targets, key, m.value.0) && targets[m.value.0].test(key) == Some(m.value.1)
    ensures m.None? <==> !Matches(targets, key)
  {
    var i := 0;
    while i < |targets|
      invariant 0 <= i <= |targets|
      invariant forall j :: 0 <= j < i ==> targets[j].test(key).None?
    {
      var found := targets[i].test(key);
      if found.Some? {
        return Some((i, found.value));
      }
      i := i + 1;
    }
    return None;
  }

  /** `p` with every backslash turned into a forward slash. */
  function ForwardSlashes(p: string): (r: string)
    ensures |r| == |p| && '\\' !in r
    ensures forall i :: 0 <= i < |p| && p[i] != '\\' ==> r[i] == p[i]
    ensures forall i :: 0 <= i < |p| && p[i] == '\\' ==> r[i] == '/'
  {
    seq(|p|, i requires 0 <= i < |p| => if p[i] == '\\' then '/' else p[i])
  }

  /** One chunk's path: resolved in the output directory, made relative to the artifact's directory, with forward slashes. */
  function ScriptPath(ops: PathOps, dir: string, absTarget: string, chunk: Key): (r: string)
    ensures '\\' !in r
  {
    ForwardSlashes(ops.relative(ops.dirname(absTarget), ops.resolveFrom(dir, chunk)))
  }

  /** Each resolved chunk as a path relative to the artifact's directory, with forward slashes. */
  function ScriptPaths(ops: PathOps, dir: string, absTarget: string, chunks: seq<Key>): (r: seq<string>)
    ensures |r| == |chunks|
    ensures forall i :: 0 <= i < |r| ==> '\\' !in r[i]
  {
    seq(|chunks|, i requires 0 <= i < |chunks| => ScriptPath(ops, dir, absTarget, chunks[i]))
  }

  function ScriptTag(p: string): string {
    "<script src=\"" + p + "\"></script>"
  }

  /** The tags of all paths, in order, with nothing between them. */
  function HtmlScripts(scripts: seq<string>): string {
    if scripts == [] then "" else ScriptTag(scripts[0]) + HtmlScripts(scripts[1..])
  }

  /** The markup of a list is the markup of its parts, in order. */
  lemma {:induction false} HtmlScriptsAppend(a: seq<string>, b: seq<string>)
    ensures HtmlScripts(a + b) == HtmlScripts(a) + HtmlScripts(b)
  {
    if a != [] {
      assert (a + b)[1..] == a[1..] + b;
      HtmlScriptsAppend(a[1..], b);
    } else {
      assert a + b == b;
    }
  }

  lemma HtmlScriptsSingle(p: string)
    ensures HtmlScripts([p]) == "<script src=\"" + p + "\"></script>"
  {
    assert [p][1..] == [];
  }

  /** What one handler call for `c` must be. */
  ghost predicate InjectionFor(targets: seq<Target>, ops: PathOps, dir: string, b: Bundle, c: Injection) {
    && FirstMatchAt(targets, c.key, c.target)
    && c.path == ops.resolve(ApplyMatchRef(targets[c.target].target, targets[c.target].test(c.key).value))
    && (exists chunks :: DependencyOrder(b, c.key, chunks) && DeclarationOrder(b, c.key, chunks)
                         && c.context.scripts == ScriptPaths(ops, dir, c.path, chunks))
    && c.context.htmlScripts == HtmlScripts(c.context.scripts)
  }

  /** The handler call `writeBundle` builds for a matched key meets `InjectionFor`. */
  lemma InjectionMade(targets: seq<Target>, ops: PathOps, dir: string, b: Bundle, c: Injection, found: Captures, chunks: seq<Key>)
    requires FirstMatchAt(targets, c.key, c.target) && targets[c.target].test(c.key) == Some(found)
    requires c.path == ops.resolve(ApplyMatchRef(targets[c.target].target, found))
    requires DependencyOrder(b, c.key, chunks) && DeclarationOrder(b, c.key, chunks)
    requires c.context == Context(ScriptPaths(ops, dir, c.path, chunks), HtmlScripts(ScriptPaths(ops, dir, c.path, chunks)))
    ensures InjectionFor(targets, ops, dir, b, c)
  {
  }

  /** Appending the call made for `order[i]` keeps the calls' keys in step with `MatchedKeys`. */
  lemma CallAppended(targets: seq<Target>, order: seq<Key>, i: nat, calls: seq<Injection>, c: Injection)
    requires i < |order| && Matches(targets, order[i]) && c.key == order[i]
    requires |calls| == |MatchedKeys(targets, order[..i])|
    requires forall n :: 0 <= n < |calls| ==> calls[n].key == MatchedKeys(targets, order[..i])[n]
    ensures |calls + [c]| == |MatchedKeys(targets, order[..i + 1])|
    ensures forall n :: 0 <= n < |calls + [c]| ==> (calls + [c])[n].key == MatchedKeys(targets, order[..i + 1])[n]
  {
    MatchedKeysStep(targets, order, i);
    var keys := MatchedKeys(targets, order[..i]);
    assert MatchedKeys(targets, order[..i + 1]) == keys + [c.key];
    forall n | 0 <= n < |calls + [c]|
      ensures (calls + [c])[n].key == (keys + [c.key])[n]
    {
      if n < |calls| {
        assert (calls + [c])[n] == calls[n];
      }
    }
  }

  /**
   * `writeBundle` without its file I/O: `order` is the host's enumeration
   * of the bundle's keys and `dir` the output directory. Returns the handler
   * calls in the order they are made.
   */
  method WriteBundle(targets: seq<Target>, ops: PathOps, dir: string, bundle: Bundle, order: seq<Key>)
    returns (calls: seq<Injection>)
    requires Closed(bundle)
    requires forall k :: k in order ==> k in bundle
    ensures |calls| == |MatchedKeys(targets, order)|
    ensures forall n :: 0 <= n < |calls| ==> calls[n].key == MatchedKeys(targets, order)[n]
    ensures forall n :: 0 <= n < |calls| ==> InjectionFor(targets, ops, dir, bundle, calls[n])
  {
    var resolver := new ImportResolver(bundle);
    calls := [];
    for i := 0 to |order|
      invariant resolver.Valid() && resolver.bundle == bundle
      invariant |calls| == |MatchedKeys(targets, order[..i])|
      invariant forall n :: 0 <= n < |calls| ==> calls[n].key == MatchedKeys(targets, order[..i])[n]
      invariant forall n :: 0 <= n < |calls| ==> InjectionFor(targets, ops, dir, bundle, calls[n])
    {
      var key := order[i];
      MatchedKeysStep(targets, order, i);
      var m := SelectTarget(targets, key);
      if m.None? {
        continue;
      }
      var (t, found) := m.value;
      var absTarget := ops.resolve(ApplyMatchRef(targets[t].target, found));
      var chunks := resolver.Resolve(key);
      var scripts := ScriptPaths(ops, dir, absTarget, chunks);
      var c := Injection(key, t, absTarget, Context(scripts, HtmlScripts(scripts)));
      InjectionMade(targets, ops, dir, bundle, c, found, chunks);
      CallAppended(targets, order, i, calls, c);
      calls := calls + [c];
    }
    assert order[..|order|] == order;
  }
}
