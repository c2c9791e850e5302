/** Dependencies declared in manifests: merging, identity and record keys. */
module Deps {
  import opened Common
  import opened Ordering

  datatype Ecosystem = Cargo | Npm | Go

  datatype Version = Declared(text: string) | Workspace

  datatype Dep = Dep(ecosystem: Ecosystem, name: string, version: Version, dev: bool)

  // ----- Manifests

  predicate IsManifestName(filename: string) {
    filename == "Cargo.toml" || filename == "package.json" || filename == "go.mod"
  }

  /** The part after the last slash. */
  function FileName(path: string): string {
    if path == [] then []
    else
      var n := |path| - 1;
      if path[n] == '/' then [] else FileName(path[..n]) + [path[n]]
  }

  function Depth(path: string): nat {
    Occurrences(path, '/')
  }

  predicate Shallower(a: string, b: string) {
    Depth(a) <= Depth(b)
  }

  /** The manifests among the walked files. */
  function Manifests(walked: seq<string>): (r: seq<string>)
    ensures forall p :: p in r <==> p in walked && IsManifestName(FileName(p))
  {
    if walked == [] then []
    else
      assert walked == [walked[0]] + walked[1..];
      (if IsManifestName(FileName(walked[0])) then [walked[0]] else []) + Manifests(walked[1..])
  }

  // ----- Merging

  function Identity(d: Dep): (Ecosystem, string) {
    (d.ecosystem, d.name)
  }

  /** Entry `all[k]` is declared in `origin[k]`, manifests come shallowest first, and every entry
      of every readable manifest among `done` is present. */
  ghost predicate Gathered(read: string -> Option<seq<Dep>>, done: seq<string>, all: seq<Dep>, origin: seq<string>) {
    && |origin| == |all|
    && (forall k :: 0 <= k < |all| ==> origin[k] in done && read(origin[k]).Some? && all[k] in read(origin[k]).value)
    && SortedBy(origin, Shallower)
    && (forall m, d :: m in done && read(m).Some? && d in read(m).value ==>
         exists k :: 0 <= k < |all| && all[k] == d && origin[k] == m)
  }

  lemma OriginsMore(read: string -> Option<seq<Dep>>, done: seq<string>, all: seq<Dep>, origin: seq<string>, m: string,
                    more: seq<Dep>)
    requires Gathered(read, done, all, origin) && read(m) == Some(more)
    requires forall p :: p in done ==> Shallower(p, m)
    ensures var all', origin' := all + more, origin + seq(|more|, _ => m);
      && SortedBy(origin', Shallower)
      && forall k :: 0 <= k < |all'| ==>
        origin'[k] in done + [m] && read(origin'[k]).Some? && all'[k] in read(origin'[k]).value
  {
    var all', origin' := all + more, origin + seq(|more|, _ => m);
    forall k | 0 <= k < |all'|
      ensures origin'[k] in done + [m] && read(origin'[k]).Some? && all'[k] in read(origin'[k]).value
    {
      if k < |all| {
        assert origin'[k] == origin[k] && all'[k] == all[k];
      }
    }
  }

  lemma PresentMore(read: string -> Option<seq<Dep>>, done: seq<string>, all: seq<Dep>, origin: seq<string>, m: string,
                    more: seq<Dep>, p: string, d: Dep) returns (k: nat)
    requires Gathered(read, done, all, origin) && read(m) == Some(more)
    requires p in done + [m] && read(p).Some? && d in read(p).value
    ensures k < |all + more| && (all + more)[k] == d && (origin + seq(|more|, _ => m))[k] == p
  {
    if p in done {
      k :| 0 <= k < |all| && all[k] == d && origin[k] == p;
    } else {
      var j :| 0 <= j < |more| && more[j] == d;
      k := |all| + j;
    }
  }

  lemma GatherMore(read: string -> Option<seq<Dep>>, done: seq<string>, all: seq<Dep>, origin: seq<string>, m: string)
    requires Gathered(read, done, all, origin) && read(m).Some?
    requires forall p :: p in done ==> Shallower(p, m)
    ensures Gathered(read, done + [m], all + read(m).value, origin + seq(|read(m).value|, _ => m))
  {
    var more := read(m).value;
    var all', origin' := all + more, origin + seq(|more|, _ => m);
    OriginsMore(read, done, all, origin, m, more);
    forall p, d | p in done + [m] && read(p).Some? && d in read(p).value
      ensures exists k :: 0 <= k < |all'| && all'[k] == d && origin'[k] == p
    {
      var k := PresentMore(read, done, all, origin, m, more, p, d);
    }
  }

  /** Read the manifests in order and list their entries one after the other. */
  method Gather(read: string -> Option<seq<Dep>>, manifests: seq<string>)
    returns (all: seq<Dep>, found: seq<string>, ghost origin: seq<string>)
    requires SortedBy(manifests, Shallower)
    ensures Gathered(read, manifests, all, origin)
    ensures forall m :: m in found <==> m in manifests && read(m).Some?
    ensures SortedBy(found, Shallower)
  {
    all, found, origin := [], [], [];
    for i := 0 to |manifests|
      invariant Gathered(read, manifests[..i], all, origin)
      invariant forall m :: m in found <==> m in manifests[..i] && read(m).Some?
      invariant SortedBy(found, Shallower)
    {
      var m := manifests[i];
      assert manifests[..i + 1] == manifests[..i] + [m];
      var entries := read(m);
      if entries.Some? {
        GatherMore(read, manifests[..i], all, origin, m);
        all := all + entries.value;
        origin := origin + seq(|entries.value|, _ => m);
        found := found + [m];
      }
    }
    assert manifests[..|manifests|] == manifests;
  }

  ghost predicate FirstOf(all: seq<Dep>, k: nat) {
    k < |all| && forall j :: 0 <= j < k ==> Identity(all[j]) != Identity(all[k])
  }

  ghost predicate DistinctIdentities(deps: seq<Dep>) {
    forall i, j :: 0 <= i < j < |deps| ==> Identity(deps[i]) != Identity(deps[j])
  }

  ghost predicate HasIdentity(deps: seq<Dep>, id: (Ecosystem, string)) {
    exists i :: 0 <= i < |deps| && Identity(deps[i]) == id
  }

  /** Keep the first entry of every identity. */
  method Dedup(all: seq<Dep>) returns (deps: seq<Dep>)
    ensures DistinctIdentities(deps)
    ensures forall d :: d in deps <==> exists k: nat :: FirstOf(all, k) && all[k] == d
    ensures forall k :: 0 <= k < |all| ==> HasIdentity(deps, Identity(all[k]))
  {
    deps := [];
    var seen: set<(Ecosystem, string)> := {};
    for n := 0 to |all|
      invariant DistinctIdentities(deps)
      invariant forall id :: id in seen <==> exists k :: 0 <= k < n && Identity(all[k]) == id
      invariant forall d :: d in deps <==> exists k: nat :: k < n && FirstOf(all, k) && all[k] == d
      invariant forall i :: 0 <= i < |deps| ==> Identity(deps[i]) in seen
      invariant forall k :: 0 <= k < n ==> HasIdentity(deps, Identity(all[k]))
    {
      ghost var before := deps;
      if Identity(all[n]) !in seen {
        assert FirstOf(all, n);
        seen := seen + {Identity(all[n])};
        deps := deps + [all[n]];
        assert deps[|before|] == all[n];
      } else {
        assert !FirstOf(all, n);
      }
      forall k | 0 <= k < n + 1 ensures HasIdentity(deps, Identity(all[k])) {
        if k < n || deps == before {
          var j :| 0 <= j < n && Identity(all[j]) == Identity(all[k]);
          assert HasIdentity(before, Identity(all[j]));
          var i :| 0 <= i < |before| && Identity(before[i]) == Identity(all[j]);
          assert deps[i] == before[i];
        }
      }
    }
    forall d ensures d in deps <==> exists k: nat :: FirstOf(all, k) && all[k] == d {
      if k: nat :| FirstOf(all, k) && all[k] == d {
        assert k < |all| && FirstOf(all, k) && all[k] == d;
      }
    }
  }

  predicate NameLe(a: Dep, b: Dep) {
    StringLe(a.name, b.name)
  }

  /** Some readable manifest among `walked` declares `d`. */
  ghost predicate DeclaredIn(read: string -> Option<seq<Dep>>, walked: seq<string>, m: string, d: Dep) {
    m in walked && IsManifestName(FileName(m)) && read(m).Some? && d in read(m).value
  }

  /** `d` comes from a manifest of minimal depth among all that declare its identity. */
  ghost predicate FromShallowest(read: string -> Option<seq<Dep>>, walked: seq<string>, d: Dep) {
    exists m :: DeclaredIn(read, walked, m, d)
      && forall p, e :: DeclaredIn(read, walked, p, e) && Identity(e) == Identity(d) ==> Depth(m) <= Depth(p)
  }

  /** The merged dependencies: one entry per declared identity, from a shallowest manifest, by name. */
  ghost predicate IsMerged(read: string -> Option<seq<Dep>>, walked: seq<string>, deps: seq<Dep>) {
    && DistinctIdentities(deps)
    && SortedBy(deps, NameLe)
    && (forall d :: d in deps ==> FromShallowest(read, walked, d))
    && (forall m, d :: DeclaredIn(read, walked, m, d) ==> HasIdentity(deps, Identity(d)))
  }

  lemma FirstIsShallowest(read: string -> Option<seq<Dep>>, walked: seq<string>, manifests: seq<string>, all: seq<Dep>,
                          origin: seq<string>, k: nat)
    requires Gathered(read, manifests, all, origin) && FirstOf(all, k)
    requires forall p :: p in manifests <==> p in walked && IsManifestName(FileName(p))
    ensures FromShallowest(read, walked, all[k])
  {
    var m := origin[k];
    assert DeclaredIn(read, walked, m, all[k]);
    forall p, e | DeclaredIn(read, walked, p, e) && Identity(e) == Identity(all[k]) ensures Depth(m) <= Depth(p) {
      var j :| 0 <= j < |all| && all[j] == e && origin[j] == p;
      assert j >= k;
      assert j > k ==> Shallower(origin[k], origin[j]);
    }
  }

  lemma {:induction false} IdentitiesRearranged(a: seq<Dep>, b: seq<Dep>)
    requires DistinctIdentities(a) && multiset(a) == multiset(b)
    ensures DistinctIdentities(b)
  {
    SameElements(a, b);
    DistinctRearranged(a, b);
    forall i, j | 0 <= i < j < |b| ensures Identity(b[i]) != Identity(b[j]) {
      assert b[i] in a && b[j] in a && b[i] != b[j];
    }
  }

  lemma DepthOrder()
    ensures TotalPreorder(Shallower)
  {
  }

  lemma NameOrder()
    ensures TotalPreorder(NameLe)
  {
    StringOrder();
  }

  /** Parse every manifest found by the walker and merge what they declare. */
  method ParseDependencies(walked: seq<string>, read: string -> Option<seq<Dep>>)
    returns (deps: seq<Dep>, found: seq<string>)
    ensures IsMerged(read, walked, deps)
    ensures forall m :: m in found <==> m in walked && IsManifestName(FileName(m)) && read(m).Some?
  {
    var names := Manifests(walked);
    var manifests := Sort(names, Shallower);
    DepthOrder();
    SortSorts(names, Shallower);
    SameElements(manifests, names);
    var all;
    ghost var origin;
    all, found, origin := Gather(read, manifests);
    var deduped := Dedup(all);
    deps := Sort(deduped, NameLe);
    NameOrder();
    SortSorts(deduped, NameLe);
    SameElements(deps, deduped);
    IdentitiesRearranged(deduped, deps);
    forall d | d in deps ensures FromShallowest(read, walked, d) {
      var k: nat :| FirstOf(all, k) && all[k] == d;
      FirstIsShallowest(read, walked, manifests, all, origin, k);
    }
    forall m, d | DeclaredIn(read, walked, m, d) ensures HasIdentity(deps, Identity(d)) {
      assert m in manifests;
      var k :| 0 <= k < |all| && all[k] == d && origin[k] == m;
      assert HasIdentity(deduped, Identity(all[k]));
      var i :| 0 <= i < |deduped| && Identity(deduped[i]) == Identity(d);
      assert deduped[i] in deps;
    }
  }

  // ----- Record keys

  function EcosystemName(e: Ecosystem): string {
    match e case Cargo => "cargo" case Npm => "npm" case Go => "go"
  }

  function RecordKey(e: Ecosystem, name: string): string {
    "dep:" + (EcosystemName(e) + (":" + name))
  }

  /** Split at the first occurrence of `c`. */
  function SplitOnce(s: string, c: char): Option<(string, string)> {
    if s == [] then None
    else if s[0] == c then Some(([], s[1..]))
    else
      var r := SplitOnce(s[1..], c);
      if r.None? then None else Some(([s[0]] + r.value.0, r.value.1))
  }

  function EcosystemOf(name: string): Option<Ecosystem> {
    if name == "cargo" then Some(Cargo)
    else if name == "npm" then Some(Npm)
    else if name == "go" then Some(Go)
    else None
  }

  /** Ecosystem, when the key has one, and display name. */
  function ParseKey(key: string): Option<(Option<Ecosystem>, string)> {
    if !("dep:" <= key) then None
    else
      var rest := key[4..];
      var parts := SplitOnce(rest, ':');
      if parts.Some? && EcosystemOf(parts.value.0).Some? then Some((EcosystemOf(parts.value.0), parts.value.1))
      else Some((None, rest))
  }

  function DisplayName(key: string): string {
    if ParseKey(key).Some? then ParseKey(key).value.1 else key
  }

  lemma {:induction false} SplitAfterPrefix(p: string, c: char, t: string)
    requires c !in p
    ensures SplitOnce(p + ([c] + t), c) == Some((p, t))
  {
    var s := p + ([c] + t);
    if p == [] {
      assert s == [c] + t && s[1..] == t;
    } else {
      assert s[1..] == p[1..] + ([c] + t);
      SplitAfterPrefix(p[1..], c, t);
      assert p == [p[0]] + p[1..];
    }
  }

  lemma {:induction false} SplitJoins(s: string, c: char)
    ensures SplitOnce(s, c).Some? ==> s == SplitOnce(s, c).value.0 + ([c] + SplitOnce(s, c).value.1)
  {
    if s == [] {
    } else {
      assert s == [s[0]] + s[1..];
      if s[0] == c {
        assert [] + ([c] + s[1..]) == s;
      } else {
        SplitJoins(s[1..], c);
      }
    }
  }

  lemma EcosystemNameHasNoColon(e: Ecosystem)
    ensures ':' !in EcosystemName(e) && EcosystemOf(EcosystemName(e)) == Some(e)
  {
  }

  /** A key gives its ecosystem and name back for every name, colons included. */
  lemma KeyRoundTrip(e: Ecosystem, name: string)
    ensures ParseKey(RecordKey(e, name)) == Some((Some(e), name))
    ensures DisplayName(RecordKey(e, name)) == name
  {
    EcosystemNameHasNoColon(e);
    var rest := EcosystemName(e) + (":" + name);
    assert RecordKey(e, name)[4..] == rest;
    assert ":" + name == [':'] + name;
    SplitAfterPrefix(EcosystemName(e), ':', name);
  }

  /** So the merged dependencies have pairwise different record keys. */
  lemma KeysAreDistinct(read: string -> Option<seq<Dep>>, walked: seq<string>, deps: seq<Dep>, i: nat, j: nat)
    requires IsMerged(read, walked, deps) && i < j < |deps|
    ensures RecordKey(deps[i].ecosystem, deps[i].name) != RecordKey(deps[j].ecosystem, deps[j].name)
  {
    KeyRoundTrip(deps[i].ecosystem, deps[i].name);
    KeyRoundTrip(deps[j].ecosystem, deps[j].name);
    assert Identity(deps[i]) != Identity(deps[j]);
  }

  /** A key of the old form without ecosystem keeps its whole name exactly when the name does
      not itself begin with an ecosystem and a colon. */
  lemma LegacyKey(name: string)
    ensures ParseKey("dep:" + name) == Some((None, name)) <==>
      !exists e: Ecosystem, t: string :: name == EcosystemName(e) + (":" + t)
  {
    assert ("dep:" + name)[4..] == name;
    if e: Ecosystem, t: string :| name == EcosystemName(e) + (":" + t) {
      KeyRoundTrip(e, t);
      assert "dep:" + name == RecordKey(e, t);
    }
    var parts := SplitOnce(name, ':');
    if parts.Some? && EcosystemOf(parts.value.0).Some? {
      SplitJoins(name, ':');
      var e := EcosystemOf(parts.value.0).value;
      assert parts.value.0 == EcosystemName(e);
      assert [':'] + parts.value.1 == ":" + parts.value.1;
      assert name == EcosystemName(e) + (":" + parts.value.1);
    }
  }

  /** For example, the old key of a dependency named "go:x" is read as "x" of the Go ecosystem. */
  lemma LegacyExample()
    ensures ParseKey("dep:" + "go:x") == Some((Some(Go), "x"))
  {
    KeyRoundTrip(Go, "x");
    assert "dep:" + "go:x" == RecordKey(Go, "x");
  }

  // ----- Names in plain words

  lemma Assoc(a: string, b: string, c: string)
    ensures (a + b) + c == a + (b + c)
  {
  }

  lemma FileNameSnoc(path: string, c: char)
    ensures FileName(path + [c]) == if c == '/' then [] else FileName(path) + [c]
  {
    assert (path + [c])[..|path|] == path;
  }

  /** What comes before the file name is nothing, or a directory and a slash. */
  lemma {:induction false} FileNameSplit(path: string) returns (dir: Option<string>)
    ensures '/' !in FileName(path)
    ensures path == if dir.Some? then dir.value + ("/" + FileName(path)) else FileName(path)
  {
    if path == [] {
      dir := None;
    } else {
      var front, c := path[..|path| - 1], path[|path| - 1];
      assert path == front + [c];
      dir := FileNameSplit(front);
      FileNameSnoc(front, c);
      if c == '/' {
        dir := Some(front);
        assert "/" + [] == [c];
      } else if dir.Some? {
        Assoc(dir.value, "/" + FileName(front), [c]);
        Assoc("/", FileName(front), [c]);
      }
    }
  }

  /** Without slashes, what is appended to a path is appended to its file name. */
  lemma {:induction false} FileNameAppend(path: string, name: string)
    requires '/' !in name
    ensures FileName(path + name) == FileName(path) + name
    decreases |name|
  {
    if name == [] {
      assert path + name == path && FileName(path) + name == FileName(path);
    } else {
      var front, c := name[..|name| - 1], name[|name| - 1];
      assert name == front + [c];
      FileNameAppend(path, front);
      FileNameSnoc(path + front, c);
      Assoc(path, front, [c]);
      Assoc(FileName(path), front, [c]);
    }
  }

  lemma FileNameOf(dir: string, name: string)
    requires '/' !in name
    ensures FileName(dir + ("/" + name)) == name && FileName(name) == name
  {
    FileNameSnoc(dir, '/');
    FileNameAppend(dir + "/", name);
    FileNameAppend([], name);
    Assoc(dir, "/", name);
    assert [] + name == name;
  }

  /** The path is this name, or ends in it behind a slash. */
  ghost predicate EndsIn(path: string, name: string) {
    path == name || exists dir :: path == dir + ("/" + name)
  }

  /** Manifests are the files named Cargo.toml, package.json or go.mod, in any directory. */
  lemma ManifestMeans(path: string)
    ensures IsManifestName(FileName(path)) <==>
      EndsIn(path, "Cargo.toml") || EndsIn(path, "package.json") || EndsIn(path, "go.mod")
  {
    EndsInMeans(path, "Cargo.toml");
    EndsInMeans(path, "package.json");
    EndsInMeans(path, "go.mod");
  }

  lemma EndsInMeans(path: string, name: string)
    requires '/' !in name
    ensures EndsIn(path, name) <==> FileName(path) == name
  {
    var split := FileNameSplit(path);
    if path == name {
      FileNameOf("", name);
    } else if dir :| path == dir + ("/" + name) {
      FileNameOf(dir, name);
    }
  }

  /** Depth is the number of slashes. */
  lemma DepthMeans(path: string)
    ensures Depth(path) == multiset(path)['/']
  {
    OccurrencesIsMultiplicity(path, '/');
  }

  /** The three ecosystems by name, and the keys made from them. */
  lemma KeyMeans(name: string)
    ensures RecordKey(Cargo, name) == "dep:cargo:" + name
    ensures RecordKey(Npm, name) == "dep:npm:" + name
    ensures RecordKey(Go, name) == "dep:go:" + name
  {
  }

  /** Dependencies come by name. */
  lemma MergedByName(read: string -> Option<seq<Dep>>, walked: seq<string>, deps: seq<Dep>, i: nat, j: nat)
    requires IsMerged(read, walked, deps) && i < j < |deps|
    ensures StringLe(deps[i].name, deps[j].name)
  {
    assert NameLe(deps[i], deps[j]);
  }

  /** No ecosystem and name comes twice. */
  lemma OnePerName(read: string -> Option<seq<Dep>>, walked: seq<string>, deps: seq<Dep>, i: nat, j: nat)
    requires IsMerged(read, walked, deps) && i < |deps| && j < |deps|
    requires deps[i].ecosystem == deps[j].ecosystem && deps[i].name == deps[j].name
    ensures i == j
  {
  }

  /** Whatever a readable manifest declares is there under its ecosystem and name, taken from a
      manifest with the fewest slashes among all that declare them. */
  lemma FewestSlashes(read: string -> Option<seq<Dep>>, walked: seq<string>, deps: seq<Dep>, m: string, d: Dep)
    requires IsMerged(read, walked, deps)
    requires m in walked && IsManifestName(FileName(m)) && read(m).Some? && d in read(m).value
    ensures exists e :: e in deps && e.ecosystem == d.ecosystem && e.name == d.name && NoDeeper(read, walked, e, m)
  {
    assert DeclaredIn(read, walked, m, d) && HasIdentity(deps, Identity(d));
    var e :| e in deps && Identity(e) == Identity(d);
    var o :| DeclaredIn(read, walked, o, e)
      && forall p, x :: DeclaredIn(read, walked, p, x) && Identity(x) == Identity(e) ==> Depth(o) <= Depth(p);
    DepthMeans(o);
    DepthMeans(m);
    assert NoDeeper(read, walked, e, m);
  }

  /** Some readable manifest with no more slashes than `m` declares `d`. */
  ghost predicate NoDeeper(read: string -> Option<seq<Dep>>, walked: seq<string>, d: Dep, m: string) {
    exists o :: DeclaredIn(read, walked, o, d) && multiset(o)['/'] <= multiset(m)['/']
  }
}
