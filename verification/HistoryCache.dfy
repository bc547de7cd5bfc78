/**
 * The two-tier history cache: bounded first-in-first-out maps per repository
 * (internal/desktop/cache.go) over an ordered byte store that forgets by deleting key
 * ranges (internal/desktop/persistent_cache.go). Entries that describe refs are valid
 * for one fingerprint of the refs only.
 *
 * Repository roots, cache keys, fingerprints and values are compared and copied, never
 * inspected. Strings are byte strings.
 */
module HistoryCache {
  import opened Common

  type Root = nat
  type Key = nat
  type Fingerprint = nat
  type Value = nat

  datatype Namespace = History | HistoryScope | Branches | Detail

  const MAXIMUM_REPOSITORIES := 8

  function Maximum(ns: Namespace): nat {
    match ns
    case HistoryScope => 32
    case History => 16
    case Detail => 128
    case Branches => 1000
  }

  /** The namespaces whose entries are only valid for one set of refs. */
  predicate RefScoped(ns: Namespace) {
    ns != Detail
  }

  // ------------------------------------------------------- keys of the byte store

  /** The repository hash and the key encoding. */
  datatype Naming = Naming(id: Root -> string, encode: Key -> string)

  predicate SlashFree(s: string) {
    forall i :: 0 <= i < |s| ==> s[i] != '/'
  }

  predicate BelowLimit(s: string) {
    forall i :: 0 <= i < |s| ==> s[i] < '\U{ff}'
  }

  /** What is assumed of the hash (hexadecimal) and of the base64url alphabet. */
  ghost predicate Sound(n: Naming) {
    && (forall r :: SlashFree(n.id(r)))
    && (forall r, r' :: n.id(r) == n.id(r') ==> r == r')
    && (forall k :: BelowLimit(n.encode(k)))
    && (forall k, k' :: n.encode(k) == n.encode(k') ==> k == k')
  }

  function NameOf(ns: Namespace): (r: string)
    ensures SlashFree(r)
  {
    match ns
    case History => "history"
    case HistoryScope => "history-scope"
    case Branches => "branches"
    case Detail => "detail"
  }

  function RepositoryPrefix(n: Naming, ns: Namespace, root: Root): string {
    "v1/" + (NameOf(ns) + "/" + (n.id(root) + "/"))
  }

  function PersistentKey(n: Naming, ns: Namespace, root: Root, key: Key): string {
    RepositoryPrefix(n, ns, root) + n.encode(key)
  }

  function MetadataKey(n: Naming, root: Root): string {
    "v1/" + ("meta" + "/" + (n.id(root) + "/refs"))
  }

  function PrefixLimit(prefix: string): string {
    prefix + ['\U{ff}']
  }

  /** The order of the byte store. */
  predicate Before(a: string, b: string) {
    b != [] && (a == [] || a[0] < b[0] || (a[0] == b[0] && Before(a[1..], b[1..])))
  }

  lemma {:induction false} RangeIsPrefix(prefix: string, key: string)
    ensures (!Before(key, prefix) && Before(key, PrefixLimit(prefix)))
       <==> (prefix <= key && (|key| > |prefix| ==> key[|prefix|] < '\U{ff}'))
  {
    if prefix != [] && key != [] && prefix[0] == key[0] {
      RangeIsPrefix(prefix[1..], key[1..]);
      assert PrefixLimit(prefix)[1..] == PrefixLimit(prefix[1..]);
      assert prefix == [prefix[0]] + prefix[1..] && key == [key[0]] + key[1..];
      assert prefix <= key <==> prefix[1..] <= key[1..];
    } else if prefix == [] && key != [] {
      assert PrefixLimit(prefix) == ['\U{ff}'];
    }
  }

  /** A slash ends a slash-free field: one path is a prefix of another only field by field. */
  lemma SlashSplits(a: string, x: string, b: string, y: string)
    requires SlashFree(a) && SlashFree(b) && a + "/" + x <= b + "/" + y
    ensures a == b && x <= y
  {
    var p, q := a + "/" + x, b + "/" + y;
    assert p == q[..|p|];
    assert p[|a|] == '/' && q[|b|] == '/';
    assert forall i :: 0 <= i < |a| ==> p[i] == a[i];
    assert forall i :: 0 <= i < |b| ==> q[i] == b[i];
    assert |a| == |b|;
    assert a == p[..|a|] && b == q[..|b|];
    assert x == p[|a| + 1..] && y == q[|b| + 1..];
  }

  lemma NamesDiffer(a: Namespace, b: Namespace)
    ensures NameOf(a) == NameOf(b) <==> a == b
    ensures NameOf(a) != "meta"
  {
    assert |NameOf(History)| == 7 && |NameOf(HistoryScope)| == 13 && |NameOf(Branches)| == 8 && |NameOf(Detail)| == 6;
  }

  /** The prefix of one namespace and repository begins the keys of that pair and no others. */
  lemma PrefixIsExact(n: Naming, ns: Namespace, root: Root, ns': Namespace, root': Root, key': Key)
    requires Sound(n)
    ensures RepositoryPrefix(n, ns, root) <= PersistentKey(n, ns', root', key') <==> (ns == ns' && root == root')
    ensures !(RepositoryPrefix(n, ns, root) <= MetadataKey(n, root'))
  {
    hide NameOf;
    var tail := n.id(root) + "/";
    var p, k, m := RepositoryPrefix(n, ns, root), PersistentKey(n, ns', root', key'), MetadataKey(n, root');
    assert SlashFree(n.id(root)) && SlashFree(n.id(root')) && SlashFree("meta");
    assert p[3..] == NameOf(ns) + "/" + tail;
    if p <= k {
      assert k[3..] == NameOf(ns') + "/" + (n.id(root') + "/" + n.encode(key'));
      assert p[3..] <= k[3..];
      SlashSplits(NameOf(ns), tail, NameOf(ns'), n.id(root') + "/" + n.encode(key'));
      assert tail == n.id(root) + "/" + "";
      SlashSplits(n.id(root), "", n.id(root'), n.encode(key'));
      NamesDiffer(ns, ns');
    }
    if p <= m {
      assert m[3..] == "meta" + "/" + (n.id(root') + "/refs");
      assert p[3..] <= m[3..];
      SlashSplits(NameOf(ns), tail, "meta", n.id(root') + "/refs");
      NamesDiffer(ns, ns);
    }
  }

  lemma KeysAreApart(n: Naming, ns: Namespace, root: Root, key: Key, ns': Namespace, root': Root, key': Key)
    requires Sound(n)
    ensures PersistentKey(n, ns, root, key) == PersistentKey(n, ns', root', key')
            <==> (ns == ns' && root == root' && key == key')
    ensures PersistentKey(n, ns, root, key) != MetadataKey(n, root')
    ensures MetadataKey(n, root) == MetadataKey(n, root') <==> root == root'
  {
    PrefixIsExact(n, ns, root, ns', root', key');
    var p := RepositoryPrefix(n, ns, root);
    assert p <= PersistentKey(n, ns, root, key);
    if PersistentKey(n, ns, root, key) == PersistentKey(n, ns', root', key') {
      assert n.encode(key) == PersistentKey(n, ns, root, key)[|p|..];
      assert n.encode(key') == PersistentKey(n, ns', root', key')[|p|..];
    }
    if MetadataKey(n, root) == MetadataKey(n, root') {
      var a, b := n.id(root) + "/refs", n.id(root') + "/refs";
      assert MetadataKey(n, root)[8..] == a && MetadataKey(n, root')[8..] == b;
      assert n.id(root) == a[..|a| - 5] && n.id(root') == b[..|b| - 5];
    }
  }

  // -------------------------------------------------------------- the byte store

  datatype Stored = Refs(fingerprint: Fingerprint) | Entry(value: Value)

  type Disk = map<string, Stored>

  function DeleteRange(disk: Disk, from: string, to: string): Disk {
    map k | k in disk && !(!Before(k, from) && Before(k, to)) :: disk[k]
  }

  function DeleteRepository(n: Naming, disk: Disk, ns: Namespace, root: Root): Disk {
    var prefix := RepositoryPrefix(n, ns, root);
    DeleteRange(disk, prefix, PrefixLimit(prefix))
  }

  function Invalidate(n: Naming, disk: Disk, root: Root): Disk {
    DeleteRepository(n, DeleteRepository(n, DeleteRepository(n, disk, History, root), HistoryScope, root),
                     Branches, root)
  }

  /** Deleting the range of a prefix deletes exactly the keys of that namespace and repository. */
  lemma RangeDeletionIsExact(n: Naming, disk: Disk, ns: Namespace, root: Root, ns': Namespace, root': Root, key': Key)
    requires Sound(n)
    ensures var k := PersistentKey(n, ns', root', key');
      (k in DeleteRepository(n, disk, ns, root) <==> k in disk && !(ns == ns' && root == root'))
      && (MetadataKey(n, root') in DeleteRepository(n, disk, ns, root) <==> MetadataKey(n, root') in disk)
  {
    var prefix := RepositoryPrefix(n, ns, root);
    PrefixIsExact(n, ns, root, ns', root', key');
    RangeIsPrefix(prefix, PersistentKey(n, ns', root', key'));
    RangeIsPrefix(prefix, MetadataKey(n, root'));
    if ns == ns' && root == root' && n.encode(key') != [] {
      assert BelowLimit(n.encode(key'));
      assert PersistentKey(n, ns', root', key')[|prefix|] == n.encode(key')[0];
    }
  }

  lemma InvalidationIsExact(n: Naming, disk: Disk, root: Root, ns': Namespace, root': Root, key': Key)
    requires Sound(n)
    ensures var k := PersistentKey(n, ns', root', key');
      && (k in Invalidate(n, disk, root) <==> k in disk && !(RefScoped(ns') && root == root'))
      && (k in Invalidate(n, disk, root) ==> Invalidate(n, disk, root)[k] == disk[k])
    ensures var m := MetadataKey(n, root');
      && (m in Invalidate(n, disk, root) <==> m in disk)
      && (m in disk ==> Invalidate(n, disk, root)[m] == disk[m])
  {
    var one := DeleteRepository(n, disk, History, root);
    var two := DeleteRepository(n, one, HistoryScope, root);
    RangeDeletionIsExact(n, disk, History, root, ns', root', key');
    RangeDeletionIsExact(n, one, HistoryScope, root, ns', root', key');
    RangeDeletionIsExact(n, two, Branches, root, ns', root', key');
  }

  /** What fails in one call: reading the stored fingerprint, committing the invalidation
      batch (it is atomic), reading an entry or decoding it, writing an entry. */
  datatype Faults = Faults(readRefs: bool, commit: bool, read: bool, write: bool)

  const NO_FAULTS := Faults(false, false, false, false)

  function Ensured(n: Naming, disk: Disk, root: Root, fingerprint: Fingerprint, faults: Faults): (bool, Disk) {
    var meta := MetadataKey(n, root);
    if faults.readRefs then (false, disk)
    else if meta in disk && disk[meta] == Refs(fingerprint) then (true, disk)
    else if faults.commit then (false, disk)
    else (true, Invalidate(n, disk, root)[meta := Refs(fingerprint)])
  }

  function Prepared(
      n: Naming, s: State, root: Root, fingerprint: Fingerprint, ns: Namespace, faults: Faults): (bool, Disk)
  {
    if !s.open || !RefScoped(ns) then (true, s.disk) else Ensured(n, s.disk, root, fingerprint, faults)
  }

  function Fetched(
      n: Naming, s: State, root: Root, fingerprint: Fingerprint, ns: Namespace, key: Key,
      faults: Faults): (Option<Value>, Disk)
  {
    var (ok, disk) := Prepared(n, s, root, fingerprint, ns, faults);
    var k := PersistentKey(n, ns, root, key);
    (if ok && s.open && !faults.read && k in disk && disk[k].Entry? then Some(disk[k].value) else None, disk)
  }

  function Written(
      n: Naming, s: State, root: Root, fingerprint: Fingerprint, ns: Namespace, key: Key, value: Value,
      faults: Faults): Disk
  {
    var (ok, disk) := Prepared(n, s, root, fingerprint, ns, faults);
    if ok && s.open && !faults.write then disk[PersistentKey(n, ns, root, key) := Entry(value)] else disk
  }

  // ------------------------------------------------------------- the memory tier

  datatype Fifo = Fifo(values: map<Key, Value>, keys: seq<Key>)

  const EMPTY_FIFO := Fifo(map[], [])

  function Trimmed(f: Fifo, maximum: nat): Fifo
    decreases |f.keys|
  {
    if |f.keys| <= maximum then f else Trimmed(Fifo(f.values - {f.keys[0]}, f.keys[1..]), maximum)
  }

  function Put(f: Fifo, key: Key, value: Value, maximum: nat): Fifo {
    Trimmed(Fifo(f.values[key := value], if key in f.values then f.keys else f.keys + [key]), maximum)
  }

  datatype RepositoryCache = RepositoryCache(
    fingerprint: Fingerprint, historyScopes: Fifo, history: Fifo, details: Fifo, branches: Fifo)

  /** The fingerprint of a cache that has seen no refs: the empty string. */
  const NO_FINGERPRINT: Fingerprint := 0

  const EMPTY_CACHE := RepositoryCache(NO_FINGERPRINT, EMPTY_FIFO, EMPTY_FIFO, EMPTY_FIFO, EMPTY_FIFO)

  function Shelf(c: RepositoryCache, ns: Namespace): Fifo {
    match ns
    case HistoryScope => c.historyScopes
    case History => c.history
    case Detail => c.details
    case Branches => c.branches
  }

  function WithShelf(c: RepositoryCache, ns: Namespace, f: Fifo): RepositoryCache {
    match ns
    case HistoryScope => c.(historyScopes := f)
    case History => c.(history := f)
    case Detail => c.(details := f)
    case Branches => c.(branches := f)
  }

  function Refreshed(c: RepositoryCache, ns: Namespace, fingerprint: Fingerprint): RepositoryCache {
    if !RefScoped(ns) || c.fingerprint == fingerprint then c
    else c.(fingerprint := fingerprint, historyScopes := EMPTY_FIFO, history := EMPTY_FIFO, branches := EMPTY_FIFO)
  }

  datatype State = State(caches: map<Root, RepositoryCache>, roots: seq<Root>, disk: Disk, open: bool)

  function Admitted(s: State, root: Root): (r: State)
    ensures root in r.caches && r.disk == s.disk && r.open == s.open
  {
    if root in s.caches then s
    else
      var full := |s.roots| >= MAXIMUM_REPOSITORIES;
      s.(caches := (if full then s.caches - {s.roots[0]} else s.caches)[root := EMPTY_CACHE],
         roots := (if full then s.roots[1..] else s.roots) + [root])
  }

  /** The state with the cache of root admitted and refreshed. */
  function Entered(s: State, root: Root, ns: Namespace, fingerprint: Fingerprint): (r: State)
    ensures root in r.caches && r.disk == s.disk && r.open == s.open
  {
    var a := Admitted(s, root);
    a.(caches := a.caches[root := Refreshed(a.caches[root], ns, fingerprint)])
  }

  function Shelved(s: State, root: Root, ns: Namespace, key: Key, value: Value): State
    requires root in s.caches
  {
    var c := s.caches[root];
    s.(caches := s.caches[root := WithShelf(c, ns, Put(Shelf(c, ns), key, value, Maximum(ns)))])
  }

  function Load(
      n: Naming, s: State, root: Root, fingerprint: Fingerprint, ns: Namespace, key: Key,
      faults: Faults): (State, Option<Value>)
  {
    var e := Entered(s, root, ns, fingerprint);
    var shelf := Shelf(e.caches[root], ns);
    if key in shelf.values then (e, Some(shelf.values[key]))
    else
      var (found, disk) := Fetched(n, e, root, fingerprint, ns, key, faults);
      match found
      case None => (e.(disk := disk), None)
      case Some(v) => (Shelved(e, root, ns, key, v).(disk := disk), Some(v))
  }

  function Store(
      n: Naming, s: State, root: Root, fingerprint: Fingerprint, ns: Namespace, key: Key, value: Value,
      faults: Faults): State
  {
    var e := Entered(s, root, ns, fingerprint);
    Shelved(e, root, ns, key, value).(disk := Written(n, e, root, fingerprint, ns, key, value, faults))
  }

  // ----------------------------------------------------------------- the service

  class Service {
    const naming: Naming
    var caches: map<Root, RepositoryCache>
    var cacheRoots: seq<Root>
    var disk: Disk
    var open: bool

    constructor (naming: Naming, disk: Disk, open: bool)
      ensures Now() == State(map[], [], disk, open) && this.naming == naming
    {
      this.naming, this.caches, this.cacheRoots, this.disk, this.open := naming, map[], [], disk, open;
    }

    ghost function Now(): State
      reads this
    {
      State(caches, cacheRoots, disk, open)
    }

    method CacheForRepository(root: Root)
      modifies `caches, `cacheRoots
      ensures Now() == Admitted(old(Now()), root)
    {
      if root in caches { return; }
      if |cacheRoots| >= MAXIMUM_REPOSITORIES {
        caches := caches - {cacheRoots[0]};
        cacheRoots := cacheRoots[1..];
      }
      caches := caches[root := EMPTY_CACHE];
      cacheRoots := cacheRoots + [root];
    }

    method RefreshRefCache(root: Root, fingerprint: Fingerprint, ghost ns: Namespace)
      requires root in caches && RefScoped(ns)
      modifies `caches
      ensures caches == old(caches)[root := Refreshed(old(caches[root]), ns, fingerprint)]
    {
      var cache := caches[root];
      if cache.fingerprint == fingerprint { return; }
      cache := cache.(fingerprint := fingerprint);
      cache := cache.(historyScopes := EMPTY_FIFO);
      cache := cache.(history := EMPTY_FIFO);
      cache := cache.(branches := EMPTY_FIFO);
      caches := caches[root := cache];
    }

    static method TrimCache(f: Fifo, maximum: nat) returns (r: Fifo)
      ensures r == Trimmed(f, maximum)
    {
      r := f;
      while |r.keys| > maximum
        invariant Trimmed(r, maximum) == Trimmed(f, maximum)
        decreases |r.keys|
      {
        var oldest := r.keys[0];
        r := r.(keys := r.keys[1..]);
        r := r.(values := r.values - {oldest});
      }
    }

    method EnsureFingerprint(root: Root, fingerprint: Fingerprint, faults: Faults) returns (ok: bool)
      modifies `disk
      ensures (ok, disk) == if open then Ensured(naming, old(disk), root, fingerprint, faults) else (true, old(disk))
    {
      if !open { return true; }
      var metadataKey := MetadataKey(naming, root);
      if faults.readRefs { return false; }
      if metadataKey in disk && disk[metadataKey] == Refs(fingerprint) { return true; }
      var batch := disk;
      var namespaces := [History, HistoryScope, Branches];
      for i := 0 to |namespaces|
        invariant i == 0 ==> batch == disk
        invariant i == 1 ==> batch == DeleteRepository(naming, disk, History, root)
        invariant i == 2 ==>
                  batch == DeleteRepository(naming, DeleteRepository(naming, disk, History, root), HistoryScope, root)
        invariant i == 3 ==> batch == Invalidate(naming, disk, root)
      {
        var prefix := RepositoryPrefix(naming, namespaces[i], root);
        batch := DeleteRange(batch, prefix, PrefixLimit(prefix));
      }
      batch := batch[metadataKey := Refs(fingerprint)];
      if faults.commit { return false; }
      disk := batch;
      return true;
    }

    method LoadPersistent(root: Root, fingerprint: Fingerprint, ns: Namespace, key: Key, faults: Faults)
      returns (found: Option<Value>)
      modifies `disk
      ensures (found, disk) == Fetched(naming, old(Now()), root, fingerprint, ns, key, faults)
    {
      if RefScoped(ns) {
        var ok := EnsureFingerprint(root, fingerprint, faults);
        if !ok { return None; }
      }
      var k := PersistentKey(naming, ns, root, key);
      if !open || faults.read || k !in disk || !disk[k].Entry? { return None; }
      return Some(disk[k].value);
    }

    method StorePersistent(root: Root, fingerprint: Fingerprint, ns: Namespace, key: Key, value: Value, faults: Faults)
      modifies `disk
      ensures disk == Written(naming, old(Now()), root, fingerprint, ns, key, value, faults)
    {
      if RefScoped(ns) {
        var ok := EnsureFingerprint(root, fingerprint, faults);
        if !ok { return; }
      }
      if !open || faults.write { return; }
      disk := disk[PersistentKey(naming, ns, root, key) := Entry(value)];
    }

    /** cachedHistory and its three siblings. */
    method Cached(root: Root, fingerprint: Fingerprint, ns: Namespace, key: Key, faults: Faults)
      returns (found: Option<Value>)
      modifies this
      ensures (Now(), found) == Load(naming, old(Now()), root, fingerprint, ns, key, faults)
    {
      CacheForRepository(root);
      if RefScoped(ns) { RefreshRefCache(root, fingerprint, ns); }
      assert Now().caches == Entered(old(Now()), root, ns, fingerprint).caches;
      assert Now() == Entered(old(Now()), root, ns, fingerprint);
      var shelf := Shelf(caches[root], ns);
      if key in shelf.values { return Some(shelf.values[key]); }
      found := LoadPersistent(root, fingerprint, ns, key, faults);
      if found.Some? {
        shelf := Fifo(shelf.values[key := found.value], shelf.keys + [key]);
        shelf := TrimCache(shelf, Maximum(ns));
        caches := caches[root := WithShelf(caches[root], ns, shelf)];
      }
    }

    /** storeHistory and its three siblings. */
    method StoreValue(root: Root, fingerprint: Fingerprint, ns: Namespace, key: Key, value: Value, faults: Faults)
      modifies this
      ensures Now() == Store(naming, old(Now()), root, fingerprint, ns, key, value, faults)
    {
      hide Trimmed;
      CacheForRepository(root);
      if RefScoped(ns) { RefreshRefCache(root, fingerprint, ns); }
      assert Now().caches == Entered(old(Now()), root, ns, fingerprint).caches;
      var shelf := Shelf(caches[root], ns);
      if key !in shelf.values { shelf := shelf.(keys := shelf.keys + [key]); }
      shelf := shelf.(values := shelf.values[key := value]);
      shelf := TrimCache(shelf, Maximum(ns));
      caches := caches[root := WithShelf(caches[root], ns, shelf)];
      StorePersistent(root, fingerprint, ns, key, value, faults);
    }
  }

  // ------------------------------------------------------------------------ runs

  datatype Step =
    | Reads(root: Root, fingerprint: Fingerprint, ns: Namespace, key: Key, faults: Faults)
    | Writes(root: Root, fingerprint: Fingerprint, ns: Namespace, key: Key, value: Value, faults: Faults)
    | Closes
    | Relaunches(opens: bool, wiped: bool)

  const INITIAL := State(map[], [], map[], true)

  function Next(n: Naming, s: State, step: Step): State {
    match step
    case Reads(root, fingerprint, ns, key, faults) => Load(n, s, root, fingerprint, ns, key, faults).0
    case Writes(root, fingerprint, ns, key, value, faults) => Store(n, s, root, fingerprint, ns, key, value, faults)
    case Closes => s.(open := false)
    case Relaunches(opens, wiped) => State(map[], [], if wiped then map[] else s.disk, opens)
  }

  function After(n: Naming, steps: seq<Step>): State {
    if steps == [] then INITIAL else Next(n, After(n, steps[..|steps| - 1]), steps[|steps| - 1])
  }
}
