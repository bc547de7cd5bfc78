/**
 * What the two tiers of HistoryCache keep over whole runs: the bookkeeping of the bounded
 * maps, that a hit returns a value stored for exactly what was asked for, and that with
 * working storage the two tiers together are one unbounded table.
 */
module HistoryCacheProofs {
  import opened Common
  import opened HistoryCache

  // ------------------------------------------------------ bookkeeping and bounds

  ghost predicate Tidy(f: Fifo, maximum: nat) {
    && Distinct(f.keys)
    && (forall k :: k in f.keys <==> k in f.values)
    && |f.keys| <= maximum
  }

  ghost predicate TidyCache(c: RepositoryCache) {
    forall ns :: Tidy(Shelf(c, ns), Maximum(ns))
  }

  ghost predicate TidyState(s: State) {
    && Distinct(s.roots)
    && (forall r :: r in s.roots <==> r in s.caches)
    && |s.roots| <= MAXIMUM_REPOSITORIES
    && forall r :: r in s.caches ==> TidyCache(s.caches[r])
  }

  /** Trimming keeps the newest keys, with their values. */
  lemma {:induction false} TrimKeepsTheNewest(f: Fifo, maximum: nat)
    requires Tidy(f, |f.keys|)
    ensures var r := Trimmed(f, maximum);
      && Tidy(r, maximum)
      && r.keys == f.keys[|f.keys| - Min(|f.keys|, maximum)..]
      && forall k :: k in r.values ==> k in f.values && r.values[k] == f.values[k]
    decreases |f.keys|
  {
    if |f.keys| > maximum {
      var g := Fifo(f.values - {f.keys[0]}, f.keys[1..]);
      assert forall k :: k in g.keys <==> k in f.keys && k != f.keys[0];
      TrimKeepsTheNewest(g, maximum);
    }
  }

  /** Storing under a key already held leaves the order alone; a new key goes last. */
  lemma PutKeeps(f: Fifo, key: Key, value: Value, maximum: nat)
    requires Tidy(f, maximum) && maximum > 0
    ensures var r := Put(f, key, value, maximum);
      && Tidy(r, maximum)
      && key in r.values && r.values[key] == value
      && (key in f.values ==> r.keys == f.keys)
      && (key !in f.values ==> r.keys == (f.keys + [key])[if |f.keys| == maximum then 1 else 0..])
      && forall k :: k in r.values && k != key ==> k in f.values && r.values[k] == f.values[k]
  {
    if key in f.values {
      assert key in f.keys;
    } else {
      PutNewKey(f, key, value, maximum);
    }
  }

  lemma PutNewKey(f: Fifo, key: Key, value: Value, maximum: nat)
    requires Tidy(f, maximum) && maximum > 0 && key !in f.values
    ensures var r := Put(f, key, value, maximum);
      && Tidy(r, maximum)
      && r.keys == (f.keys + [key])[if |f.keys| == maximum then 1 else 0..]
      && key in r.values && r.values[key] == value
      && forall k :: k in r.values && k != key ==> k in f.values && r.values[k] == f.values[k]
  {
    var g := Fifo(f.values[key := value], f.keys + [key]);
    assert key !in f.keys;
    assert forall k :: k in g.keys <==> k in f.keys || k == key;
    if |f.keys| == maximum {
      var r := Fifo(g.values - {g.keys[0]}, g.keys[1..]);
      assert Trimmed(r, maximum) == r;
      assert g.keys[0] == f.keys[0] && g.keys[0] != key;
      assert forall k :: k in r.keys <==> k in g.keys && k != g.keys[0];
    } else {
      assert Trimmed(g, maximum) == g;
    }
  }

  lemma EmptyIsTidy()
    ensures TidyCache(EMPTY_CACHE)
  {
  }

  lemma AdmittedIsTidy(s: State, root: Root)
    requires TidyState(s)
    ensures TidyState(Admitted(s, root))
  {
    if root !in s.caches {
      EmptyIsTidy();
      var kept := if |s.roots| >= MAXIMUM_REPOSITORIES then s.roots[1..] else s.roots;
      assert forall r :: r in kept <==> r in s.roots && (|s.roots| >= MAXIMUM_REPOSITORIES ==> r != s.roots[0]);
      assert forall r :: r in kept + [root] <==> r in kept || r == root;
    }
  }

  lemma EnteredIsTidy(s: State, root: Root, ns: Namespace, fingerprint: Fingerprint)
    requires TidyState(s)
    ensures TidyState(Entered(s, root, ns, fingerprint))
  {
    EmptyIsTidy();
    hide Tidy, Admitted;
    AdmittedIsTidy(s, root);
    var a := Admitted(s, root);
    var c := Refreshed(a.caches[root], ns, fingerprint);
    assert TidyCache(a.caches[root]);
    forall m ensures Tidy(Shelf(c, m), Maximum(m)) {
      assert Tidy(Shelf(a.caches[root], m), Maximum(m));
    }
  }

  lemma ShelvedIsTidy(s: State, root: Root, ns: Namespace, key: Key, value: Value)
    requires TidyState(s) && root in s.caches
    ensures TidyState(Shelved(s, root, ns, key, value))
  {
    hide Tidy, Put, Trimmed;
    var c := s.caches[root];
    assert TidyCache(c);
    PutKeeps(Shelf(c, ns), key, value, Maximum(ns));
    var d := Shelved(s, root, ns, key, value).caches[root];
    forall m ensures Tidy(Shelf(d, m), Maximum(m)) {
      assert Tidy(Shelf(c, m), Maximum(m));
    }
  }

  lemma NextIsTidy(n: Naming, s: State, step: Step)
    requires TidyState(s)
    ensures TidyState(Next(n, s, step))
  {
    if step.Reads? || step.Writes? {
      EnteredIsTidy(s, step.root, step.ns, step.fingerprint);
      var e := Entered(s, step.root, step.ns, step.fingerprint);
      if step.Writes? {
        ShelvedIsTidy(e, step.root, step.ns, step.key, step.value);
      } else {
        var found := Load(n, s, step.root, step.fingerprint, step.ns, step.key, step.faults).1;
        if found.Some? { ShelvedIsTidy(e, step.root, step.ns, step.key, found.value); }
      }
    }
  }

  /** In every run, failing storage or not: key lists are duplicate-free, equal to the map
      domains, and within their bounds. */
  lemma {:induction false} RunsAreTidy(n: Naming, steps: seq<Step>)
    ensures TidyState(After(n, steps))
  {
    if steps != [] {
      RunsAreTidy(n, steps[..|steps| - 1]);
      NextIsTidy(n, After(n, steps[..|steps| - 1]), steps[|steps| - 1]);
    }
  }

  // --------------------------------------------------- what a memory entry can be

  /** Where an entry of memory after a step can come from: it was there, under the same
      fingerprint, or the step put it there. */
  lemma MemoryComesFrom(s: State, root: Root, ns: Namespace, fingerprint: Fingerprint, r: Root, m: Namespace, k: Key)
    requires var e := Entered(s, root, ns, fingerprint); r in e.caches && k in Shelf(e.caches[r], m).values
    ensures r in s.caches && k in Shelf(s.caches[r], m).values
    ensures Shelf(s.caches[r], m).values[k] == Shelf(Entered(s, root, ns, fingerprint).caches[r], m).values[k]
    ensures RefScoped(m) ==> Entered(s, root, ns, fingerprint).caches[r].fingerprint == s.caches[r].fingerprint
  {
    assert Shelf(EMPTY_CACHE, m) == EMPTY_FIFO;
  }

  lemma EnteredFingerprint(s: State, root: Root, ns: Namespace, fingerprint: Fingerprint)
    requires RefScoped(ns)
    ensures Entered(s, root, ns, fingerprint).caches[root].fingerprint == fingerprint
  {
  }

  lemma ShelvedComesFrom(e: State, root: Root, ns: Namespace, key: Key, value: Value, r: Root, m: Namespace, k: Key)
    requires TidyState(e) && root in e.caches
    requires r in e.caches && k in Shelf(Shelved(e, root, ns, key, value).caches[r], m).values
    ensures Shelved(e, root, ns, key, value).caches[r].fingerprint == e.caches[r].fingerprint
    ensures var v := Shelf(Shelved(e, root, ns, key, value).caches[r], m).values[k];
      if (r, m, k) == (root, ns, key) then v == value
      else k in Shelf(e.caches[r], m).values && v == Shelf(e.caches[r], m).values[k]
  {
    assert TidyCache(e.caches[root]);
    PutKeeps(Shelf(e.caches[root], ns), key, value, Maximum(ns));
  }

  // --------------------------------------------------------------- hits are exact

  /** What an entry is about: details do not depend on the refs. */
  datatype Subject = Subject(root: Root, scope: Option<Fingerprint>, ns: Namespace, key: Key)

  function About(root: Root, fingerprint: Fingerprint, ns: Namespace, key: Key): Subject {
    Subject(root, if RefScoped(ns) then Some(fingerprint) else None, ns, key)
  }

  /** The values ever stored about a subject. */
  ghost predicate EverStored(steps: seq<Step>, subject: Subject, value: Value) {
    exists i :: 0 <= i < |steps| && StoresAt(steps[i], subject, value)
  }

  predicate StoresAt(step: Step, subject: Subject, value: Value) {
    step.Writes? && About(step.root, step.fingerprint, step.ns, step.key) == subject && step.value == value
  }

  ghost predicate MemoryRecorded(s: State, steps: seq<Step>) {
    forall r, m, k :: r in s.caches && k in Shelf(s.caches[r], m).values ==>
      EverStored(steps, About(r, s.caches[r].fingerprint, m, k), Shelf(s.caches[r], m).values[k])
  }

  /** The fingerprint an entry of the store stands under. */
  function ScopeOnDisk(n: Naming, disk: Disk, m: Namespace, r: Root): Option<Fingerprint> {
    if RefScoped(m) && MetadataKey(n, r) in disk && disk[MetadataKey(n, r)].Refs? then
      Some(disk[MetadataKey(n, r)].fingerprint)
    else None
  }

  ghost predicate DiskEntryRecorded(n: Naming, disk: Disk, steps: seq<Step>, r: Root, m: Namespace, k: Key) {
    var key := PersistentKey(n, m, r, k);
    key in disk ==>
      && disk[key].Entry?
      && (RefScoped(m) ==> MetadataKey(n, r) in disk)
      && EverStored(steps, Subject(r, ScopeOnDisk(n, disk, m, r), m, k), disk[key].value)
  }

  ghost predicate DiskRecorded(n: Naming, disk: Disk, steps: seq<Step>) {
    && (forall r :: MetadataKey(n, r) in disk ==> disk[MetadataKey(n, r)].Refs?)
    && (forall r, m, k :: DiskEntryRecorded(n, disk, steps, r, m, k))
  }

  lemma StoredStays(steps: seq<Step>, step: Step, subject: Subject, value: Value)
    requires EverStored(steps, subject, value) || StoresAt(step, subject, value)
    ensures EverStored(steps + [step], subject, value)
  {
    var all := steps + [step];
    if EverStored(steps, subject, value) {
      var i :| 0 <= i < |steps| && StoresAt(steps[i], subject, value);
      assert all[i] == steps[i];
    } else {
      assert all[|steps|] == step;
    }
  }

  lemma PreparedIsRecorded(
      n: Naming, s: State, steps: seq<Step>, root: Root, fingerprint: Fingerprint, ns: Namespace, faults: Faults)
    requires Sound(n) && DiskRecorded(n, s.disk, steps)
    ensures var (ok, disk) := Prepared(n, s, root, fingerprint, ns, faults);
      && DiskRecorded(n, disk, steps)
      && (ok && s.open && RefScoped(ns) ==> ScopeOnDisk(n, disk, ns, root) == Some(fingerprint))
  {
    var (ok, disk) := Prepared(n, s, root, fingerprint, ns, faults);
    if disk != s.disk {
      forall r ensures MetadataKey(n, r) in disk ==> disk[MetadataKey(n, r)].Refs? {
        InvalidationIsExact(n, s.disk, root, Detail, r, 0);
      }
      forall r, m, k ensures DiskEntryRecorded(n, disk, steps, r, m, k) {
        InvalidationIsExact(n, s.disk, root, m, r, k);
        KeysAreApart(n, m, r, k, m, root, k);
        KeysAreApart(n, m, root, k, m, r, k);
        assert DiskEntryRecorded(n, s.disk, steps, r, m, k);
      }
    }
  }

  lemma FetchedIsRecorded(
      n: Naming, s: State, steps: seq<Step>, root: Root, fingerprint: Fingerprint, ns: Namespace, key: Key,
      faults: Faults)
    requires Sound(n) && DiskRecorded(n, s.disk, steps)
    ensures var (found, disk) := Fetched(n, s, root, fingerprint, ns, key, faults);
      && DiskRecorded(n, disk, steps)
      && (found.Some? ==> EverStored(steps, About(root, fingerprint, ns, key), found.value))
  {
    PreparedIsRecorded(n, s, steps, root, fingerprint, ns, faults);
    var (ok, disk) := Prepared(n, s, root, fingerprint, ns, faults);
    assert DiskEntryRecorded(n, disk, steps, root, ns, key);
  }

  lemma WrittenIsRecorded(n: Naming, s: State, steps: seq<Step>, step: Step)
    requires Sound(n) && step.Writes? && DiskRecorded(n, s.disk, steps)
    ensures DiskRecorded(n, Written(n, s, step.root, step.fingerprint, step.ns, step.key, step.value, step.faults),
                         steps + [step])
  {
    PreparedIsRecorded(n, s, steps, step.root, step.fingerprint, step.ns, step.faults);
    var (ok, disk) := Prepared(n, s, step.root, step.fingerprint, step.ns, step.faults);
    var written := Written(n, s, step.root, step.fingerprint, step.ns, step.key, step.value, step.faults);
    forall r, m, k ensures DiskEntryRecorded(n, written, steps + [step], r, m, k) {
      KeysAreApart(n, step.ns, step.root, step.key, m, r, k);
      assert DiskEntryRecorded(n, disk, steps, r, m, k);
      if PersistentKey(n, m, r, k) in written {
        StoredStays(steps, step, Subject(r, ScopeOnDisk(n, written, m, r), m, k),
                    written[PersistentKey(n, m, r, k)].value);
      }
    }
    forall r ensures MetadataKey(n, r) in written ==> written[MetadataKey(n, r)].Refs? {
      KeysAreApart(n, step.ns, step.root, step.key, step.ns, r, step.key);
    }
  }

  lemma RecordsStay(n: Naming, disk: Disk, steps: seq<Step>, step: Step)
    requires DiskRecorded(n, disk, steps)
    ensures DiskRecorded(n, disk, steps + [step])
  {
    forall r, m, k ensures DiskEntryRecorded(n, disk, steps + [step], r, m, k) {
      assert DiskEntryRecorded(n, disk, steps, r, m, k);
      if PersistentKey(n, m, r, k) in disk {
        StoredStays(steps, step, Subject(r, ScopeOnDisk(n, disk, m, r), m, k), disk[PersistentKey(n, m, r, k)].value);
      }
    }
  }

  lemma EnteredIsRecorded(s: State, steps: seq<Step>, root: Root, ns: Namespace, fingerprint: Fingerprint)
    requires MemoryRecorded(s, steps)
    ensures MemoryRecorded(Entered(s, root, ns, fingerprint), steps)
  {
    var e := Entered(s, root, ns, fingerprint);
    forall r, m, k | r in e.caches && k in Shelf(e.caches[r], m).values
      ensures EverStored(steps, About(r, e.caches[r].fingerprint, m, k), Shelf(e.caches[r], m).values[k])
    {
      MemoryComesFrom(s, root, ns, fingerprint, r, m, k);
    }
  }

  lemma ShelvedIsRecorded(e: State, steps: seq<Step>, step: Step, value: Value)
    requires step.Reads? || step.Writes?
    requires TidyState(e) && MemoryRecorded(e, steps) && step.root in e.caches
    requires RefScoped(step.ns) ==> e.caches[step.root].fingerprint == step.fingerprint
    requires EverStored(steps + [step], About(step.root, step.fingerprint, step.ns, step.key), value)
    ensures MemoryRecorded(Shelved(e, step.root, step.ns, step.key, value), steps + [step])
  {
    var h := Shelved(e, step.root, step.ns, step.key, value);
    forall r, m, k | r in h.caches && k in Shelf(h.caches[r], m).values
      ensures EverStored(steps + [step], About(r, h.caches[r].fingerprint, m, k), Shelf(h.caches[r], m).values[k])
    {
      ShelvedComesFrom(e, step.root, step.ns, step.key, value, r, m, k);
      if (r, m, k) != (step.root, step.ns, step.key) {
        StoredStays(steps, step, About(r, e.caches[r].fingerprint, m, k), Shelf(e.caches[r], m).values[k]);
      }
    }
  }

  lemma MemoryRecordsStay(s: State, steps: seq<Step>, step: Step)
    requires MemoryRecorded(s, steps)
    ensures MemoryRecorded(s, steps + [step])
  {
    forall r, m, k | r in s.caches && k in Shelf(s.caches[r], m).values
      ensures EverStored(steps + [step], About(r, s.caches[r].fingerprint, m, k), Shelf(s.caches[r], m).values[k])
    {
      StoredStays(steps, step, About(r, s.caches[r].fingerprint, m, k), Shelf(s.caches[r], m).values[k]);
    }
  }

  ghost predicate Recorded(n: Naming, s: State, steps: seq<Step>) {
    TidyState(s) && MemoryRecorded(s, steps) && DiskRecorded(n, s.disk, steps)
  }

  lemma LoadIsRecorded(
      n: Naming, s: State, steps: seq<Step>, root: Root, fingerprint: Fingerprint, ns: Namespace, key: Key,
      faults: Faults)
    requires Sound(n) && Recorded(n, s, steps)
    ensures var found := Load(n, s, root, fingerprint, ns, key, faults).1;
      found.Some? ==> EverStored(steps, About(root, fingerprint, ns, key), found.value)
  {
    var e := Entered(s, root, ns, fingerprint);
    EnteredIsRecorded(s, steps, root, ns, fingerprint);
    if key !in Shelf(e.caches[root], ns).values {
      FetchedIsRecorded(n, e, steps, root, fingerprint, ns, key, faults);
    }
  }

  lemma NextIsRecorded(n: Naming, s: State, steps: seq<Step>, step: Step)
    requires Sound(n) && Recorded(n, s, steps)
    ensures Recorded(n, Next(n, s, step), steps + [step])
  {
    NextIsTidy(n, s, step);
    RecordsStay(n, s.disk, steps, step);
    if step.Reads? || step.Writes? {
      EnteredIsTidy(s, step.root, step.ns, step.fingerprint);
      EnteredIsRecorded(s, steps, step.root, step.ns, step.fingerprint);
      var e := Entered(s, step.root, step.ns, step.fingerprint);
      if step.Writes? {
        var subject := About(step.root, step.fingerprint, step.ns, step.key);
        StoredStays(steps, step, subject, step.value);
        ShelvedIsRecorded(e, steps, step, step.value);
        WrittenIsRecorded(n, e, steps, step);
      } else {
        ReadIsRecorded(n, s, steps, step);
      }
    } else {
      MemoryRecordsStay(s, steps, step);
    }
  }

  lemma ReadIsRecorded(n: Naming, s: State, steps: seq<Step>, step: Step)
    requires Sound(n) && Recorded(n, s, steps) && step.Reads?
    ensures MemoryRecorded(Next(n, s, step), steps + [step]) && DiskRecorded(n, Next(n, s, step).disk, steps + [step])
  {
    EnteredIsTidy(s, step.root, step.ns, step.fingerprint);
    EnteredIsRecorded(s, steps, step.root, step.ns, step.fingerprint);
    var e := Entered(s, step.root, step.ns, step.fingerprint);
    if step.key in Shelf(e.caches[step.root], step.ns).values {
      MemoryRecordsStay(e, steps, step);
      RecordsStay(n, s.disk, steps, step);
    } else {
      FetchedIsRecorded(n, e, steps, step.root, step.fingerprint, step.ns, step.key, step.faults);
      var (found, disk) := Fetched(n, e, step.root, step.fingerprint, step.ns, step.key, step.faults);
      RecordsStay(n, disk, steps, step);
      if found.Some? {
        StoredStays(steps, step, About(step.root, step.fingerprint, step.ns, step.key), found.value);
        ShelvedIsRecorded(e, steps, step, found.value);
      } else {
        MemoryRecordsStay(e, steps, step);
      }
    }
  }

  lemma NothingRecorded(n: Naming)
    ensures Recorded(n, After(n, []), [])
  {
  }

  lemma {:induction false} RunsAreRecorded(n: Naming, steps: seq<Step>)
    requires Sound(n)
    ensures Recorded(n, After(n, steps), steps)
  {
    hide Recorded, Next, Sound;
    if steps == [] {
      NothingRecorded(n);
    } else {
      var last := |steps| - 1;
      RunsAreRecorded(n, steps[..last]);
      NextIsRecorded(n, After(n, steps[..last]), steps[..last], steps[last]);
      assert steps == steps[..last] + [steps[last]];
    }
  }

  /**
   * After any run, with any failures of the store, restarts and evictions, a hit returns
   * a value that was stored for exactly this repository, namespace and key and, where the
   * entry depends on the refs, for exactly this fingerprint.
   */
  lemma HitsAreExact(
      n: Naming, steps: seq<Step>, root: Root, fingerprint: Fingerprint, ns: Namespace, key: Key, faults: Faults)
    requires Sound(n)
    ensures var found := Load(n, After(n, steps), root, fingerprint, ns, key, faults).1;
      found.Some? ==> EverStored(steps, About(root, fingerprint, ns, key), found.value)
  {
    RunsAreRecorded(n, steps);
    LoadIsRecorded(n, After(n, steps), steps, root, fingerprint, ns, key, faults);
  }

  // ------------------------------------------- two bounded tiers are one big table

  /** An unbounded table: the last fingerprint seen of each repository, and every value
      stored since. */
  datatype Place = Place(ns: Namespace, root: Root, key: Key)

  datatype Table = Table(refs: map<Root, Fingerprint>, values: map<Place, Value>)

  function Seen(t: Table, root: Root, ns: Namespace, fingerprint: Fingerprint): Table {
    if !RefScoped(ns) || (root in t.refs && t.refs[root] == fingerprint) then t
    else
      Table(t.refs[root := fingerprint],
            map p | p in t.values && !(p.root == root && RefScoped(p.ns)) :: t.values[p])
  }

  function TableLoad(t: Table, root: Root, fingerprint: Fingerprint, ns: Namespace, key: Key): Option<Value> {
    var u := Seen(t, root, ns, fingerprint);
    if Place(ns, root, key) in u.values then Some(u.values[Place(ns, root, key)]) else None
  }

  function TableNext(t: Table, step: Step): Table {
    match step
    case Reads(root, fingerprint, ns, _, _) => Seen(t, root, ns, fingerprint)
    case Writes(root, fingerprint, ns, key, value, _) =>
      var u := Seen(t, root, ns, fingerprint);
      u.(values := u.values[Place(ns, root, key) := value])
    case Closes => t
    case Relaunches(_, wiped) => if wiped then Table(map[], map[]) else t
  }

  function TableAfter(steps: seq<Step>): Table {
    if steps == [] then Table(map[], map[]) else TableNext(TableAfter(steps[..|steps| - 1]), steps[|steps| - 1])
  }

  /** The store works: it is open and no call fails. */
  predicate Works(step: Step) {
    match step
    case Reads(_, _, _, _, faults) => faults == NO_FAULTS
    case Writes(_, _, _, _, _, faults) => faults == NO_FAULTS
    case Closes => false
    case Relaunches(opens, _) => opens
  }

  ghost predicate DiskPlace(n: Naming, disk: Disk, t: Table, p: Place) {
    var k := PersistentKey(n, p.ns, p.root, p.key);
    && (k in disk <==> p in t.values)
    && (k in disk ==> disk[k] == Entry(t.values[p]))
  }

  ghost predicate DiskRefs(n: Naming, disk: Disk, t: Table, r: Root) {
    && (MetadataKey(n, r) in disk <==> r in t.refs)
    && (r in t.refs ==> disk[MetadataKey(n, r)] == Refs(t.refs[r]))
  }

  ghost predicate DiskIsTable(n: Naming, disk: Disk, t: Table) {
    (forall r :: DiskRefs(n, disk, t, r)) && (forall p :: DiskPlace(n, disk, t, p))
  }

  ghost predicate MemoryPlace(s: State, t: Table, r: Root, m: Namespace, k: Key)
    requires r in s.caches && k in Shelf(s.caches[r], m).values
  {
    && Place(m, r, k) in t.values && t.values[Place(m, r, k)] == Shelf(s.caches[r], m).values[k]
    && (RefScoped(m) ==> r in t.refs && t.refs[r] == s.caches[r].fingerprint)
  }

  ghost predicate MemoryInTable(s: State, t: Table) {
    forall r, m, k :: r in s.caches && k in Shelf(s.caches[r], m).values ==> MemoryPlace(s, t, r, m, k)
  }

  ghost predicate IsTable(n: Naming, s: State, t: Table) {
    TidyState(s) && s.open && MemoryInTable(s, t) && DiskIsTable(n, s.disk, t)
  }

  lemma PreparedIsTable(n: Naming, s: State, t: Table, root: Root, fingerprint: Fingerprint, ns: Namespace)
    requires Sound(n) && s.open && DiskIsTable(n, s.disk, t)
    ensures Prepared(n, s, root, fingerprint, ns, NO_FAULTS).0
    ensures DiskIsTable(n, Prepared(n, s, root, fingerprint, ns, NO_FAULTS).1, Seen(t, root, ns, fingerprint))
  {
    var disk, u := Prepared(n, s, root, fingerprint, ns, NO_FAULTS).1, Seen(t, root, ns, fingerprint);
    assert DiskRefs(n, s.disk, t, root);
    if u != t {
      forall r ensures DiskRefs(n, disk, u, r) {
        InvalidationIsExact(n, s.disk, root, ns, r, 0);
        KeysAreApart(n, ns, root, 0, ns, r, 0);
        assert DiskRefs(n, s.disk, t, r);
      }
      forall p ensures DiskPlace(n, disk, u, p) {
        InvalidationIsExact(n, s.disk, root, p.ns, p.root, p.key);
        KeysAreApart(n, p.ns, p.root, p.key, ns, root, 0);
        assert DiskPlace(n, s.disk, t, p);
      }
    }
  }

  lemma WrittenIsTable(n: Naming, disk: Disk, t: Table, ns: Namespace, root: Root, key: Key, value: Value)
    requires Sound(n) && DiskIsTable(n, disk, t)
    ensures DiskIsTable(n, disk[PersistentKey(n, ns, root, key) := Entry(value)],
                        t.(values := t.values[Place(ns, root, key) := value]))
  {
    var written, u :=
        disk[PersistentKey(n, ns, root, key) := Entry(value)], t.(values := t.values[Place(ns, root, key) := value]);
    forall r ensures DiskRefs(n, written, u, r) {
      KeysAreApart(n, ns, root, key, ns, r, key);
      assert DiskRefs(n, disk, t, r);
    }
    forall p ensures DiskPlace(n, written, u, p) {
      KeysAreApart(n, ns, root, key, p.ns, p.root, p.key);
      assert DiskPlace(n, disk, t, p);
    }
  }

  lemma EnteredInTable(s: State, t: Table, root: Root, ns: Namespace, fingerprint: Fingerprint)
    requires MemoryInTable(s, t)
    ensures MemoryInTable(Entered(s, root, ns, fingerprint), Seen(t, root, ns, fingerprint))
  {
    var e, u := Entered(s, root, ns, fingerprint), Seen(t, root, ns, fingerprint);
    forall r, m, k | r in e.caches && k in Shelf(e.caches[r], m).values ensures MemoryPlace(e, u, r, m, k) {
      MemoryComesFrom(s, root, ns, fingerprint, r, m, k);
      assert MemoryPlace(s, t, r, m, k);
      if RefScoped(ns) { EnteredFingerprint(s, root, ns, fingerprint); }
    }
  }

  lemma ShelvedInTable(e: State, t: Table, root: Root, ns: Namespace, key: Key, value: Value)
    requires TidyState(e) && MemoryInTable(e, t) && root in e.caches
    requires RefScoped(ns) ==> root in t.refs && t.refs[root] == e.caches[root].fingerprint
    ensures MemoryInTable(Shelved(e, root, ns, key, value), t.(values := t.values[Place(ns, root, key) := value]))
  {
    var h, u := Shelved(e, root, ns, key, value), t.(values := t.values[Place(ns, root, key) := value]);
    forall r, m, k | r in h.caches && k in Shelf(h.caches[r], m).values ensures MemoryPlace(h, u, r, m, k) {
      ShelvedComesFrom(e, root, ns, key, value, r, m, k);
      if (r, m, k) != (root, ns, key) { assert MemoryPlace(e, t, r, m, k); }
    }
  }

  lemma DiskIsNotMemory(s: State, t: Table, disk: Disk)
    requires MemoryInTable(s, t)
    ensures MemoryInTable(s.(disk := disk), t)
  {
    var u := s.(disk := disk);
    forall r, m, k | r in u.caches && k in Shelf(u.caches[r], m).values ensures MemoryPlace(u, t, r, m, k) {
      assert MemoryPlace(s, t, r, m, k);
    }
  }

  lemma LoadIsTable(n: Naming, s: State, t: Table, root: Root, fingerprint: Fingerprint, ns: Namespace, key: Key)
    requires Sound(n) && IsTable(n, s, t)
    ensures Load(n, s, root, fingerprint, ns, key, NO_FAULTS).1 == TableLoad(t, root, fingerprint, ns, key)
    ensures IsTable(n, Load(n, s, root, fingerprint, ns, key, NO_FAULTS).0, Seen(t, root, ns, fingerprint))
  {
    hide TidyCache, DiskRefs, Sound, Put, MemoryInTable, Admitted, Refreshed, Prepared;
    var e, u := Entered(s, root, ns, fingerprint), Seen(t, root, ns, fingerprint);
    var step := Reads(root, fingerprint, ns, key, NO_FAULTS);
    NextIsTidy(n, s, step);
    EnteredIsTidy(s, root, ns, fingerprint);
    EnteredInTable(s, t, root, ns, fingerprint);
    if key in Shelf(e.caches[root], ns).values {
      assert MemoryPlace(e, u, root, ns, key);
      HitLeavesTheTable(s, t, root, fingerprint, ns, key);
    } else {
      var disk := Prepared(n, e, root, fingerprint, ns, NO_FAULTS).1;
      PreparedIsTable(n, e, t, root, fingerprint, ns);
      assert DiskPlace(n, disk, u, Place(ns, root, key));
      DiskIsNotMemory(e, u, disk);
      if Place(ns, root, key) in u.values {
        var v := u.values[Place(ns, root, key)];
        if RefScoped(ns) { EnteredFingerprint(s, root, ns, fingerprint); }
        ShelvedInTable(e, u, root, ns, key, v);
        assert u.values[Place(ns, root, key) := v] == u.values;
        DiskIsNotMemory(Shelved(e, root, ns, key, v), u, disk);
      }
    }
  }

  /** A hit in memory never reaches the store, and needs not: the refs have not changed. */
  lemma HitLeavesTheTable(s: State, t: Table, root: Root, fingerprint: Fingerprint, ns: Namespace, key: Key)
    requires MemoryInTable(s, t) && key in Shelf(Entered(s, root, ns, fingerprint).caches[root], ns).values
    ensures Seen(t, root, ns, fingerprint) == t
  {
    MemoryComesFrom(s, root, ns, fingerprint, root, ns, key);
    assert MemoryPlace(s, t, root, ns, key);
    if RefScoped(ns) { EnteredFingerprint(s, root, ns, fingerprint); }
  }

  lemma StoreIsTable(n: Naming, s: State, t: Table, step: Step)
    requires Sound(n) && IsTable(n, s, t) && step.Writes? && Works(step)
    ensures IsTable(n, Next(n, s, step), TableNext(t, step))
  {
    var e, u := Entered(s, step.root, step.ns, step.fingerprint), Seen(t, step.root, step.ns, step.fingerprint);
    NextIsTidy(n, s, step);
    EnteredIsTidy(s, step.root, step.ns, step.fingerprint);
    EnteredInTable(s, t, step.root, step.ns, step.fingerprint);
    PreparedIsTable(n, e, t, step.root, step.fingerprint, step.ns);
    if RefScoped(step.ns) { EnteredFingerprint(s, step.root, step.ns, step.fingerprint); }
    ShelvedInTable(e, u, step.root, step.ns, step.key, step.value);
    WrittenIsTable(n, Prepared(n, e, step.root, step.fingerprint, step.ns, NO_FAULTS).1, u, step.ns, step.root,
                   step.key, step.value);
  }

  lemma {:induction false} RunsAreTables(n: Naming, steps: seq<Step>)
    requires Sound(n) && forall i :: 0 <= i < |steps| ==> Works(steps[i])
    ensures IsTable(n, After(n, steps), TableAfter(steps))
  {
    if steps != [] {
      var last := |steps| - 1;
      RunsAreTables(n, steps[..last]);
      var s, t, step := After(n, steps[..last]), TableAfter(steps[..last]), steps[last];
      assert Works(step);
      match step
      case Reads(root, fingerprint, ns, key, _) => LoadIsTable(n, s, t, root, fingerprint, ns, key);
      case Writes(_, _, _, _, _, _) => StoreIsTable(n, s, t, step);
      case Closes =>
      case Relaunches(_, wiped) => if wiped { EmptyIsTable(n); }
    }
  }

  lemma EmptyIsTable(n: Naming)
    ensures DiskIsTable(n, map[], Table(map[], map[]))
  {
  }

  /**
   * While the store works, neither eviction, nor the bounds, nor a restart can be seen: a
   * load answers what a table that forgets a repository's ref entries exactly when its
   * fingerprint changes would answer.
   */
  lemma TwoTiersAreOneTable(n: Naming, steps: seq<Step>, root: Root, fingerprint: Fingerprint, ns: Namespace, key: Key)
    requires Sound(n) && forall i :: 0 <= i < |steps| ==> Works(steps[i])
    ensures Load(n, After(n, steps), root, fingerprint, ns, key, NO_FAULTS).1
            == TableLoad(TableAfter(steps), root, fingerprint, ns, key)
  {
    RunsAreTables(n, steps);
    LoadIsTable(n, After(n, steps), TableAfter(steps), root, fingerprint, ns, key);
  }

  /** A value just stored is found at once, whatever fails in the store. */
  lemma StoredIsFound(
      n: Naming, steps: seq<Step>, root: Root, fingerprint: Fingerprint, ns: Namespace, key: Key, value: Value,
      faults: Faults, later: Faults)
    ensures Load(n, Store(n, After(n, steps), root, fingerprint, ns, key, value, faults), root, fingerprint, ns, key,
                 later).1 == Some(value)
  {
    var s := After(n, steps);
    RunsAreTidy(n, steps);
    EnteredIsTidy(s, root, ns, fingerprint);
    var e := Entered(s, root, ns, fingerprint);
    assert TidyCache(e.caches[root]);
    PutKeeps(Shelf(e.caches[root], ns), key, value, Maximum(ns));
    if RefScoped(ns) { EnteredFingerprint(s, root, ns, fingerprint); }
  }

  // ------------------------------------------------- exactly what one call changes

  /** What is left of a shelf once a call has entered its repository: nothing of one not admitted
      before, and nothing that describes refs if the call brings another fingerprint of them. */
  function Remaining(s: State, root: Root, ns: Namespace, fingerprint: Fingerprint, m: Namespace): Fifo {
    if root !in s.caches then EMPTY_FIFO
    else if RefScoped(ns) && RefScoped(m) && s.caches[root].fingerprint != fingerprint then EMPTY_FIFO
    else Shelf(s.caches[root], m)
  }

  /** The repository that makes room for a new one: the one admitted first. */
  predicate Evicted(s: State, root: Root, r: Root) {
    root !in s.caches && |s.roots| == MAXIMUM_REPOSITORIES && r == s.roots[0]
  }

  /** The shelf with a value put on it: a key already there keeps its place, a new one goes last, and the
      oldest goes when there is no room. */
  ghost predicate PutOn(f: Fifo, f': Fifo, key: Key, value: Value, maximum: nat)
    requires maximum > 0
  {
    && f'.keys == (if key in f.values then f.keys else if |f.keys| < maximum then f.keys + [key]
                   else f.keys[1..] + [key])
    && (forall k :: k in f'.values <==> k in f'.keys)
    && key in f'.values && f'.values[key] == value
    && forall k :: k in f'.values && k != key ==> k in f.values && f'.values[k] == f.values[k]
  }

  lemma PutPutsOn(f: Fifo, key: Key, value: Value, maximum: nat)
    requires Tidy(f, maximum) && maximum > 0
    ensures PutOn(f, Put(f, key, value, maximum), key, value, maximum)
  {
    hide Put;
    PutKeeps(f, key, value, maximum);
    if key !in f.values && |f.keys| == maximum {
      assert (f.keys + [key])[1..] == f.keys[1..] + [key];
    }
  }

  lemma EnteringLeaves(s: State, root: Root, ns: Namespace, fingerprint: Fingerprint)
    requires TidyState(s)
    ensures var e := Entered(s, root, ns, fingerprint);
      && e.roots == (if root in s.caches then s.roots
                     else (if |s.roots| == MAXIMUM_REPOSITORIES then s.roots[1..] else s.roots) + [root])
      && (forall r :: r != root ==>
            (r in e.caches <==> r in s.caches && !Evicted(s, root, r))
            && (r in e.caches ==> e.caches[r] == s.caches[r]))
      && (forall m :: Shelf(e.caches[root], m) == Remaining(s, root, ns, fingerprint, m))
      && (RefScoped(ns) ==> e.caches[root].fingerprint == fingerprint)
  {
    hide Tidy;
  }

  /**
   * In every run: a call admits its repository, evicting the one admitted first when there is no
   * room; it empties the shelves of its repository that describe refs exactly when the refs changed;
   * a value stored, or found in the store, is put on its shelf; and nothing else in memory changes.
   */
  lemma CallChangesMemory(n: Naming, steps: seq<Step>, step: Step)
    requires step.Reads? || step.Writes?
    ensures var s, s' := After(n, steps), Next(n, After(n, steps), step);
      var remaining := Remaining(s, step.root, step.ns, step.fingerprint, step.ns);
      && step.root in s'.caches
      && s'.roots == (if step.root in s.caches then s.roots
                      else (if |s.roots| == MAXIMUM_REPOSITORIES then s.roots[1..] else s.roots) + [step.root])
      && (forall r :: r != step.root ==>
            (r in s'.caches <==> r in s.caches && !Evicted(s, step.root, r))
            && (r in s'.caches ==> s'.caches[r] == s.caches[r]))
      && (forall m :: m != step.ns ==>
            Shelf(s'.caches[step.root], m) == Remaining(s, step.root, step.ns, step.fingerprint, m))
      && (step.Writes? ==>
            PutOn(remaining, Shelf(s'.caches[step.root], step.ns), step.key, step.value, Maximum(step.ns)))
      && (step.Reads? ==>
            var found := Load(n, s, step.root, step.fingerprint, step.ns, step.key, step.faults).1;
            if found.Some? && step.key !in remaining.values
            then PutOn(remaining, Shelf(s'.caches[step.root], step.ns), step.key, found.value, Maximum(step.ns))
            else Shelf(s'.caches[step.root], step.ns) == remaining)
  {
    hide TidyState, Entered, Remaining, PutOn, Put, Tidy, Fetched, Written;
    var s := After(n, steps);
    RunsAreTidy(n, steps);
    EnteringLeaves(s, step.root, step.ns, step.fingerprint);
    EnteredIsTidy(s, step.root, step.ns, step.fingerprint);
    var e := Entered(s, step.root, step.ns, step.fingerprint);
    EnteredShelfIsTidy(e, step.root, step.ns);
    if step.Writes? {
      PutPutsOn(Shelf(e.caches[step.root], step.ns), step.key, step.value, Maximum(step.ns));
    } else {
      var found := Load(n, s, step.root, step.fingerprint, step.ns, step.key, step.faults).1;
      if found.Some? {
        PutPutsOn(Shelf(e.caches[step.root], step.ns), step.key, found.value, Maximum(step.ns));
      }
    }
  }

  lemma EnteredShelfIsTidy(e: State, root: Root, ns: Namespace)
    requires TidyState(e) && root in e.caches
    ensures Tidy(Shelf(e.caches[root], ns), Maximum(ns)) && Maximum(ns) > 0
  {
    assert TidyCache(e.caches[root]);
  }

  /** The stored fingerprint is this one. */
  predicate HoldsRefs(n: Naming, disk: Disk, root: Root, fingerprint: Fingerprint) {
    MetadataKey(n, root) in disk && disk[MetadataKey(n, root)] == Refs(fingerprint)
  }

  /** The store may be used by this call: it is open and, for what describes refs, holds this
      fingerprint of them or can be brought to hold it. */
  predicate Usable(
      n: Naming, s: State, root: Root, fingerprint: Fingerprint, ns: Namespace, faults: Faults) {
    s.open
    && (RefScoped(ns) ==>
          !faults.readRefs && (HoldsRefs(n, s.disk, root, fingerprint) || !faults.commit))
  }

  /** An entry of a repository's refs is forgotten by this call. */
  predicate Forgets(
      n: Naming, s: State, root: Root, fingerprint: Fingerprint, ns: Namespace, faults: Faults, p: Place) {
    && Usable(n, s, root, fingerprint, ns, faults) && RefScoped(ns) && !HoldsRefs(n, s.disk, root, fingerprint)
    && p.root == root && RefScoped(p.ns)
  }

  lemma PreparingIsAtomic(
      n: Naming, s: State, root: Root, fingerprint: Fingerprint, ns: Namespace, faults: Faults, p: Place, r: Root)
    requires Sound(n)
    ensures var (ok, disk) := Prepared(n, s, root, fingerprint, ns, faults);
      var k, meta := PersistentKey(n, p.ns, p.root, p.key), MetadataKey(n, r);
      && (s.open ==> (ok <==> Usable(n, s, root, fingerprint, ns, faults)))
      && (k in disk <==> k in s.disk && !Forgets(n, s, root, fingerprint, ns, faults, p))
      && (k in disk ==> disk[k] == s.disk[k])
      && (ok && s.open && RefScoped(ns) ==> HoldsRefs(n, disk, root, fingerprint))
      && (r != root || !ok ==> (meta in disk <==> meta in s.disk) && (meta in disk ==> disk[meta] == s.disk[meta]))
  {
    hide Invalidate;
    InvalidationIsExact(n, s.disk, root, p.ns, p.root, p.key);
    KeysAreApart(n, p.ns, p.root, p.key, p.ns, root, p.key);
    InvalidationIsExact(n, s.disk, root, p.ns, r, p.key);
    KeysAreApart(n, p.ns, r, p.key, p.ns, root, p.key);
  }

  /**
   * What one call does to the store, whatever fails. A load that memory does not answer is answered
   * by the entry in the store exactly when the store is usable, the entry is not forgotten by this
   * very call, and reading it does not fail; a value is written exactly when the store is usable and
   * writing does not fail. Entries of the refs are forgotten together with recording the new
   * fingerprint or not at all, and every other entry stays.
   */
  lemma CallChangesStore(n: Naming, steps: seq<Step>, step: Step, p: Place)
    requires Sound(n) && (step.Reads? || step.Writes?)
    ensures var s, s' := After(n, steps), Next(n, After(n, steps), step);
      var answered := step.Reads?
        && step.key in Remaining(s, step.root, step.ns, step.fingerprint, step.ns).values;
      var usable := Usable(n, s, step.root, step.fingerprint, step.ns, step.faults);
      var forgets := Forgets(n, s, step.root, step.fingerprint, step.ns, step.faults, p);
      var k, own := PersistentKey(n, p.ns, p.root, p.key), Place(step.ns, step.root, step.key);
      && s'.open == s.open
      && (if step.Writes? && usable && !step.faults.write && p == own
          then k in s'.disk && s'.disk[k] == Entry(step.value)
          else
            && (k in s'.disk <==> k in s.disk && !(forgets && !answered))
            && (k in s'.disk ==> s'.disk[k] == s.disk[k]))
      && (!answered && usable && RefScoped(step.ns) ==> HoldsRefs(n, s'.disk, step.root, step.fingerprint))
      && (step.Reads? && !answered && p == own ==>
            Load(n, s, step.root, step.fingerprint, step.ns, step.key, step.faults).1 ==
              if usable && !step.faults.read && k in s.disk && !forgets && s.disk[k].Entry?
              then Some(s.disk[k].value) else None)
  {
    hide TidyState, Remaining, Usable, Forgets, HoldsRefs, Load, Store, Entered, PersistentKey, Sound;
    var s := After(n, steps);
    if step.Reads? {
      LoadUsesStore(n, steps, step, p);
    } else {
      StoreUsesStore(n, s, step, p);
    }
  }

  lemma LoadUsesStore(n: Naming, steps: seq<Step>, step: Step, p: Place)
    requires Sound(n) && step.Reads?
    ensures var s := After(n, steps);
      var (s', found) := Load(n, s, step.root, step.fingerprint, step.ns, step.key, step.faults);
      var answered := step.key in Remaining(s, step.root, step.ns, step.fingerprint, step.ns).values;
      var usable := Usable(n, s, step.root, step.fingerprint, step.ns, step.faults);
      var forgets := Forgets(n, s, step.root, step.fingerprint, step.ns, step.faults, p);
      var k, own := PersistentKey(n, p.ns, p.root, p.key), Place(step.ns, step.root, step.key);
      && s'.open == s.open
      && (k in s'.disk <==> k in s.disk && !(forgets && !answered))
      && (k in s'.disk ==> s'.disk[k] == s.disk[k])
      && (!answered && usable && RefScoped(step.ns) ==> HoldsRefs(n, s'.disk, step.root, step.fingerprint))
      && (!answered && p == own ==>
            found == if usable && !step.faults.read && k in s.disk && !forgets && s.disk[k].Entry?
                     then Some(s.disk[k].value) else None)
  {
    hide TidyState, Put, Usable, Forgets, HoldsRefs, Prepared, PersistentKey, Sound, Remaining, Entered, RefScoped;
    var s := After(n, steps);
    RunsAreTidy(n, steps);
    EnteringLeaves(s, step.root, step.ns, step.fingerprint);
    var e := Entered(s, step.root, step.ns, step.fingerprint);
    PreparingIsAtomic(n, s, step.root, step.fingerprint, step.ns, step.faults, p, step.root);
    SamePreparation(n, s, e, step.root, step.fingerprint, step.ns, step.faults);
    UsableIsOpen(n, s, step.root, step.fingerprint, step.ns, step.faults);
  }

  lemma UsableIsOpen(n: Naming, s: State, root: Root, fingerprint: Fingerprint, ns: Namespace, faults: Faults)
    ensures Usable(n, s, root, fingerprint, ns, faults) ==> s.open
  {
  }

  lemma StoreUsesStore(n: Naming, s: State, step: Step, p: Place)
    requires Sound(n) && step.Writes?
    ensures var s' := Store(n, s, step.root, step.fingerprint, step.ns, step.key, step.value, step.faults);
      var usable := Usable(n, s, step.root, step.fingerprint, step.ns, step.faults);
      var forgets := Forgets(n, s, step.root, step.fingerprint, step.ns, step.faults, p);
      var k, own := PersistentKey(n, p.ns, p.root, p.key), Place(step.ns, step.root, step.key);
      && s'.open == s.open
      && (if usable && !step.faults.write && p == own then k in s'.disk && s'.disk[k] == Entry(step.value)
          else
            && (k in s'.disk <==> k in s.disk && !forgets)
            && (k in s'.disk ==> s'.disk[k] == s.disk[k]))
      && (usable && RefScoped(step.ns) ==> HoldsRefs(n, s'.disk, step.root, step.fingerprint))
  {
    hide Put, Usable, Forgets, Prepared, PersistentKey, MetadataKey, Sound, Entered, RefScoped;
    var e := Entered(s, step.root, step.ns, step.fingerprint);
    PreparingIsAtomic(n, s, step.root, step.fingerprint, step.ns, step.faults, p, step.root);
    SamePreparation(n, s, e, step.root, step.fingerprint, step.ns, step.faults);
    UsableIsOpen(n, s, step.root, step.fingerprint, step.ns, step.faults);
    KeysAreApart(n, p.ns, p.root, p.key, step.ns, step.root, step.key);
    KeysAreApart(n, step.ns, step.root, step.key, step.ns, step.root, step.key);
  }

  lemma SamePreparation(
      n: Naming, s: State, e: State, root: Root, fingerprint: Fingerprint, ns: Namespace, faults: Faults)
    requires e.disk == s.disk && e.open == s.open
    ensures Prepared(n, e, root, fingerprint, ns, faults) == Prepared(n, s, root, fingerprint, ns, faults)
  {
  }

  /** Closing ends the use of the store, and a launch begins with an empty memory and the store as it is, or wiped. */
  lemma LaunchesForgetMemory(n: Naming, steps: seq<Step>, opens: bool, wiped: bool)
    ensures var s := After(n, steps);
      && After(n, steps + [Closes]) == s.(open := false)
      && After(n, steps + [Relaunches(opens, wiped)]) == State(map[], [], if wiped then map[] else s.disk, opens)
  {
    assert (steps + [Closes])[..|steps|] == steps;
    assert (steps + [Relaunches(opens, wiped)])[..|steps|] == steps;
  }
}
