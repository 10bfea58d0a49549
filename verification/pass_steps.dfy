/**
 * The steps of one reconciliation pass as relations between states: clearing
 * the marks, creating an applet, placing a listed applet in its two slots,
 * the state reached after a prefix of the list, and the sweep. The class in
 * module Manager performs these steps in place; the lemmas here show that
 * they compose into ManagerSpec.Reconciled.
 */
module PassSteps {
  import opened Util
  import opened AppletKey
  import opened Box
  import opened ManagerSpec

  /** zero_applets over the whole registry: every mark cleared, nothing else changed. */
  ghost predicate Zeroed(s0: State, s1: State) {
    && s1 == s0.(touched := s1.touched)
    && s1.touched.Keys == s0.touched.Keys
    && forall u :: u in s1.touched ==> !s1.touched[u]
  }

  /**
   * create_applet: a fresh proxy built from the manager's current orientation,
   * offset and size is packed into the box after everything else, followed by
   * its throbber, and registered under uid with mark 0.
   */
  ghost function Created(s: State, path: string, uid: string): State {
    var id := s.nextId;
    s.(registry := s.registry[uid := Proxy(id, path, uid, s.orient, s.offset, s.size)],
       touched := s.touched[uid := false],
       container := s.container + [AppletSlot(id), ThrobberSlot(id)],
       nextId := id + 1,
       created := s.created + [id])
  }

  /** The two reorders of a listed applet, its widget to slot i and its throbber to slot i+1, then mark 1. */
  ghost function Placed(s: State, uid: string, i: nat): State
    requires uid in s.registry
  {
    var id := s.registry[uid].id;
    s.(container := Reordered(Reordered(s.container, AppletSlot(id), i), ThrobberSlot(id), i + 1),
       touched := s.touched[uid := true])
  }

  /** The first entry of a walk from an empty table and box: its proxy is created and stays where it was appended. */
  lemma PlacedOnEmpty(s0: State, d: Descriptor)
    requires s0.registry == map[] && s0.container == []
    ensures var s1 := Placed(Ensured(s0, d), d.uid, 0);
      && s1.registry == map[d.uid := Proxy(s0.nextId, d.path, d.uid, s0.orient, s0.offset, s0.size)]
      && s1.nextId == s0.nextId + 1
      && s1.container == [AppletSlot(s0.nextId), ThrobberSlot(s0.nextId)]
  {
    var e := Ensured(s0, d);
    assert e.container == [AppletSlot(s0.nextId), ThrobberSlot(s0.nextId)];
    PlacedPairInPlace(e.container, AppletSlot(s0.nextId), ThrobberSlot(s0.nextId), 0);
  }

  /** A new uid walked after one placed applet: its proxy is created and stays where it was appended, behind the first pair. */
  lemma PlacedSecond(s: State, d: Descriptor, k: nat)
    requires d.uid !in s.registry && k < s.nextId
    requires s.container == [AppletSlot(k), ThrobberSlot(k)]
    ensures var t := Placed(Ensured(s, d), d.uid, 2);
      && t.registry == s.registry[d.uid := Proxy(s.nextId, d.path, d.uid, s.orient, s.offset, s.size)]
      && t.container == [AppletSlot(k), ThrobberSlot(k), AppletSlot(s.nextId), ThrobberSlot(s.nextId)]
  {
    var c := [AppletSlot(k), ThrobberSlot(k), AppletSlot(s.nextId), ThrobberSlot(s.nextId)];
    assert Ensured(s, d).container == c;
    assert Distinct(c);
    PlacedPairInPlace(c, AppletSlot(s.nextId), ThrobberSlot(s.nextId), 2);
  }

  /** Two different new uids walked from an empty table and box: each proxy stays where it was appended. */
  lemma TwoPlacedOnEmpty(s0: State, d1: Descriptor, d2: Descriptor)
    requires s0.registry == map[] && s0.container == [] && d1.uid != d2.uid
    ensures var s2 := Placed(Ensured(Placed(Ensured(s0, d1), d1.uid, 0), d2), d2.uid, 2);
      && s2.registry.Keys == {d1.uid, d2.uid} && s2.registry[d1.uid].id == s0.nextId
      && s2.container == [AppletSlot(s0.nextId), ThrobberSlot(s0.nextId), AppletSlot(s0.nextId + 1), ThrobberSlot(s0.nextId + 1)]
  {
    PlacedOnEmpty(s0, d1);
    PlacedSecond(Placed(Ensured(s0, d1), d1.uid, 0), d2, s0.nextId);
  }

  /** A registered applet first in a box of four children, placed again at slot 4, moves with its throbber behind the others. */
  lemma PlacedAgainPastEnd(s: State, d: Descriptor, n: nat, m: nat)
    requires d.uid in s.registry && s.registry[d.uid].id == n && n != m
    requires s.container == [AppletSlot(n), ThrobberSlot(n), AppletSlot(m), ThrobberSlot(m)]
    ensures Ensured(s, d) == s
    ensures Placed(s, d.uid, 4).registry == s.registry
    ensures Placed(s, d.uid, 4).container == [AppletSlot(m), ThrobberSlot(m), AppletSlot(n), ThrobberSlot(n)]
  {
    ReorderedFrontToEnd(AppletSlot(n), [ThrobberSlot(n), AppletSlot(m), ThrobberSlot(m)], 4);
    assert [AppletSlot(n)] + [ThrobberSlot(n), AppletSlot(m), ThrobberSlot(m)] == s.container;
    ReorderedFrontToEnd(ThrobberSlot(n), [AppletSlot(m), ThrobberSlot(m), AppletSlot(n)], 5);
    assert [ThrobberSlot(n)] + [AppletSlot(m), ThrobberSlot(m), AppletSlot(n)] == [ThrobberSlot(n), AppletSlot(m), ThrobberSlot(m)] + [AppletSlot(n)];
  }

  /**
   * A repeated uid moves its applet again, to the later slot. Walking
   * ["a::1", "b::2", "a::1"] from an empty table and box creates a's proxy
   * and then b's, each placed where it was appended. The third entry moves
   * a's applet and throbber to slots 4 and 5, past the end, so b's pair
   * comes first and a's last.
   */
  lemma RepeatedUidPlacedLast(s0: State)
    requires s0.registry == map[] && s0.container == []
    ensures var d1, d2 := Descriptor("a", "1"), Descriptor("b", "2");
      var s1 := Placed(Ensured(s0, d1), "1", 0);
      var s2 := Placed(Ensured(s1, d2), "2", 2);
      var s3 := Placed(Ensured(s2, d1), "1", 4);
      && s3.registry.Keys == {"1", "2"}
      && s3.container == [AppletSlot(s0.nextId + 1), ThrobberSlot(s0.nextId + 1), AppletSlot(s0.nextId), ThrobberSlot(s0.nextId)]
  {
    var d1, d2 := Descriptor("a", "1"), Descriptor("b", "2");
    assert d1.uid != d2.uid;
    TwoPlacedOnEmpty(s0, d1, d2);
    var s2 := Placed(Ensured(Placed(Ensured(s0, d1), "1", 0), d2), "2", 2);
    PlacedAgainPastEnd(s2, d1, s0.nextId, s0.nextId + 1);
  }

  /** The entries whose mark is still 0. */
  ghost function Untouched(s: State): set<string> {
    set u | u in s.touched && !s.touched[u]
  }

  /** The widgets of the registry entries named in `keys`. */
  ghost function AppletSlots(registry: map<string, Proxy>, keys: set<string>): set<Slot>
    requires keys <= registry.Keys
  {
    set u | u in keys :: AppletSlot(registry[u].id)
  }

  /**
   * g_hash_table_foreach_remove with delete_applets: each untouched entry's
   * widget is destroyed (it leaves the box), its id is logged once, and the
   * entry leaves the registry; nothing else changes.
   */
  ghost predicate Swept(s: State, t: State) {
    Untouched(s) <= s.registry.Keys && SweptSome(s, t, Untouched(s))
  }

  /** The sweep has removed the entries in `removed`, in some order. */
  ghost predicate SweptSome(s: State, t: State, removed: set<string>)
    requires removed <= s.registry.Keys
  {
    && t == s.(registry := s.registry - removed,
               touched := s.touched - removed,
               container := Removing(s.container, AppletSlots(s.registry, removed)),
               destroyed := t.destroyed)
    && LogExtended(s.destroyed, t.destroyed, IdsOf(s.registry, removed))
  }

  /** A box without repeated applets already shows ds in order (the state a second pass starts from). */
  ghost predicate Stable(s: State, ds: seq<Descriptor>) {
    s.registry.Keys == Uids(ds) && UidsDistinct(ds) && InListOrder(s.container, s.registry, ds)
  }

  /** The fields the walk over the list does not touch. */
  ghost predicate WalkKeeps(z: State, s: State) {
    && s.realized == z.realized && s.orient == z.orient && s.offset == z.offset && s.size == z.size
    && s.axis == z.axis && s.appletList == z.appletList && s.pushes == z.pushes
    && s.destroyed == z.destroyed && z.nextId <= s.nextId
  }

  /**
   * The registry after the walk has seen the descriptors dsa: the uids seen
   * were added with mark 1, the others keep mark 0, old entries are kept and
   * new ones were built from the first entry naming them; each new proxy was
   * logged once and brought its widget and throbber into the box.
   */
  ghost predicate RegistryAfter(z: State, s: State, dsa: seq<Descriptor>) {
    var seen := Uids(dsa);
    && s.registry.Keys == z.registry.Keys + seen
    && s.touched.Keys == s.registry.Keys
    && (forall u :: u in s.touched ==> (s.touched[u] <==> u in seen))
    && (forall u :: u in z.registry ==> u in s.registry && s.registry[u] == z.registry[u])
    && (forall u :: u in s.registry && u !in z.registry ==>
          z.nextId <= s.registry[u].id
          && s.registry[u] == Proxy(s.registry[u].id, FirstPath(dsa, u), u, z.orient, z.offset, z.size))
    && LogExtended(z.created, s.created, NewIds(z, s))
    && (forall x :: x in s.container <==> x in z.container || x.id in NewIds(z, s))
  }

  /**
   * The box after the walk has seen dsa, a prefix of ds: without repeats the
   * seen applets fill the first slots in order, and a box already in order
   * for all of ds has not moved.
   */
  ghost predicate OrderAfter(z: State, s: State, dsa: seq<Descriptor>, ds: seq<Descriptor>) {
    && (UidsDistinct(dsa) ==> InListOrder(s.container, s.registry, dsa))
    && (Stable(z, ds) ==> s.container == z.container && s.registry == z.registry)
  }

  /** The walk has processed the first a entries of the list, starting from the zeroed state z. */
  ghost predicate Forwarded(z: State, s: State, a: nat) {
    var list := z.appletList;
    && a <= |list|
    && Wf(s) && WalkKeeps(z, s)
    && s.warnings == z.warnings + Malformed(list[..a])
    && RegistryAfter(z, s, Descriptors(list[..a]))
    && OrderAfter(z, s, Descriptors(list[..a]), Descriptors(list))
  }

  /** Clearing the marks keeps the invariant. */
  lemma ZeroedWf(s0: State, z: State)
    requires Wf(s0) && Zeroed(s0, z)
    ensures Wf(z)
  {
  }

  /** Before the walk nothing has been seen. */
  lemma ForwardStart(z: State)
    requires Wf(z) && forall u :: u in z.touched ==> !z.touched[u]
    ensures Forwarded(z, z, 0)
  {
    var list := z.appletList;
    assert list[..0] == [];
    assert NewIds(z, z) == {};
    assert z.created[|z.created|..] == [];
    assert Stable(z, Descriptors(list)) ==> z.container == z.container;
  }

  /** A malformed entry adds its warning and nothing else. */
  lemma ForwardMalformed(z: State, s: State, a: nat)
    requires Forwarded(z, s, a) && a < |z.appletList| && Split(z.appletList[a]).None?
    ensures Forwarded(z, s.(warnings := s.warnings + [z.appletList[a]]), a + 1)
  {
    var list := z.appletList;
    var t := s.(warnings := s.warnings + [list[a]]);
    DescriptorsStep(list, a);
    var dsa := Descriptors(list[..a]);
    assert Descriptors(list[..a + 1]) == dsa;
    WarnedKeeps(z, s, t, dsa, Descriptors(list));
  }

  /** Adding a warning changes none of the walk's facts about the registry and the box. */
  lemma WarnedKeeps(z: State, s: State, t: State, dsa: seq<Descriptor>, ds: seq<Descriptor>)
    requires Wf(s) && WalkKeeps(z, s) && RegistryAfter(z, s, dsa) && OrderAfter(z, s, dsa, ds)
    requires t == s.(warnings := t.warnings)
    ensures Wf(t) && WalkKeeps(z, t) && RegistryAfter(z, t, dsa) && OrderAfter(z, t, dsa, ds)
  {
    assert t.registry == s.registry && t.touched == s.touched && t.container == s.container;
    assert t.nextId == s.nextId && t.created == s.created;
    assert NewIds(z, t) == NewIds(z, s);
  }

  /** Creating an applet keeps the invariant: the new id is fresh and both its children are new in the box. */
  lemma CreatedWf(s: State, path: string, uid: string)
    requires Wf(s) && uid !in s.registry
    ensures Wf(Created(s, path, uid))
  {
    CreatedRegistry(s, path, uid);
    CreatedBox(s, path, uid);
  }

  /** The new entry is keyed by its uid and its id is below the new counter and differs from every other. */
  lemma CreatedRegistry(s: State, path: string, uid: string)
    requires Wf(s) && uid !in s.registry
    ensures var t := Created(s, path, uid);
      && t.touched.Keys == t.registry.Keys
      && (forall u :: u in t.registry ==> t.registry[u].uid == u && t.registry[u].id < t.nextId)
      && (forall u, v :: u in t.registry && v in t.registry && u != v ==> t.registry[u].id != t.registry[v].id)
  {
  }

  /** The new widget and throbber are packed once each, and every entry still has both in the box. */
  lemma CreatedBox(s: State, path: string, uid: string)
    requires Wf(s) && uid !in s.registry
    ensures var t := Created(s, path, uid);
      && Distinct(t.container)
      && (forall x :: x in t.container ==> x.id < t.nextId)
      && (forall u :: u in t.registry ==>
            AppletSlot(t.registry[u].id) in t.container && ThrobberSlot(t.registry[u].id) in t.container)
  {
    var t := Created(s, path, uid);
    assert AppletSlot(s.nextId) !in s.container && ThrobberSlot(s.nextId) !in s.container;
    PackedDistinct(s.container, AppletSlot(s.nextId), ThrobberSlot(s.nextId));
    forall u | u in t.registry
      ensures AppletSlot(t.registry[u].id) in t.container && ThrobberSlot(t.registry[u].id) in t.container
    {
    }
  }

  /** The state just before the two reorders of a listed entry: its uid registered, created now if it was missing. */
  ghost function Ensured(s: State, d: Descriptor): State {
    if d.uid in s.registry then s else Created(s, d.path, d.uid)
  }

  /** A well-formed entry adds its descriptor at the end and no warning. */
  lemma DescriptorsNext(list: seq<string>, a: nat, d: Descriptor)
    requires a < |list| && Split(list[a]) == Some(d)
    ensures Descriptors(list[..a + 1]) == Descriptors(list[..a]) + [d]
    ensures Malformed(list[..a + 1]) == Malformed(list[..a])
    ensures Uids(Descriptors(list[..a + 1])) == Uids(Descriptors(list[..a])) + {d.uid}
    ensures Init(Descriptors(list[..a + 1])) == Descriptors(list[..a])
    ensures Last(Descriptors(list[..a + 1])) == d
  {
    DescriptorsStep(list, a);
    UidsSnoc(Descriptors(list[..a]), d);
  }

  /**
   * The state just before the two reorders of the entry that extends the seen
   * descriptors from dsa to dsb: like RegistryAfter for dsb, except that the
   * mark of the entry's own uid is not set yet.
   */
  ghost predicate Ready(z: State, sc: State, dsa: seq<Descriptor>, dsb: seq<Descriptor>, uid: string) {
    ReadyKeys(z, sc, dsa, dsb, uid) && ReadyProxies(z, sc, dsb) && ReadyLogs(z, sc)
  }

  /** Ready's facts about the registry's keys and the marks. */
  ghost predicate ReadyKeys(z: State, sc: State, dsa: seq<Descriptor>, dsb: seq<Descriptor>, uid: string) {
    && Wf(sc) && WalkKeeps(z, sc) && uid in sc.registry
    && sc.registry.Keys == z.registry.Keys + Uids(dsb)
    && sc.touched.Keys == sc.registry.Keys
    && (forall u :: u in sc.touched && u != uid ==> (sc.touched[u] <==> u in Uids(dsa)))
  }

  /** Ready's facts about the proxies: old ones kept, new ones built from their first entry. */
  ghost predicate ReadyProxies(z: State, sc: State, dsb: seq<Descriptor>) {
    && (forall u :: u in z.registry ==> u in sc.registry && sc.registry[u] == z.registry[u])
    && (forall u :: u in sc.registry && u !in z.registry ==>
          z.nextId <= sc.registry[u].id
          && u in Uids(dsb)
          && sc.registry[u] == Proxy(sc.registry[u].id, FirstPath(dsb, u), u, z.orient, z.offset, z.size))
  }

  /** Ready's facts about the creation log and the box's children. */
  ghost predicate ReadyLogs(z: State, sc: State) {
    && LogExtended(z.created, sc.created, NewIds(z, sc))
    && (forall x :: x in sc.container <==> x in z.container || x.id in NewIds(z, sc))
  }

  /** A listed uid that is already registered needs nothing before its reorders. */
  lemma EnsuredExisting(z: State, s: State, dsa: seq<Descriptor>, d: Descriptor)
    requires Wf(s) && WalkKeeps(z, s) && RegistryAfter(z, s, dsa) && d.uid in s.registry
    ensures Ready(z, s, dsa, dsa + [d], d.uid)
  {
    var dsb := dsa + [d];
    UidsSnoc(dsa, d);
    assert Init(dsb) == dsa;
    forall u | u in s.registry && u !in z.registry
      ensures s.registry[u] == Proxy(s.registry[u].id, FirstPath(dsb, u), u, z.orient, z.offset, z.size)
    {
      assert u in Uids(dsa);
    }
  }

  /** The proxy created for a missing uid is the one new id. */
  lemma NewIdsCreated(z: State, s: State, path: string, uid: string)
    requires uid !in s.registry && z.registry.Keys <= s.registry.Keys
    ensures NewIds(z, Created(s, path, uid)) == NewIds(z, s) + {s.nextId}
  {
    var sc := Created(s, path, uid);
    var keys := sc.registry.Keys - z.registry.Keys;
    assert keys == (s.registry.Keys - z.registry.Keys) + {uid};
    forall x ensures x in IdsOf(sc.registry, keys) <==> x in IdsOf(s.registry, s.registry.Keys - z.registry.Keys) + {s.nextId} {
      if x in IdsOf(sc.registry, keys) {
        var u :| u in keys && sc.registry[u].id == x;
        if u != uid {
          assert x in IdsOf(s.registry, s.registry.Keys - z.registry.Keys);
        }
      }
      if x in IdsOf(s.registry, s.registry.Keys - z.registry.Keys) {
        var u :| u in s.registry.Keys - z.registry.Keys && s.registry[u].id == x;
        assert u in keys && sc.registry[u].id == x;
      }
      if x == s.nextId {
        assert uid in keys && sc.registry[uid].id == x;
      }
    }
  }

  /** A missing uid gets a proxy built from its first entry and the manager's current layout values. */
  lemma CreatedProxies(z: State, s: State, dsa: seq<Descriptor>, d: Descriptor)
    requires RegistryAfter(z, s, dsa) && WalkKeeps(z, s) && d.uid !in s.registry
    ensures ReadyProxies(z, Created(s, d.path, d.uid), dsa + [d])
  {
    var sc := Created(s, d.path, d.uid);
    var dsb := dsa + [d];
    UidsSnoc(dsa, d);
    assert Init(dsb) == dsa && Last(dsb) == d;
    forall u | u in sc.registry && u !in z.registry
      ensures z.nextId <= sc.registry[u].id && u in Uids(dsb)
      ensures sc.registry[u] == Proxy(sc.registry[u].id, FirstPath(dsb, u), u, z.orient, z.offset, z.size)
    {
      if u != d.uid {
        assert u in Uids(dsa);
        assert sc.registry[u] == s.registry[u];
      }
    }
  }

  /** A missing uid gets its entry, with mark 0. */
  lemma EnsuredNewKeys(z: State, s: State, dsa: seq<Descriptor>, d: Descriptor)
    requires Wf(s) && WalkKeeps(z, s) && RegistryAfter(z, s, dsa) && d.uid !in s.registry
    ensures ReadyKeys(z, Created(s, d.path, d.uid), dsa, dsa + [d], d.uid)
  {
    CreatedWf(s, d.path, d.uid);
    CreatedMarks(z, s, dsa, d);
  }

  /** Creating a missing uid's entry registers it with mark 0 and leaves the other marks. */
  lemma CreatedMarks(z: State, s: State, dsa: seq<Descriptor>, d: Descriptor)
    requires WalkKeeps(z, s) && RegistryAfter(z, s, dsa) && d.uid !in s.registry
    ensures var sc := Created(s, d.path, d.uid);
      && WalkKeeps(z, sc) && d.uid in sc.registry
      && sc.registry.Keys == z.registry.Keys + Uids(dsa + [d])
      && sc.touched.Keys == sc.registry.Keys
      && (forall u :: u in sc.touched && u != d.uid ==> (sc.touched[u] <==> u in Uids(dsa)))
  {
    UidsSnoc(dsa, d);
  }

  /** A missing uid's proxy is logged once and brings its two children into the box. */
  lemma EnsuredNewLogs(z: State, s: State, dsa: seq<Descriptor>, d: Descriptor)
    requires Wf(s) && WalkKeeps(z, s) && RegistryAfter(z, s, dsa) && d.uid !in s.registry
    ensures ReadyLogs(z, Created(s, d.path, d.uid))
  {
    NewIdsCreated(z, s, d.path, d.uid);
    assert s.nextId !in NewIds(z, s);
    LogExtendedStep(z.created, s.created, NewIds(z, s), s.nextId);
  }

  /** A listed uid that is missing is created: one fresh proxy, logged once, its two children in the box. */
  lemma EnsuredNew(z: State, s: State, dsa: seq<Descriptor>, d: Descriptor)
    requires Wf(s) && WalkKeeps(z, s) && RegistryAfter(z, s, dsa) && d.uid !in s.registry
    ensures Ready(z, Created(s, d.path, d.uid), dsa, dsa + [d], d.uid)
  {
    EnsuredNewKeys(z, s, dsa, d);
    CreatedProxies(z, s, dsa, d);
    EnsuredNewLogs(z, s, dsa, d);
  }

  /** The two reorders and the mark keep the invariant and the box's children. */
  lemma PlacedWf(sc: State, uid: string, i: nat)
    requires Wf(sc) && uid in sc.registry
    ensures Wf(Placed(sc, uid, i))
    ensures forall x :: x in Placed(sc, uid, i).container <==> x in sc.container
  {
    var id := sc.registry[uid].id;
    ReorderedTwice(sc.container, AppletSlot(id), ThrobberSlot(id), i, i + 1);
  }

  /** Moving a registered applet and its throbber and setting its mark gives the walk's registry facts for dsb. */
  lemma PlacedRegistry(z: State, sc: State, dsa: seq<Descriptor>, d: Descriptor, i: nat)
    requires Ready(z, sc, dsa, dsa + [d], d.uid)
    ensures Wf(Placed(sc, d.uid, i)) && WalkKeeps(z, Placed(sc, d.uid, i))
    ensures RegistryAfter(z, Placed(sc, d.uid, i), dsa + [d])
  {
    var t := Placed(sc, d.uid, i);
    PlacedWf(sc, d.uid, i);
    PlacedMarks(z, sc, dsa, d, i);
    assert t.registry == sc.registry && t.created == sc.created;
    assert NewIds(z, t) == NewIds(z, sc);
  }

  /** After the mark of d's uid is set, exactly the uids seen so far carry mark 1. */
  lemma PlacedMarks(z: State, sc: State, dsa: seq<Descriptor>, d: Descriptor, i: nat)
    requires ReadyKeys(z, sc, dsa, dsa + [d], d.uid)
    ensures var t := Placed(sc, d.uid, i);
      && t.registry.Keys == z.registry.Keys + Uids(dsa + [d])
      && t.touched.Keys == t.registry.Keys
      && forall u :: u in t.touched ==> (t.touched[u] <==> u in Uids(dsa + [d]))
  {
    UidsSnoc(dsa, d);
  }

  /** Growing the box at its end and the registry by new uids keeps the seen applets in their slots. */
  lemma InListOrderGrows(c: seq<Slot>, c': seq<Slot>, reg: map<string, Proxy>, reg': map<string, Proxy>, ds: seq<Descriptor>)
    requires InListOrder(c, reg, ds)
    requires |c| <= |c'| && c'[..|c|] == c
    requires forall u :: u in reg ==> u in reg' && reg'[u] == reg[u]
    ensures InListOrder(c', reg', ds)
  {
    forall k | 0 <= k < |ds|
      ensures ds[k].uid in reg'
      ensures c'[2 * k] == AppletSlot(reg'[ds[k].uid].id) && c'[2 * k + 1] == ThrobberSlot(reg'[ds[k].uid].id)
    {
      assert c'[..|c|][2 * k] == c[2 * k];
      assert c'[..|c|][2 * k + 1] == c[2 * k + 1];
    }
  }

  /** A box in list order for dsa whose next two slots hold d's applet and throbber is in list order for dsa + [d]. */
  lemma InListOrderExtends(c: seq<Slot>, r: seq<Slot>, reg: map<string, Proxy>, dsa: seq<Descriptor>, d: Descriptor)
    requires InListOrder(c, reg, dsa) && d.uid in reg
    requires 2 * |dsa| + 1 < |r| && 2 * |dsa| <= |c| && r[..2 * |dsa|] == c[..2 * |dsa|]
    requires r[2 * |dsa|] == AppletSlot(reg[d.uid].id) && r[2 * |dsa| + 1] == ThrobberSlot(reg[d.uid].id)
    ensures InListOrder(r, reg, dsa + [d])
  {
    var dsb := dsa + [d];
    var i := 2 * |dsa|;
    forall k | 0 <= k < |dsb|
      ensures dsb[k].uid in reg
      ensures r[2 * k] == AppletSlot(reg[dsb[k].uid].id) && r[2 * k + 1] == ThrobberSlot(reg[dsb[k].uid].id)
    {
      if k < |dsa| {
        assert dsb[k] == dsa[k];
        assert r[..i][2 * k] == c[..i][2 * k];
        assert r[..i][2 * k + 1] == c[..i][2 * k + 1];
      }
    }
  }

  /** None of the first 2|ds| children of a box in list order belongs to an entry whose uid ds does not name. */
  lemma InListOrderExcludes(s: State, ds: seq<Descriptor>, uid: string)
    requires Wf(s) && InListOrder(s.container, s.registry, ds) && uid in s.registry && uid !in Uids(ds)
    ensures AppletSlot(s.registry[uid].id) !in s.container[..2 * |ds|]
    ensures ThrobberSlot(s.registry[uid].id) !in s.container[..2 * |ds|]
  {
    var id := s.registry[uid].id;
    forall j | 0 <= j < 2 * |ds|
      ensures s.container[..2 * |ds|][j] != AppletSlot(id) && s.container[..2 * |ds|][j] != ThrobberSlot(id)
    {
      var k := j / 2;
      assert ds[k] in ds;
      assert ds[k].uid != uid;
      assert j == 2 * k || j == 2 * k + 1;
    }
  }

  /** Registering a uid that has not been seen yet keeps the seen applets in their slots. */
  lemma EnsuredKeepsOrder(s: State, sc: State, dsa: seq<Descriptor>, d: Descriptor)
    requires UidsDistinct(dsa + [d]) && InListOrder(s.container, s.registry, dsa)
    requires sc == Ensured(s, d)
    ensures d.uid !in Uids(dsa) && InListOrder(sc.container, sc.registry, dsa)
  {
    var dsb := dsa + [d];
    assert d.uid !in Uids(dsa) by {
      forall k | 0 <= k < |dsa| ensures dsa[k].uid != d.uid {
        assert dsb[k] == dsa[k] && dsb[|dsa|] == d;
      }
    }
    if d.uid !in s.registry {
      assert sc.container[..|s.container|] == s.container;
    }
    InListOrderGrows(s.container, sc.container, s.registry, sc.registry, dsa);
  }

  /** Without repeats, the two reorders put a newly seen applet and its throbber right after the ones seen before. */
  lemma PlacedInOrder(s: State, sc: State, dsa: seq<Descriptor>, d: Descriptor)
    requires UidsDistinct(dsa + [d]) && InListOrder(s.container, s.registry, dsa)
    requires sc == Ensured(s, d) && Wf(sc) && d.uid in sc.registry
    ensures InListOrder(Placed(sc, d.uid, 2 * |dsa|).container, sc.registry, dsa + [d])
  {
    EnsuredKeepsOrder(s, sc, dsa, d);
    PlacedExtendsOrder(sc, dsa, d);
  }

  /** The reorders of an entry not seen before put its applet and throbber right after the seen ones. */
  lemma PlacedExtendsOrder(sc: State, dsa: seq<Descriptor>, d: Descriptor)
    requires Wf(sc) && d.uid in sc.registry && d.uid !in Uids(dsa)
    requires InListOrder(sc.container, sc.registry, dsa)
    ensures InListOrder(Placed(sc, d.uid, 2 * |dsa|).container, sc.registry, dsa + [d])
  {
    var id := sc.registry[d.uid].id;
    InListOrderExcludes(sc, dsa, d.uid);
    assert AppletSlot(id) in sc.container && ThrobberSlot(id) in sc.container;
    PairExtendsOrder(sc.container, sc.registry, dsa, d);
  }

  /** PlacedExtendsOrder on the box alone. */
  lemma PairExtendsOrder(c: seq<Slot>, reg: map<string, Proxy>, dsa: seq<Descriptor>, d: Descriptor)
    requires Distinct(c) && d.uid in reg && InListOrder(c, reg, dsa)
    requires AppletSlot(reg[d.uid].id) in c && AppletSlot(reg[d.uid].id) !in c[..2 * |dsa|]
    requires ThrobberSlot(reg[d.uid].id) in c && ThrobberSlot(reg[d.uid].id) !in c[..2 * |dsa|]
    ensures var id := reg[d.uid].id;
      InListOrder(Reordered(Reordered(c, AppletSlot(id), 2 * |dsa|), ThrobberSlot(id), 2 * |dsa| + 1), reg, dsa + [d])
  {
    var i := 2 * |dsa|;
    var id := reg[d.uid].id;
    PlacedPair(c, AppletSlot(id), ThrobberSlot(id), i);
    var r := Reordered(Reordered(c, AppletSlot(id), i), ThrobberSlot(id), i + 1);
    InListOrderExtends(c, r, reg, dsa, d);
  }

  /** A box already in list order for all of ds is left alone by the reorders of ds's next entry. */
  lemma PlacedStable(z: State, s: State, dsa: seq<Descriptor>, d: Descriptor, ds: seq<Descriptor>)
    requires Stable(z, ds) && Wf(s) && s.container == z.container && s.registry == z.registry
    requires dsa + [d] <= ds
    ensures d.uid in s.registry && Ensured(s, d) == s
    ensures Placed(s, d.uid, 2 * |dsa|).container == z.container
  {
    var k := |dsa|;
    assert ds[k] == (dsa + [d])[k] == d;
    assert d.uid in Uids(ds);
    var id := s.registry[d.uid].id;
    PlacedPairInPlace(z.container, AppletSlot(id), ThrobberSlot(id), 2 * k);
  }

  /**
   * The two reorders put a newly seen applet right after the ones seen
   * before, and leave a box that is already in list order alone.
   */
  lemma PlacedOrder(z: State, s: State, sc: State, dsa: seq<Descriptor>, d: Descriptor, ds: seq<Descriptor>)
    requires Wf(s) && OrderAfter(z, s, dsa, ds)
    requires sc == Ensured(s, d) && Wf(sc) && d.uid in sc.registry
    requires dsa + [d] <= ds
    ensures OrderAfter(z, Placed(sc, d.uid, 2 * |dsa|), dsa + [d], ds)
  {
    var t := Placed(sc, d.uid, 2 * |dsa|);
    if UidsDistinct(dsa + [d]) {
      assert UidsDistinct(dsa) by {
        forall j, k | 0 <= j < k < |dsa| ensures dsa[j].uid != dsa[k].uid {
          assert (dsa + [d])[j] == dsa[j] && (dsa + [d])[k] == dsa[k];
        }
      }
      PlacedInOrder(s, sc, dsa, d);
    }
    if Stable(z, ds) {
      PlacedStable(z, s, dsa, d, ds);
    }
  }

  /** A well-formed entry registers its uid if needed, moves its applet and throbber to the next two slots and marks it. */
  lemma ForwardPlaced(z: State, s: State, a: nat, d: Descriptor)
    requires Forwarded(z, s, a) && a < |z.appletList| && Split(z.appletList[a]) == Some(d)
    ensures var dsa := Descriptors(z.appletList[..a]);
      Forwarded(z, Placed(Ensured(s, d), d.uid, 2 * |dsa|), a + 1)
  {
    var list := z.appletList;
    DescriptorsNext(list, a, d);
    DescriptorsPrefix(list, a + 1);
    var dsa := Descriptors(list[..a]);
    var sc := Ensured(s, d);
    if d.uid in s.registry {
      EnsuredExisting(z, s, dsa, d);
    } else {
      EnsuredNew(z, s, dsa, d);
    }
    PlacedRegistry(z, sc, dsa, d, 2 * |dsa|);
    PlacedOrder(z, s, sc, dsa, d, Descriptors(list));
  }

  /** Before the sweep has visited any entry, nothing is removed. */
  lemma SweepStart(s: State)
    ensures SweptSome(s, s, {})
  {
    RemovingNothing(s.container);
    assert AppletSlots(s.registry, {}) == {};
    assert IdsOf(s.registry, {}) == {};
    assert s.registry - {} == s.registry && s.touched - {} == s.touched;
    assert s.destroyed[|s.destroyed|..] == [];
  }

  /** Visiting one more entry u keeps `removed` equal to the untouched entries already visited. */
  lemma SweepMarks(s: State, removed: set<string>, pending: set<string>, u: string)
    requires removed == Untouched(s) - pending && u in pending && u in s.touched
    ensures !s.touched[u] ==> removed + {u} == Untouched(s) - (pending - {u})
    ensures s.touched[u] ==> removed == Untouched(s) - (pending - {u})
  {
  }

  /** Destroying and removing one more entry u extends what the sweep has removed by u. */
  lemma SweepStep(s: State, removed: set<string>, u: string, destroyed: seq<nat>)
    requires Wf(s) && removed <= s.registry.Keys && u in s.registry && u !in removed
    requires LogExtended(s.destroyed, destroyed, IdsOf(s.registry, removed))
    ensures var id := s.registry[u].id;
      && (s.registry - removed) - {u} == s.registry - (removed + {u})
      && (s.touched - removed) - {u} == s.touched - (removed + {u})
      && Without(Removing(s.container, AppletSlots(s.registry, removed)), AppletSlot(id))
         == Removing(s.container, AppletSlots(s.registry, removed + {u}))
      && LogExtended(s.destroyed, destroyed + [id], IdsOf(s.registry, removed + {u}))
  {
    var id := s.registry[u].id;
    var slots := AppletSlots(s.registry, removed);
    assert AppletSlot(id) !in slots;
    RemovingStep(s.container, slots, AppletSlot(id));
    assert AppletSlots(s.registry, removed + {u}) == slots + {AppletSlot(id)};
    assert id !in IdsOf(s.registry, removed);
    assert IdsOf(s.registry, removed + {u}) == IdsOf(s.registry, removed) + {id};
    LogExtendedStep(s.destroyed, destroyed, IdsOf(s.registry, removed), id);
  }

  /** The sweep keeps the invariant: what stays in the registry stays in the box. */
  lemma SweptWf(s: State, t: State)
    requires Wf(s) && Swept(s, t)
    ensures Wf(t)
  {
    var gone := Untouched(s);
    var slots := AppletSlots(s.registry, gone);
    RemovingElems(s.container, slots);
    forall u | u in t.registry
      ensures AppletSlot(t.registry[u].id) in t.container && ThrobberSlot(t.registry[u].id) in t.container
    {
      assert AppletSlot(s.registry[u].id) !in slots;
    }
  }

  /** Two registries that agree on some keys give those keys the same ids. */
  lemma IdsOfAgree(r1: map<string, Proxy>, r2: map<string, Proxy>, keys: set<string>)
    requires keys <= r1.Keys && keys <= r2.Keys && forall u :: u in keys ==> r1[u] == r2[u]
    ensures IdsOf(r1, keys) == IdsOf(r2, keys)
  {
  }

  /** The state at the end of the walk, as the sweep's correctness needs it. */
  ghost predicate WalkEnded(s0: State, z: State, sf: State) {
    var uids := Uids(Descriptors(s0.appletList));
    && Wf(s0) && Wf(sf) && Zeroed(s0, z) && WalkKeeps(z, sf)
    && Untouched(sf) == s0.registry.Keys - uids
    && sf.registry.Keys == s0.registry.Keys + uids
    && (forall u :: u in s0.registry ==> sf.registry[u] == s0.registry[u])
    && RegistryAfter(z, sf, Descriptors(s0.appletList))
    && OrderAfter(z, sf, Descriptors(s0.appletList), Descriptors(s0.appletList))
  }

  /** At the end of the walk: every listed uid is marked, every other entry is old and unmarked. */
  lemma WalkDone(s0: State, z: State, sf: State)
    requires Wf(s0) && s0.realized && s0.appletList != [] && Zeroed(s0, z)
    requires Forwarded(z, sf, |z.appletList|)
    ensures WalkEnded(s0, z, sf)
    ensures sf.warnings == s0.warnings + Malformed(s0.appletList)
    ensures var uids := Uids(Descriptors(s0.appletList));
      && Untouched(sf) == s0.registry.Keys - uids
      && sf.registry.Keys == s0.registry.Keys + uids
      && (forall u :: u in s0.registry ==> sf.registry[u] == s0.registry[u])
      && RegistryAfter(z, sf, Descriptors(s0.appletList))
      && OrderAfter(z, sf, Descriptors(s0.appletList), Descriptors(s0.appletList))
  {
    assert z.appletList[..|z.appletList|] == z.appletList;
  }

  /** After the sweep the registry holds exactly the listed uids, all marked. */
  lemma FinishKeys(s0: State, z: State, sf: State, se: State)
    requires WalkEnded(s0, z, sf) && Swept(sf, se)
    ensures se.registry.Keys == Uids(Descriptors(s0.appletList))
    ensures forall u :: u in se.touched ==> se.touched[u]
  {
  }

  /** After the sweep, kept entries are unchanged and new ones are built from their first entry and the layout values. */
  lemma FinishEntries(s0: State, z: State, sf: State, se: State)
    requires WalkEnded(s0, z, sf) && Swept(sf, se)
    ensures forall u :: u in se.registry && u in s0.registry ==> se.registry[u] == s0.registry[u]
    ensures forall u :: u in se.registry && u !in s0.registry ==>
              s0.nextId <= se.registry[u].id && u in Uids(Descriptors(s0.appletList))
              && se.registry[u] == Proxy(se.registry[u].id, FirstPath(Descriptors(s0.appletList), u), u,
                                         s0.orient, s0.offset, s0.size)
  {
  }

  /** The proxies new after the whole pass are the ones the walk created. */
  lemma FinishNewIds(s0: State, z: State, sf: State, se: State)
    requires WalkEnded(s0, z, sf) && Swept(sf, se)
    ensures NewIds(s0, se) == NewIds(z, sf)
  {
    assert se.registry.Keys - s0.registry.Keys == sf.registry.Keys - z.registry.Keys;
    IdsOfAgree(se.registry, sf.registry, se.registry.Keys - s0.registry.Keys);
  }

  /** The sweep destroyed exactly the entries the list no longer names, each once. */
  lemma FinishDestroyed(s0: State, z: State, sf: State, se: State)
    requires WalkEnded(s0, z, sf) && Swept(sf, se)
    ensures LogExtended(s0.destroyed, se.destroyed, SweptIds(s0, Uids(Descriptors(s0.appletList))))
  {
    IdsOfAgree(s0.registry, sf.registry, Untouched(sf));
  }

  /** The widgets the sweep takes out of the box are those of the destroyed proxies. */
  lemma FinishSlots(s0: State, z: State, sf: State, se: State)
    requires WalkEnded(s0, z, sf) && Swept(sf, se)
    ensures forall x :: x in AppletSlots(sf.registry, Untouched(sf)) <==>
              x.AppletSlot? && x.id in SweptIds(s0, Uids(Descriptors(s0.appletList)))
  {
    IdsOfAgree(s0.registry, sf.registry, Untouched(sf));
  }

  /** After the sweep the box holds the old children and the new proxies' children, minus the destroyed widgets. */
  lemma FinishBox(s0: State, z: State, sf: State, se: State)
    requires WalkEnded(s0, z, sf) && Swept(sf, se)
    ensures forall x :: x in se.container <==>
              (x in s0.container || x.id in NewIds(z, sf))
              && !(x.AppletSlot? && x.id in SweptIds(s0, Uids(Descriptors(s0.appletList))))
  {
    FinishSlots(s0, z, sf, se);
    RemovingElems(sf.container, AppletSlots(sf.registry, Untouched(sf)));
  }

  /** Keeping the first 2|ds| children and the entries ds names keeps a box in list order. */
  lemma InListOrderPrefix(c: seq<Slot>, c': seq<Slot>, reg: map<string, Proxy>, reg': map<string, Proxy>, ds: seq<Descriptor>)
    requires InListOrder(c, reg, ds)
    requires 2 * |ds| <= |c'| && c'[..2 * |ds|] == c[..2 * |ds|]
    requires forall u :: u in Uids(ds) ==> u in reg' && reg'[u] == reg[u]
    ensures InListOrder(c', reg', ds)
  {
    var m := 2 * |ds|;
    forall k | 0 <= k < |ds|
      ensures ds[k].uid in reg'
      ensures c'[2 * k] == AppletSlot(reg'[ds[k].uid].id) && c'[2 * k + 1] == ThrobberSlot(reg'[ds[k].uid].id)
    {
      assert ds[k] in ds;
      assert c'[..m][2 * k] == c[..m][2 * k];
      assert c'[..m][2 * k + 1] == c[..m][2 * k + 1];
    }
  }

  /** No listed applet's widget is among those the sweep destroys. */
  lemma SweepSparesListed(sf: State, ds: seq<Descriptor>)
    requires Wf(sf) && InListOrder(sf.container, sf.registry, ds)
    requires Untouched(sf) <= sf.registry.Keys && Uids(ds) !! Untouched(sf)
    ensures forall k :: 0 <= k < 2 * |ds| ==> sf.container[k] !in AppletSlots(sf.registry, Untouched(sf))
  {
    forall k | 0 <= k < 2 * |ds| ensures sf.container[k] !in AppletSlots(sf.registry, Untouched(sf)) {
      var j := k / 2;
      assert ds[j] in ds;
      assert k == 2 * j || k == 2 * j + 1;
    }
  }

  /** Without repeats the box is in list order after the sweep; a box already in order and a registry already matching are left alone. */
  lemma FinishOrder(s0: State, z: State, sf: State, se: State)
    requires WalkEnded(s0, z, sf) && Swept(sf, se)
    ensures var ds := Descriptors(s0.appletList);
      && (UidsDistinct(ds) ==> InListOrder(se.container, se.registry, ds))
      && (s0.registry.Keys == Uids(ds) && UidsDistinct(ds) && InListOrder(s0.container, s0.registry, ds)
          ==> se.container == s0.container)
  {
    var ds := Descriptors(s0.appletList);
    var slots := AppletSlots(sf.registry, Untouched(sf));
    if UidsDistinct(ds) {
      SweepSparesListed(sf, ds);
      RemovingKeepsPrefix(sf.container, slots, 2 * |ds|);
      InListOrderPrefix(sf.container, se.container, sf.registry, se.registry, ds);
    }
    if s0.registry.Keys == Uids(ds) && UidsDistinct(ds) && InListOrder(s0.container, s0.registry, ds) {
      assert Stable(z, ds);
      assert Untouched(sf) == {};
      assert slots == {};
      RemovingNothing(sf.container);
    }
  }

  /** Clearing the marks, walking the whole list and sweeping is one reconciliation pass. */
  lemma Finish(s0: State, z: State, sf: State, se: State)
    requires Wf(s0) && s0.realized && s0.appletList != [] && Zeroed(s0, z)
    requires Forwarded(z, sf, |z.appletList|) && Swept(sf, se)
    ensures Reconciled(s0, se) && Wf(se)
  {
    WalkDone(s0, z, sf);
    SweptWf(sf, se);
    FinishKeys(s0, z, sf, se);
    FinishEntries(s0, z, sf, se);
    FinishNewIds(s0, z, sf, se);
    FinishDestroyed(s0, z, sf, se);
    FinishBox(s0, z, sf, se);
    FinishOrder(s0, z, sf, se);
  }
}
