/**
 * The applet manager's state as a value, and what one reconciliation pass
 * (awn_applet_manager_refresh_applets) promises about the state it leaves.
 * The class in module Manager keeps the same fields and is proved to meet
 * these relations; the lemmas here derive the pass's consequences from them.
 */
module ManagerSpec {
  import opened Util
  import opened AppletKey
  import opened Box
  import opened Orientation

  /**
   * An applet proxy as the registry holds it. `id` stands for the widget
   * object (a fresh one per proxy created); the proxy carries the uid it was
   * created for, the desktop-file path, and the layout values last pushed to it.
   */
  datatype Proxy = Proxy(id: nat, path: string, uid: string, orient: int, offset: int, size: int)

  /** A layout property the manager forwards to its applets. */
  datatype Setting = SizeSetting(size: int) | OffsetSetting(offset: int) | OrientSetting(orient: int)

  /** One property update sent to the applet with the given id, with the box axis in force when it was sent. */
  datatype Push = Push(id: nat, setting: Setting, axis: Axis)

  /** The proxy after g_object_set of the setting. */
  function Applied(p: Proxy, setting: Setting): (q: Proxy)
    ensures q.id == p.id && q.path == p.path && q.uid == p.uid
  {
    match setting
    case SizeSetting(v) => p.(size := v)
    case OffsetSetting(v) => p.(offset := v)
    case OrientSetting(v) => p.(orient := v)
  }

  /**
   * Everything the manager keeps: the realized flag of its widget, the layout
   * values and box axis, the configured list, the uid-to-proxy registry with
   * one touch mark per entry, the box's children in order, the next proxy id,
   * and logs of proxies created and destroyed, warnings and property pushes.
   */
  datatype State = State(
    realized: bool,
    orient: int,
    offset: int,
    size: int,
    axis: Axis,
    appletList: seq<string>,
    registry: map<string, Proxy>,
    touched: map<string, bool>,
    container: seq<Slot>,
    nextId: nat,
    created: seq<nat>,
    destroyed: seq<nat>,
    warnings: seq<string>,
    pushes: seq<Push>)

  /**
   * The manager's invariant: the axis matches the orientation; each registry
   * entry has a mark, is keyed by its own uid and has its own proxy; the box
   * holds each child once, every entry's widget and throbber among them, and
   * no id that was not handed out yet.
   */
  ghost predicate Wf(s: State) {
    && AxisOf(s.orient) == Some(s.axis)
    && s.touched.Keys == s.registry.Keys
    && (forall u :: u in s.registry ==> s.registry[u].uid == u && s.registry[u].id < s.nextId)
    && (forall u, v :: u in s.registry && v in s.registry && u != v ==> s.registry[u].id != s.registry[v].id)
    && Distinct(s.container)
    && (forall x :: x in s.container ==> x.id < s.nextId)
    && (forall u :: u in s.registry ==>
          AppletSlot(s.registry[u].id) in s.container && ThrobberSlot(s.registry[u].id) in s.container)
  }

  /** The pushes of one setting to every entry of a registry, with the axis in force. */
  ghost function Broadcasts(registry: map<string, Proxy>, setting: Setting, axis: Axis): set<Push> {
    PushesTo(registry, registry.Keys, setting, axis)
  }

  /** The pushes of one setting to the registry entries named in `keys`. */
  ghost function PushesTo(registry: map<string, Proxy>, keys: set<string>, setting: Setting, axis: Axis): set<Push>
    requires keys <= registry.Keys
  {
    set u | u in keys :: Push(registry[u].id, setting, axis)
  }

  /** `after` is `before` followed by each element of `added` exactly once, in some order. */
  ghost predicate LogExtended<T>(before: seq<T>, after: seq<T>, added: set<T>) {
    |before| <= |after| && after[..|before|] == before
    && Distinct(after[|before|..]) && Elems(after[|before|..]) == added
  }

  /** The ids of the registry entries named in `keys`. */
  ghost function IdsOf(registry: map<string, Proxy>, keys: set<string>): set<nat>
    requires keys <= registry.Keys
  {
    set u | u in keys :: registry[u].id
  }

  /** The ids of the proxies that are in s1's registry and were not in s0's. */
  ghost function NewIds(s0: State, s1: State): set<nat> {
    IdsOf(s1.registry, s1.registry.Keys - s0.registry.Keys)
  }

  /** The ids of the proxies in s0's registry whose uid is not in `uids`. */
  ghost function SweptIds(s0: State, uids: set<string>): set<nat> {
    IdsOf(s0.registry, s0.registry.Keys - uids)
  }

  /** The k-th descriptor's applet sits at slot 2k of the box and its throbber at slot 2k+1. */
  ghost predicate InListOrder(c: seq<Slot>, registry: map<string, Proxy>, ds: seq<Descriptor>) {
    2 * |ds| <= |c|
    && forall k :: 0 <= k < |ds| ==>
         ds[k].uid in registry
         && c[2 * k] == AppletSlot(registry[ds[k].uid].id)
         && c[2 * k + 1] == ThrobberSlot(registry[ds[k].uid].id)
  }

  /**
   * What one reconciliation pass from s0 leaves in s1. An unrealized manager
   * or an empty list leaves everything as it was. Otherwise, with ds the
   * well-formed entries of the list: the registry holds exactly their uids,
   * all marked touched; a uid that was present keeps its proxy; a missing uid
   * gets one fresh proxy made from its first entry and the manager's current
   * orientation, offset and size; every other entry is destroyed exactly once
   * and its widget leaves the box; each malformed entry is warned about once;
   * for a list without repeated uids the box shows the applets, each followed
   * by its throbber, in list order, and a box already in that order is not
   * changed.
   */
  ghost predicate Reconciled(s0: State, s1: State) {
    if !s0.realized || s0.appletList == [] then s1 == s0
    else
      var ds := Descriptors(s0.appletList);
      var uids := Uids(ds);
      && s1.realized == s0.realized && s1.orient == s0.orient && s1.offset == s0.offset
      && s1.size == s0.size && s1.axis == s0.axis && s1.appletList == s0.appletList
      && s1.pushes == s0.pushes && s0.nextId <= s1.nextId
      && s1.warnings == s0.warnings + Malformed(s0.appletList)
      && s1.registry.Keys == uids
      && (forall u :: u in s1.touched ==> s1.touched[u])
      && (forall u :: u in s1.registry && u in s0.registry ==> s1.registry[u] == s0.registry[u])
      && (forall u :: u in s1.registry && u !in s0.registry ==>
            s0.nextId <= s1.registry[u].id
            && s1.registry[u] == Proxy(s1.registry[u].id, FirstPath(ds, u), u, s0.orient, s0.offset, s0.size))
      && LogExtended(s0.created, s1.created, NewIds(s0, s1))
      && LogExtended(s0.destroyed, s1.destroyed, SweptIds(s0, uids))
      && (forall x :: x in s1.container <==>
            (x in s0.container || x.id in NewIds(s0, s1)) && !(x.AppletSlot? && x.id in SweptIds(s0, uids)))
      && (UidsDistinct(ds) ==> InListOrder(s1.container, s1.registry, ds))
      && (s0.registry.Keys == uids && UidsDistinct(ds) && InListOrder(s0.container, s0.registry, ds)
          ==> s1.container == s0.container)
  }

  /** Appending a new element to an extended log extends it by that element too. */
  lemma LogExtendedStep<T>(before: seq<T>, after: seq<T>, added: set<T>, x: T)
    requires LogExtended(before, after, added) && x !in added
    ensures LogExtended(before, after + [x], added + {x})
  {
    var n := |before|;
    assert (after + [x])[..n] == after[..n];
    assert (after + [x])[n..] == after[n..] + [x];
    var suffix := after[n..];
    assert Elems(suffix + [x]) == Elems(suffix) + {x};
    assert Distinct(suffix + [x]) by {
      forall j, k | 0 <= j < k < |suffix + [x]| ensures (suffix + [x])[j] != (suffix + [x])[k] {
        if k == |suffix| {
          assert suffix[j] in Elems(suffix);
        }
      }
    }
  }

  /** A log that nothing was appended to extends itself by nothing. */
  lemma LogExtendedEmpty<T>(log: seq<T>)
    ensures LogExtended(log, log, {})
  {
    assert log[|log|..] == [];
  }

  /** A log extended by nothing is unchanged. */
  lemma LogExtendedByNothing<T>(before: seq<T>, after: seq<T>)
    requires LogExtended(before, after, {})
    ensures after == before
  {
    EmptyElems(after[|before|..]);
    assert after == after[..|before|] + after[|before|..];
  }

  /**
   * A second pass over an unchanged list is quiet: it creates and destroys
   * nothing, keeps every registry entry and mark, and, for a list without
   * repeated uids, leaves the box as it is.
   */
  lemma SecondPassIsQuiet(s0: State, s1: State, s2: State)
    requires Wf(s1) && Wf(s2)
    requires Reconciled(s0, s1) && Reconciled(s1, s2)
    ensures s2.registry == s1.registry && s2.touched == s1.touched
    ensures s2.created == s1.created && s2.destroyed == s1.destroyed
    ensures UidsDistinct(Descriptors(s1.appletList)) ==> s2.container == s1.container
  {
    if s1.realized && s1.appletList != [] {
      assert s0.realized && s0.appletList == s1.appletList;
      var uids := Uids(Descriptors(s1.appletList));
      assert NewIds(s1, s2) == {};
      assert SweptIds(s1, uids) == {};
      LogExtendedByNothing(s1.created, s2.created);
      LogExtendedByNothing(s1.destroyed, s2.destroyed);
      assert s2.registry == s1.registry;
    }
  }

  /** Entries of the form "<letter>::<digit>" parse to that path and uid. */
  lemma ExampleEntriesParsed()
    ensures Parsed("a::1") == [Descriptor("a", "1")]
    ensures Parsed("b::2") == [Descriptor("b", "2")]
    ensures Parsed("c::3") == [Descriptor("c", "3")]
    ensures Parsed("badtoken") == []
  {
    var d1, d2, d3 := Descriptor("a", "1"), Descriptor("b", "2"), Descriptor("c", "3");
    assert PathOk("a") && PathOk("b") && PathOk("c");
    assert Join(d1) == "a::1" && Join(d2) == "b::2" && Join(d3) == "c::3";
    ParsedJoin(d1);
    ParsedJoin(d2);
    ParsedJoin(d3);
    SplitRejectsBadToken();
  }

  lemma MalformedExampleParsed()
    ensures Descriptors(["badtoken", "a::1"]) == [Descriptor("a", "1")]
    ensures Malformed(["badtoken", "a::1"]) == ["badtoken"]
  {
    ExampleEntriesParsed();
    SplitRejectsBadToken();
    DescriptorsSnoc([], "badtoken");
    DescriptorsSnoc(["badtoken"], "a::1");
    assert [] + ["badtoken"] == ["badtoken"];
    assert ["badtoken"] + ["a::1"] == ["badtoken", "a::1"];
  }

  lemma DroppedExampleParsed()
    ensures Descriptors(["a::1", "c::3"]) == [Descriptor("a", "1"), Descriptor("c", "3")]
  {
    ExampleEntriesParsed();
    DescriptorsSnoc([], "a::1");
    assert [] + ["a::1"] == ["a::1"];
    DescriptorsSnoc(["a::1"], "c::3");
    assert ["a::1"] + ["c::3"] == ["a::1", "c::3"];
  }

  lemma RepeatedExampleParsed()
    ensures Descriptors(["a::1", "b::2", "a::1"]) == [Descriptor("a", "1"), Descriptor("b", "2"), Descriptor("a", "1")]
  {
    ExampleEntriesParsed();
    DescriptorsSnoc([], "a::1");
    assert [] + ["a::1"] == ["a::1"];
    DescriptorsSnoc(["a::1"], "b::2");
    assert ["a::1"] + ["b::2"] == ["a::1", "b::2"];
    DescriptorsSnoc(["a::1", "b::2"], "a::1");
    assert ["a::1", "b::2"] + ["a::1"] == ["a::1", "b::2", "a::1"];
  }

  lemma RepeatedExampleUids()
    ensures Uids(Descriptors(["a::1", "b::2", "a::1"])) == {"1", "2"}
  {
    RepeatedExampleParsed();
    UidsOfThree(Descriptor("a", "1"), Descriptor("b", "2"), Descriptor("a", "1"));
  }

  /** What a pass that took effect says about the registry's keys, the warnings and the two logs. */
  lemma ReconciledOutcome(s0: State, s1: State)
    requires s0.realized && s0.appletList != [] && Reconciled(s0, s1)
    ensures s1.registry.Keys == Uids(Descriptors(s0.appletList))
    ensures s1.warnings == s0.warnings + Malformed(s0.appletList)
    ensures LogExtended(s0.created, s1.created, NewIds(s0, s1))
    ensures LogExtended(s0.destroyed, s1.destroyed, SweptIds(s0, Uids(Descriptors(s0.appletList))))
  {
  }

  /** A log extended by one element has that element appended. */
  lemma LogExtendedByOne<T>(before: seq<T>, after: seq<T>, x: T)
    requires LogExtended(before, after, {x})
    ensures after == before + [x]
  {
    var suffix := after[|before|..];
    assert suffix[0] in Elems(suffix);
    DistinctCard(suffix);
    assert |suffix| == 1;
    assert after == after[..|before|] + suffix;
  }

  /** A log extended by a set gains exactly as many elements as the set has. */
  lemma LogExtendedCount<T>(before: seq<T>, after: seq<T>, added: set<T>)
    requires LogExtended(before, after, added)
    ensures |after| == |before| + |added|
  {
    DistinctCard(after[|before|..]);
  }

  /** The malformed entry is skipped with one warning; the well-formed one gets the only entry. */
  lemma MalformedEntrySkipped(s0: State, s1: State)
    requires s0.realized && s0.appletList == ["badtoken", "a::1"]
    requires Reconciled(s0, s1)
    ensures s1.registry.Keys == {"1"}
    ensures s1.warnings == s0.warnings + ["badtoken"]
  {
    MalformedExampleParsed();
    ReconciledOutcome(s0, s1);
    UidsOfOne(Descriptor("a", "1"));
  }

  /**
   * Dropping an applet from the list destroys exactly that applet, once,
   * creates nothing, and keeps the proxies of the others.
   */
  lemma DroppedAppletDestroyedOnce(s0: State, s1: State)
    requires s0.realized && s0.registry.Keys == {"1", "2", "3"}
    requires s0.appletList == ["a::1", "c::3"]
    requires Reconciled(s0, s1)
    ensures s1.registry.Keys == {"1", "3"}
    ensures s1.destroyed == s0.destroyed + [s0.registry["2"].id]
    ensures s1.created == s0.created
  {
    DroppedExampleParsed();
    ReconciledOutcome(s0, s1);
    UidsOfTwo(Descriptor("a", "1"), Descriptor("c", "3"));
    var uids := Uids(Descriptors(s0.appletList));
    assert uids == {"1", "3"};
    assert SweptIds(s0, uids) == {s0.registry["2"].id};
    assert NewIds(s0, s1) == {};
    LogExtendedByNothing(s0.created, s1.created);
    LogExtendedByOne(s0.destroyed, s1.destroyed, s0.registry["2"].id);
  }

  /** Distinct entries have distinct ids, so a set of entries has as many ids as entries. */
  lemma {:induction false} IdsOfCard(registry: map<string, Proxy>, keys: set<string>)
    requires keys <= registry.Keys
    requires forall u, v :: u in registry && v in registry && u != v ==> registry[u].id != registry[v].id
    ensures |IdsOf(registry, keys)| == |keys|
    decreases keys
  {
    if keys != {} {
      var u :| u in keys;
      var rest := keys - {u};
      IdsOfCard(registry, rest);
      assert IdsOf(registry, keys) == IdsOf(registry, rest) + {registry[u].id};
      assert registry[u].id !in IdsOf(registry, rest);
    }
  }

  /** A pass creates exactly one proxy for each uid the registry did not hold. */
  lemma OneProxyPerNewUid(s0: State, s1: State)
    requires Reconciled(s0, s1) && Wf(s1)
    ensures |s1.created| == |s0.created| + |s1.registry.Keys - s0.registry.Keys|
  {
    if s0.realized && s0.appletList != [] {
      IdsOfCard(s1.registry, s1.registry.Keys - s0.registry.Keys);
      LogExtendedCount(s0.created, s1.created, NewIds(s0, s1));
    }
  }

  /** A pass destroys exactly one proxy for each registry entry the list no longer names. */
  lemma OneDestructionPerDroppedUid(s0: State, s1: State)
    requires Reconciled(s0, s1) && Wf(s0)
    ensures |s1.destroyed| == |s0.destroyed| + |s0.registry.Keys - s1.registry.Keys|
  {
    if s0.realized && s0.appletList != [] {
      var uids := Uids(Descriptors(s0.appletList));
      IdsOfCard(s0.registry, s0.registry.Keys - uids);
      LogExtendedCount(s0.destroyed, s1.destroyed, SweptIds(s0, uids));
    }
  }

  /**
   * A repeated uid collapses to one entry: with [a::1, b::2, a::1] on an
   * empty registry, exactly two proxies are created, one per uid, and none
   * is destroyed.
   */
  lemma RepeatedUidCreatedOnce(s0: State, s1: State)
    requires s0.realized && s0.registry == map[]
    requires s0.appletList == ["a::1", "b::2", "a::1"]
    requires Reconciled(s0, s1) && Wf(s1)
    ensures s1.registry.Keys == {"1", "2"}
    ensures |s1.created| == |s0.created| + 2
    ensures s1.destroyed == s0.destroyed
  {
    RepeatedExampleUids();
    ReconciledOutcome(s0, s1);
    OneProxyPerNewUid(s0, s1);
    assert s1.registry.Keys - s0.registry.Keys == {"1", "2"};
    var uids := Uids(Descriptors(s0.appletList));
    assert SweptIds(s0, uids) == {};
    LogExtendedByNothing(s0.destroyed, s1.destroyed);
  }

  /**
   * A broadcast reaches every applet exactly once: as distinct entries have
   * distinct proxies, there are as many pushes as registry entries.
   */
  lemma {:induction false} BroadcastPerEntry(registry: map<string, Proxy>, setting: Setting, axis: Axis)
    requires forall u, v :: u in registry && v in registry && u != v ==> registry[u].id != registry[v].id
    ensures |Broadcasts(registry, setting, axis)| == |registry.Keys|
    ensures forall u :: u in registry ==> Push(registry[u].id, setting, axis) in Broadcasts(registry, setting, axis)
    decreases |registry.Keys|
  {
    if registry.Keys != {} {
      var u :| u in registry;
      var rest := registry - {u};
      assert rest.Keys == registry.Keys - {u};
      BroadcastPerEntry(rest, setting, axis);
      var p := Push(registry[u].id, setting, axis);
      assert Broadcasts(registry, setting, axis) == Broadcasts(rest, setting, axis) + {p} by {
        forall q | q in Broadcasts(registry, setting, axis) ensures q in Broadcasts(rest, setting, axis) + {p} {
          var v :| v in registry && q == Push(registry[v].id, setting, axis);
          if v != u {
            assert v in rest;
          }
        }
      }
      assert p !in Broadcasts(rest, setting, axis);
    }
  }

  /** Pushing the setting to one more entry adds exactly that entry's push, which is new. */
  lemma BroadcastStep(r0: map<string, Proxy>, keys: set<string>, u: string, setting: Setting, axis: Axis)
    requires forall v, w :: v in r0 && w in r0 && v != w ==> r0[v].id != r0[w].id
    requires keys <= r0.Keys && u in r0 && u !in keys
    ensures Push(r0[u].id, setting, axis) !in PushesTo(r0, keys, setting, axis)
    ensures PushesTo(r0, keys + {u}, setting, axis) == PushesTo(r0, keys, setting, axis) + {Push(r0[u].id, setting, axis)}
  {
    var p := Push(r0[u].id, setting, axis);
    forall q | q in PushesTo(r0, keys + {u}, setting, axis) ensures q in PushesTo(r0, keys, setting, axis) + {p} {
      var v :| v in keys + {u} && q == Push(r0[v].id, setting, axis);
      if v != u {
        assert v in keys;
      }
    }
    assert u in keys + {u};
  }

  /** Applying a setting to every proxy keeps the invariant: ids, uids and keys stay as they were. */
  lemma AppliedWf(s: State, setting: Setting, t: State)
    requires Wf(s)
    requires t == s.(registry := t.registry, pushes := t.pushes)
    requires t.registry.Keys == s.registry.Keys
    requires forall u :: u in t.registry ==> t.registry[u] == Applied(s.registry[u], setting)
    ensures Wf(t)
  {
  }

  /** Storing new settings keeps the invariant as long as the axis matches the orientation. */
  lemma SettingsWf(s: State, orient: int, axis: Axis, offset: int, size: int)
    requires Wf(s) && AxisOf(orient) == Some(axis)
    ensures Wf(s.(orient := orient, axis := axis, offset := offset, size := size))
  {
  }
}
