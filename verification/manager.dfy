/**
 * The applet manager: a box widget that keeps one applet proxy per uid of its
 * configured list, in list order, each followed by the throbber it owns. The
 * fields are those the C object keeps in its private structure; the ghost
 * fields log what the manager did (proxies created and destroyed, warnings,
 * property pushes) so that its contracts can speak about it.
 */
module Manager {
  import opened Util
  import opened AppletKey
  import opened Box
  import opened Orientation
  import opened ManagerSpec
  import opened PassSteps

  class AppletManager {
    /** Whether the widget is realized; a pass on an unrealized manager does nothing. */
    var realized: bool
    var orient: int
    var offset: int
    var size: int
    /** The stacking direction of the box, chosen from `orient`. */
    var axis: Axis
    /** The configured "path::uid" entries, in order. */
    var appletList: seq<string>
    /** The uid-to-proxy hash table. */
    var registry: map<string, Proxy>
    /** The touch mark each registered proxy carries as object data. */
    var touched: map<string, bool>
    /** The children of the box, in order. */
    var container: seq<Slot>
    /** The id the next proxy created gets. */
    var nextId: nat
    ghost var created: seq<nat>
    ghost var destroyed: seq<nat>
    ghost var warnings: seq<string>
    ghost var pushes: seq<Push>

    ghost function Snapshot(): State
      reads this
    {
      State(realized, orient, offset, size, axis, appletList, registry, touched, container, nextId,
            created, destroyed, warnings, pushes)
    }

    ghost predicate Valid()
      reads this
    {
      Wf(Snapshot())
    }

    /**
     * A new manager with the property defaults: orientation bottom (so a
     * horizontal box), offset 0, size 48, no applet list and no applets, not
     * yet realized.
     */
    constructor ()
      ensures Valid()
      ensures Snapshot() == State(false, ORIENT_BOTTOM, 0, 48, Horizontal, [], map[], map[], [], 0, [], [], [], [])
    {
      realized := false;
      orient := ORIENT_BOTTOM;
      offset := 0;
      size := 48;
      axis := Horizontal;
      appletList := [];
      registry := map[];
      touched := map[];
      container := [];
      nextId := 0;
      created := [];
      destroyed := [];
      warnings := [];
      pushes := [];
    }

    /** The toolkit realizes the widget; from then on passes take effect. */
    method Realize()
      requires Valid()
      modifies this`realized
      ensures Valid() && Snapshot() == old(Snapshot()).(realized := true)
    {
      realized := true;
    }

    /**
     * create_applet: a new proxy for uid with the manager's current
     * orientation, offset and size, packed at the end of the box with its
     * throbber and registered with mark 0.
     */
    method CreateApplet(path: string, uid: string) returns (id: nat)
      requires Valid() && uid !in registry
      modifies this`registry, this`touched, this`container, this`nextId, this`created
      ensures Valid()
      ensures Snapshot() == Created(old(Snapshot()), path, uid)
      ensures registry[uid] == Proxy(id, path, uid, orient, offset, size)
      ensures forall u :: u in old(registry) ==> old(registry)[u].id != id
    {
      ghost var s := Snapshot();
      CreatedWf(s, path, uid);
      id := nextId;
      registry, touched, container, nextId :=
        registry[uid := Proxy(id, path, uid, orient, offset, size)], touched[uid := false],
        container + [AppletSlot(id), ThrobberSlot(id)], nextId + 1;
      created := created + [id];
      assert Snapshot() == Created(s, path, uid);
    }

    /** zero_applets over the hash table: every registered proxy's mark set to 0. */
    method ZeroApplets()
      requires Valid()
      modifies this`touched
      ensures Valid() && Zeroed(old(Snapshot()), Snapshot())
    {
      ghost var s := Snapshot();
      var pending := registry.Keys;
      while pending != {}
        invariant pending <= touched.Keys == s.touched.Keys
        invariant forall u :: u in touched && u !in pending ==> !touched[u]
        decreases pending
      {
        var u :| u in pending;
        touched := touched[u := false];
        pending := pending - {u};
      }
      ZeroedWf(s, Snapshot());
    }

    /**
     * g_hash_table_foreach_remove with delete_applets: each proxy whose mark
     * is still 0 is destroyed and removed from the table; the others stay.
     */
    method DeleteApplets()
      requires Valid()
      modifies this`registry, this`touched, this`container, this`destroyed
      ensures Valid() && Swept(old(Snapshot()), Snapshot())
    {
      ghost var s := Snapshot();
      var table, marks, box;
      ghost var log;
      table, marks, box, log := SweepTable(s, registry, touched, container);
      registry, touched, container := table, marks, box;
      destroyed := log;
      SweptWf(s, Snapshot());
    }

    /**
     * awn_applet_manager_refresh_applets: one reconciliation pass of the
     * registry and the box against the configured list.
     */
    method RefreshApplets()
      requires Valid()
      modifies this
      ensures Valid() && Reconciled(old(Snapshot()), Snapshot())
    {
      if !realized || appletList == [] {
        return;
      }
      ghost var s0 := Snapshot();
      ZeroApplets();
      ghost var z := Snapshot();
      WalkList();
      ghost var sf := Snapshot();
      DeleteApplets();
      Finish(s0, z, sf, Snapshot());
    }

    /**
     * The walk of refresh_applets over the configured list, after every mark
     * was zeroed: a malformed entry is warned about and skipped, a
     * well-formed one is placed, i counting the box positions used so far.
     */
    method WalkList()
      requires Valid() && forall u :: u in touched ==> !touched[u]
      modifies this`registry, this`touched, this`container, this`nextId, this`created, this`warnings
      ensures Forwarded(old(Snapshot()), Snapshot(), |appletList|)
    {
      ghost var z := Snapshot();
      ForwardStart(z);
      var list := appletList;
      var a: nat, i: nat := 0, 0;
      while a < |list|
        invariant list == z.appletList && a <= |list|
        invariant Forwarded(z, Snapshot(), a)
        invariant i == 2 * |Descriptors(list[..a])|
        decreases |list| - a
      {
        i := WalkEntry(z, a, i);
        a := a + 1;
      }
    }

    /**
     * One turn of the walk, at entry a of the list and box position i: a
     * malformed entry is warned about and skipped, a well-formed one is
     * placed at i and i + 1. The new position is returned.
     */
    method WalkEntry(ghost z: State, a: nat, i: nat) returns (next: nat)
      requires Forwarded(z, Snapshot(), a) && a < |z.appletList| && z.appletList == appletList
      requires i == 2 * |Descriptors(z.appletList[..a])|
      modifies this`registry, this`touched, this`container, this`nextId, this`created, this`warnings
      ensures Forwarded(z, Snapshot(), a + 1)
      ensures next == 2 * |Descriptors(z.appletList[..a + 1])|
      ensures match Split(z.appletList[a])
        case None => Snapshot() == old(Snapshot()).(warnings := old(warnings) + [z.appletList[a]])
        case Some(d) => d.uid in Ensured(old(Snapshot()), d).registry
                        && Snapshot() == Placed(Ensured(old(Snapshot()), d), d.uid, i)
    {
      ghost var s := Snapshot();
      var entry := appletList[a];
      match Split(entry) {
      case None =>
        ForwardMalformed(z, s, a);
        DescriptorsStep(z.appletList, a);
        warnings := warnings + [entry];
        next := i;
      case Some(d) =>
        ForwardPlaced(z, s, a, d);
        DescriptorsNext(z.appletList, a, d);
        PlaceEntry(d, i);
        next := i + 2;
      }
    }

    /** The lookup of an entry's uid in the hash table, with create_applet when it is missing. */
    method EnsureApplet(d: Descriptor)
      requires Valid()
      modifies this`registry, this`touched, this`container, this`nextId, this`created
      ensures Valid() && d.uid in registry
      ensures Snapshot() == Ensured(old(Snapshot()), d)
    {
      if d.uid !in registry {
        var _ := CreateApplet(d.path, d.uid);
      }
    }

    /**
     * The body of the pass for a well-formed entry: the proxy for its uid is
     * looked up or created, its widget is moved to position i of the box and
     * its throbber to i + 1, and it is marked as touched.
     */
    method PlaceEntry(d: Descriptor, i: nat)
      requires Valid()
      modifies this`registry, this`touched, this`container, this`nextId, this`created
      ensures Valid()
      ensures d.uid in Ensured(old(Snapshot()), d).registry
      ensures Snapshot() == Placed(Ensured(old(Snapshot()), d), d.uid, i)
    {
      EnsureApplet(d);
      ghost var e := Snapshot();
      PlacedWf(e, d.uid, i);
      var id := registry[d.uid].id;
      container, touched := Reordered(Reordered(container, AppletSlot(id), i), ThrobberSlot(id), i + 1),
                            touched[d.uid := true];
      assert Snapshot() == Placed(e, d.uid, i);
    }

    /** set_property with PROP_APPLET_LIST: the list is replaced and a pass runs. */
    method SetAppletList(list: seq<string>)
      requires Valid()
      modifies this
      ensures Valid() && Reconciled(old(Snapshot()).(appletList := list), Snapshot())
    {
      appletList := list;
      RefreshApplets();
    }

    /**
     * g_hash_table_foreach with one of the awn_manager_set_applets_* helpers:
     * the setting is set on every registered proxy, once each.
     */
    method Broadcast(setting: Setting)
      requires Valid()
      modifies this`registry, this`pushes
      ensures Valid()
      ensures registry.Keys == old(registry).Keys
      ensures forall u :: u in registry ==> registry[u] == Applied(old(registry)[u], setting)
      ensures LogExtended(old(pushes), pushes, Broadcasts(old(registry), setting, axis))
    {
      ghost var s := Snapshot();
      var table;
      ghost var log;
      table, log := ApplyEach(registry, setting, axis, pushes);
      registry := table;
      pushes := log;
      AppliedWf(s, setting, Snapshot());
    }

    /** awn_applet_manager_set_size: the size is stored and pushed to every applet. */
    method SetSize(size: int)
      requires Valid()
      modifies this`size, this`registry, this`pushes
      ensures Valid() && this.size == size
      ensures registry.Keys == old(registry).Keys
      ensures forall u :: u in registry ==> registry[u] == Applied(old(registry)[u], SizeSetting(size))
      ensures LogExtended(old(pushes), pushes, Broadcasts(old(registry), SizeSetting(size), axis))
    {
      SettingsWf(Snapshot(), orient, axis, offset, size);
      this.size := size;
      Broadcast(SizeSetting(size));
    }

    /** awn_applet_manager_set_offset: the offset is stored and pushed to every applet. */
    method SetOffset(offset: int)
      requires Valid()
      modifies this`offset, this`registry, this`pushes
      ensures Valid() && this.offset == offset
      ensures registry.Keys == old(registry).Keys
      ensures forall u :: u in registry ==> registry[u] == Applied(old(registry)[u], OffsetSetting(offset))
      ensures LogExtended(old(pushes), pushes, Broadcasts(old(registry), OffsetSetting(offset), axis))
    {
      SettingsWf(Snapshot(), orient, axis, offset, size);
      this.offset := offset;
      Broadcast(OffsetSetting(offset));
    }

    /**
     * awn_applet_manager_set_orient: the orientation is stored, the box axis
     * is chosen from it, and only then is the orientation pushed to every
     * applet, so each push carries the new axis. An orientation outside the
     * four panel edges is the branch the source asserts is never reached.
     */
    method SetOrient(orient: int)
      requires Valid() && AxisOf(orient).Some?
      modifies this`orient, this`axis, this`registry, this`pushes
      ensures Valid() && this.orient == orient && axis == AxisOf(orient).value
      ensures registry.Keys == old(registry).Keys
      ensures forall u :: u in registry ==> registry[u] == Applied(old(registry)[u], OrientSetting(orient))
      ensures LogExtended(old(pushes), pushes, Broadcasts(old(registry), OrientSetting(orient), axis))
    {
      var next := if orient == ORIENT_TOP || orient == ORIENT_BOTTOM then Horizontal else Vertical;
      SettingsWf(Snapshot(), orient, next, offset, size);
      this.orient := orient;
      axis := next;
      ghost var r0, p0 := registry, pushes;
      Broadcast(OrientSetting(orient));
      assert LogExtended(p0, pushes, Broadcasts(r0, OrientSetting(orient), next));
    }

    /** awn_ua_add_applet: the D-Bus entry point reports success and changes nothing. */
    method AddApplet(name: string, uid: string) returns (ok: bool)
      ensures ok
    {
      ok := true;
    }
  }

  /**
   * The walk over the hash table behind Broadcast: each proxy of `registry`
   * gets the setting, and its push (carrying `axis`) is appended to `log0`.
   */
  method ApplyEach(registry: map<string, Proxy>, setting: Setting, axis: Axis, ghost log0: seq<Push>)
    returns (table: map<string, Proxy>, ghost log: seq<Push>)
    requires forall v, w :: v in registry && w in registry && v != w ==> registry[v].id != registry[w].id
    ensures table.Keys == registry.Keys
    ensures forall u :: u in table ==> table[u] == Applied(registry[u], setting)
    ensures LogExtended(log0, log, Broadcasts(registry, setting, axis))
  {
    table, log := registry, log0;
    LogExtendedEmpty(log0);
    var pending := registry.Keys;
    assert PushesTo(registry, registry.Keys - pending, setting, axis) == {};
    while pending != {}
      invariant pending <= registry.Keys && table.Keys == registry.Keys
      invariant forall u :: u in table ==> table[u] == if u in pending then registry[u] else Applied(registry[u], setting)
      invariant LogExtended(log0, log, PushesTo(registry, registry.Keys - pending, setting, axis))
      decreases pending
    {
      var u :| u in pending;
      var p := Push(table[u].id, setting, axis);
      BroadcastStep(registry, registry.Keys - pending, u, setting, axis);
      LogExtendedStep(log0, log, PushesTo(registry, registry.Keys - pending, setting, axis), p);
      assert registry.Keys - (pending - {u}) == (registry.Keys - pending) + {u};
      log := log + [p];
      table := table[u := Applied(table[u], setting)];
      pending := pending - {u};
    }
  }

  /**
   * The walk of g_hash_table_foreach_remove behind DeleteApplets, on the
   * table, marks and box of state s: each entry whose mark is 0 has its
   * widget taken out of the box, its id logged as destroyed, and leaves the
   * table; the result is the state s swept.
   */
  method SweepTable(ghost s: State, registry: map<string, Proxy>, touched: map<string, bool>, container: seq<Slot>)
    returns (table: map<string, Proxy>, marks: map<string, bool>, box: seq<Slot>, ghost log: seq<nat>)
    requires Wf(s) && registry == s.registry && touched == s.touched && container == s.container
    ensures Swept(s, s.(registry := table, touched := marks, container := box, destroyed := log))
  {
    ghost var removed: set<string> := {};
    SweepStart(s);
    table, marks, box, log := registry, touched, container, s.destroyed;
    var pending := registry.Keys;
    while pending != {}
      invariant pending <= s.registry.Keys
      invariant removed == Untouched(s) - pending && removed <= s.registry.Keys
      invariant table == s.registry - removed && marks == s.touched - removed
      invariant box == Removing(s.container, AppletSlots(s.registry, removed))
      invariant LogExtended(s.destroyed, log, IdsOf(s.registry, removed))
      decreases pending
    {
      var u :| u in pending;
      SweepMarks(s, removed, pending, u);
      if !marks[u] {
        var id := table[u].id;
        SweepStep(s, removed, u, log);
        log := log + [id];
        box := Without(box, AppletSlot(id));
        table := table - {u};
        marks := marks - {u};
        removed := removed + {u};
      }
      pending := pending - {u};
    }
    assert removed == Untouched(s);
  }
}
