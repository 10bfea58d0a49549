# Applet manager of the Avant Window Navigator panel, in Dafny

The applet manager (`src/awn-applet-manager.c`) is the box widget of the
panel that holds the running applets. It keeps three things in step:

- a configured, ordered list of `"path::uid"` entries (the `applet_list`
  property);
- a hash table from uid to applet proxy;
- the children of the box, where every applet is followed by its throbber.

A reconciliation pass (`awn_applet_manager_refresh_applets`) is a
mark-and-sweep over the table:

1. Every proxy's touch mark is set to 0.
2. The list is walked with a slot counter `i`. Each entry is split at its
   first `"::"`, and an entry that does not split is warned about and
   skipped. For a well-formed entry, the proxy for its uid is looked up or
   created. The proxy is moved to slot `i` and its throbber to slot `i + 1`,
   then it is marked 1.
3. Every proxy still marked 0 is destroyed and leaves the table.

The setters for `size`, `offset` and `orient` store the value and push it
to every proxy. The orientation first picks the box's stacking axis.
Setting `applet_list` replaces the list and runs a pass.

## Layout

| file | module | contents |
|---|---|---|
| `util.dfy` | `Util` | `Option`, duplicate-freedom, the elements of a sequence |
| `applet_key.dfy` | `AppletKey` | the `"::"` split, and the descriptors and warnings of a list |
| `box.dfy` | `Box` | the box as a sequence of children; `Reordered` is `gtk_box_reorder_child` |
| `orientation.dfy` | `Orientation` | orientation codes and the axis `set_orient` chooses |
| `manager_spec.dfy` | `ManagerSpec` | the manager's state as a value, its invariant `Wf`, and the pass relation `Reconciled` with its consequences |
| `pass_steps.dfy` | `PassSteps` | one relation per phase of a pass, and the lemmas that compose them into `Reconciled` |
| `manager.dfy` | `Manager` | class `AppletManager`: the fields of the C private structure, and methods with loops that follow the C code |

The class keeps four ghost logs:

- `created`: proxy ids created;
- `destroyed`: proxy ids destroyed;
- `warnings`: malformed entries;
- `pushes`: property updates sent to a proxy, each with the axis in force
  when it was sent.

With these logs, "exactly once" and "before" can be stated.

The methods of the pass are proved against relations on `Snapshot()`, the
value of all fields:

- `CreateApplet`, `ZeroApplets`, `DeleteApplets`, `EnsureApplet`,
  `PlaceEntry`, `WalkEntry`, `WalkList`, `RefreshApplets`, `SetAppletList`
  and `Realize`;
- `SweepTable`, for the value its results make up.

The pass's properties are lemmas over these relations.

The property setters are specified field by field instead:

- `Broadcast`, `SetSize`, `SetOffset` and `SetOrient` state the stored
  value, the new proxy of each key and the pushes logged, and their
  `modifies` frames keep every other field;
- `ApplyEach` states the same of the table and log it returns.

`AddApplet`, the D-Bus stub, states only the result it returns.

## Model

| member | source | states |
|---|---|---|
| AppletKey.Split | src/awn-applet-manager.c:570-576 | an entry splits exactly when it contains "::"; then the entry is path + "::" + uid and the path contains no "::", so the cut is at the first separator; otherwise the result is None, the warning branch |
| AppletKey.SplitKeepsLaterSeparators | src/awn-applet-manager.c:570 | with at most two tokens, "a::b::c" has path "a" and uid "b::c" |
| AppletKey.SplitRejectsBadToken | src/awn-applet-manager.c:572-575 | an entry without "::" does not give two tokens |
| AppletKey.SplitJoin | src/awn-applet-manager.c:570 | splitting path + "::" + uid gives back (path, uid) exactly when the path holds no "::" and does not end in ':' |
| AppletKey.EntriesAccounted | src/awn-applet-manager.c:561-576 | every list entry gives either one descriptor or one warning |
| AppletKey.DescriptorsAreSplits | src/awn-applet-manager.c:561-576 | the descriptors a list yields are exactly the successful splits of its entries |
| AppletKey.FirstPathIsEarliest | src/awn-applet-manager.c:579-584 | the path a missing uid's proxy is created from is that of the earliest entry naming the uid |
| Orientation.AxisDefinedOnPropertyRange | src/awn-applet-manager.c:419-440 | the switch reaches a case for exactly the values 0 to 3, which the "orient" property admits; any other value is the default that asserts it is unreachable |
| Orientation.OppositeEdgesShareAxis | src/awn-applet-manager.c:419-434 | top and bottom give the horizontal box, and left and right give the vertical one |
| ManagerSpec.Applied | src/awn-applet-manager.c:343-400 | g_object_set of a layout property on a proxy leaves its identity alone: the id, path and uid are those it had |
| ManagerSpec.SecondPassIsQuiet | src/awn-applet-manager.c:504-606 | a second pass over an unchanged list creates and destroys nothing and keeps every entry and mark; for a list without repeated uids it also leaves the box unchanged |
| ManagerSpec.OneProxyPerNewUid | src/awn-applet-manager.c:578-590 | a pass creates exactly as many proxies as there are uids the table did not hold |
| ManagerSpec.OneDestructionPerDroppedUid | src/awn-applet-manager.c:514-537 | a pass destroys exactly as many proxies as there are entries whose uid the list no longer names |
| ManagerSpec.MalformedEntrySkipped | src/awn-applet-manager.c:572-576 | with the list ["badtoken", "a::1"], only uid "1" is registered and "badtoken" is warned about once |
| ManagerSpec.DroppedAppletDestroyedOnce | src/awn-applet-manager.c:527-533 | dropping "2" from a table of {1,2,3}: exactly the proxy of "2" is destroyed, once, nothing is created, and "1" and "3" remain |
| ManagerSpec.RepeatedUidCreatedOnce | src/awn-applet-manager.c:579-590 | ["a::1", "b::2", "a::1"] on an empty table ends with the uids {1, 2}, exactly two proxies created and none destroyed: the repeated entry finds the proxy its first occurrence made |
| ManagerSpec.BroadcastPerEntry | src/awn-applet-manager.c:363-364 | a broadcast over the table makes one distinct push per entry, so every applet is reached exactly once |
| PassSteps.ZeroedWf | src/awn-applet-manager.c:504-512 | clearing the marks keeps the invariant |
| PassSteps.ForwardMalformed | src/awn-applet-manager.c:572-576 | after a malformed entry, the state with only that entry appended to the warnings satisfies the walk relation one entry further, so the table, marks, box and slot counter are as before |
| PassSteps.ForwardPlaced | src/awn-applet-manager.c:578-599 | a well-formed entry, looked up or created and then moved to slots i and i+1 and marked, extends what the walk has established by that entry |
| PassSteps.CreatedWf | src/awn-applet-manager.c:474-502 | creating a proxy keeps the invariant: its id is fresh, and its widget and throbber are new children of the box |
| PassSteps.PlacedInOrder | src/awn-applet-manager.c:592-595 | without repeated uids, the two reorders put the k-th applet at slot 2k and its throbber at 2k+1, after the ones already seen |
| PassSteps.PlacedStable | src/awn-applet-manager.c:592-595 | when the table already holds the listed uids and the box is already in list order, the lookup creates nothing and the reorders leave every child where it is |
| PassSteps.SweptWf | src/awn-applet-manager.c:514-537 | removing the untouched entries and their widgets keeps the invariant |
| PassSteps.Finish | src/awn-applet-manager.c:539-606 | zeroing, then the walk, then the sweep together make the pass relation Reconciled, and the invariant holds afterwards |
| Box.ReorderedSpec | src/awn-applet-manager.c:593-595 | reordering a child keeps the box's children and lack of repeats, puts the child at the position (or last), and keeps the others' order |
| PassSteps.RepeatedUidPlacedLast | src/awn-applet-manager.c:579-595 | walking ["a::1", "b::2", "a::1"] from an empty table and box, entry by entry as WalkEntry does, registers {1, 2} and leaves b's applet and throbber first and a's last: the repeated entry moves a's pair again, to slots 4 and 5 |
| Box.ReorderedFrontToEnd | src/awn-applet-manager.c:593-595 | moving the first child to a position at or past the end of the others puts it last |
| Box.PlacedPair | src/awn-applet-manager.c:593-595 | reordering an applet to i and then its throbber to i+1 keeps the first i children and leaves the pair at i and i+1 |
| Box.RemovingStep | src/awn-applet-manager.c:531 | destroying one more widget takes exactly that child out of the box |
| Manager.AppletManager.constructor | src/awn-applet-manager.c:247-269 | a new manager has orientation bottom (so a horizontal box), offset 0, size 48, no list, an empty table and an empty box, and is not realized |
| Manager.AppletManager.Realize | src/awn-applet-manager.c:546-547 | realizing the widget changes nothing but the realized flag |
| Manager.AppletManager.CreateApplet | src/awn-applet-manager.c:474-502 | the new proxy carries the manager's current orient, offset and size, has mark 0 and a fresh id, and its widget and throbber are appended to the box; the invariant is kept |
| Manager.AppletManager.ZeroApplets | src/awn-applet-manager.c:504-512 | every mark becomes 0 and nothing else changes |
| Manager.AppletManager.DeleteApplets | src/awn-applet-manager.c:514-537 | exactly the entries marked 0 are destroyed, once each, and removed from the table and the box; the others stay |
| Manager.SweepTable | src/awn-applet-manager.c:605 | the foreach_remove walk over the table removes exactly the entries marked 0 |
| Manager.AppletManager.RefreshApplets | src/awn-applet-manager.c:539-606 | an unrealized manager or an empty list is left unchanged; otherwise the new state is the old one reconciled: keys equal to the listed uids, all marked, old proxies kept, one fresh proxy per missing uid, the rest destroyed once, one warning per malformed entry, list order in the box when there are no repeats, and an ordered box left alone |
| Manager.AppletManager.WalkList | src/awn-applet-manager.c:561-602 | after the walk every entry of the list has been processed: each listed uid is registered and marked, entries not listed keep mark 0, its proxy is the one it had or a fresh one from its first entry, each malformed entry is warned about once, and without repeated uids the box holds the applets and throbbers in list order |
| Manager.AppletManager.WalkEntry | src/awn-applet-manager.c:563-601 | a malformed entry only adds its warning and keeps the slot counter; a well-formed entry's proxy is looked up or created, moved with its throbber to i and i+1 (also when its uid was listed before) and marked, and the counter advances by 2 |
| Manager.AppletManager.EnsureApplet | src/awn-applet-manager.c:579-590 | after the lookup the uid is registered: an existing proxy is left as it was, and a missing one is created by create_applet; the invariant is kept |
| Manager.AppletManager.PlaceEntry | src/awn-applet-manager.c:578-599 | the uid's proxy is looked up or created, its widget and throbber are moved to i and i+1, and it is marked 1; the invariant is kept |
| Manager.AppletManager.SetAppletList | src/awn-applet-manager.c:192-195 | the list is replaced and the state is the replaced one reconciled |
| Manager.AppletManager.Broadcast | src/awn-applet-manager.c:343-400 | every proxy gets the setting and nothing else changes in it; the table's keys stay; one push per proxy is logged, carrying the current axis |
| Manager.ApplyEach | src/awn-applet-manager.c:363-364 | the g_hash_table_foreach walk applies the setting to every entry and logs one push for each |
| Manager.AppletManager.SetSize | src/awn-applet-manager.c:354-365 | the size is stored, every proxy then carries it, and the keys and the box are unchanged |
| Manager.AppletManager.SetOffset | src/awn-applet-manager.c:378-389 | the offset is stored, every proxy then carries it, and the keys and the box are unchanged |
| Manager.AppletManager.SetOrient | src/awn-applet-manager.c:405-446 | the orientation is stored and the axis is set from it before the fan-out, so every push carries the new axis; every proxy then carries the orientation |
| Manager.AppletManager.AddApplet | src/awn-applet-manager.c:610-631 | the D-Bus stub reports success |

## Left out

- Proxy internals are not part of this model. These are
  `awn_applet_proxy_new`, `_execute` and `_get_throbber`, and the
  `plug-added` signal with its `applet-embedded` relay. A proxy is a value
  with a fresh id. Its throbber is the child `ThrobberSlot(id)`.
- `gtk_widget_destroy` on an applet takes only the applet's own child out
  of the box. Whether the proxy's dispose also removes its throbber lives
  in code outside this model, so a swept throbber stays in the box.
- GTK is modelled by what it does to the order of the box's children:
  - `gtk_box_pack_start` appends;
  - `gtk_box_reorder_child` takes the child out and inserts it before
    index `pos` of the shortened box, appends it when `pos` is past the
    end, and does nothing when the child is already at `pos`.
- Realization is a toolkit event, modelled as the `Realize` method.
- `G_IS_OBJECT`/`AWN_IS_APPLET_PROXY` checks on table entries are left out.
  Every entry is a live proxy. The `!applet` branch after `create_applet`
  cannot be taken, because creation always yields a proxy.
- The class reference taken in `set_orient` (`priv->klass`) is left out.
  So are the config-client binding, the D-Bus registration, `free_list`
  and string ownership, the GObject boilerplate, and the commented-out
  protocol text after `awn_ua_add_applet`.
- Hash-table iteration order is not specified by GLib. The table walks
  pick any remaining key, so every order is covered.
- Orientation codes are taken in the order TOP, RIGHT, BOTTOM, LEFT (0 to
  3). `awn-defines.h` is not part of this model.
- SetOrient: an orientation outside 0 to 3 is excluded by a precondition.
  That is the `g_assert_not_reached` branch.
- The "offset" and "size" ranges are enforced by GObject before
  `set_property`. The setters accept any integer.
- Integers are unbounded. The `gint` slot counter `i` cannot overflow with
  any realistic list.
- RefreshApplets: for a list that repeats a uid, the contract does not
  give the final order of the box. It does give the table, the marks,
  the logs and the box's set of children. Each occurrence still advances
  `i` by 2 and moves the applet again, to the later slot. `WalkEntry`'s
  contract states this move entry by entry. `RepeatedUidPlacedLast`
  composes it for `["a::1", "b::2", "a::1"]`.
- WalkList: its contract (`Forwarded`) gives the box order only for a
  list without repeated uids. For a list with repeats, the order follows
  from `WalkEntry`'s contract for each entry in turn. No closed form for
  the whole list is stated.
- AddApplet: the `g_print` call is output and is not modelled.
- `SweepTable` (the foreach_remove walk) and `ApplyEach` (the property
  fan-out) work on copies of the table, marks, box and log. Their results
  are assigned to the fields when the walk ends. GLib does not allow the
  table to be changed from inside the callback, and nothing else reads the
  fields during the walk. `ZeroApplets` writes each mark in place.
