/**
 * The configured applet list: an ordered sequence of "path::uid" strings.
 * An entry is split at its FIRST "::" (g_strsplit with at most two tokens);
 * an entry without "::" does not give two tokens and is a malformed entry.
 */
module AppletKey {
  import opened Util

  /** One parsed list entry: the applet's desktop-file path and its unique id. */
  datatype Descriptor = Descriptor(path: string, uid: string)

  const SEPARATOR: string := "::"

  /** The separator "::" starts at index k of s. */
  predicate SeparatorAt(s: string, k: int) {
    0 <= k && k + 2 <= |s| && s[k] == ':' && s[k + 1] == ':'
  }

  /** The index of the first separator at or after `from`, if there is one. */
  function FindSeparator(s: string, from: nat): (r: Option<nat>)
    decreases |s| - from
    ensures r.Some? ==> from <= r.value && SeparatorAt(s, r.value)
    ensures r.Some? ==> forall j :: from <= j < r.value ==> !SeparatorAt(s, j)
    ensures r.None? ==> forall j :: from <= j ==> !SeparatorAt(s, j)
  {
    if |s| < from + 2 then None
    else if SeparatorAt(s, from) then Some(from)
    else FindSeparator(s, from + 1)
  }

  /**
   * Splits an entry at its first "::" into (path, uid). The uid keeps any
   * later "::", so "a::b::c" has uid "b::c". None stands for the entries
   * g_strsplit does not cut into exactly two tokens.
   */
  function Split(entry: string): (r: Option<Descriptor>)
    ensures r.Some? <==> exists k :: SeparatorAt(entry, k)
    ensures r.Some? ==> entry == r.value.path + SEPARATOR + r.value.uid
    ensures r.Some? ==> forall j :: 0 <= j < |r.value.path| ==> !SeparatorAt(entry, j)
  {
    match FindSeparator(entry, 0)
    case None => None
    case Some(k) => Some(Descriptor(entry[..k], entry[k + 2..]))
  }

  /** The entry a descriptor is written as in the configured list. */
  function Join(d: Descriptor): string {
    d.path + SEPARATOR + d.uid
  }

  /**
   * A path that Join can write unambiguously: it holds no "::" and does not
   * end with ':' (which would make the separator start one place earlier).
   */
  predicate PathOk(path: string) {
    (forall j :: 0 <= j < |path| ==> !SeparatorAt(path, j)) && (path == [] || path[|path| - 1] != ':')
  }

  /** A separator inside a path is still one after anything is appended to it. */
  lemma SeparatorInPrefix(path: string, rest: string, j: int)
    requires SeparatorAt(path, j)
    ensures SeparatorAt(path + rest, j)
  {
  }

  /** Splitting a joined descriptor gives it back exactly when its path is well-formed. */
  lemma SplitJoin(d: Descriptor)
    ensures Split(Join(d)) == Some(d) <==> PathOk(d.path)
  {
    var s := Join(d);
    var n := |d.path|;
    assert SeparatorAt(s, n);
    if PathOk(d.path) {
      forall j | 0 <= j < n
        ensures !SeparatorAt(s, j)
      {
        if j < n - 1 {
          assert !SeparatorAt(d.path, j);
        }
      }
      var r := FindSeparator(s, 0);
      assert r.Some? && r.value == n;
      assert s[..n] == d.path;
      assert s[n + 2..] == d.uid;
    } else {
      var k: int;
      if exists j :: 0 <= j < n && SeparatorAt(d.path, j) {
        k :| 0 <= k < n && SeparatorAt(d.path, k);
        SeparatorInPrefix(d.path, SEPARATOR + d.uid, k);
      } else {
        k := n - 1;
        assert SeparatorAt(s, k);
      }
      assert 0 <= k < n && SeparatorAt(s, k);
      assert |Split(s).value.path| <= k;
    }
  }

  /** A repeated separator stays inside the uid. */
  lemma SplitKeepsLaterSeparators()
    ensures Split("a::b::c") == Some(Descriptor("a", "b::c"))
  {
    var s := "a::b::c";
    assert !SeparatorAt(s, 0);
    assert FindSeparator(s, 1) == Some(1);
    assert s[..1] == "a" && s[3..] == "b::c";
  }

  /** An entry without a separator is malformed. */
  lemma SplitRejectsBadToken()
    ensures Split("badtoken") == None
  {
    var s := "badtoken";
    forall k | 0 <= k ensures !SeparatorAt(s, k) {
    }
  }

  /** The descriptor an entry contributes: one if it splits, none otherwise. */
  function Parsed(entry: string): seq<Descriptor> {
    match Split(entry)
    case None => []
    case Some(d) => [d]
  }

  /** The well-formed entries of a list, parsed, in list order. */
  function Descriptors(list: seq<string>): seq<Descriptor>
  {
    if list == [] then [] else Descriptors(Init(list)) + Parsed(Last(list))
  }

  /** The malformed entries of a list, in list order: one warning each. */
  function Malformed(list: seq<string>): seq<string>
  {
    if list == [] then []
    else Malformed(Init(list)) + (if Split(Last(list)).None? then [Last(list)] else [])
  }

  /** The uids the descriptors name. */
  function Uids(ds: seq<Descriptor>): set<string> {
    set d | d in ds :: d.uid
  }

  /** No uid is listed twice. */
  predicate UidsDistinct(ds: seq<Descriptor>) {
    forall j, k :: 0 <= j < k < |ds| ==> ds[j].uid != ds[k].uid
  }

  /** The path of the first descriptor naming uid u: the one an applet is created from. */
  function FirstPath(ds: seq<Descriptor>, u: string): string
    requires u in Uids(ds)
  {
    assert ds != [];
    assert ds == Init(ds) + [Last(ds)];
    if u in Uids(Init(ds)) then FirstPath(Init(ds), u) else Last(ds).path
  }

  /** Every entry contributes either a descriptor or a warning, never both. */
  lemma {:induction false} EntriesAccounted(list: seq<string>)
    ensures |Descriptors(list)| + |Malformed(list)| == |list|
  {
    if list != [] {
      EntriesAccounted(Init(list));
    }
  }

  /** The descriptors are exactly the successful splits of list entries. */
  lemma {:induction false} DescriptorsAreSplits(list: seq<string>, d: Descriptor)
    ensures d in Descriptors(list) <==> exists e :: e in list && Split(e) == Some(d)
  {
    if list != [] {
      DescriptorsAreSplits(Init(list), d);
      assert list == Init(list) + [Last(list)];
      if exists e :: e in list && Split(e) == Some(d) {
        var e :| e in list && Split(e) == Some(d);
        if e != Last(list) {
          assert e in Init(list);
        }
      }
    }
  }

  /** FirstPath is the path of the earliest descriptor naming u. */
  lemma {:induction false} FirstPathIsEarliest(ds: seq<Descriptor>, u: string)
    requires u in Uids(ds)
    ensures exists k :: 0 <= k < |ds| && ds[k].uid == u && ds[k].path == FirstPath(ds, u)
                        && forall j :: 0 <= j < k ==> ds[j].uid != u
  {
    var init := Init(ds);
    assert ds == init + [Last(ds)];
    if u in Uids(init) {
      FirstPathIsEarliest(init, u);
      var k :| 0 <= k < |init| && init[k].uid == u && init[k].path == FirstPath(init, u)
               && forall j :: 0 <= j < k ==> init[j].uid != u;
      assert ds[k] == init[k];
    } else {
      var k := |ds| - 1;
      assert ds[k] == Last(ds);
      forall j | 0 <= j < k ensures ds[j].uid != u {
        assert ds[j] == init[j];
        assert init[j] in init;
      }
      assert Last(ds).uid == u by {
        var d :| d in ds && d.uid == u;
        assert d in init || d == Last(ds);
      }
    }
  }

  /** Parsing a longer list only adds descriptors after those of a shorter prefix. */
  lemma {:induction false} DescriptorsPrefix(list: seq<string>, a: nat)
    requires a <= |list|
    ensures Descriptors(list[..a]) <= Descriptors(list)
  {
    if a < |list| {
      DescriptorsPrefix(Init(list), a);
      assert Init(list)[..a] == list[..a];
    } else {
      assert list[..a] == list;
    }
  }

  /** One more entry of a list adds its descriptor, or its warning. */
  lemma DescriptorsStep(list: seq<string>, a: nat)
    requires a < |list|
    ensures Descriptors(list[..a + 1]) == Descriptors(list[..a]) + Parsed(list[a])
    ensures Malformed(list[..a + 1]) == Malformed(list[..a]) + (if Split(list[a]).None? then [list[a]] else [])
  {
    assert Init(list[..a + 1]) == list[..a];
  }

  /** Appending an entry to a list appends its descriptor, or its warning. */
  lemma DescriptorsSnoc(list: seq<string>, e: string)
    ensures Descriptors(list + [e]) == Descriptors(list) + Parsed(e)
    ensures Malformed(list + [e]) == Malformed(list) + (if Split(e).None? then [e] else [])
  {
    assert Init(list + [e]) == list;
  }

  /** An entry written from a descriptor with a well-formed path parses back to it. */
  lemma ParsedJoin(d: Descriptor)
    requires PathOk(d.path)
    ensures Parsed(Join(d)) == [d]
  {
    SplitJoin(d);
  }

  /** One more descriptor adds its uid. */
  lemma UidsSnoc(ds: seq<Descriptor>, d: Descriptor)
    ensures Uids(ds + [d]) == Uids(ds) + {d.uid}
  {
    assert d in ds + [d];
    forall e | e in ds ensures e in ds + [d] {
    }
  }

  /** The uids of one, two or three descriptors. */
  lemma UidsOfOne(d: Descriptor)
    ensures Uids([d]) == {d.uid}
  {
    assert d in [d];
  }

  lemma UidsOfTwo(d1: Descriptor, d2: Descriptor)
    ensures Uids([d1, d2]) == {d1.uid, d2.uid}
  {
    assert d1 in [d1, d2] && d2 in [d1, d2];
  }

  lemma UidsOfThree(d1: Descriptor, d2: Descriptor, d3: Descriptor)
    ensures Uids([d1, d2, d3]) == {d1.uid, d2.uid, d3.uid}
  {
    assert d1 in [d1, d2, d3] && d2 in [d1, d2, d3] && d3 in [d1, d2, d3];
  }
}
