/**
 * The manager's box as an ordered sequence of children. The toolkit calls the
 * manager makes are modelled by what they do to that order:
 *   gtk_box_pack_start     appends a child;
 *   gtk_box_reorder_child  takes the child out and inserts it before index
 *                          `pos` of the shortened sequence, or appends it when
 *                          `pos` is past its end; a child already at `pos`
 *                          stays where it is;
 *   gtk_widget_destroy     takes the destroyed child out of the box.
 */
module Box {
  import opened Util

  /** A child of the box: an applet proxy's widget or the throbber that proxy owns. */
  datatype Slot = AppletSlot(id: nat) | ThrobberSlot(id: nat)

  /** The position of the first occurrence of x. */
  function IndexOf<T(==)>(c: seq<T>, x: T): (j: nat)
    requires x in c
    ensures j < |c| && c[j] == x && forall k :: 0 <= k < j ==> c[k] != x
  {
    if c[0] == x then 0 else 1 + IndexOf(c[1..], x)
  }

  /** The box with child x taken out; a box without x is left as it is. */
  function Without<T(==)>(c: seq<T>, x: T): seq<T>
  {
    if c == [] then []
    else if c[0] == x then c[1..]
    else [c[0]] + Without(c[1..], x)
  }

  /** gtk_box_reorder_child(box, x, pos); a child that is not in the box is ignored. */
  function Reordered<T(==)>(c: seq<T>, x: T, pos: nat): seq<T>
  {
    if x !in c || IndexOf(c, x) == pos then c
    else
      var rest := Without(c, x);
      if pos < |rest| then rest[..pos] + [x] + rest[pos..] else rest + [x]
  }

  /** The box after every child in `gone` has been destroyed, the others in their order. */
  function Removing<T(==)>(c: seq<T>, gone: set<T>): seq<T>
  {
    if c == [] then []
    else (if c[0] in gone then [] else [c[0]]) + Removing(c[1..], gone)
  }

  /** Packing two new, different children at the end keeps the box free of repeats. */
  lemma PackedDistinct<T>(c: seq<T>, x: T, y: T)
    requires Distinct(c) && x !in c && y !in c && x != y
    ensures Distinct(c + [x, y])
  {
    var r := c + [x, y];
    forall j, k | 0 <= j < k < |r| ensures r[j] != r[k] {
      if k >= |c| && j < |c| {
        assert r[j] == c[j] && c[j] in c;
      }
    }
  }

  /** Taking x out removes exactly its first occurrence and keeps the rest in order. */
  lemma {:induction false} WithoutAt<T>(c: seq<T>, x: T)
    requires x in c
    ensures Without(c, x) == c[..IndexOf(c, x)] + c[IndexOf(c, x) + 1..]
  {
    if c[0] != x {
      WithoutAt(c[1..], x);
      assert c[1..][..IndexOf(c[1..], x)] == c[1..IndexOf(c, x)];
      assert c[1..][IndexOf(c[1..], x) + 1..] == c[IndexOf(c, x) + 1..];
      assert c[..IndexOf(c, x)] == [c[0]] + c[1..IndexOf(c, x)];
    }
  }

  /** Removing a child from a duplicate-free box loses exactly that child. */
  lemma {:induction false} WithoutElems<T>(c: seq<T>, x: T)
    requires Distinct(c)
    ensures Distinct(Without(c, x))
    ensures forall y :: y in Without(c, x) <==> y in c && y != x
    ensures |Without(c, x)| == if x in c then |c| - 1 else |c|
  {
    if c != [] {
      assert Distinct(c[1..]);
      WithoutElems(c[1..], x);
      assert c == [c[0]] + c[1..];
      if c[0] == x {
        assert x !in c[1..];
      } else {
        var w := Without(c[1..], x);
        assert c[0] !in c[1..];
        assert c[0] !in w;
      }
    }
  }

  /**
   * Reordering a child of a duplicate-free box moves only that child: the box
   * keeps its children, x ends at `pos` (or last, when `pos` is past the end),
   * and the other children keep their relative order.
   */
  lemma ReorderedSpec<T>(c: seq<T>, x: T, pos: nat)
    requires Distinct(c) && x in c
    ensures var r := Reordered(c, x, pos);
      && |r| == |c| && Distinct(r) && (forall y :: y in r <==> y in c)
      && r[if pos < |c| then pos else |c| - 1] == x
      && Without(r, x) == Without(c, x)
  {
    var j := IndexOf(c, x);
    WithoutElems(c, x);
    if j != pos {
      var rest := Without(c, x);
      var p := if pos < |rest| then pos else |rest|;
      assert Reordered(c, x, pos) == rest[..p] + [x] + rest[p..] by {
        if pos >= |rest| {
          assert rest[..p] == rest && rest[p..] == [];
        }
      }
      InsertedAt(rest, x, p);
    } else {
      WithoutAt(c, x);
    }
  }

  /** Reordering two children of a duplicate-free box, one after the other, keeps its children and no repeats. */
  lemma ReorderedTwice<T>(c: seq<T>, x: T, y: T, i: nat, j: nat)
    requires Distinct(c) && x in c && y in c
    ensures var r := Reordered(Reordered(c, x, i), y, j);
      Distinct(r) && forall z :: z in r <==> z in c
  {
    ReorderedSpec(c, x, i);
    ReorderedSpec(Reordered(c, x, i), y, j);
  }

  /** Inserting a new child x before index p of a duplicate-free box. */
  lemma InsertedAt<T>(rest: seq<T>, x: T, p: nat)
    requires Distinct(rest) && x !in rest && p <= |rest|
    ensures var r := rest[..p] + [x] + rest[p..];
      && Distinct(r) && (forall y :: y in r <==> y in rest || y == x)
      && r[p] == x && Without(r, x) == rest
  {
    var r := rest[..p] + [x] + rest[p..];
    assert rest == rest[..p] + rest[p..];
    assert IndexOf(r, x) == p by {
      forall k | 0 <= k < p ensures r[k] != x {
        assert r[k] == rest[k];
      }
    }
    WithoutAt(r, x);
    assert r[..p] == rest[..p];
    assert r[p + 1..] == rest[p..];
    forall a, b | 0 <= a < b < |r| ensures r[a] != r[b] {
      if b < p {
        assert r[a] == rest[a] && r[b] == rest[b];
      } else if a > p {
        assert r[a] == rest[a - 1] && r[b] == rest[b - 1];
      } else if a < p && b > p {
        assert r[a] == rest[a] && r[b] == rest[b - 1];
      } else if a == p {
        assert r[b] == rest[b - 1];
      } else {
        assert r[a] == rest[a];
      }
    }
  }

  /** Reordering x to `pos` leaves the children before `pos` alone when x stood at or after `pos`. */
  lemma ReorderedKeepsPrefix<T>(c: seq<T>, x: T, pos: nat)
    requires x in c && pos <= IndexOf(c, x)
    ensures pos <= |Reordered(c, x, pos)| && Reordered(c, x, pos)[..pos] == c[..pos]
  {
    var j := IndexOf(c, x);
    if j != pos {
      WithoutAt(c, x);
      var rest := Without(c, x);
      assert rest[..pos] == c[..pos];
    }
  }

  /** Destroying the children in `gone` leaves exactly the others, still without duplicates. */
  lemma {:induction false} RemovingElems<T>(c: seq<T>, gone: set<T>)
    requires Distinct(c)
    ensures Distinct(Removing(c, gone))
    ensures forall y :: y in Removing(c, gone) <==> y in c && y !in gone
  {
    if c != [] {
      assert Distinct(c[1..]);
      RemovingElems(c[1..], gone);
      assert c == [c[0]] + c[1..];
      assert c[0] !in c[1..];
    }
  }

  /** A prefix none of whose children is destroyed survives in place. */
  lemma {:induction false} RemovingKeepsPrefix<T>(c: seq<T>, gone: set<T>, m: nat)
    requires m <= |c|
    requires forall k :: 0 <= k < m ==> c[k] !in gone
    ensures m <= |Removing(c, gone)| && Removing(c, gone)[..m] == c[..m]
  {
    if m > 0 {
      RemovingKeepsPrefix(c[1..], gone, m - 1);
      assert c[..m] == [c[0]] + c[1..][..m - 1];
    }
  }

  /** Children not in the box do not affect what destroying a set of children leaves. */
  lemma {:induction false} RemovingAbsent<T>(c: seq<T>, gone: set<T>, x: T)
    requires x !in c
    ensures Removing(c, gone + {x}) == Removing(c, gone)
  {
    if c != [] {
      RemovingAbsent(c[1..], gone, x);
    }
  }

  /** Destroying the children one at a time, in any order, gives the same box as destroying them together. */
  lemma {:induction false} RemovingStep<T>(c: seq<T>, gone: set<T>, x: T)
    requires Distinct(c) && x !in gone
    ensures Without(Removing(c, gone), x) == Removing(c, gone + {x})
  {
    if c != [] {
      assert Distinct(c[1..]);
      if c[0] == x {
        assert x !in c[1..];
        RemovingAbsent(c[1..], gone, x);
      } else {
        RemovingStep(c[1..], gone, x);
        var tail := Removing(c[1..], gone);
        assert (c[0] in gone + {x}) == (c[0] in gone);
        if c[0] !in gone {
          assert Removing(c, gone) == [c[0]] + tail;
          assert ([c[0]] + tail)[1..] == tail;
          assert Without([c[0]] + tail, x) == [c[0]] + Without(tail, x);
          assert Removing(c, gone + {x}) == [c[0]] + Removing(c[1..], gone + {x});
        } else {
          assert Removing(c, gone) == tail;
          assert Removing(c, gone + {x}) == Removing(c[1..], gone + {x});
        }
      }
    }
  }

  /**
   * The two reorders of one applet: with x and y not among the first i
   * children, x goes to slot i and y to slot i+1, the first i children stay,
   * and the box keeps its children.
   */
  lemma PlacedPair<T>(c: seq<T>, x: T, y: T, i: nat)
    requires Distinct(c) && x in c && y in c && x != y
    requires i <= |c| && x !in c[..i] && y !in c[..i]
    ensures var r := Reordered(Reordered(c, x, i), y, i + 1);
      && Distinct(r) && |r| == |c| && (forall z :: z in r <==> z in c)
      && i + 1 < |r| && r[..i] == c[..i] && r[i] == x && r[i + 1] == y
  {
    assert forall k :: 0 <= k < i ==> c[..i][k] == c[k];
    ReorderedKeepsPrefix(c, x, i);
    ReorderedSpec(c, x, i);
    var c1 := Reordered(c, x, i);
    assert c1[..i + 1] == c[..i] + [x];
    assert y in c1;
    assert forall k :: 0 <= k < i + 1 ==> c1[..i + 1][k] == c1[k];
    ReorderedKeepsPrefix(c1, y, i + 1);
    ReorderedSpec(c1, y, i + 1);
    var r := Reordered(c1, y, i + 1);
    assert r[..i] == r[..i + 1][..i];
  }

  /** Both reorders leave a box alone that already has x at slot i and y at slot i+1. */
  lemma PlacedPairInPlace<T>(c: seq<T>, x: T, y: T, i: nat)
    requires Distinct(c) && i + 1 < |c| && c[i] == x && c[i + 1] == y
    ensures Reordered(Reordered(c, x, i), y, i + 1) == c
  {
    assert IndexOf(c, x) == i;
    assert IndexOf(c, y) == i + 1;
  }

  /** Reordering the first child to a position past the others moves it to the end. */
  lemma ReorderedFrontToEnd<T>(x: T, rest: seq<T>, pos: nat)
    requires x !in rest && |rest| <= pos && 0 < pos
    ensures Reordered([x] + rest, x, pos) == rest + [x]
  {
    var c := [x] + rest;
    assert c[0] == x && IndexOf(c, x) == 0;
    assert c[1..] == rest && Without(c, x) == rest;
  }

  /** Destroying no child changes nothing. */
  lemma {:induction false} RemovingNothing<T>(c: seq<T>)
    ensures Removing(c, {}) == c
  {
    if c != [] {
      RemovingNothing(c[1..]);
      assert c == [c[0]] + c[1..];
    }
  }
}
