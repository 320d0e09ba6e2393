/**
 An extent of no sectors can keep `open` from seeing that every sector is
 covered. Its empty span splits an uncovered span in two, and a later removal
 walks past the second half (vmdk/src/spans.rs); `open` then goes on to a parent
 that it does not need, and fails if that parent is not there.
 */
module VmdkHidden {
  import opened Basics
  import opened Spans
  import opened VmdkImage
  import opened VmdkOpen
  import opened VmdkReader

  function NoFileBytes(): File {
    File([], s => None)
  }

  // A sparse extent with no grains: all of it belongs to the parent.
  function Hole(n: nat): ExtentDesc {
    ExtentDesc(n, SparseFile(NoFileBytes(), map[], 1, false, false))
  }

  function FlatExtent(n: nat): ExtentDesc {
    ExtentDesc(n, FlatFile(NoFileBytes(), 0))
  }

  function ChildExtents(a: nat, b: nat, empty: bool): seq<ExtentDesc> {
    if empty then [Hole(a), FlatExtent(0), Hole(b)] else [Hole(a), Hole(b)]
  }

  // A child without data of its own, a parent that covers all of it, and a grandparent that is missing.
  function World(a: nat, b: nat, empty: bool): map<Url, ImageDesc> {
    map["child" := ImageDesc(NoFileBytes(), ChildExtents(a, b, empty), Some("parent")),
        "parent" := ImageDesc(NoFileBytes(), [FlatExtent(a + b)], Some("gone"))]
  }

  ghost function Extents(a: nat, b: nat, empty: bool): seq<Placed> {
    (if empty then [Placed(0, Hole(a)), Placed(a, FlatExtent(0)), Placed(a, Hole(b))]
     else [Placed(0, Hole(a)), Placed(a, Hole(b))]) + [Placed(0, FlatExtent(a + b))]
  }

  lemma ChildPlaced(a: nat, b: nat, empty: bool)
    ensures Place(ChildExtents(a, b, empty), 0) + [Placed(0, FlatExtent(a + b))] == Extents(a, b, empty)
    ensures Sectors(ChildExtents(a, b, empty)) == a + b
  {
    var eds := ChildExtents(a, b, empty);
    assert Place(eds[1..][1..], a) == if empty then [Placed(a, Hole(b))] else [];
    assert Sectors(eds[1..][1..]) == if empty then b else 0;
    assert Sectors(eds[1..]) == b;
  }

  lemma ParentPlaced(n: nat)
    ensures Place([FlatExtent(n)], 0) == [Placed(0, FlatExtent(n))] && Sectors([FlatExtent(n)]) == n
  {
  }

  lemma ChainOfWorld(a: nat, b: nat, empty: bool)
    ensures Overlay(Chain(World(a, b, empty), "child", {})) == Extents(a, b, empty)
    ensures !Sound(World(a, b, empty), "child", {}, a + b)
  {
    var world := World(a, b, empty);
    ChildPlaced(a, b, empty);
    ParentPlaced(a + b);
    assert Chain(world, "gone", {"child", "parent"}) == [];
    ChainStep(world, "parent", {"child"});
    ChainStep(world, "child", {});
    assert {} + {"child"} == {"child"} && {"child"} + {"parent"} == {"child", "parent"};
    assert !Sound(world, "gone", {"child", "parent"}, a + b);
    assert !Sound(world, "parent", {"child"}, a + b);
  }

  // The map before the last of the first n extents, and what that extent does to it.
  lemma OneBack(a: nat, b: nat, n: nat, uncovered: SpanMap<()>) returns (before: SpanMap<()>)
    requires 0 < n <= 4 && Cleared(WholeImage(a + b), Extents(a, b, true)[..n], uncovered)
    ensures Cleared(WholeImage(a + b), Extents(a, b, true)[..n - 1], before)
    ensures Clears(before, Extents(a, b, true)[n - 1], uncovered)
  {
    var ps := Extents(a, b, true)[..n];
    before :| Cleared(WholeImage(a + b), Front(ps), before) && Clears(before, Last(ps), uncovered);
    assert Front(ps) == Extents(a, b, true)[..n - 1] && Last(ps) == Extents(a, b, true)[n - 1];
  }

  // The first extent takes nothing, the empty one splits the image, the third takes nothing.
  lemma AfterChild(a: nat, b: nat, n: nat, uncovered: SpanMap<()>)
    requires a > 0 && b > 0 && n <= 3 && Cleared(WholeImage(a + b), Extents(a, b, true)[..n], uncovered)
    ensures if n <= 1 then uncovered == WholeImage(a + b) else Removal(WholeImage(a + b), a, a, uncovered)
  {
    if n > 0 {
      var before := OneBack(a, b, n, uncovered);
      AfterChild(a, b, n - 1, before);
    }
  }

  // So something is uncovered after any number of them.
  lemma StillUncovered(a: nat, b: nat, n: nat, uncovered: SpanMap<()>)
    requires a > 0 && b > 0 && n <= 4 && Cleared(WholeImage(a + b), Extents(a, b, true)[..n], uncovered)
    ensures uncovered != map[]
  {
    var whole := WholeImage(a + b);
    assert Holds(whole, 0, a);
    if n == 4 {
      var before := OneBack(a, b, n, uncovered);
      AfterChild(a, b, 3, before);
      EmptyRemovalHides(whole, 0, a, before, 0, a + b, uncovered);
    } else {
      AfterChild(a, b, n, uncovered);
      assert Straddled(whole, a);
    }
  }

  lemma FrontNeverClears(a: nat, b: nat)
    requires a > 0 && b > 0
    ensures !FrontClears(Extents(a, b, true), a + b)
  {
    forall n: nat | n <= 4 ensures !Cleared(WholeImage(a + b), Extents(a, b, true)[..n], map[]) {
      if Cleared(WholeImage(a + b), Extents(a, b, true)[..n], map[]) {
        StillUncovered(a, b, n, map[]);
      }
    }
  }

  // Every sector is provided by the child and the parent alone.
  lemma FrontOpens(a: nat, b: nat, empty: bool)
    requires a > 0 && b > 0 && (a + b) * SECTOR_SIZE <= U64_MAX
    ensures Opens(World(a, b, empty), "child", {}, a + b, [], false)
    ensures !empty ==> Opens(World(a, b, empty), "child", {}, a + b, [], true)
  {
    var world, ps := World(a, b, empty), Extents(a, b, empty);
    ChildPlaced(a, b, empty);
    ParentPlaced(a + b);
    NilLeft(Place(ChildExtents(a, b, empty), 0));
    assert {} + {"child"} == {"child"};
    assert Owned(ps, a + b) by {
      forall s: nat | s < a + b ensures FirstProvider(ps, s).Some? {
        assert Provides(ps[|ps| - 1], s);
      }
    }
    if !empty {
      SolidIsHarmless(ps, a + b);
    }
    assert Usable(world, "child", {}, a + b) && Usable(world, "parent", {"child"}, a + b);
    assert Opens(world, "parent", {"child"}, a + b, Place(ChildExtents(a, b, empty), 0), false);
    assert !empty ==> Opens(world, "parent", {"child"}, a + b, Place(ChildExtents(a, b, empty), 0), true);
  }

  method OpensWithoutIt(a: nat, b: nat) returns (r: Result<Reader, OpenError>)
    requires a > 0 && b > 0 && (a + b) * SECTOR_SIZE <= U64_MAX
    ensures Opens(World(a, b, false), "child", {}, a + b, [], false) && r.Ok?
  {
    r := Open(World(a, b, false), "child");
    ChildPlaced(a, b, false);
    FrontOpens(a, b, false);
  }

  /** With the empty extent the image is refused, though its first two images can be used and provide every sector. */
  method EmptyExtentHidesCoverage(a: nat, b: nat) returns (r: Result<Reader, OpenError>)
    requires a > 0 && b > 0 && (a + b) * SECTOR_SIZE <= U64_MAX
    ensures Opens(World(a, b, true), "child", {}, a + b, [], false) && r.Err?
  {
    r := Open(World(a, b, true), "child");
    ChildPlaced(a, b, true);
    FrontOpens(a, b, true);
    ChainOfWorld(a, b, true);
    FrontNeverClears(a, b);
  }
}
