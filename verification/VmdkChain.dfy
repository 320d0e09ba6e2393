/**
 When a chain of images opens, in terms of the images it consists of.
 */
module VmdkChain {
  import opened Basics
  import opened VmdkImage
  import opened VmdkReader
  import B = VmdkBytes

  // All its extents can be opened, and it has the size of the first image, which a 64-bit byte count can hold.
  ghost predicate Fine(img: ImageDesc, size: nat) {
    && (forall j :: 0 <= j < |img.extents| ==> !img.extents[j].backing.Unreadable?)
    && Sectors(img.extents) == size && size * 512 <= 18446744073709551615
  }

  // The first n images are fine, and after them nothing more is needed: they have data for every sector, or the last of
  // them has no parent.
  ghost predicate Suffices(imgs: seq<ImageDesc>, ps: seq<Placed>, n: nat, size: nat) {
    && 1 <= n <= |imgs| && (forall i :: 0 <= i < n ==> Fine(imgs[i], size))
    && (|| (size > 0 && HasAllData(ps + Overlay(imgs[..n]), size))
        || (n == |imgs| && imgs[n - 1].parent.None?))
  }

  ghost predicate HasAllData(ps: seq<Placed>, size: nat) {
    forall s: nat :: s < size ==> HasSector(ps, s)
  }

  ghost predicate HasSector(ps: seq<Placed>, s: nat) {
    exists i :: 0 <= i < |ps| && B.HasData(ps[i], 512 * s)
  }

  lemma OwnedMeans(ps: seq<Placed>, size: nat)
    ensures Owned(ps, size) <==> HasAllData(ps, size)
  {
    forall s: nat | s < size ensures FirstProvider(ps, s).Some? <==> HasSector(ps, s) {
      forall i | 0 <= i < |ps| ensures B.HasData(ps[i], 512 * s) <==> Provides(ps[i], s) {
        B.ProvidesData(ps[i], 512 * s);
      }
    }
  }

  lemma SufficesOn(img: ImageDesc, rest: seq<ImageDesc>, ps: seq<Placed>, n: nat, size: nat)
    requires n > 0 && Fine(img, size)
    ensures Suffices([img] + rest, ps, n + 1, size) <==> Suffices(rest, ps + Place(img.extents, 0), n, size)
  {
    var imgs := [img] + rest;
    assert forall i :: 0 <= i < |rest| ==> imgs[i + 1] == rest[i];
    if n <= |rest| {
      assert imgs[..n + 1] == [img] + rest[..n];
      assert ([img] + rest[..n])[1..] == rest[..n];
      Assoc(ps, Place(img.extents, 0), Overlay(rest[..n]));
      if forall i :: 0 <= i < n + 1 ==> Fine(imgs[i], size) {
        forall i | 0 <= i < n ensures Fine(rest[i], size) {
          assert Fine(imgs[i + 1], size);
        }
      }
    }
  }

  lemma SufficesAlone(img: ImageDesc, rest: seq<ImageDesc>, ps: seq<Placed>, size: nat)
    ensures Suffices([img] + rest, ps, 1, size) <==>
            && Fine(img, size)
            && (|| (size > 0 && HasAllData(ps + Place(img.extents, 0), size))
                || (rest == [] && img.parent.None?))
  {
    var imgs := [img] + rest;
    assert imgs[..1] == [img] && [img][1..] == [];
    assert Overlay([img]) == Place(img.extents, 0) + Overlay([]);
    assert Place(img.extents, 0) + [] == Place(img.extents, 0);
  }

  // Some number of images suffices.
  ghost predicate SomeSuffice(imgs: seq<ImageDesc>, ps: seq<Placed>, size: nat) {
    exists n: nat :: Suffices(imgs, ps, n, size)
  }

  lemma SomeSufficeStep(img: ImageDesc, rest: seq<ImageDesc>, ps: seq<Placed>, size: nat)
    ensures SomeSuffice([img] + rest, ps, size) <==>
            Suffices([img] + rest, ps, 1, size)
            || (Fine(img, size) && SomeSuffice(rest, ps + Place(img.extents, 0), size))
  {
    var imgs, ps' := [img] + rest, ps + Place(img.extents, 0);
    if SomeSuffice(imgs, ps, size) {
      var n: nat :| Suffices(imgs, ps, n, size);
      assert Fine(imgs[0], size) && imgs[0] == img;
      if n > 1 {
        SufficesOn(img, rest, ps, n - 1, size);
      }
    }
    if Fine(img, size) && SomeSuffice(rest, ps', size) {
      var n: nat :| Suffices(rest, ps', n, size);
      SufficesOn(img, rest, ps, n, size);
    }
  }

  /**
   The loop over the chain gets through exactly if some front part of it is fine and either has data for every sector or
   is the whole chain, down to an image without parent. Images after that part need not even be there.
   */
  lemma {:induction false} OpensExactly(world: map<Url, ImageDesc>, url: Url, visited: set<Url>, size: nat,
                                        ps: seq<Placed>)
    ensures Opens(world, url, visited, size, ps, false) <==> SomeSuffice(Chain(world, url, visited), ps, size)
    decreases world.Keys - visited
  {
    if url in world && url !in visited {
      var img := world[url];
      var ps' := ps + Place(img.extents, 0);
      var rest := match img.parent
                  case None => []
                  case Some(parent) => Chain(world, parent, visited + {url});
      assert Chain(world, url, visited) == [img] + rest;
      assert Usable(world, url, visited, size) <==> Fine(img, size);
      OwnedMeans(ps', size);
      SufficesAlone(img, rest, ps, size);
      SomeSufficeStep(img, rest, ps, size);
      if img.parent.Some? {
        OpensExactly(world, img.parent.value, visited + {url}, size, ps');
      }
    }
  }
}
