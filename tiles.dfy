/**
 * Tile addressing (`getTileUrl`), the tile cache (`loadTile` and its failure
 * callback) and the per-frame tile requests of `drawTiles`.
 */
module Tiles {
  import opened Strings

  /** The OpenStreetMap mirrors `['a', 'b', 'c']`. */
  const Servers: seq<string> := ["a", "b", "c"]

  function Abs(n: int): nat
  {
    if n < 0 then -n else n
  }

  /** `Math.abs(x + y) % servers.length`: a valid index, whatever the signs of x and y. */
  function ServerIndex(x: int, y: int): (i: nat)
    ensures i < |Servers|
  {
    Abs(x + y) % |Servers|
  }

  /** The cache key `${z}/${x}/${y}` of a tile address. */
  function TileKey(x: int, y: int, z: int): string
  {
    IntToString(z) + "/" + IntToString(x) + "/" + IntToString(y)
  }

  /** The part of a tile URL before the address. */
  function Host(server: string): string
  {
    "https://" + server + ".tile.openstreetmap.org/"
  }

  /** `https://${server}.tile.openstreetmap.org/${z}/${x}/${y}.png`. */
  function TileUrl(x: int, y: int, z: int): (url: string)
    ensures |url| > 37
    ensures url[..8] == "https://" && [url[8]] == Servers[ServerIndex(x, y)]
    ensures url[|url| - 4..] == ".png"
  {
    var host := Host(Servers[ServerIndex(x, y)]);
    assert |host| == 33 && host[..8] == "https://" && host[8] == Servers[ServerIndex(x, y)][0];
    host + TileKey(x, y, z) + ".png"
  }

  /** Distinct tile addresses have distinct cache keys. */
  lemma TileKeyInjective(x: int, y: int, z: int, x': int, y': int, z': int)
    requires TileKey(x, y, z) == TileKey(x', y', z')
    ensures x == x' && y == y' && z == z'
  {
    var sx, sy, sz := IntToString(x), IntToString(y), IntToString(z);
    var sx', sy', sz' := IntToString(x'), IntToString(y'), IntToString(z');
    assert sz + "/" + (sx + "/" + sy) == sz' + "/" + (sx' + "/" + sy') by {
      assert TileKey(x, y, z) == sz + "/" + (sx + "/" + sy);
      assert TileKey(x', y', z') == sz' + "/" + (sx' + "/" + sy');
    }
    SplitAtSlash(sz, sx + "/" + sy, sz', sx' + "/" + sy');
    SplitAtSlash(sx, sy, sx', sy');
    IntToStringInjective(x, x');
    IntToStringInjective(y, y');
    IntToStringInjective(z, z');
  }

  /** Distinct tile addresses are fetched from distinct URLs. */
  lemma TileUrlInjective(x: int, y: int, z: int, x': int, y': int, z': int)
    requires TileUrl(x, y, z) == TileUrl(x', y', z')
    ensures x == x' && y == y' && z == z'
  {
    var h, h' := Host(Servers[ServerIndex(x, y)]), Host(Servers[ServerIndex(x', y')]);
    var k, k' := TileKey(x, y, z), TileKey(x', y', z');
    assert |h| == 33 && |h'| == 33;
    var u := h + k + ".png";
    assert u == TileUrl(x, y, z) == h' + k' + ".png";
    assert k == u[33..|u| - 4] == k';
    TileKeyInjective(x, y, z, x', y', z');
  }

  /** Horizontally or vertically adjacent tiles are fetched from different mirrors. */
  lemma NeighboursUseDifferentServers(x: int, y: int)
    ensures ServerIndex(x, y) != ServerIndex(x + 1, y)
    ensures ServerIndex(x, y) != ServerIndex(x, y + 1)
  {
  }

  // ---------------------------------------------------------------------------
  // The tile cache
  // ---------------------------------------------------------------------------

  /** A p5.Image as returned at once by `loadImage`; it is truthy even while loading. */
  class Image {
    const url: string

    constructor (url: string)
      ensures this.url == url
    {
      this.url := url;
    }
  }

  /** The test `if (tileCache[key])`: a missing key and a stored `null` are both falsy. */
  predicate Holds(tiles: map<string, Image?>, key: string)
  {
    key in tiles && tiles[key] != null
  }

  /** `url` is the URL of the address whose key is `key`. */
  ghost predicate LoadedFrom(key: string, url: string)
  {
    exists x, y, z :: key == TileKey(x, y, z) && url == TileUrl(x, y, z)
  }

  /** Every image in the dictionary is stored under the key of the address it was loaded from. */
  ghost predicate UrlsMatch(tiles: map<string, Image?>)
  {
    forall k :: Holds(tiles, k) ==> LoadedFrom(k, tiles[k].url)
  }

  /** The image under the key of an address was loaded from that address's URL. */
  lemma UrlsMatchAtAddress(tiles: map<string, Image?>, x: int, y: int, z: int)
    requires UrlsMatch(tiles) && Holds(tiles, TileKey(x, y, z))
    ensures tiles[TileKey(x, y, z)].url == TileUrl(x, y, z)
  {
    var x', y', z' :| TileKey(x, y, z) == TileKey(x', y', z') && tiles[TileKey(x, y, z)].url == TileUrl(x', y', z');
    TileKeyInjective(x, y, z, x', y', z');
  }

  /** The `tileCache` dictionary. A failed load leaves `null` under its key. */
  class TileCache {
    var tiles: map<string, Image?>
    /** The URLs passed to `loadImage`, in the order the loads were issued. */
    ghost var issued: seq<string>

    ghost predicate Valid()
      reads this
    {
      UrlsMatch(tiles)
    }

    constructor ()
      ensures Valid() && tiles == map[] && issued == []
    {
      tiles := map[];
      issued := [];
    }

    /** `loadImage(url, ...)`: issues one load and returns its image at once. */
    method IssueLoad(url: string) returns (img: Image)
      modifies this`issued
      ensures fresh(img) && img.url == url
      ensures issued == old(issued) + [url]
    {
      img := new Image(url);
      issued := issued + [url];
    }

    /** `loadTile(x, y, z)`. */
    method LoadTile(x: int, y: int, z: int) returns (img: Image)
      requires Valid()
      modifies this
      ensures Valid()
      ensures Holds(tiles, TileKey(x, y, z)) && tiles[TileKey(x, y, z)] == img
      ensures img.url == TileUrl(x, y, z)
      ensures forall k :: old(Holds(tiles, k)) ==> Holds(tiles, k) && tiles[k] == old(tiles[k])
      ensures tiles.Keys == old(tiles.Keys) + {TileKey(x, y, z)}
      ensures forall k :: k in old(tiles) && k != TileKey(x, y, z) ==> tiles[k] == old(tiles[k])
      ensures old(Holds(tiles, TileKey(x, y, z))) ==>
        img == old(tiles[TileKey(x, y, z)]) && tiles == old(tiles) && issued == old(issued)
      ensures !old(Holds(tiles, TileKey(x, y, z))) ==>
        fresh(img) && img.url == TileUrl(x, y, z) &&
        tiles == old(tiles)[TileKey(x, y, z) := img] && issued == old(issued) + [TileUrl(x, y, z)]
    {
      var key := TileKey(x, y, z);
      if key in tiles && tiles[key] != null {
        UrlsMatchAtAddress(tiles, x, y, z);
        return tiles[key];
      }
      img := IssueLoad(TileUrl(x, y, z));
      tiles := tiles[key := img];
      assert LoadedFrom(key, img.url);
    }

    /** The failure callback of the load issued for `key`: `tileCache[key] = null`. */
    method LoadFailed(key: string)
      requires Valid() && key in tiles
      modifies this`tiles
      ensures Valid()
      ensures tiles == old(tiles)[key := null]
    {
      tiles := tiles[key := null];
    }
  }

  /** Two requests for one address in a row issue at most one load and return one image. */
  method RequestTwice(cache: TileCache, x: int, y: int, z: int) returns (first: Image, second: Image)
    requires cache.Valid()
    modifies cache
    ensures cache.Valid()
    ensures first == second
    ensures |cache.issued| == |old(cache.issued)| + (if old(Holds(cache.tiles, TileKey(x, y, z))) then 0 else 1)
  {
    first := cache.LoadTile(x, y, z);
    second := cache.LoadTile(x, y, z);
  }

  /** After the failure callback has run, the next request loads the tile again. */
  method RequestAfterFailure(cache: TileCache, x: int, y: int, z: int) returns (first: Image, second: Image)
    requires cache.Valid()
    modifies cache
    ensures cache.Valid()
    ensures fresh(second) && second != first && second.url == TileUrl(x, y, z)
    ensures |cache.issued| > 0 && cache.issued[|cache.issued| - 1] == TileUrl(x, y, z)
    ensures |cache.issued| == |old(cache.issued)| + (if old(Holds(cache.tiles, TileKey(x, y, z))) then 1 else 2)
  {
    first := cache.LoadTile(x, y, z);
    ghost var afterFirst := cache.issued;
    cache.LoadFailed(TileKey(x, y, z));
    assert cache.issued == afterFirst && !Holds(cache.tiles, TileKey(x, y, z));
    second := cache.LoadTile(x, y, z);
  }

  /** The address (x, y) lies in the rectangle [x0, x1] x [y0, y1]. */
  predicate InRect(x: int, y: int, x0: int, x1: int, y0: int, y1: int)
  {
    x0 <= x <= x1 && y0 <= y <= y1
  }

  /** `key` is the cache key of an address in the rectangle at zoom `z`. */
  ghost predicate KeyInRect(key: string, z: int, x0: int, x1: int, y0: int, y1: int)
  {
    exists x, y :: InRect(x, y, x0, x1, y0, y1) && key == TileKey(x, y, z)
  }

  /**
   * `after` keeps every entry of `before` that holds an image and every key
   * of `before`, and differs from `before` only at keys of the rectangle.
   */
  ghost predicate GrowsWithin(before: map<string, Image?>, after: map<string, Image?>,
                              z: int, x0: int, x1: int, y0: int, y1: int)
  {
    (forall k :: Holds(before, k) ==> k in after && after[k] == before[k]) &&
    (forall k :: k in before ==> k in after) &&
    (forall k :: k in after && !(k in before && after[k] == before[k]) ==> KeyInRect(k, z, x0, x1, y0, y1))
  }

  /**
   * `url` is the URL of an address of the rectangle that held no image in
   * `before` and holds one in `after`.
   */
  ghost predicate LoadedInRect(url: string, before: map<string, Image?>, after: map<string, Image?>,
                               z: int, x0: int, x1: int, y0: int, y1: int)
  {
    exists x, y :: InRect(x, y, x0, x1, y0, y1) && url == TileUrl(x, y, z) &&
      !Holds(before, TileKey(x, y, z)) && Holds(after, TileKey(x, y, z))
  }

  /** Each new entry of the log is the URL of an address of the rectangle that gained an image. */
  ghost predicate LoadsSound(logBefore: seq<string>, logAfter: seq<string>,
                             before: map<string, Image?>, after: map<string, Image?>,
                             z: int, x0: int, x1: int, y0: int, y1: int)
  {
    forall i :: |logBefore| <= i < |logAfter| ==> LoadedInRect(logAfter[i], before, after, z, x0, x1, y0, y1)
  }

  /** No URL appears twice among the new entries of the log. */
  ghost predicate LoadsDistinct(logBefore: seq<string>, logAfter: seq<string>)
  {
    forall i, j :: |logBefore| <= i < j < |logAfter| ==> logAfter[i] != logAfter[j]
  }

  /** Every address of the rectangle that gained an image has its URL among the new entries of the log. */
  ghost predicate LoadsComplete(logBefore: seq<string>, logAfter: seq<string>,
                                before: map<string, Image?>, after: map<string, Image?>,
                                z: int, x0: int, x1: int, y0: int, y1: int)
  {
    |logBefore| <= |logAfter| &&
    forall x, y :: InRect(x, y, x0, x1, y0, y1) && !Holds(before, TileKey(x, y, z)) && Holds(after, TileKey(x, y, z)) ==>
      TileUrl(x, y, z) in logAfter[|logBefore|..]
  }

  /**
   * Between two states of the cache, the load log only grew, and its new
   * entries are exactly the URLs of the addresses of the rectangle that
   * gained an image, each once.
   */
  ghost predicate NewLoads(logBefore: seq<string>, logAfter: seq<string>,
                           before: map<string, Image?>, after: map<string, Image?>,
                           z: int, x0: int, x1: int, y0: int, y1: int)
  {
    logBefore <= logAfter &&
    LoadsSound(logBefore, logAfter, before, after, z, x0, x1, y0, y1) &&
    LoadsDistinct(logBefore, logAfter) &&
    LoadsComplete(logBefore, logAfter, before, after, z, x0, x1, y0, y1)
  }

  lemma GrowsWithinTransitive(a: map<string, Image?>, b: map<string, Image?>, c: map<string, Image?>,
                              z: int, x0: int, x1: int, y0: int, y1: int)
    requires GrowsWithin(a, b, z, x0, x1, y0, y1) && GrowsWithin(b, c, z, x0, x1, y0, y1)
    ensures GrowsWithin(a, c, z, x0, x1, y0, y1)
  {
  }

  /** A load of either run was for an address that held no image at the start and holds one at the end. */
  lemma LoadsSoundTransitive(la: seq<string>, lb: seq<string>, lc: seq<string>,
                             ta: map<string, Image?>, tb: map<string, Image?>, tc: map<string, Image?>,
                             z: int, x0: int, x1: int, y0: int, y1: int)
    requires la <= lb <= lc
    requires GrowsWithin(ta, tb, z, x0, x1, y0, y1) && GrowsWithin(tb, tc, z, x0, x1, y0, y1)
    requires LoadsSound(la, lb, ta, tb, z, x0, x1, y0, y1) && LoadsSound(lb, lc, tb, tc, z, x0, x1, y0, y1)
    ensures LoadsSound(la, lc, ta, tc, z, x0, x1, y0, y1)
  {
    forall i | |la| <= i < |lc| ensures LoadedInRect(lc[i], ta, tc, z, x0, x1, y0, y1) {
      if i < |lb| {
        assert lc[i] == lb[i] && LoadedInRect(lb[i], ta, tb, z, x0, x1, y0, y1);
        var x, y :| InRect(x, y, x0, x1, y0, y1) && lb[i] == TileUrl(x, y, z) &&
          !Holds(ta, TileKey(x, y, z)) && Holds(tb, TileKey(x, y, z));
        assert Holds(tc, TileKey(x, y, z));
      } else {
        assert LoadedInRect(lc[i], tb, tc, z, x0, x1, y0, y1);
        var x, y :| InRect(x, y, x0, x1, y0, y1) && lc[i] == TileUrl(x, y, z) &&
          !Holds(tb, TileKey(x, y, z)) && Holds(tc, TileKey(x, y, z));
        assert !Holds(ta, TileKey(x, y, z));
      }
    }
  }

  /**
   * No URL repeats across two runs: an address loaded in the second run held
   * no image after the first, so it was not loaded in the first run.
   */
  lemma LoadsDistinctTransitive(la: seq<string>, lb: seq<string>, lc: seq<string>,
                                ta: map<string, Image?>, tb: map<string, Image?>, tc: map<string, Image?>,
                                z: int, x0: int, x1: int, y0: int, y1: int)
    requires la <= lb <= lc
    requires LoadsSound(la, lb, ta, tb, z, x0, x1, y0, y1) && LoadsSound(lb, lc, tb, tc, z, x0, x1, y0, y1)
    requires LoadsDistinct(la, lb) && LoadsDistinct(lb, lc)
    ensures LoadsDistinct(la, lc)
  {
    forall i, j | |la| <= i < j < |lc| ensures lc[i] != lc[j] {
      if j < |lb| {
        assert lc[i] == lb[i] && lc[j] == lb[j];
      } else if i < |lb| {
        assert lc[i] == lb[i] && LoadedInRect(lb[i], ta, tb, z, x0, x1, y0, y1);
        var x, y :| InRect(x, y, x0, x1, y0, y1) && lb[i] == TileUrl(x, y, z) &&
          !Holds(ta, TileKey(x, y, z)) && Holds(tb, TileKey(x, y, z));
        assert LoadedInRect(lc[j], tb, tc, z, x0, x1, y0, y1);
        var x', y' :| InRect(x', y', x0, x1, y0, y1) && lc[j] == TileUrl(x', y', z) &&
          !Holds(tb, TileKey(x', y', z)) && Holds(tc, TileKey(x', y', z));
        if lc[i] == lc[j] {
          TileUrlInjective(x, y, z, x', y', z);
        }
      }
    }
  }

  /** An address that gained an image over two runs gained it in one of them, and was loaded there. */
  lemma LoadsCompleteTransitive(la: seq<string>, lb: seq<string>, lc: seq<string>,
                                ta: map<string, Image?>, tb: map<string, Image?>, tc: map<string, Image?>,
                                z: int, x0: int, x1: int, y0: int, y1: int)
    requires la <= lb <= lc
    requires LoadsComplete(la, lb, ta, tb, z, x0, x1, y0, y1) && LoadsComplete(lb, lc, tb, tc, z, x0, x1, y0, y1)
    ensures LoadsComplete(la, lc, ta, tc, z, x0, x1, y0, y1)
  {
    assert lc[|la|..] == lb[|la|..] + lc[|lb|..];
    forall x, y | InRect(x, y, x0, x1, y0, y1) && !Holds(ta, TileKey(x, y, z)) && Holds(tc, TileKey(x, y, z))
      ensures TileUrl(x, y, z) in lc[|la|..]
    {
      if Holds(tb, TileKey(x, y, z)) {
        assert TileUrl(x, y, z) in lb[|la|..];
      } else {
        assert TileUrl(x, y, z) in lc[|lb|..];
      }
    }
  }

  /** Two runs of requests within one rectangle compose into one. */
  lemma NewLoadsTransitive(la: seq<string>, lb: seq<string>, lc: seq<string>,
                           ta: map<string, Image?>, tb: map<string, Image?>, tc: map<string, Image?>,
                           z: int, x0: int, x1: int, y0: int, y1: int)
    requires GrowsWithin(ta, tb, z, x0, x1, y0, y1) && GrowsWithin(tb, tc, z, x0, x1, y0, y1)
    requires NewLoads(la, lb, ta, tb, z, x0, x1, y0, y1) && NewLoads(lb, lc, tb, tc, z, x0, x1, y0, y1)
    ensures NewLoads(la, lc, ta, tc, z, x0, x1, y0, y1)
  {
    LoadsSoundTransitive(la, lb, lc, ta, tb, tc, z, x0, x1, y0, y1);
    LoadsDistinctTransitive(la, lb, lc, ta, tb, tc, z, x0, x1, y0, y1);
    LoadsCompleteTransitive(la, lb, lc, ta, tb, tc, z, x0, x1, y0, y1);
  }

  /**
   * One `loadTile(x, y, z)` for an address of the rectangle: `tiles` and
   * `issued` are the dictionary and the log after the call on `prev` and
   * `prevIssued`.
   */
  lemma LoadStep(prev: map<string, Image?>, tiles: map<string, Image?>, prevIssued: seq<string>, issued: seq<string>,
                 z: int, x: int, y: int, x0: int, x1: int, y0: int, y1: int)
    requires InRect(x, y, x0, x1, y0, y1)
    requires Holds(tiles, TileKey(x, y, z))
    requires Holds(prev, TileKey(x, y, z)) ==> tiles == prev && issued == prevIssued
    requires !Holds(prev, TileKey(x, y, z)) ==>
      tiles == prev[TileKey(x, y, z) := tiles[TileKey(x, y, z)]] && issued == prevIssued + [TileUrl(x, y, z)]
    ensures GrowsWithin(prev, tiles, z, x0, x1, y0, y1)
    ensures NewLoads(prevIssued, issued, prev, tiles, z, x0, x1, y0, y1)
  {
    var key := TileKey(x, y, z);
    assert KeyInRect(key, z, x0, x1, y0, y1);
    if !Holds(prev, key) {
      assert issued[|prevIssued|..] == [TileUrl(x, y, z)];
      assert LoadedInRect(TileUrl(x, y, z), prev, tiles, z, x0, x1, y0, y1);
      LoadStepComplete(prev, tiles[key], prevIssued, z, x, y, x0, x1, y0, y1);
    }
  }

  /** A load that stores an image under one key is complete for the rectangle. */
  lemma LoadStepComplete(prev: map<string, Image?>, img: Image, prevIssued: seq<string>,
                         z: int, x: int, y: int, x0: int, x1: int, y0: int, y1: int)
    ensures LoadsComplete(prevIssued, prevIssued + [TileUrl(x, y, z)], prev, prev[TileKey(x, y, z) := img], z, x0, x1, y0, y1)
  {
    var issued, tiles := prevIssued + [TileUrl(x, y, z)], prev[TileKey(x, y, z) := img];
    assert issued[|prevIssued|..] == [TileUrl(x, y, z)];
    forall x', y' | InRect(x', y', x0, x1, y0, y1) && !Holds(prev, TileKey(x', y', z)) && Holds(tiles, TileKey(x', y', z))
      ensures TileUrl(x', y', z) in issued[|prevIssued|..]
    {
      TileKeyInjective(x', y', z, x, y, z);
    }
  }

  /**
   * When every address of the rectangle holds an image at the end, each one
   * that held none at the start was loaded.
   */
  lemma MissingLoaded(logBefore: seq<string>, logAfter: seq<string>,
                      before: map<string, Image?>, after: map<string, Image?>,
                      z: int, x0: int, x1: int, y0: int, y1: int)
    requires forall x, y :: InRect(x, y, x0, x1, y0, y1) ==> Holds(after, TileKey(x, y, z))
    requires LoadsComplete(logBefore, logAfter, before, after, z, x0, x1, y0, y1)
    ensures forall x, y :: InRect(x, y, x0, x1, y0, y1) && !Holds(before, TileKey(x, y, z)) ==>
      TileUrl(x, y, z) in logAfter[|logBefore|..]
  {
  }

  /** Every new entry of the log is the URL of an address of the rectangle. */
  lemma LoadsInRect(logBefore: seq<string>, logAfter: seq<string>,
                    before: map<string, Image?>, after: map<string, Image?>,
                    z: int, x0: int, x1: int, y0: int, y1: int)
    requires |logBefore| <= |logAfter|
    requires LoadsSound(logBefore, logAfter, before, after, z, x0, x1, y0, y1)
    ensures forall url :: url in logAfter[|logBefore|..] ==>
      exists x, y :: InRect(x, y, x0, x1, y0, y1) && url == TileUrl(x, y, z)
  {
    forall url | url in logAfter[|logBefore|..]
      ensures exists x, y :: InRect(x, y, x0, x1, y0, y1) && url == TileUrl(x, y, z)
    {
      var i :| |logBefore| <= i < |logAfter| && logAfter[i] == url;
      assert LoadedInRect(logAfter[i], before, after, z, x0, x1, y0, y1);
    }
  }

  /** No address of a rectangle that is wholly held can be a new load. */
  lemma NoLoadWhenHeld(url: string, before: map<string, Image?>, after: map<string, Image?>,
                       z: int, x0: int, x1: int, y0: int, y1: int)
    requires forall x, y :: InRect(x, y, x0, x1, y0, y1) ==> Holds(before, TileKey(x, y, z))
    ensures !LoadedInRect(url, before, after, z, x0, x1, y0, y1)
  {
  }

  /** A key of a rectangle that is wholly held holds an image. */
  lemma KeyInRectHeld(k: string, before: map<string, Image?>, z: int, x0: int, x1: int, y0: int, y1: int)
    requires forall x, y :: InRect(x, y, x0, x1, y0, y1) ==> Holds(before, TileKey(x, y, z))
    requires KeyInRect(k, z, x0, x1, y0, y1)
    ensures Holds(before, k)
  {
    var x, y :| InRect(x, y, x0, x1, y0, y1) && k == TileKey(x, y, z);
  }

  /** The entry at index `i` of a log, or "" past its end. */
  function EntryAt(log: seq<string>, i: int): string
  {
    if 0 <= i < |log| then log[i] else ""
  }

  /**
   * When every address of the rectangle already holds an image, requests
   * confined to it issue no load and leave the cache as it was.
   */
  lemma NothingNewWhenAllHeld(logBefore: seq<string>, logAfter: seq<string>,
                              before: map<string, Image?>, after: map<string, Image?>,
                              z: int, x0: int, x1: int, y0: int, y1: int)
    requires forall x, y :: InRect(x, y, x0, x1, y0, y1) ==> Holds(before, TileKey(x, y, z))
    requires GrowsWithin(before, after, z, x0, x1, y0, y1)
    requires NewLoads(logBefore, logAfter, before, after, z, x0, x1, y0, y1)
    ensures logAfter == logBefore && after == before
  {
    forall i | |logBefore| <= i < |logAfter| ensures !LoadedInRect(logAfter[i], before, after, z, x0, x1, y0, y1) {
      NoLoadWhenHeld(logAfter[i], before, after, z, x0, x1, y0, y1);
    }
    // Names the first new entry, if any, so that the fact above applies to it.
    var firstNew := EntryAt(logAfter, |logBefore|);
    forall k | k in after ensures k in before && after[k] == before[k] {
      if KeyInRect(k, z, x0, x1, y0, y1) {
        KeyInRectHeld(k, before, z, x0, x1, y0, y1);
      }
    }
    assert after.Keys == before.Keys;
  }

  /**
   * One column of the request loop of `drawTiles`: the addresses (x, y) for
   * y in [y0, y1], a column of the rectangle [x0, x1] x [y0, y1].
   */
  method RequestColumn(cache: TileCache, z: int, x: int, x0: int, x1: int, y0: int, y1: int)
    requires x0 <= x <= x1
    requires cache.Valid()
    modifies cache
    ensures cache.Valid()
    ensures forall y :: y0 <= y <= y1 ==> Holds(cache.tiles, TileKey(x, y, z))
    ensures GrowsWithin(old(cache.tiles), cache.tiles, z, x0, x1, y0, y1)
    ensures NewLoads(old(cache.issued), cache.issued, old(cache.tiles), cache.tiles, z, x0, x1, y0, y1)
    ensures forall y :: y0 <= y <= y1 && !old(Holds(cache.tiles, TileKey(x, y, z))) ==>
      TileUrl(x, y, z) in cache.issued[|old(cache.issued)|..]
  {
    ghost var tiles0, issued0 := cache.tiles, cache.issued;
    var tileY := y0;
    while tileY <= y1
      invariant y0 <= tileY
      invariant cache.Valid()
      invariant forall y :: y0 <= y < tileY ==> Holds(cache.tiles, TileKey(x, y, z))
      invariant GrowsWithin(tiles0, cache.tiles, z, x0, x1, y0, y1)
      invariant NewLoads(issued0, cache.issued, tiles0, cache.tiles, z, x0, x1, y0, y1)
    {
      ghost var prev, prevIssued := cache.tiles, cache.issued;
      var tile := cache.LoadTile(x, tileY, z);
      RequestStep(tiles0, prev, cache.tiles, issued0, prevIssued, cache.issued, z, x, tileY, x0, x1, y0, y1);
      tileY := tileY + 1;
    }
    forall y | y0 <= y <= y1 && !Holds(tiles0, TileKey(x, y, z))
      ensures TileUrl(x, y, z) in cache.issued[|issued0|..]
    {
      assert InRect(x, y, x0, x1, y0, y1) && Holds(cache.tiles, TileKey(x, y, z));
    }
  }

  /**
   * One request of the column loop keeps its invariant: `tiles` and `issued`
   * are the dictionary and the load log after `loadTile(x, tileY, z)` from
   * `prev` and `prevIssued`.
   */
  lemma RequestStep(tiles0: map<string, Image?>, prev: map<string, Image?>, tiles: map<string, Image?>,
                    issued0: seq<string>, prevIssued: seq<string>, issued: seq<string>,
                    z: int, x: int, tileY: int, x0: int, x1: int, y0: int, y1: int)
    requires InRect(x, tileY, x0, x1, y0, y1)
    requires forall y :: y0 <= y < tileY ==> Holds(prev, TileKey(x, y, z))
    requires GrowsWithin(tiles0, prev, z, x0, x1, y0, y1)
    requires NewLoads(issued0, prevIssued, tiles0, prev, z, x0, x1, y0, y1)
    requires Holds(tiles, TileKey(x, tileY, z))
    requires Holds(prev, TileKey(x, tileY, z)) ==> tiles == prev && issued == prevIssued
    requires !Holds(prev, TileKey(x, tileY, z)) ==>
      tiles == prev[TileKey(x, tileY, z) := tiles[TileKey(x, tileY, z)]] && issued == prevIssued + [TileUrl(x, tileY, z)]
    ensures forall y :: y0 <= y <= tileY ==> Holds(tiles, TileKey(x, y, z))
    ensures GrowsWithin(tiles0, tiles, z, x0, x1, y0, y1)
    ensures NewLoads(issued0, issued, tiles0, tiles, z, x0, x1, y0, y1)
  {
    forall y | y0 <= y <= tileY ensures Holds(tiles, TileKey(x, y, z)) {
      if y < tileY {
        assert Holds(prev, TileKey(x, y, z));
      }
    }
    LoadStep(prev, tiles, prevIssued, issued, z, x, tileY, x0, x1, y0, y1);
    GrowsWithinTransitive(tiles0, prev, tiles, z, x0, x1, y0, y1);
    NewLoadsTransitive(issued0, prevIssued, issued, tiles0, prev, tiles, z, x0, x1, y0, y1);
  }

  /**
   * The invariant of the request loop of `drawTiles`: the columns up to
   * `lastX` are held, and the dictionary and the log moved from `tiles0` and
   * `issued0` by requests within the rectangle.
   */
  ghost predicate ColumnsRequested(tiles0: map<string, Image?>, issued0: seq<string>,
                                   tiles: map<string, Image?>, issued: seq<string>,
                                   z: int, lastX: int, minX: int, maxX: int, minY: int, maxY: int)
  {
    (forall x, y :: InRect(x, y, minX - 1, lastX, minY - 1, maxY + 1) ==> Holds(tiles, TileKey(x, y, z))) &&
    GrowsWithin(tiles0, tiles, z, minX - 1, maxX + 1, minY - 1, maxY + 1) &&
    NewLoads(issued0, issued, tiles0, tiles, z, minX - 1, maxX + 1, minY - 1, maxY + 1)
  }

  /** The invariant of the request loop of `drawTiles` is kept by one more column. */
  lemma ColumnStep(tiles0: map<string, Image?>, prev: map<string, Image?>, tiles: map<string, Image?>,
                   issued0: seq<string>, prevIssued: seq<string>, issued: seq<string>,
                   z: int, tileX: int, minX: int, maxX: int, minY: int, maxY: int)
    requires ColumnsRequested(tiles0, issued0, prev, prevIssued, z, tileX - 1, minX, maxX, minY, maxY)
    requires forall y :: minY - 1 <= y <= maxY + 1 ==> Holds(tiles, TileKey(tileX, y, z))
    requires GrowsWithin(prev, tiles, z, minX - 1, maxX + 1, minY - 1, maxY + 1)
    requires NewLoads(prevIssued, issued, prev, tiles, z, minX - 1, maxX + 1, minY - 1, maxY + 1)
    ensures ColumnsRequested(tiles0, issued0, tiles, issued, z, tileX, minX, maxX, minY, maxY)
  {
    GrowsWithinTransitive(tiles0, prev, tiles, z, minX - 1, maxX + 1, minY - 1, maxY + 1);
    NewLoadsTransitive(issued0, prevIssued, issued, tiles0, prev, tiles, z, minX - 1, maxX + 1, minY - 1, maxY + 1);
  }

  /** Once every column has been requested, the loop's invariant gives the whole rectangle. */
  lemma AllColumnsRequested(tiles0: map<string, Image?>, issued0: seq<string>,
                            tiles: map<string, Image?>, issued: seq<string>,
                            z: int, lastX: int, minX: int, maxX: int, minY: int, maxY: int)
    requires maxX + 1 <= lastX
    requires ColumnsRequested(tiles0, issued0, tiles, issued, z, lastX, minX, maxX, minY, maxY)
    ensures forall x, y :: InRect(x, y, minX - 1, maxX + 1, minY - 1, maxY + 1) ==> Holds(tiles, TileKey(x, y, z))
    ensures GrowsWithin(tiles0, tiles, z, minX - 1, maxX + 1, minY - 1, maxY + 1)
    ensures NewLoads(issued0, issued, tiles0, tiles, z, minX - 1, maxX + 1, minY - 1, maxY + 1)
    ensures forall x, y :: InRect(x, y, minX - 1, maxX + 1, minY - 1, maxY + 1) && !Holds(tiles0, TileKey(x, y, z)) ==>
      TileUrl(x, y, z) in issued[|issued0|..]
  {
    MissingLoaded(issued0, issued, tiles0, tiles, z, minX - 1, maxX + 1, minY - 1, maxY + 1);
  }

  /**
   * The request loop of `drawTiles` at integer zoom `z`: every address in
   * [minX - 1, maxX + 1] x [minY - 1, maxY + 1], column by column.
   */
  method RequestVisibleTiles(cache: TileCache, z: int, minX: int, maxX: int, minY: int, maxY: int)
    requires cache.Valid()
    modifies cache
    ensures cache.Valid()
    ensures forall x, y :: InRect(x, y, minX - 1, maxX + 1, minY - 1, maxY + 1) ==> Holds(cache.tiles, TileKey(x, y, z))
    ensures GrowsWithin(old(cache.tiles), cache.tiles, z, minX - 1, maxX + 1, minY - 1, maxY + 1)
    ensures NewLoads(old(cache.issued), cache.issued, old(cache.tiles), cache.tiles, z, minX - 1, maxX + 1, minY - 1, maxY + 1)
    ensures forall x, y :: InRect(x, y, minX - 1, maxX + 1, minY - 1, maxY + 1) && !old(Holds(cache.tiles, TileKey(x, y, z))) ==>
      TileUrl(x, y, z) in cache.issued[|old(cache.issued)|..]
  {
    ghost var tiles0, issued0 := cache.tiles, cache.issued;
    var tileX := minX - 1;
    while tileX <= maxX + 1
      invariant minX - 1 <= tileX
      invariant cache.Valid()
      invariant ColumnsRequested(tiles0, issued0, cache.tiles, cache.issued, z, tileX - 1, minX, maxX, minY, maxY)
    {
      ghost var prev, prevIssued := cache.tiles, cache.issued;
      RequestColumn(cache, z, tileX, minX - 1, maxX + 1, minY - 1, maxY + 1);
      ColumnStep(tiles0, prev, cache.tiles, issued0, prevIssued, cache.issued, z, tileX, minX, maxX, minY, maxY);
      tileX := tileX + 1;
    }
    AllColumnsRequested(tiles0, issued0, cache.tiles, cache.issued, z, tileX - 1, minX, maxX, minY, maxY);
  }

  /**
   * The first frame over the empty dictionary loads every address of the
   * view, and nothing else.
   */
  method FirstFrame(z: int, minX: int, maxX: int, minY: int, maxY: int) returns (cache: TileCache)
    ensures fresh(cache) && cache.Valid()
    ensures forall x, y :: InRect(x, y, minX - 1, maxX + 1, minY - 1, maxY + 1) ==> TileUrl(x, y, z) in cache.issued
    ensures forall url :: url in cache.issued ==>
      exists x, y :: InRect(x, y, minX - 1, maxX + 1, minY - 1, maxY + 1) && url == TileUrl(x, y, z)
  {
    cache := new TileCache();
    RequestVisibleTiles(cache, z, minX, maxX, minY, maxY);
    LoadsInRect([], cache.issued, map[], cache.tiles, z, minX - 1, maxX + 1, minY - 1, maxY + 1);
    assert cache.issued[0..] == cache.issued;
  }

  /** A frame over a view whose tiles are all held already issues no load and changes no entry. */
  method RedrawCachedView(cache: TileCache, z: int, minX: int, maxX: int, minY: int, maxY: int)
    requires cache.Valid()
    requires forall x, y :: InRect(x, y, minX - 1, maxX + 1, minY - 1, maxY + 1) ==> Holds(cache.tiles, TileKey(x, y, z))
    modifies cache
    ensures cache.Valid()
    ensures cache.issued == old(cache.issued) && cache.tiles == old(cache.tiles)
  {
    ghost var tiles0, issued0 := cache.tiles, cache.issued;
    RequestVisibleTiles(cache, z, minX, maxX, minY, maxY);
    assert GrowsWithin(tiles0, cache.tiles, z, minX - 1, maxX + 1, minY - 1, maxY + 1);
    NothingNewWhenAllHeld(issued0, cache.issued, tiles0, cache.tiles, z, minX - 1, maxX + 1, minY - 1, maxY + 1);
  }

  /**
   * Drawing the same view twice in a row has exactly the effect of drawing
   * it once: the second frame finds the view held and, by RedrawCachedView,
   * loads nothing.
   */
  method RedrawSameView(cache: TileCache, z: int, minX: int, maxX: int, minY: int, maxY: int)
    requires cache.Valid()
    modifies cache
    ensures cache.Valid()
    ensures forall x, y :: InRect(x, y, minX - 1, maxX + 1, minY - 1, maxY + 1) ==> Holds(cache.tiles, TileKey(x, y, z))
    ensures GrowsWithin(old(cache.tiles), cache.tiles, z, minX - 1, maxX + 1, minY - 1, maxY + 1)
    ensures NewLoads(old(cache.issued), cache.issued, old(cache.tiles), cache.tiles, z, minX - 1, maxX + 1, minY - 1, maxY + 1)
  {
    RequestVisibleTiles(cache, z, minX, maxX, minY, maxY);
    RedrawCachedView(cache, z, minX, maxX, minY, maxY);
  }
}
