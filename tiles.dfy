/** Terrain tiles as the tile table sees them, and the family record that
    refreshFamily computes for each of them. */
module Tiles {
  import opened Grid

  /** A colour layer of a tile. `transparent` says whether the layer is a
      TransparentLayer (the only kind refreshFamily reads); `uid` is the image
      layer's unique id and `lod` the level of detail the layer holds. */
  datatype ColorLayer = ColorLayer(transparent: bool, uid: int, lod: int)

  /** One family slot: whether the relative is expected to exist, its
      elevation LOD (-1 when it is not in the table), the LOD of each of its
      transparent colour layers by layer uid, and the relative's key. */
  datatype Relative = Relative(expected: bool, elevLOD: int, imageLODs: map<int, int>, key: TileKey)

  const EmptyRelative := Relative(false, -1, map[], TileKey(0, 0, 0))

  /** A terrain tile. The key, the five-slot family array and whether the
      tile loads through layer requests (sequential or preemptive mode) are
      fixed for the tile's whole life; the other fields are changed by the
      scene graph and by the tile's own loading, which are not part of this
      model.
      `refCount` stands for the tile's reference count. */
  class Tile {
    const key: TileKey
    const family: array<Relative>
    var refCount: int
    var traversed: bool
    var elevationLOD: int
    var colorLayers: seq<ColorLayer>
    const useLayerRequests: bool

    constructor (key: TileKey, elevationLOD: int, colorLayers: seq<ColorLayer>, useLayerRequests: bool)
      ensures this.key == key && fresh(family) && family.Length == 5
      ensures this.elevationLOD == elevationLOD && this.colorLayers == colorLayers
      ensures this.useLayerRequests == useLayerRequests
      ensures refCount == 0 && !traversed
    {
      this.key := key;
      this.family := new Relative[5](_ => EmptyRelative);
      this.elevationLOD := elevationLOD;
      this.colorLayers := colorLayers;
      this.useLayerRequests := useLayerRequests;
      this.refCount := 0;
      this.traversed := false;
    }
  }

  /** The uid to LOD map that refreshFamily builds from a relative's colour
      layers, visiting them in order: transparent layers only, a later layer
      overwriting an earlier one with the same uid. */
  function ImageLODs(layers: seq<ColorLayer>): map<int, int>
  {
    if layers == [] then map[]
    else
      var m := ImageLODs(layers[..|layers| - 1]);
      var last := layers[|layers| - 1];
      if last.transparent then m[last.uid := last.lod] else m
  }

  /** Some transparent layer carries uid u. */
  ghost predicate HasTransparent(layers: seq<ColorLayer>, u: int)
  {
    exists i :: 0 <= i < |layers| && layers[i].transparent && layers[i].uid == u
  }

  /** Layer i is transparent and no later transparent layer has its uid. */
  ghost predicate IsLastTransparent(layers: seq<ColorLayer>, i: int)
  {
    && 0 <= i < |layers|
    && layers[i].transparent
    && forall j :: i < j < |layers| && layers[j].transparent ==> layers[j].uid != layers[i].uid
  }

  /** The map holds exactly the uids of the transparent layers. */
  lemma {:induction false} ImageLODsKeys(layers: seq<ColorLayer>)
    ensures forall u :: u in ImageLODs(layers) <==> HasTransparent(layers, u)
  {
    if layers != [] {
      var n := |layers| - 1;
      var init := layers[..n];
      ImageLODsKeys(init);
      forall u ensures u in ImageLODs(layers) <==> HasTransparent(layers, u) {
        if HasTransparent(layers, u) {
          var i :| 0 <= i < |layers| && layers[i].transparent && layers[i].uid == u;
          if i < n {
            assert init[i] == layers[i];
          }
        }
        if HasTransparent(init, u) {
          var i :| 0 <= i < |init| && init[i].transparent && init[i].uid == u;
          assert layers[i] == init[i];
        }
      }
    }
  }

  /** Each transparent uid maps to the LOD of the last transparent layer
      carrying it. */
  lemma {:induction false} ImageLODsValues(layers: seq<ColorLayer>)
    ensures forall i :: IsLastTransparent(layers, i) ==> layers[i].uid in ImageLODs(layers)
    ensures forall i :: IsLastTransparent(layers, i) ==> ImageLODs(layers)[layers[i].uid] == layers[i].lod
  {
    if layers != [] {
      var n := |layers| - 1;
      var init := layers[..n];
      var last := layers[n];
      ImageLODsValues(init);
      forall i | IsLastTransparent(layers, i)
        ensures layers[i].uid in ImageLODs(layers)
        ensures ImageLODs(layers)[layers[i].uid] == layers[i].lod
      {
        if i < n {
          assert init[i] == layers[i];
          assert IsLastTransparent(init, i) by {
            forall j | i < j < |init| && init[j].transparent ensures init[j].uid != init[i].uid {
              assert init[j] == layers[j];
            }
          }
          assert last.transparent ==> last.uid != layers[i].uid;
        }
      }
    }
  }

  /** A family slot for the relative at `relKey`, looked up in the tile
      table `tiles`. */
  function LookupRelative(tiles: map<TileKey, Tile>, relKey: TileKey, expected: bool): Relative
    reads tiles.Values
  {
    Relative(
      expected,
      if relKey in tiles then tiles[relKey].elevationLOD else -1,
      if relKey in tiles then ImageLODs(tiles[relKey].colorLayers) else map[],
      relKey)
  }

  /** The family slot for direction d of the tile at `key`. */
  function RelativeOf(g: MapInfo, key: TileKey, tiles: map<TileKey, Tile>, d: Direction): Relative
    reads tiles.Values
  {
    var counts := g.numTiles(key.level);
    LookupRelative(tiles, RelativeKey(g, key, d), Expected(d, key, counts.0, counts.1, g.geocentric))
  }

  /** The five family slots of the tile at `key`, in slot order. */
  function FamilyOf(g: MapInfo, key: TileKey, tiles: map<TileKey, Tile>): seq<Relative>
    reads tiles.Values
  {
    seq(5, i requires 0 <= i < 5 reads tiles.Values => RelativeOf(g, key, tiles, DirectionAt(i)))
  }

  /** Slot SlotOf(d) of the family holds the relative in direction d. */
  lemma FamilyAt(g: MapInfo, key: TileKey, tiles: map<TileKey, Tile>, d: Direction)
    ensures |FamilyOf(g, key, tiles)| == 5
    ensures FamilyOf(g, key, tiles)[SlotOf(d)] == RelativeOf(g, key, tiles, d)
  {
    assert DirectionAt(SlotOf(d)) == d;
  }

  /** What each family slot holds: the relative's key, the expected flag of
      the grid rules, and LOD data that is -1 and empty for a relative missing
      from the table, and otherwise that tile's elevation LOD and one entry per
      transparent colour layer uid, with the LOD of its last such layer. */
  lemma FamilySlots(g: MapInfo, key: TileKey, tiles: map<TileKey, Tile>, d: Direction)
    ensures |FamilyOf(g, key, tiles)| == 5
    ensures var r := FamilyOf(g, key, tiles)[SlotOf(d)];
      var nk := RelativeKey(g, key, d);
      var counts := g.numTiles(key.level);
      && r.key == nk
      && r.expected == Expected(d, key, counts.0, counts.1, g.geocentric)
      && (nk !in tiles ==> r.elevLOD == -1 && r.imageLODs == map[])
      && (nk in tiles ==>
            && r.elevLOD == tiles[nk].elevationLOD
            && (forall u :: u in r.imageLODs <==> HasTransparent(tiles[nk].colorLayers, u))
            && forall i :: IsLastTransparent(tiles[nk].colorLayers, i) ==>
                 r.imageLODs[tiles[nk].colorLayers[i].uid] == tiles[nk].colorLayers[i].lod)
  {
    FamilyAt(g, key, tiles, d);
    var nk := RelativeKey(g, key, d);
    if nk in tiles {
      ImageLODsKeys(tiles[nk].colorLayers);
      ImageLODsValues(tiles[nk].colorLayers);
    }
  }
}
