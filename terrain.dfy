/** The tile bookkeeping of the terrain node (CustomTerrain): the tile table
    and its queues, the family refresh, dead-tile reaping with retried
    cancellation, the deferred release of GL objects, the on-demand redraw
    counter, and the map of task services with its thread allocation.
    Everything runs as sequential steps; the table and task-service locks
    are not modelled. Calls into tiles whose effect is not visible (request
    servicing, GL release) and redraw requests are recorded in `events`. */
module Terrain {
  import opened Sets
  import opened Grid
  import opened Tiles
  import opened Loading
  import opened OnDemand
  import opened TaskServices

  /** A call the terrain makes into a tile or into the viewer. */
  datatype Event =
    | ElevationRequestsServiced(tile: Tile, stamp: int)
    | CompletedRequestsServiced(tile: Tile)
    | ImageRequestsServiced(tile: Tile, stamp: int)
    | GLObjectsReleased(tile: Tile)
    | RedrawRequested

  /** A post-draw hook of a camera; hooks run in list order. */
  datatype DrawHook = QuickReleaseGL(terrain: CustomTerrain) | OtherDrawCallback(id: int)

  /** The camera above the terrain, reduced to its chain of post-draw hooks. */
  class Camera {
    var postDrawHooks: seq<DrawHook>

    constructor (hooks: seq<DrawHook>)
      ensures postDrawHooks == hooks
    {
      postDrawHooks := hooks;
    }
  }

  predicate Distinct<T(==)>(s: seq<T>)
  {
    forall i, j :: 0 <= i < j < |s| ==> s[i] != s[j]
  }

  /** A dead tile: the table holds its only reference and the tile has been
      traversed at least once. */
  predicate IsDead(t: Tile)
    reads t
  {
    t.refCount == 1 && t.traversed
  }

  /** The dead tiles of s, in order. */
  function DeadOf(s: seq<Tile>): seq<Tile>
    reads s
  {
    if s == [] then []
    else DeadOf(s[..|s| - 1]) + (if IsDead(s[|s| - 1]) then [s[|s| - 1]] else [])
  }

  /** The tiles of s that are not dead, in order. */
  function LiveOf(s: seq<Tile>): seq<Tile>
    reads s
  {
    if s == [] then []
    else LiveOf(s[..|s| - 1]) + (if IsDead(s[|s| - 1]) then [] else [s[|s| - 1]])
  }

  /** DeadOf and LiveOf split s: together they hold each tile of s as often
      as s does. */
  lemma {:induction false} DeadLiveCount(s: seq<Tile>)
    ensures multiset(DeadOf(s)) + multiset(LiveOf(s)) == multiset(s)
  {
    if s != [] {
      var init := s[..|s| - 1];
      assert s == init + [s[|s| - 1]];
      DeadLiveCount(init);
    }
  }

  /** DeadOf keeps only dead tiles of s, LiveOf only live ones. */
  lemma {:induction false} DeadLiveSound(s: seq<Tile>)
    ensures forall t :: t in DeadOf(s) ==> t in s && IsDead(t)
    ensures forall t :: t in LiveOf(s) ==> t in s && !IsDead(t)
  {
    if s != [] {
      var init := s[..|s| - 1];
      assert s == init + [s[|s| - 1]];
      DeadLiveSound(init);
    }
  }

  /** The split of s depends only on the state of its tiles. */
  twostate lemma DeadLiveUnchanged(s: seq<Tile>)
    requires unchanged(s)
    ensures DeadOf(s) == old(DeadOf(s)) && LiveOf(s) == old(LiveOf(s))
  {
  }

  /** A family slot read from the table depends only on the state of the
      table's tiles; so do the slot of a direction and a whole family. */
  twostate lemma LookupsUnchanged(m: map<TileKey, Tile>)
    requires unchanged(m.Values)
    ensures forall relKey, expected :: LookupRelative(m, relKey, expected) == old(LookupRelative(m, relKey, expected))
  {
  }

  twostate lemma RelativesUnchanged(m: map<TileKey, Tile>)
    requires unchanged(m.Values)
    ensures forall g, key, d :: RelativeOf(g, key, m, d) == old(RelativeOf(g, key, m, d))
  {
  }

  twostate lemma FamiliesUnchanged(m: map<TileKey, Tile>)
    requires unchanged(m.Values)
    ensures forall g, key :: FamilyOf(g, key, m) == old(FamilyOf(g, key, m))
  {
  }

  /** Each tile of s lands in exactly one of the two. */
  lemma DeadLiveComplete(s: seq<Tile>)
    ensures forall t :: t in s ==> (t in DeadOf(s) <==> IsDead(t)) && (t in LiveOf(s) <==> !IsDead(t))
  {
    DeadLiveCount(s);
    DeadLiveSound(s);
    forall t | t in s ensures t in DeadOf(s) || t in LiveOf(s) {
      assert t in multiset(s);
    }
  }

  /** A tile occurring once in s occurs at most once in each part. */
  lemma DeadLiveDistinct(s: seq<Tile>)
    requires Distinct(s)
    ensures Distinct(DeadOf(s)) && Distinct(LiveOf(s))
  {
    DeadLiveCount(s);
    forall x ensures multiset(DeadOf(s))[x] <= 1 && multiset(LiveOf(s))[x] <= 1 {
      DistinctCount(s, x);
      assert multiset(DeadOf(s))[x] + multiset(LiveOf(s))[x] == multiset(s)[x];
    }
    SingleOccurrences(DeadOf(s));
    SingleOccurrences(LiveOf(s));
  }

  /** In a sequence without repeats every element occurs at most once. */
  lemma {:induction false} DistinctCount<T>(s: seq<T>, x: T)
    requires Distinct(s)
    ensures multiset(s)[x] <= 1
  {
    if s != [] {
      var init := s[..|s| - 1];
      assert s == init + [s[|s| - 1]];
      assert Distinct(init);
      DistinctCount(init, x);
      if s[|s| - 1] == x {
        assert x !in init;
      }
    }
  }

  /** A sequence in which no element occurs twice has no repeats. */
  lemma SingleOccurrences<T>(s: seq<T>)
    requires forall x :: multiset(s)[x] <= 1
    ensures Distinct(s)
  {
    forall i, j | 0 <= i < j < |s| ensures s[i] != s[j] {
      assert s == s[..j] + [s[j]] + s[j + 1..];
      assert s[i] in s[..j];
      assert multiset(s)[s[i]] <= 1;
    }
  }

  /** The tiles of s whose cancellation did not succeed, in order. */
  function Retained(s: seq<Tile>, cancelled: set<Tile>): seq<Tile>
  {
    if s == [] then []
    else Retained(s[..|s| - 1], cancelled) + (if s[|s| - 1] in cancelled then [] else [s[|s| - 1]])
  }

  /** The tiles of s whose cancellation succeeded, in order. */
  function CancelledOf(s: seq<Tile>, cancelled: set<Tile>): seq<Tile>
  {
    if s == [] then []
    else CancelledOf(s[..|s| - 1], cancelled) + (if s[|s| - 1] in cancelled then [s[|s| - 1]] else [])
  }

  /** The shutdown sweep splits the list: a tile stays iff it failed to
      cancel, and leaves (towards release) iff it succeeded. */
  lemma {:induction false} RetainedCancelledPartition(s: seq<Tile>, cancelled: set<Tile>)
    ensures multiset(Retained(s, cancelled)) + multiset(CancelledOf(s, cancelled)) == multiset(s)
    ensures forall t :: t in Retained(s, cancelled) <==> t in s && t !in cancelled
    ensures forall t :: t in CancelledOf(s, cancelled) <==> t in s && t in cancelled
  {
    if s != [] {
      var init := s[..|s| - 1];
      assert s == init + [s[|s| - 1]];
      RetainedCancelledPartition(init, cancelled);
    }
  }

  /** The tiles of s whose cancellation succeeded, as a set. */
  function CancelledSet(s: seq<Tile>, cancelled: set<Tile>): set<Tile>
  {
    set t | t in s && t in cancelled
  }

  lemma CancelledSetStep(s: seq<Tile>, t: Tile, cancelled: set<Tile>)
    ensures CancelledSet(s + [t], cancelled) == CancelledSet(s, cancelled) + (if t in cancelled then {t} else {})
  {
  }

  /** Every entry of the table is filed under its tile's own key. */
  ghost predicate KeysConsistent(m: map<TileKey, Tile>)
  {
    forall k :: k in m ==> m[k].key == k
  }

  /** The table after erasing a cancelled tile as the source writes it: the
      entry under the tile's key goes, whatever tile it holds now. */
  function EraseByKey(m: map<TileKey, Tile>, t: Tile): map<TileKey, Tile>
  {
    m - {t.key}
  }

  /** The table after erasing a cancelled tile: its entry goes if the table
      still holds that very tile under its key. */
  function EraseTile(m: map<TileKey, Tile>, t: Tile): map<TileKey, Tile>
  {
    if t.key in m && m[t.key] == t then m - {t.key} else m
  }

  /** The keys the tiles of ts carry. */
  function KeysOf(ts: set<Tile>): set<TileKey>
  {
    set t | t in ts :: t.key
  }

  /** The table after the sweep as written: every key a cancelled tile
      carries is erased. */
  function EraseKeys(m: map<TileKey, Tile>, ts: set<Tile>): map<TileKey, Tile>
  {
    m - KeysOf(ts)
  }

  /** The table after the corrected sweep: the entries holding a cancelled
      tile are erased. */
  function EraseTiles(m: map<TileKey, Tile>, ts: set<Tile>): map<TileKey, Tile>
  {
    map k | k in m && m[k] !in ts :: m[k]
  }

  /** The erase as written loses a tile registered under the same key while
      the stale tile waited on the shutdown list. */
  lemma EraseByKeyDropsReplacement(m: map<TileKey, Tile>, stale: Tile, current: Tile)
    requires KeysConsistent(m)
    requires stale.key == current.key && stale != current
    requires current.key in m && m[current.key] == current
    ensures current in m.Values && current !in EraseByKey(m, stale).Values
  {
  }

  /** The sweep as written: no cancelled tile is left in the table and the
      entries that remain are unchanged; but a tile filed under the key of a
      cancelled tile goes too, though it is not on the list itself. */
  lemma EraseKeysDropsReplacement(m: map<TileKey, Tile>, ts: set<Tile>, stale: Tile, current: Tile)
    requires KeysConsistent(m)
    requires stale in ts && current !in ts
    requires stale.key == current.key && current.key in m && m[current.key] == current
    ensures forall t :: t in ts ==> t !in EraseKeys(m, ts).Values
    ensures forall k :: k in EraseKeys(m, ts) ==> k in m && EraseKeys(m, ts)[k] == m[k]
    ensures current in m.Values && current !in EraseKeys(m, ts).Values
  {
  }

  /** The corrected erase removes exactly the cancelled tile's own entry and
      leaves every other entry as it was. */
  lemma EraseTileKeepsOthers(m: map<TileKey, Tile>, t: Tile)
    requires KeysConsistent(m)
    ensures t !in EraseTile(m, t).Values
    ensures forall k :: k in m && m[k] != t ==> k in EraseTile(m, t) && EraseTile(m, t)[k] == m[k]
    ensures forall k :: k in EraseTile(m, t) ==> k in m && EraseTile(m, t)[k] == m[k]
  {
  }

  /** The corrected sweep: no cancelled tile is left in the table, and every
      entry holding a tile that is not on the list stays as it was. */
  lemma EraseTilesKeepsOthers(m: map<TileKey, Tile>, ts: set<Tile>)
    ensures forall t :: t in ts ==> t !in EraseTiles(m, ts).Values
    ensures forall k :: k in m && m[k] !in ts ==> k in EraseTiles(m, ts) && EraseTiles(m, ts)[k] == m[k]
    ensures forall k :: k in EraseTiles(m, ts) ==> k in m && EraseTiles(m, ts)[k] == m[k]
  {
  }

  /** The two sweeps agree unless a cancelled tile's key was refiled with
      another tile: then only the one as written erases that tile. */
  lemma SweepsAgreeWithoutReplacement(m: map<TileKey, Tile>, ts: set<Tile>)
    requires KeysConsistent(m)
    requires forall t :: t in ts && t.key in m ==> m[t.key] == t
    ensures EraseKeys(m, ts) == EraseTiles(m, ts)
  {
  }

  /** Erasing by key one more cancelled tile extends the set of tiles whose
      keys are erased. */
  lemma EraseByKeyStep(m: map<TileKey, Tile>, ts: set<Tile>, t: Tile)
    ensures EraseByKey(EraseKeys(m, ts), t) == EraseKeys(m, ts + {t})
  {
  }

  /** Erasing one more cancelled tile extends the set of erased tiles. */
  lemma EraseTileStep(m: map<TileKey, Tile>, ts: set<Tile>, t: Tile)
    requires KeysConsistent(m)
    ensures EraseTile(EraseTiles(m, ts), t) == EraseTiles(m, ts + {t})
  {
  }

  /** One pass over the shutdown list `pending` against table m, as the
      update traversal runs it: the tiles that fail to cancel are kept, in
      order; those that cancel are collected, in order, and the entries under
      their keys erased from the table. */
  method Sweep(m: map<TileKey, Tile>, pending: seq<Tile>, cancelOk: set<Tile>)
    returns (kept: seq<Tile>, cancelled: seq<Tile>, remaining: map<TileKey, Tile>)
    ensures kept == Retained(pending, cancelOk)
    ensures cancelled == CancelledOf(pending, cancelOk)
    ensures remaining == EraseKeys(m, CancelledSet(pending, cancelOk))
  {
    kept, cancelled, remaining := [], [], m;
    ghost var erased: set<Tile> := {};
    var i := 0;
    assert KeysOf({}) == {};
    while i < |pending|
      invariant 0 <= i <= |pending|
      invariant kept == Retained(pending[..i], cancelOk)
      invariant cancelled == CancelledOf(pending[..i], cancelOk)
      invariant erased == CancelledSet(pending[..i], cancelOk)
      invariant remaining == EraseKeys(m, erased)
    {
      assert pending[..i + 1] == pending[..i] + [pending[i]];
      assert pending[..i + 1][..i] == pending[..i];
      var tile := pending[i];
      CancelledSetStep(pending[..i], tile, cancelOk);
      if tile in cancelOk {
        cancelled := cancelled + [tile];
        EraseByKeyStep(m, erased, tile);
        remaining := remaining - {tile.key};
        erased := erased + {tile};
      } else {
        kept := kept + [tile];
      }
      i := i + 1;
    }
    assert pending[..i] == pending;
  }

  /** The sweep with the corrected erase: a cancelled tile's entry goes only
      while the table still holds that tile under its key. */
  method SweepCorrected(m: map<TileKey, Tile>, pending: seq<Tile>, cancelOk: set<Tile>)
    returns (kept: seq<Tile>, cancelled: seq<Tile>, remaining: map<TileKey, Tile>)
    requires KeysConsistent(m)
    ensures kept == Retained(pending, cancelOk)
    ensures cancelled == CancelledOf(pending, cancelOk)
    ensures remaining == EraseTiles(m, CancelledSet(pending, cancelOk))
  {
    kept, cancelled, remaining := [], [], m;
    ghost var erased: set<Tile> := {};
    var i := 0;
    assert EraseTiles(m, {}) == m;
    while i < |pending|
      invariant 0 <= i <= |pending|
      invariant kept == Retained(pending[..i], cancelOk)
      invariant cancelled == CancelledOf(pending[..i], cancelOk)
      invariant erased == CancelledSet(pending[..i], cancelOk)
      invariant remaining == EraseTiles(m, erased)
    {
      assert pending[..i + 1] == pending[..i] + [pending[i]];
      assert pending[..i + 1][..i] == pending[..i];
      var tile := pending[i];
      CancelledSetStep(pending[..i], tile, cancelOk);
      if tile in cancelOk {
        cancelled := cancelled + [tile];
        EraseTileStep(m, erased, tile);
        remaining := EraseTile(remaining, tile);
        erased := erased + {tile};
      } else {
        kept := kept + [tile];
      }
      i := i + 1;
    }
    assert pending[..i] == pending;
  }

  /** s is a snapshot of table m: exactly its tiles, one per entry. */
  ghost predicate IsSnapshot(s: seq<Tile>, m: map<TileKey, Tile>)
  {
    && |s| == |m|
    && Distinct(s)
    && (forall i :: 0 <= i < |s| ==> s[i].key in m && m[s[i].key] == s[i])
    && (forall k :: k in m ==> m[k] in s)
  }

  /** The request servicing of the update traversal for the live tiles s:
      pending elevation requests, then completed requests, for each tile that
      uses layer requests (sequential or preemptive loading). */
  function ServiceEvents(s: seq<Tile>, stamp: int): seq<Event>
  {
    if s == [] then []
    else
      var t := s[|s| - 1];
      ServiceEvents(s[..|s| - 1], stamp) +
      (if t.useLayerRequests then [ElevationRequestsServiced(t, stamp), CompletedRequestsServiced(t)] else [])
  }

  /** Only tiles of s that use layer requests are serviced, each once for
      elevation (with the frame's stamp) and once for completed requests. */
  lemma {:induction false} ServiceEventsOnlyFor(s: seq<Tile>, stamp: int)
    ensures forall e :: e in ServiceEvents(s, stamp) ==>
      && (e.ElevationRequestsServiced? || e.CompletedRequestsServiced?)
      && e.tile in s && e.tile.useLayerRequests
      && (e.ElevationRequestsServiced? ==> e.stamp == stamp)
    ensures forall t :: t in s && t.useLayerRequests ==>
      ElevationRequestsServiced(t, stamp) in ServiceEvents(s, stamp) && CompletedRequestsServiced(t) in ServiceEvents(s, stamp)
  {
    if s != [] {
      var init := s[..|s| - 1];
      assert s == init + [s[|s| - 1]];
      ServiceEventsOnlyFor(init, stamp);
    }
  }

  /** The image-request servicing of the cull traversal, one per tile. */
  function ImageServiceEvents(s: seq<Tile>, stamp: int): seq<Event>
  {
    seq(|s|, i requires 0 <= i < |s| => ImageRequestsServiced(s[i], stamp))
  }

  /** GL releases of the tiles of s, in order. */
  function ReleaseEvents(s: seq<Tile>): seq<Event>
  {
    seq(|s|, i requires 0 <= i < |s| => GLObjectsReleased(s[i]))
  }

  /** The decimal digits of n. */
  function DigitString(n: nat): string
  {
    if n < 10 then ["0123456789"[n]] else DigitString(n / 10) + ["0123456789"[n % 10]]
  }

  function IntToString(i: int): string
  {
    if i < 0 then "-" + DigitString(-i) else DigitString(i)
  }

  /** The name of the task service of the image layer with uid `layerId`:
      "layer " and the uid in decimal. */
  function ImageryServiceName(layerId: int): string
  {
    "layer " + IntToString(layerId)
  }

  /** A task service as the split creates it for the image layer with uid
      `layerId`: named after the layer, with no stamp and no requests yet. */
  predicate NewImageryService(service: TaskService, layerId: int)
    reads service
  {
    service.name == ImageryServiceName(layerId) && service.stamp == 0 && service.numRequests == 0
  }

  /** The largest elevation-layer weight, starting from zero. */
  method MaxElevationWeight(weights: seq<real>) returns (w: real)
    ensures w == ElevationWeight(weights)
  {
    w := 0.0;
    var i := 0;
    while i < |weights|
      invariant 0 <= i <= |weights|
      invariant w == ElevationWeight(weights[..i])
    {
      assert weights[..i + 1][..i] == weights[..i];
      if weights[i] > w {
        w := weights[i];
      }
      i := i + 1;
    }
    assert weights[..i] == weights;
  }

  /** The sum of the image-layer weights, in layer order. */
  method SumImageWeights(layers: seq<ImageLayer>) returns (w: real)
    ensures w == ImageWeight(layers)
  {
    w := 0.0;
    var i := 0;
    while i < |layers|
      invariant 0 <= i <= |layers|
      invariant w == ImageWeight(layers[..i])
    {
      assert layers[..i + 1][..i] == layers[..i];
      w := w + layers[i].weight;
      i := i + 1;
    }
    assert layers[..i] == layers;
  }

  class CustomTerrain {
    const updateMapInfo: MapInfo
    const policy: LoadingPolicy
    const quickReleaseGLObjects: bool
    const numLoadingThreads: int

    var tiles: map<TileKey, Tile>
    var tilesToAdd: seq<Tile>
    var tilesToShutDown: seq<Tile>
    var tilesToRelease: seq<Tile>
    var taskServices: map<int, TaskService>
    var quickReleaseCallbackInstalled: bool
    var onDemandDelay: int
    var events: seq<Event>

    /** Every table entry sits under its tile's key and owns a five-slot family
        array of its own; each task-service id has a service of its own; the
        redraw counter is within 0..2. */
    ghost predicate Valid()
      reads this`tiles, this`taskServices, this`onDemandDelay
    {
      && KeysConsistent(tiles)
      && (forall k :: k in tiles ==> tiles[k].family.Length == 5)
      && (forall k1, k2 :: k1 in tiles && k2 in tiles && k1 != k2 ==> tiles[k1].family != tiles[k2].family)
      && (forall i, j :: i in taskServices && j in taskServices && i != j ==> taskServices[i] != taskServices[j])
      && 0 <= onDemandDelay <= OnDemandReset
    }

    /** The family arrays of the tiles in the table. */
    ghost function FamilyArrays(): set<array<Relative>>
      reads this`tiles
    {
      set t | t in tiles.Values :: t.family
    }

    /** The family arrays of the dead tiles in the table. */
    ghost function DeadFamilies(): set<array<Relative>>
      reads this`tiles, tiles.Values
    {
      set k | k in tiles && IsDead(tiles[k]) :: tiles[k].family
    }

    /** The requests outstanding over all task services. */
    ghost function TotalRequests(): nat
      reads this, taskServices.Values
    {
      SumRequests(taskServices, taskServices.Keys)
    }

    /** The loading-thread count is fixed here, from the policy, an
        environment override and the processor count. */
    constructor (updateMapInfo: MapInfo, policy: LoadingPolicy, quickReleaseGLObjects: bool,
                 envLoadingThreads: Option<int>, processors: int)
      ensures Valid()
      ensures this.updateMapInfo == updateMapInfo
      ensures this.policy == policy && this.quickReleaseGLObjects == quickReleaseGLObjects
      ensures numLoadingThreads == LoadingThreadCount(policy, envLoadingThreads, processors)
      ensures tiles == map[] && tilesToAdd == [] && tilesToShutDown == [] && tilesToRelease == []
      ensures taskServices == map[] && !quickReleaseCallbackInstalled
      ensures onDemandDelay == OnDemandReset && events == []
    {
      this.updateMapInfo := updateMapInfo;
      this.policy := policy;
      this.quickReleaseGLObjects := quickReleaseGLObjects;
      var n := 0;
      if policy.mode != Standard {
        if envLoadingThreads.Some? {
          n := envLoadingThreads.value;
        } else if policy.numLoadingThreads.Some? {
          n := Max(1, policy.numLoadingThreads.value);
        } else {
          n := PerCoreThreads(policy.numLoadingThreadsPerCore, processors);
        }
      }
      this.numLoadingThreads := n;
      tiles := map[];
      tilesToAdd := [];
      tilesToShutDown := [];
      tilesToRelease := [];
      taskServices := map[];
      quickReleaseCallbackInstalled := false;
      onDemandDelay := OnDemandReset;
      events := [];
    }

    /** Releases the GL objects of the queued tiles, oldest first, and leaves
        the queue empty. */
    method ReleaseGLObjectsForTiles()
      requires Valid()
      modifies this`tilesToRelease, this`events
      ensures Valid()
      ensures tilesToRelease == []
      ensures events == old(events) + ReleaseEvents(old(tilesToRelease))
    {
      ghost var queued := tilesToRelease;
      ghost var n := 0;
      while |tilesToRelease| > 0
        invariant 0 <= n <= |queued|
        invariant tilesToRelease == queued[n..]
        invariant events == old(events) + ReleaseEvents(queued[..n])
        invariant Valid()
        decreases |tilesToRelease|
      {
        assert ReleaseEvents(queued[..n + 1]) == ReleaseEvents(queued[..n]) + [GLObjectsReleased(queued[n])];
        events := events + [GLObjectsReleased(tilesToRelease[0])];
        tilesToRelease := tilesToRelease[1..];
        n := n + 1;
      }
      assert queued[..n] == queued;
    }

    /** The tile registered under `key`, or null; the lock flag only chooses
        whether the table lock is taken. */
    function GetCustomTile(key: TileKey, lock: bool): (t: Tile?)
      reads this
      ensures t != null <==> key in tiles
      ensures t != null ==> t == tiles[key]
    {
      if key in tiles then tiles[key] else null
    }

    /** A copy of the table's tiles, one per entry. */
    method GetCustomTiles() returns (out: seq<Tile>)
      requires Valid()
      ensures IsSnapshot(out, tiles)
    {
      out := [];
      var rest := tiles.Keys;
      while rest != {}
        invariant rest <= tiles.Keys
        invariant |out| + |rest| == |tiles|
        invariant Distinct(out)
        invariant forall i :: 0 <= i < |out| ==> out[i].key in tiles && tiles[out[i].key] == out[i] && out[i].key !in rest
        invariant forall k :: k in tiles && k !in rest ==> tiles[k] in out
        decreases rest
      {
        HasElement(rest);
        var k :| k in rest;
        out := out + [tiles[k]];
        rest := rest - {k};
      }
    }

    /** Files the tile under its key, replacing any entry there, and queues it
        as newly added. */
    method RegisterTile(newTile: Tile)
      requires Valid()
      requires newTile.family.Length == 5
      requires forall k :: k in tiles && k != newTile.key ==> tiles[k].family != newTile.family
      modifies this`tiles, this`tilesToAdd
      ensures Valid()
      ensures tiles == old(tiles)[newTile.key := newTile]
      ensures tilesToAdd == old(tilesToAdd) + [newTile]
    {
      tiles := tiles[newTile.key := newTile];
      tilesToAdd := tilesToAdd + [newTile];
    }

    /** The requests still outstanding over all task services. */
    method NumTasksRemaining() returns (total: nat)
      ensures total == TotalRequests()
    {
      total := 0;
      var rest := taskServices.Keys;
      while rest != {}
        invariant rest <= taskServices.Keys
        invariant total + SumRequests(taskServices, rest) == TotalRequests()
        decreases rest
      {
        IntSetHasElement(rest);
        var id :| id in rest;
        SumRequestsTake(taskServices, rest, id);
        total := total + taskServices[id].numRequests;
        rest := rest - {id};
      }
    }

    /** Writes one family slot: reset to the expected flag, no elevation LOD,
        no image LODs and the relative's key; then, if the relative is in the
        table, its elevation LOD and the LOD of its transparent colour layers. */
    method FillSlot(family: array<Relative>, d: Direction, relKey: TileKey, expected: bool, lock: bool)
      requires family.Length == 5
      modifies family
      ensures family[SlotOf(d)] == LookupRelative(tiles, relKey, expected)
      ensures family[..] == old(family[..])[SlotOf(d) := family[SlotOf(d)]]
    {
      var slot := SlotOf(d);
      family[slot] := Relative(expected, -1, map[], relKey);
      var relative := GetCustomTile(relKey, lock);
      if relative != null {
        family[slot] := family[slot].(elevLOD := relative.elevationLOD);
        var layers := relative.colorLayers;
        var i := 0;
        while i < |layers|
          invariant 0 <= i <= |layers|
          invariant family[slot] == Relative(expected, relative.elevationLOD, ImageLODs(layers[..i]), relKey)
          invariant family[..] == old(family[..])[slot := family[slot]]
        {
          assert layers[..i + 1][..i] == layers[..i];
          var layer := layers[i];
          if layer.transparent {
            family[slot] := family[slot].(imageLODs := family[slot].imageLODs[layer.uid := layer.lod]);
          }
          i := i + 1;
        }
        assert layers[..i] == layers;
      }
    }

    /** Fills the family slot for direction d of the tile at `key`. */
    method FillDirection(mapInfo: MapInfo, key: TileKey, family: array<Relative>, d: Direction, lock: bool)
      requires family.Length == 5
      modifies family
      ensures family[SlotOf(d)] == old(RelativeOf(mapInfo, key, tiles, d))
      ensures family[..] == old(family[..])[SlotOf(d) := family[SlotOf(d)]]
    {
      var wrapX := mapInfo.geocentric;
      var counts := mapInfo.numTiles(key.level);
      var tileCountX, tileCountY := counts.0, counts.1;
      var relKey := if d == Parent then mapInfo.parentKey(key) else mapInfo.neighborKey(key, d);
      var expected := match d
        case Parent => true
        case West => key.x > 0 || wrapX
        case North => key.y < Pred(tileCountY)
        case East => key.x < Pred(tileCountX) || wrapX
        case South => key.y > 0;
      FillSlot(family, d, relKey, expected, lock);
      LookupsUnchanged(tiles);
    }

    /** Fills the five family slots of the tile at `key` from the table:
        parent, west, north, east, south. */
    method RefreshFamily(mapInfo: MapInfo, key: TileKey, family: array<Relative>, tileTableLocked: bool)
      requires family.Length == 5
      modifies family
      ensures family[..] == old(FamilyOf(mapInfo, key, tiles))
    {
      ghost var table := tiles;
      ghost var target := FamilyOf(mapInfo, key, tiles);
      FamilyAt(mapInfo, key, tiles, Parent);
      FamilyAt(mapInfo, key, tiles, West);
      FamilyAt(mapInfo, key, tiles, North);
      FamilyAt(mapInfo, key, tiles, East);
      FamilyAt(mapInfo, key, tiles, South);
      FillDirection(mapInfo, key, family, Parent, !tileTableLocked);
      RelativesUnchanged(table);
      FillDirection(mapInfo, key, family, West, !tileTableLocked);
      RelativesUnchanged(table);
      FillDirection(mapInfo, key, family, North, !tileTableLocked);
      RelativesUnchanged(table);
      FillDirection(mapInfo, key, family, East, !tileTableLocked);
      RelativesUnchanged(table);
      FillDirection(mapInfo, key, family, South, !tileTableLocked);
      assert family[..] == target;
    }

    /** Installs the quick-release draw hook in front of the camera's hooks,
        once, and only when quick release is on and a camera exists. */
    method InstallQuickReleaseCallback(camera: Camera?)
      modifies this`quickReleaseCallbackInstalled, camera
      ensures quickReleaseCallbackInstalled ==
        (old(quickReleaseCallbackInstalled) || (quickReleaseGLObjects && camera != null))
      ensures camera != null ==>
        (camera.postDrawHooks ==
           if quickReleaseGLObjects && !old(quickReleaseCallbackInstalled)
           then [QuickReleaseGL(this)] + old(camera.postDrawHooks)
           else old(camera.postDrawHooks))
    {
      if quickReleaseGLObjects && !quickReleaseCallbackInstalled {
        if camera != null {
          camera.postDrawHooks := [QuickReleaseGL(this)] + camera.postDrawHooks;
          quickReleaseCallbackInstalled := true;
        }
      }
    }

    /** Moves the dead tiles of the snapshot to the shutdown list and returns
        the rest, both in snapshot order. The erase-while-iterating of the
        working copy is written as building the copy that remains. */
    method CollectDeadTiles(snapshot: seq<Tile>) returns (live: seq<Tile>)
      requires Valid()
      modifies this`tilesToShutDown
      ensures Valid()
      ensures live == old(LiveOf(snapshot))
      ensures tilesToShutDown == old(tilesToShutDown + DeadOf(snapshot))
    {
      live := [];
      var i := 0;
      while i < |snapshot|
        invariant 0 <= i <= |snapshot|
        invariant live == old(LiveOf(snapshot[..i]))
        invariant tilesToShutDown == old(tilesToShutDown + DeadOf(snapshot[..i]))
      {
        assert snapshot[..i + 1][..i] == snapshot[..i];
        var tile := snapshot[i];
        assert IsDead(tile) == old(IsDead(tile));
        if IsDead(tile) {
          tilesToShutDown := tilesToShutDown + [tile];
        } else {
          live := live + [tile];
        }
        i := i + 1;
      }
      assert snapshot[..i] == snapshot;
    }

    /** Sweeps the shutdown list: a tile whose requests cancel (it is in
        `cancelOk`) leaves the list and the table, and is queued for GL release
        when quick release is on and its hook installed; any other tile stays
        for the next update. The erase-while-iterating of the list is written
        as building the list that remains. */
    method ShutDownDeadTiles(cancelOk: set<Tile>)
      requires Valid()
      modifies this`tiles, this`tilesToShutDown, this`tilesToRelease
      ensures Valid()
      ensures tilesToShutDown == Retained(old(tilesToShutDown), cancelOk)
      ensures tilesToRelease == old(tilesToRelease) +
        (if quickReleaseGLObjects && quickReleaseCallbackInstalled then CancelledOf(old(tilesToShutDown), cancelOk) else [])
      ensures tiles == EraseKeys(old(tiles), CancelledSet(old(tilesToShutDown), cancelOk))
    {
      var kept, cancelled, remaining := Sweep(tiles, tilesToShutDown, cancelOk);
      if quickReleaseGLObjects && quickReleaseCallbackInstalled {
        tilesToRelease := tilesToRelease + cancelled;
      }
      tiles := remaining;
      tilesToShutDown := kept;
    }

    /** Gives every task service the frame's stamp; nothing else changes. */
    method BroadcastFrameStamp(stamp: int)
      modifies taskServices.Values
      ensures forall id :: id in taskServices ==> taskServices[id].stamp == stamp
      ensures forall id :: id in taskServices ==>
        taskServices[id].numThreads == old(taskServices[id].numThreads) &&
        taskServices[id].numRequests == old(taskServices[id].numRequests)
    {
      var rest := taskServices.Keys;
      while rest != {}
        invariant rest <= taskServices.Keys
        invariant forall id :: id in taskServices && id !in rest ==> taskServices[id].stamp == stamp
        invariant forall id :: id in taskServices ==>
          taskServices[id].numThreads == old(taskServices[id].numThreads) &&
          taskServices[id].numRequests == old(taskServices[id].numRequests)
        decreases rest
      {
        IntSetHasElement(rest);
        var id :| id in rest;
        taskServices[id].SetStamp(stamp);
        rest := rest - {id};
      }
    }

    /** Refreshes the family of one live tile from the table and, if it uses
        layer requests, services its pending elevation requests and then its
        completed requests. */
    method UpdateLiveTile(tile: Tile, stamp: int)
      requires Valid()
      requires tile.family.Length == 5
      modifies tile.family, this`events
      ensures Valid()
      ensures tile.family[..] == old(FamilyOf(updateMapInfo, tile.key, tiles))
      ensures events == old(events) + ServiceEvents([tile], stamp)
    {
      RefreshFamily(updateMapInfo, tile.key, tile.family, true);
      assert [tile][..0] == [];
      if tile.useLayerRequests {
        events := events + [ElevationRequestsServiced(tile, stamp), CompletedRequestsServiced(tile)];
      }
    }

    /** Refreshes the family of every live tile from the table and services
        the requests of those that use layer requests, in order. The family
        arrays of `others`, none of them a live tile's, are left untouched. */
    method RefreshLiveTiles(live: seq<Tile>, stamp: int, ghost others: set<array<Relative>>)
      requires Valid()
      requires forall i :: 0 <= i < |live| ==> live[i].family.Length == 5
      requires forall i, j :: 0 <= i < j < |live| ==> live[i].family != live[j].family
      requires forall i :: 0 <= i < |live| ==> live[i].family !in others
      modifies set i | 0 <= i < |live| :: live[i].family, this`events
      ensures Valid()
      ensures forall a :: a in others ==> unchanged(a)
      ensures forall i :: 0 <= i < |live| ==> live[i].family[..] == FamilyOf(updateMapInfo, live[i].key, tiles)
      ensures events == old(events) + ServiceEvents(live, stamp)
    {
      var i := 0;
      while i < |live|
        invariant 0 <= i <= |live|
        invariant forall j :: 0 <= j < i ==> live[j].family[..] == old(FamilyOf(updateMapInfo, live[j].key, tiles))
        invariant events == old(events) + ServiceEvents(live[..i], stamp)
        invariant forall a :: a in others ==> unchanged(a)
        invariant Valid()
      {
        assert live[..i + 1][..i] == live[..i];
        assert ServiceEvents(live[..i + 1], stamp) == ServiceEvents(live[..i], stamp) + ServiceEvents([live[i]], stamp);
        var tile := live[i];
        UpdateLiveTile(tile, stamp);
        i := i + 1;
      }
      assert live[..i] == live;
      FamiliesUnchanged(tiles);
    }

    /** The live tiles of a snapshot of the table own five-slot family arrays
        of the table, one each. */
    lemma LiveTilesOwnFamilies(s: seq<Tile>)
      requires Valid() && IsSnapshot(s, tiles)
      ensures var live := LiveOf(s);
        && (forall i :: 0 <= i < |live| ==> live[i].family.Length == 5 && live[i].family in FamilyArrays())
        && (forall i, j :: 0 <= i < j < |live| ==> live[i].family != live[j].family)
        && (forall k, i :: k in tiles && IsDead(tiles[k]) && 0 <= i < |live| ==> live[i].family != tiles[k].family)
        && (forall i :: 0 <= i < |live| ==> live[i].family !in DeadFamilies())
    {
      var live := LiveOf(s);
      DeadLiveSound(s);
      DeadLiveDistinct(s);
      forall i | 0 <= i < |live| ensures live[i].key in tiles && tiles[live[i].key] == live[i] {
        assert live[i] in s;
      }
    }

    /** The reaping half of the update traversal: install the quick-release
        hook if due, snapshot the table, move dead tiles to the shutdown list
        and sweep that list. Returns the live tiles of the snapshot, in
        order, with the family arrays they own. `cancelOk` holds the tiles
        whose cancelRequests() succeeds this frame. */
    method ReapDeadTiles(camera: Camera?, cancelOk: set<Tile>) returns (live: seq<Tile>, ghost snapshot: seq<Tile>)
      requires Valid()
      modifies this`quickReleaseCallbackInstalled, camera, this`tiles, this`tilesToShutDown, this`tilesToRelease
      ensures Valid()
      ensures quickReleaseCallbackInstalled ==
        (old(quickReleaseCallbackInstalled) || (quickReleaseGLObjects && camera != null))
      ensures camera != null ==>
        (camera.postDrawHooks ==
           if quickReleaseGLObjects && !old(quickReleaseCallbackInstalled)
           then [QuickReleaseGL(this)] + old(camera.postDrawHooks)
           else old(camera.postDrawHooks))
      ensures IsSnapshot(snapshot, old(tiles))
      ensures live == old(LiveOf(snapshot))
      ensures tilesToShutDown == Retained(old(tilesToShutDown + DeadOf(snapshot)), cancelOk)
      ensures tiles == EraseKeys(old(tiles), CancelledSet(old(tilesToShutDown + DeadOf(snapshot)), cancelOk))
      ensures tilesToRelease == old(tilesToRelease) +
        (if quickReleaseGLObjects && quickReleaseCallbackInstalled
         then CancelledOf(old(tilesToShutDown + DeadOf(snapshot)), cancelOk) else [])
      ensures forall i :: 0 <= i < |live| ==> live[i].family.Length == 5 && live[i].family in old(FamilyArrays())
      ensures forall i, j :: 0 <= i < j < |live| ==> live[i].family != live[j].family
      ensures forall k, i :: k in old(tiles) && old(IsDead(tiles[k])) && 0 <= i < |live| ==>
        live[i].family != old(tiles[k]).family
      ensures forall i :: 0 <= i < |live| ==> live[i].family !in old(DeadFamilies())
    {
      InstallQuickReleaseCallback(camera);
      var current := GetCustomTiles();
      snapshot := current;
      DeadLiveUnchanged(current);
      LiveTilesOwnFamilies(current);
      live := CollectDeadTiles(current);
      ShutDownDeadTiles(cancelOk);
    }

    /** The update traversal: reap dead tiles, stamp the task services with
        the frame number, then refresh the family of every live tile from the
        swept table and service its requests. `snapshot` is the snapshot the
        step worked on. */
    method UpdateTraversal(camera: Camera?, frameNumber: int, cancelOk: set<Tile>) returns (ghost snapshot: seq<Tile>)
      requires Valid()
      modifies this`quickReleaseCallbackInstalled, this`tiles, this`tilesToShutDown, this`tilesToRelease, this`events
      modifies camera, taskServices.Values, FamilyArrays()
      ensures Valid()
      ensures quickReleaseCallbackInstalled ==
        (old(quickReleaseCallbackInstalled) || (quickReleaseGLObjects && camera != null))
      ensures camera != null ==>
        (camera.postDrawHooks ==
           if quickReleaseGLObjects && !old(quickReleaseCallbackInstalled)
           then [QuickReleaseGL(this)] + old(camera.postDrawHooks)
           else old(camera.postDrawHooks))
      ensures IsSnapshot(snapshot, old(tiles))
      ensures tilesToShutDown == Retained(old(tilesToShutDown + DeadOf(snapshot)), cancelOk)
      ensures tiles == EraseKeys(old(tiles), CancelledSet(old(tilesToShutDown + DeadOf(snapshot)), cancelOk))
      ensures tilesToRelease == old(tilesToRelease) +
        (if quickReleaseGLObjects && quickReleaseCallbackInstalled
         then CancelledOf(old(tilesToShutDown + DeadOf(snapshot)), cancelOk) else [])
      ensures taskServices == old(taskServices)
      ensures forall id :: id in taskServices ==> taskServices[id].stamp == frameNumber
      ensures forall id :: id in taskServices ==>
        taskServices[id].numThreads == old(taskServices[id].numThreads) &&
        taskServices[id].numRequests == old(taskServices[id].numRequests)
      ensures var live := old(LiveOf(snapshot));
        forall i :: 0 <= i < |live| ==> live[i].family[..] == FamilyOf(updateMapInfo, live[i].key, tiles)
      ensures forall a :: a in old(DeadFamilies()) ==> unchanged(a)
      ensures events == old(events) + ServiceEvents(old(LiveOf(snapshot)), frameNumber)
    {
      ghost var dead := DeadFamilies();
      var live;
      live, snapshot := ReapDeadTiles(camera, cancelOk);
      BroadcastFrameStamp(frameNumber);
      RefreshLiveTiles(live, frameNumber, dead);
    }

    /** The cull traversal: outside standard mode, every tile of a snapshot
        services its pending image requests with the frame's stamp. */
    method CullTraversal(frameNumber: int) returns (ghost snapshot: seq<Tile>)
      requires Valid()
      modifies this`events
      ensures Valid()
      ensures policy.mode == Standard ==> events == old(events)
      ensures policy.mode != Standard ==>
        IsSnapshot(snapshot, tiles) && events == old(events) + ImageServiceEvents(snapshot, frameNumber)
    {
      snapshot := [];
      if policy.mode != Standard {
        var current := GetCustomTiles();
        snapshot := current;
        var i := 0;
        while i < |current|
          invariant 0 <= i <= |current|
          invariant events == old(events) + ImageServiceEvents(current[..i], frameNumber)
          invariant Valid()
        {
          assert ImageServiceEvents(current[..i + 1], frameNumber) ==
            ImageServiceEvents(current[..i], frameNumber) + [ImageRequestsServiced(current[i], frameNumber)];
          events := events + [ImageRequestsServiced(current[i], frameNumber)];
          i := i + 1;
        }
        assert current[..i] == current;
      }
    }

    /** The event traversal: with tasks outstanding the counter is reset to
        two; a redraw is requested while it is positive, and it then counts
        down. */
    method EventTraversal() returns (redraw: bool)
      requires Valid()
      modifies this`onDemandDelay, this`events
      ensures Valid()
      ensures redraw == RedrawDue(old(onDemandDelay), TotalRequests())
      ensures onDemandDelay == DelayAfter(old(onDemandDelay), TotalRequests())
      ensures events == old(events) + (if redraw then [RedrawRequested] else [])
    {
      var numTasks := NumTasksRemaining();
      if numTasks > 0 {
        onDemandDelay := OnDemandReset;
      }
      redraw := onDemandDelay > 0;
      if redraw {
        events := events + [RedrawRequested];
        onDemandDelay := onDemandDelay - 1;
      }
    }

    /** The service under `id`: the existing one, untouched, or else a new
        one with `numThreads` threads, and the map gains that one entry. */
    method CreateTaskService(name: string, id: int, numThreads: int) returns (service: TaskService)
      requires Valid()
      modifies this`taskServices
      ensures Valid()
      ensures id in old(taskServices) ==> taskServices == old(taskServices) && service == old(taskServices)[id]
      ensures id !in old(taskServices) ==>
        && fresh(service) && taskServices == old(taskServices)[id := service]
        && service.name == name && service.numThreads == numThreads
        && service.stamp == 0 && service.numRequests == 0
    {
      if id in taskServices {
        return taskServices[id];
      }
      service := new TaskService(name, numThreads);
      taskServices := taskServices[id := service];
    }

    /** The service under `id`, or null. */
    function GetTaskService(id: int): (service: TaskService?)
      reads this
      ensures service != null <==> id in taskServices
      ensures service != null ==> service == taskServices[id]
    {
      if id in taskServices then taskServices[id] else null
    }

    /** Get-or-create of the service under `id`. */
    method GetOrCreate(name: string, id: int, numThreads: int) returns (service: TaskService)
      requires Valid()
      modifies this`taskServices
      ensures Valid()
      ensures id in old(taskServices) ==> taskServices == old(taskServices) && service == old(taskServices)[id]
      ensures id !in old(taskServices) ==>
        && fresh(service) && taskServices == old(taskServices)[id := service]
        && service.name == name && service.numThreads == numThreads
        && service.stamp == 0 && service.numRequests == 0
    {
      var existing := GetTaskService(id);
      if existing != null {
        service := existing;
      } else {
        service := CreateTaskService(name, id, numThreads);
      }
    }

    /** The elevation service: id 9999, created with one thread. */
    method GetElevationTaskService() returns (service: TaskService)
      requires Valid()
      modifies this`taskServices
      ensures Valid()
      ensures var id := ELEVATION_TASK_SERVICE_ID;
        && (id in old(taskServices) ==> taskServices == old(taskServices) && service == old(taskServices)[id])
        && (id !in old(taskServices) ==>
              && fresh(service) && taskServices == old(taskServices)[id := service]
              && service.name == "elevation" && service.numThreads == 1
              && service.stamp == 0 && service.numRequests == 0)
    {
      service := GetOrCreate("elevation", ELEVATION_TASK_SERVICE_ID, 1);
    }

    /** The service of an image layer: keyed by the layer's uid, created
        with one thread. */
    method GetImageryTaskService(layerId: int) returns (service: TaskService)
      requires Valid()
      modifies this`taskServices
      ensures Valid()
      ensures layerId in old(taskServices) ==> taskServices == old(taskServices) && service == old(taskServices)[layerId]
      ensures layerId !in old(taskServices) ==>
        && fresh(service) && taskServices == old(taskServices)[layerId := service]
        && service.name == ImageryServiceName(layerId) && service.numThreads == 1
        && service.stamp == 0 && service.numRequests == 0
    {
      service := GetOrCreate(ImageryServiceName(layerId), layerId, 1);
    }

    /** The tile-generation service: id 10000, created with the compile
        thread count of the policy. */
    method GetTileGenerationTaskService(processors: int) returns (service: TaskService)
      requires Valid()
      modifies this`taskServices
      ensures Valid()
      ensures var id := TILE_GENERATION_TASK_SERVICE_ID;
        && (id in old(taskServices) ==> taskServices == old(taskServices) && service == old(taskServices)[id])
        && (id !in old(taskServices) ==>
              && fresh(service) && taskServices == old(taskServices)[id := service]
              && service.name == "tilegen" && service.stamp == 0 && service.numRequests == 0
              && service.numThreads == CompileThreadCount(policy, processors))
    {
      var numCompileThreads :=
        if policy.numCompileThreads.Some? then Max(1, policy.numCompileThreads.value)
        else PerCoreThreads(policy.numCompileThreadsPerCore, processors);
      service := GetOrCreate("tilegen", TILE_GENERATION_TASK_SERVICE_ID, numCompileThreads);
    }

    /** Sets the thread count of the service under `layerId`, creating it as
        an image-layer service if it is missing; no other entry changes. */
    method ResizeImageryService(layerId: int, n: int)
      requires Valid()
      modifies this`taskServices, taskServices.Values
      ensures Valid()
      ensures taskServices.Keys == old(taskServices).Keys + {layerId}
      ensures forall id :: id in old(taskServices) ==> taskServices[id] == old(taskServices)[id]
      ensures layerId !in old(taskServices) ==> fresh(taskServices[layerId])
      ensures forall x :: x in taskServices.Values ==> x in old(taskServices.Values) || fresh(x)
      ensures taskServices[layerId].numThreads == n
      ensures forall id :: id in old(taskServices) && id != layerId ==>
        taskServices[id].numThreads == old(taskServices[id].numThreads)
      ensures forall id :: id in old(taskServices) ==>
        taskServices[id].stamp == old(taskServices[id].stamp) &&
        taskServices[id].numRequests == old(taskServices[id].numRequests)
      ensures layerId !in old(taskServices) ==>
        NewImageryService(taskServices[layerId], layerId)
    {
      var service := GetImageryTaskService(layerId);
      service.SetNumThreads(n);
    }

    /** The elevation part of the split: when the elevation weight is
        positive, the elevation service (created if missing) gets its share;
        as ThreadPlan lists it for no image layers. */
    method ResizeElevationService(elevationWeight: real, totalWeight: real)
      requires Valid()
      requires elevationWeight > 0.0 ==> totalWeight != 0.0
      modifies this`taskServices, taskServices.Values
      ensures Valid()
      ensures var plan := ThreadPlan(numLoadingThreads, elevationWeight, totalWeight, []);
        && taskServices.Keys == old(taskServices).Keys + plan.Keys
        && (forall id :: id in old(taskServices) ==> taskServices[id] == old(taskServices)[id])
        && (forall x :: x in taskServices.Values ==> x in old(taskServices.Values) || fresh(x))
        && (forall id :: id in plan ==> taskServices[id].numThreads == plan[id])
        && (forall id :: id in old(taskServices) && id !in plan ==>
              taskServices[id].numThreads == old(taskServices[id].numThreads))
      ensures forall id :: id in old(taskServices) ==>
        taskServices[id].stamp == old(taskServices[id].stamp) &&
        taskServices[id].numRequests == old(taskServices[id].numRequests)
      ensures forall id :: id in taskServices && id !in old(taskServices) ==>
        && taskServices[id].name == "elevation"
        && taskServices[id].stamp == 0 && taskServices[id].numRequests == 0
    {
      if elevationWeight > 0.0 {
        var numElevationThreads := Round(numLoadingThreads as real * (elevationWeight / totalWeight));
        var service := GetElevationTaskService();
        service.SetNumThreads(numElevationThreads);
      }
    }

    /** The services hold `orig` with the counts of `plan` applied: the
        plan's ids are added, existing ids keep their service, planned ids have
        the planned count and every other id keeps its original count. */
    ghost predicate PlanHolds(orig: map<int, TaskService>, origThreads: map<int, int>, plan: map<int, int>)
      reads this`taskServices, taskServices.Values
    {
      && taskServices.Keys == orig.Keys + plan.Keys
      && (forall id :: id in orig ==> taskServices[id] == orig[id])
      && (forall id :: id in plan ==> taskServices[id].numThreads == plan[id])
      && (forall id :: id in orig && id in origThreads && id !in plan ==> taskServices[id].numThreads == origThreads[id])
    }

    /** Every service added since `orig` is a new image-layer service. */
    ghost predicate NewServicesNamed(orig: map<int, TaskService>)
      reads this`taskServices, taskServices.Values
    {
      forall id :: id in taskServices && id !in orig ==> NewImageryService(taskServices[id], id)
    }

    /** One layer of the image split: sets the layer's share and extends the plan. */
    method ApplyShare(layerId: int, n: int, ghost orig: map<int, TaskService>, ghost origThreads: map<int, int>, ghost plan: map<int, int>)
      requires Valid() && origThreads.Keys == orig.Keys
      requires PlanHolds(orig, origThreads, plan)
      requires NewServicesNamed(orig)
      modifies this`taskServices, taskServices.Values
      ensures Valid()
      ensures PlanHolds(orig, origThreads, plan[layerId := n])
      ensures forall id :: id in old(taskServices) ==>
        taskServices[id].stamp == old(taskServices[id].stamp) &&
        taskServices[id].numRequests == old(taskServices[id].numRequests)
      ensures NewServicesNamed(orig)
      ensures forall x :: x in taskServices.Values ==> x in old(taskServices.Values) || fresh(x)
    {
      ResizeImageryService(layerId, n);
    }

    /** The image part of the split: each layer's service, in layer order and
        created if missing, gets the layer's share; as ThreadPlan lists them
        for a zero elevation weight. */
    method ResizeImageryServices(imageLayers: seq<ImageLayer>, totalWeight: real)
      requires Valid()
      requires imageLayers != [] ==> totalWeight != 0.0
      modifies this`taskServices, taskServices.Values
      ensures Valid()
      ensures var plan := ThreadPlan(numLoadingThreads, 0.0, totalWeight, imageLayers);
        && taskServices.Keys == old(taskServices).Keys + plan.Keys
        && (forall id :: id in old(taskServices) ==> taskServices[id] == old(taskServices)[id])
        && (forall x :: x in taskServices.Values ==> x in old(taskServices.Values) || fresh(x))
        && (forall id :: id in plan ==> taskServices[id].numThreads == plan[id])
        && (forall id :: id in old(taskServices) && id !in plan ==>
              taskServices[id].numThreads == old(taskServices[id].numThreads))
      ensures forall id :: id in old(taskServices) ==>
        taskServices[id].stamp == old(taskServices[id].stamp) &&
        taskServices[id].numRequests == old(taskServices[id].numRequests)
      ensures forall id :: id in taskServices && id !in old(taskServices) ==>
        NewImageryService(taskServices[id], id)
    {
      ghost var orig := taskServices;
      ghost var origThreads := map id | id in taskServices :: taskServices[id].numThreads;
      ghost var plan: map<int, int> := map[];
      var i := 0;
      assert imageLayers[..0] == [];
      while i < |imageLayers|
        invariant 0 <= i <= |imageLayers|
        invariant Valid()
        invariant plan == ThreadPlan(numLoadingThreads, 0.0, totalWeight, imageLayers[..i])
        invariant PlanHolds(orig, origThreads, plan)
        invariant forall id :: id in old(taskServices) ==>
          taskServices[id].stamp == old(taskServices[id].stamp) &&
          taskServices[id].numRequests == old(taskServices[id].numRequests)
        invariant NewServicesNamed(orig)
        invariant forall x :: x in taskServices.Values ==> x in old(taskServices.Values) || fresh(x)
      {
        var layer := imageLayers[i];
        var imageThreads := Share(numLoadingThreads, layer.weight, totalWeight);
        ThreadPlanStep(numLoadingThreads, 0.0, totalWeight, imageLayers, i);
        ApplyShare(layer.uid, imageThreads, orig, origThreads, plan);
        plan := plan[layer.uid := imageThreads];
        i := i + 1;
      }
      assert imageLayers[..i] == imageLayers;
    }

    /** Splits the loading threads over the layers by loading weight: the
        elevation service (when the largest elevation weight is positive) and
        the service of each image layer get round(threads * weight / total),
        as ThreadPlan lists them; missing services are created, and no other
        service's thread count changes. */
    method UpdateTaskServiceThreads(elevationWeights: seq<real>, imageLayers: seq<ImageLayer>)
      requires Valid()
      requires ElevationWeight(elevationWeights) > 0.0 || imageLayers != [] ==>
        TotalWeight(elevationWeights, imageLayers) != 0.0
      modifies this`taskServices, taskServices.Values
      ensures Valid()
      ensures var plan := ThreadPlan(numLoadingThreads, ElevationWeight(elevationWeights),
                                     TotalWeight(elevationWeights, imageLayers), imageLayers);
        && taskServices.Keys == old(taskServices).Keys + plan.Keys
        && (forall id :: id in old(taskServices) ==> taskServices[id] == old(taskServices)[id])
        && (forall x :: x in taskServices.Values ==> x in old(taskServices.Values) || fresh(x))
        && (forall id :: id in plan ==> taskServices[id].numThreads == plan[id])
        && (forall id :: id in old(taskServices) && id !in plan ==>
              taskServices[id].numThreads == old(taskServices[id].numThreads))
      ensures forall id :: id in old(taskServices) ==>
        taskServices[id].stamp == old(taskServices[id].stamp) &&
        taskServices[id].numRequests == old(taskServices[id].numRequests)
      ensures forall id :: id in taskServices && id !in old(taskServices) ==>
        && taskServices[id].name ==
             (if id == ELEVATION_TASK_SERVICE_ID && ElevationWeight(elevationWeights) > 0.0
              then "elevation" else ImageryServiceName(id))
        && taskServices[id].stamp == 0 && taskServices[id].numRequests == 0
    {
      var elevationWeight := MaxElevationWeight(elevationWeights);
      var totalImageWeight := SumImageWeights(imageLayers);
      var totalWeight := elevationWeight + totalImageWeight;
      ResizeElevationService(elevationWeight, totalWeight);
      ResizeImageryServices(imageLayers, totalWeight);
      ThreadPlanSplit(numLoadingThreads, elevationWeight, totalWeight, imageLayers);
    }
  }
}
