/** Loading policy and thread allocation: how many loading threads the
    terrain uses, how many tile-generation threads, and how the loading threads
    are split across elevation and imagery layers by loading weight.
    Floating-point values of the source are reals here. */
module Loading {

  datatype Option<T> = None | Some(value: T)

  datatype LoadingMode = Standard | Sequential | Preemptive

  /** The loading policy; a `None` count is an option the configuration did
      not set. */
  datatype LoadingPolicy = LoadingPolicy(
    mode: LoadingMode,
    numLoadingThreads: Option<int>,
    numLoadingThreadsPerCore: real,
    numCompileThreads: Option<int>,
    numCompileThreadsPerCore: real)

  /** The policy without any configuration: standard mode, four loading
      threads and half a compile thread per processor. */
  const DefaultPolicy := LoadingPolicy(Standard, None, 4.0, None, 0.5)

  /** Task-service ids reserved for elevation and for tile generation. */
  const ELEVATION_TASK_SERVICE_ID := 9999
  const TILE_GENERATION_TASK_SERVICE_ID := 10000

  function Max(a: int, b: int): int
  {
    if a >= b then a else b
  }

  /** `(int) max(1.0, perCore * processors)`: the float is at least one, so the
      truncating cast is the floor. */
  function PerCoreThreads(perCore: real, processors: int): (n: int)
    ensures n >= 1
    ensures n as real <= perCore * processors as real || n == 1
    ensures perCore * processors as real < n as real + 1.0
  {
    var x := perCore * processors as real;
    (if x >= 1.0 then x else 1.0).Floor
  }

  /** The number of loading threads chosen when the terrain is built: none
      in standard mode; otherwise an environment override as given, else the
      configured count (at least one), else the per-processor value. */
  function LoadingThreadCount(policy: LoadingPolicy, envOverride: Option<int>, processors: int): (n: int)
    ensures policy.mode == Standard ==> n == 0
    ensures policy.mode != Standard && envOverride.Some? ==> n == envOverride.value
    ensures policy.mode != Standard && envOverride.None? ==> n >= 1
    ensures policy.mode != Standard && envOverride.None? && policy.numLoadingThreads.Some? ==>
              n == (if policy.numLoadingThreads.value >= 1 then policy.numLoadingThreads.value else 1)
    ensures policy.mode != Standard && envOverride.None? && policy.numLoadingThreads.None? ==>
              n == PerCoreThreads(policy.numLoadingThreadsPerCore, processors)
  {
    if policy.mode == Standard then 0
    else if envOverride.Some? then envOverride.value
    else if policy.numLoadingThreads.Some? then Max(1, policy.numLoadingThreads.value)
    else PerCoreThreads(policy.numLoadingThreadsPerCore, processors)
  }

  /** The thread count of the tile-generation service: the configured compile
      thread count, else the per-processor value, and never below one. */
  function CompileThreadCount(policy: LoadingPolicy, processors: int): (n: int)
    ensures n >= 1
    ensures policy.numCompileThreads.Some? ==>
              n == (if policy.numCompileThreads.value >= 1 then policy.numCompileThreads.value else 1)
    ensures policy.numCompileThreads.None? ==> n == PerCoreThreads(policy.numCompileThreadsPerCore, processors)
  {
    if policy.numCompileThreads.Some? then Max(1, policy.numCompileThreads.value)
    else PerCoreThreads(policy.numCompileThreadsPerCore, processors)
  }

  /** With no configured counts, a non-standard mode uses four loading threads
      per processor and the tile-generation service half a thread per
      processor, but at least one. */
  lemma DefaultCounts(mode: LoadingMode, processors: nat)
    requires mode != Standard && processors >= 1
    ensures LoadingThreadCount(DefaultPolicy.(mode := mode), None, processors) == 4 * processors
    ensures CompileThreadCount(DefaultPolicy, processors) == Max(1, processors / 2)
  {
  }

  /** `osg::round`: to the nearest integer, halves away from zero. */
  function Round(r: real): (n: int)
    ensures n as real - r <= 0.5 && r - n as real <= 0.5
    ensures r >= 0.0 ==> n >= 0
    ensures r <= 0.0 ==> n <= 0
    ensures r >= 0.0 ==> r - n as real < 0.5
    ensures r < 0.0 ==> n as real - r < 0.5
  {
    if r >= 0.0 then (r + 0.5).Floor else -((-r + 0.5).Floor)
  }

  /** An image layer as the thread split sees it: its uid and loading weight. */
  datatype ImageLayer = ImageLayer(uid: int, weight: real)

  /** The elevation weight: the largest elevation-layer weight, starting from
      zero, so the maximum and not the sum. */
  function ElevationWeight(weights: seq<real>): (w: real)
    ensures w >= 0.0
    ensures forall i :: 0 <= i < |weights| ==> weights[i] <= w
    ensures w == 0.0 || exists i :: 0 <= i < |weights| && weights[i] == w
  {
    if weights == [] then 0.0
    else
      var m := ElevationWeight(weights[..|weights| - 1]);
      var last := weights[|weights| - 1];
      if last > m then last else m
  }

  /** The sum of the image-layer weights. */
  function ImageWeight(layers: seq<ImageLayer>): real
  {
    if layers == [] then 0.0 else ImageWeight(layers[..|layers| - 1]) + layers[|layers| - 1].weight
  }

  /** The weight all shares are taken of. */
  function TotalWeight(elevationWeights: seq<real>, layers: seq<ImageLayer>): real
  {
    ElevationWeight(elevationWeights) + ImageWeight(layers)
  }

  /** The threads given to a layer of weight w out of n loading threads. */
  function Share(n: int, w: real, total: real): int
    requires total != 0.0
  {
    Round(n as real * (w / total))
  }

  /** A layer of weight zero gets no thread, and a layer never gets more than
      half a thread away from its exact proportion. */
  lemma ShareBounds(n: int, w: real, total: real)
    requires total != 0.0
    ensures w == 0.0 ==> Share(n, w, total) == 0
    ensures Share(n, w, total) as real - n as real * w / total <= 0.5
    ensures n as real * w / total - Share(n, w, total) as real <= 0.5
  {
    assert n as real * (w / total) == n as real * w / total;
  }

  /** The per-service thread counts the split assigns, by task-service id:
      the elevation service when its weight is positive, then every image
      layer in order, a later layer with the same uid overwriting. */
  function ThreadPlan(n: int, elevationWeight: real, total: real, layers: seq<ImageLayer>): map<int, int>
    requires elevationWeight > 0.0 || layers != [] ==> total != 0.0
  {
    if layers == [] then
      if elevationWeight > 0.0 then map[ELEVATION_TASK_SERVICE_ID := Share(n, elevationWeight, total)] else map[]
    else
      var last := layers[|layers| - 1];
      ThreadPlan(n, elevationWeight, total, layers[..|layers| - 1])[last.uid := Share(n, last.weight, total)]
  }

  /** The plan for one more layer assigns that layer its share. */
  lemma ThreadPlanStep(n: int, elevationWeight: real, total: real, layers: seq<ImageLayer>, i: nat)
    requires i < |layers| && total != 0.0
    ensures ThreadPlan(n, elevationWeight, total, layers[..i + 1]) ==
      ThreadPlan(n, elevationWeight, total, layers[..i])[layers[i].uid := Share(n, layers[i].weight, total)]
  {
    assert layers[..i + 1][..i] == layers[..i];
  }

  /** The plan is the elevation entry overridden by the image-layer entries. */
  lemma {:induction false} ThreadPlanSplit(n: int, elevationWeight: real, total: real, layers: seq<ImageLayer>)
    requires elevationWeight > 0.0 || layers != [] ==> total != 0.0
    ensures ThreadPlan(n, elevationWeight, total, layers) ==
      ThreadPlan(n, elevationWeight, total, []) + ThreadPlan(n, 0.0, total, layers)
  {
    if layers != [] {
      ThreadPlanSplit(n, elevationWeight, total, layers[..|layers| - 1]);
    }
  }

  /** Image-layer uids are pairwise distinct and differ from the elevation id. */
  ghost predicate DistinctUids(layers: seq<ImageLayer>)
  {
    && (forall i, j :: 0 <= i < j < |layers| ==> layers[i].uid != layers[j].uid)
    && (forall i :: 0 <= i < |layers| ==> layers[i].uid != ELEVATION_TASK_SERVICE_ID)
  }

  /** When uids do not collide: the plan covers the elevation service (if its
      weight is positive) and every image layer, and gives each its
      round(n * weight / total) share. */
  lemma {:induction false} ThreadPlanShares(n: int, elevationWeight: real, total: real, layers: seq<ImageLayer>)
    requires elevationWeight > 0.0 || layers != [] ==> total != 0.0
    requires DistinctUids(layers)
    ensures var plan := ThreadPlan(n, elevationWeight, total, layers);
      && (forall id :: id in plan <==>
            (id == ELEVATION_TASK_SERVICE_ID && elevationWeight > 0.0) ||
            exists i :: 0 <= i < |layers| && layers[i].uid == id)
      && (elevationWeight > 0.0 ==> plan[ELEVATION_TASK_SERVICE_ID] == Share(n, elevationWeight, total))
      && (forall i :: 0 <= i < |layers| ==> plan[layers[i].uid] == Share(n, layers[i].weight, total))
  {
    if layers != [] {
      var k := |layers| - 1;
      var init := layers[..k];
      assert forall i :: 0 <= i < k ==> init[i] == layers[i];
      ThreadPlanShares(n, elevationWeight, total, init);
      var plan := ThreadPlan(n, elevationWeight, total, layers);
      forall id ensures id in plan <==>
          (id == ELEVATION_TASK_SERVICE_ID && elevationWeight > 0.0) ||
          exists i :: 0 <= i < |layers| && layers[i].uid == id
      {
        if exists i :: 0 <= i < |layers| && layers[i].uid == id {
          var i :| 0 <= i < |layers| && layers[i].uid == id;
          if i < k { assert init[i].uid == id; }
        }
      }
    }
  }

  /** The shares need not stay within the thread budget: with two threads
      and three layers of equal weight, each layer rounds up to one thread. */
  lemma RoundedSharesCanExceedBudget()
    ensures var layers := [ImageLayer(1, 1.0), ImageLayer(2, 1.0), ImageLayer(3, 1.0)];
      && TotalWeight([], layers) == 3.0
      && var plan := ThreadPlan(2, 0.0, 3.0, layers);
         plan.Keys == {1, 2, 3} && plan[1] + plan[2] + plan[3] == 3
  {
    var layers := [ImageLayer(1, 1.0), ImageLayer(2, 1.0), ImageLayer(3, 1.0)];
    assert layers[..2] == [ImageLayer(1, 1.0), ImageLayer(2, 1.0)];
    assert layers[..2][..1] == [ImageLayer(1, 1.0)];
    assert layers[..2][..1][..0] == [];
    assert ImageWeight(layers[..2][..1]) == 1.0;
    assert ImageWeight(layers[..2]) == 2.0;
    assert ImageWeight(layers) == 3.0;
    assert Share(2, 1.0, 3.0) == 1;
    assert ThreadPlan(2, 0.0, 3.0, layers[..2][..1][..0]) == map[];
    assert ThreadPlan(2, 0.0, 3.0, layers[..2][..1]) == map[1 := 1];
    assert ThreadPlan(2, 0.0, 3.0, layers[..2]) == map[1 := 1, 2 := 1];
    assert ThreadPlan(2, 0.0, 3.0, layers) == map[1 := 1, 2 := 1, 3 := 1];
  }

  /** Two image layers of weights one and three sharing eight threads get two
      and six. */
  lemma OneToThreeSplit()
    ensures var layers := [ImageLayer(1, 1.0), ImageLayer(2, 3.0)];
      && TotalWeight([], layers) == 4.0
      && var plan := ThreadPlan(8, 0.0, 4.0, layers);
         plan.Keys == {1, 2} && plan[1] == 2 && plan[2] == 6
  {
    var layers := [ImageLayer(1, 1.0), ImageLayer(2, 3.0)];
    assert layers[..1] == [ImageLayer(1, 1.0)];
    assert layers[..1][..0] == [];
    assert ImageWeight(layers[..1]) == 1.0;
    assert ImageWeight(layers) == 4.0;
    assert Share(8, 1.0, 4.0) == 2;
    assert Share(8, 3.0, 4.0) == 6;
  }
}
