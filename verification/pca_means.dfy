/** The state-abstraction cache of PCAMeans.java: projected training vectors
    are grouped into clusters, each cluster's mean becomes an abstract state,
    and a memo table maps every projection seen to the index of its mean.
    The PCA projection and the library's clustering and nearest-neighbour
    search are parameters: `project` is the trained projection, `clusters`
    the partition the clusterer returned, and `nearest` the neighbour search
    over the current means. */
module StateSpaceReduction {
  import opened Results
  import MarioStates
  import opened Sequences

  type Vector = seq<real>
  type Dataset = seq<Vector>
  /** Projection -> index of its mean. Instances compare by their values. */
  type Cache = map<Vector, int>

  /** The exceptions `PCAMeans` raises on degenerate input. */
  datatype TrainError =
    | NoSamples     // the training set is empty (vectors[0] fails)
    | EmptyCluster  // the clusterer returned an empty cluster (dataset.get(0) fails)

  datatype PCAMeans = PCAMeans(numComponents: int, clusterAmount: int, iterations: int, means: Dataset, cache: Cache)

  /** Every cached index points at a mean. */
  ghost predicate Valid(pc: PCAMeans)
  {
    forall v :: v in pc.cache ==> 0 <= pc.cache[v] < |pc.means|
  }

  /** `b` extends `a`: no entry of `a` is lost or changed. */
  ghost predicate Extends(a: Cache, b: Cache)
  {
    forall v :: v in a ==> v in b && b[v] == a[v]
  }

  /** Squared Euclidean distance over the common length. */
  function SquaredDistance(a: Vector, b: Vector): real
    decreases |a|
  {
    if |a| == 0 || |b| == 0 then 0.0
    else (a[0] - b[0]) * (a[0] - b[0]) + SquaredDistance(a[1..], b[1..])
  }

  /** `m` is one of the means and none is closer to `p`. */
  ghost predicate IsNearest(means: Dataset, p: Vector, m: Vector)
  {
    m in means && forall j :: 0 <= j < |means| ==> SquaredDistance(p, m) <= SquaredDistance(p, means[j])
  }

  /** sampleToMean: a projection already in the cache gets its cached index
      and nothing changes; any other gets the index of its nearest mean,
      which is then cached. */
  function SampleToMean(pc: PCAMeans, project: Vector -> Vector, nearest: Vector -> Vector, sample: Vector): (r: (int, PCAMeans))
    requires project(sample) !in pc.cache ==> IsNearest(pc.means, project(sample), nearest(project(sample)))
    ensures project(sample) in pc.cache ==> r.0 == pc.cache[project(sample)] && r.1 == pc
    ensures project(sample) !in pc.cache ==>
      && 0 <= r.0 < |pc.means|
      && IsNearest(pc.means, project(sample), pc.means[r.0])
      && (forall k :: 0 <= k < r.0 ==> pc.means[k] != pc.means[r.0])
    ensures r.1.means == pc.means && r.1.numComponents == pc.numComponents
    ensures r.1.clusterAmount == pc.clusterAmount && r.1.iterations == pc.iterations
    ensures r.1.cache.Keys == pc.cache.Keys + {project(sample)}
    ensures Extends(pc.cache, r.1.cache) && r.1.cache[project(sample)] == r.0
    ensures Valid(pc) ==> Valid(r.1) && 0 <= r.0 < |pc.means|
  {
    var projection := project(sample);
    if projection in pc.cache then
      (pc.cache[projection], pc)
    else
      var closest := nearest(projection);
      var nearestMeanIndex := FirstIndex(pc.means, closest);
      (nearestMeanIndex, pc.(cache := pc.cache[projection := nearestMeanIndex]))
  }

  /** sampleToMeanProject: the cached mean on a hit; on a miss the nearest
      mean, with the cache updated as sampleToMean updates it. */
  function SampleToMeanProject(pc: PCAMeans, project: Vector -> Vector, nearest: Vector -> Vector, sample: Vector): (r: (Vector, PCAMeans))
    requires project(sample) in pc.cache ==> 0 <= pc.cache[project(sample)] < |pc.means|
    requires project(sample) !in pc.cache ==> IsNearest(pc.means, project(sample), nearest(project(sample)))
    ensures project(sample) in pc.cache ==> r.0 == pc.means[pc.cache[project(sample)]] && r.1 == pc
    ensures project(sample) !in pc.cache ==> r.0 == nearest(project(sample)) && IsNearest(pc.means, project(sample), r.0)
    ensures r.1 == SampleToMean(pc, project, nearest, sample).1
  {
    var projection := project(sample);
    if projection in pc.cache then
      var index := pc.cache[projection];
      (pc.means[index], pc)
    else
      var closest := nearest(projection);
      var nearestMeanIndex := FirstIndex(pc.means, closest);
      (closest, pc.(cache := pc.cache[projection := nearestMeanIndex]))
  }

  /** The two lookups agree: the mean sampleToMeanProject returns is the
      mean at the index sampleToMean returns. */
  lemma ProjectIsMeanAtIndex(pc: PCAMeans, project: Vector -> Vector, nearest: Vector -> Vector, sample: Vector)
    requires Valid(pc)
    requires project(sample) !in pc.cache ==> IsNearest(pc.means, project(sample), nearest(project(sample)))
    ensures SampleToMeanProject(pc, project, nearest, sample).0 == pc.means[SampleToMean(pc, project, nearest, sample).0]
  {
  }

  /** Two samples with the same projection, looked up one after the other,
      get the same index, and the second lookup is a hit that changes nothing. */
  lemma SameProjectionSameIndex(pc: PCAMeans, project: Vector -> Vector, nearest: Vector -> Vector, s1: Vector, s2: Vector)
    requires project(s1) == project(s2)
    requires project(s1) !in pc.cache ==> IsNearest(pc.means, project(s1), nearest(project(s1)))
    ensures var first := SampleToMean(pc, project, nearest, s1);
            var second := SampleToMean(first.1, project, nearest, s2);
            second.0 == first.0 && second.1 == first.1
  {
  }

  /** samplesToEigenSpace: the projection of each training vector, in order. */
  function Projections(project: Vector -> Vector, vectors: Dataset): (r: Dataset)
    ensures |r| == |vectors|
  {
    seq(|vectors|, i requires 0 <= i < |vectors| => project(vectors[i]))
  }

  /** The cache of the "each projection is its own cluster" mode: projection
      i is cached to i, in order. */
  function CacheEach(ps: Dataset): Cache
    decreases |ps|
  {
    if |ps| == 0 then map[] else CacheEach(ps[..|ps| - 1])[ps[|ps| - 1] := |ps| - 1]
  }

  /** The cache holds exactly the projections, and each is cached to its
      last position: a repeated projection keeps the later index. */
  lemma {:induction false} CacheEachLastWins(ps: Dataset)
    ensures forall v :: v in CacheEach(ps) <==> v in ps
    ensures forall v :: v in CacheEach(ps) ==> 0 <= CacheEach(ps)[v] < |ps| && ps[CacheEach(ps)[v]] == v
    ensures forall v, i :: v in CacheEach(ps) && CacheEach(ps)[v] < i < |ps| ==> ps[i] != v
    decreases |ps|
  {
    if |ps| > 0 {
      var n := |ps| - 1;
      CacheEachLastWins(ps[..n]);
      assert forall v :: v in ps <==> v in ps[..n] || v == ps[n];
    }
  }

  /** The members of one cluster, cached to `index` in order. */
  function CacheMembers(cache: Cache, members: Dataset, index: int): Cache
    decreases |members|
  {
    if |members| == 0 then cache
    else CacheMembers(cache, members[..|members| - 1], index)[members[|members| - 1] := index]
  }

  /** Caching one cluster adds its members with the cluster's index and
      leaves every other entry as it was. */
  lemma {:induction false} CacheMembersAdds(cache: Cache, members: Dataset, index: int)
    ensures forall v :: v in CacheMembers(cache, members, index) <==> v in cache || v in members
    ensures forall v :: v in members ==> CacheMembers(cache, members, index)[v] == index
    ensures forall v :: v in cache && v !in members ==> CacheMembers(cache, members, index)[v] == cache[v]
    decreases |members|
  {
    if |members| > 0 {
      var n := |members| - 1;
      CacheMembersAdds(cache, members[..n], index);
      assert forall v :: v in members <==> v in members[..n] || v == members[n];
    }
  }

  /** The cache calculateMeans fills: every member of cluster c is cached to
      c, cluster after cluster. */
  function CacheClusters(cache: Cache, clusters: seq<Dataset>): Cache
    decreases |clusters|
  {
    if |clusters| == 0 then cache
    else CacheMembers(CacheClusters(cache, clusters[..|clusters| - 1]), clusters[|clusters| - 1], |clusters| - 1)
  }

  /** Every clustered vector is cached, to the last cluster that holds it;
      an entry no cluster holds keeps its earlier index. */
  lemma {:induction false} CacheClustersLastWins(cache: Cache, clusters: seq<Dataset>)
    ensures forall c, v :: 0 <= c < |clusters| && v in clusters[c] ==> v in CacheClusters(cache, clusters)
    ensures forall v :: v in CacheClusters(cache, clusters) ==>
      || (0 <= CacheClusters(cache, clusters)[v] < |clusters| && v in clusters[CacheClusters(cache, clusters)[v]]
          && forall c :: CacheClusters(cache, clusters)[v] < c < |clusters| ==> v !in clusters[c])
      || (v in cache && CacheClusters(cache, clusters)[v] == cache[v] && forall c :: 0 <= c < |clusters| ==> v !in clusters[c])
    decreases |clusters|
  {
    if |clusters| > 0 {
      var n := |clusters| - 1;
      CacheClustersLastWins(cache, clusters[..n]);
      CacheMembersAdds(CacheClusters(cache, clusters[..n]), clusters[n], n);
      assert forall c :: 0 <= c < n ==> clusters[..n][c] == clusters[c];
    }
  }

  /** All members have `dim` entries, as PCA projections all do. */
  predicate Uniform(c: Dataset, dim: nat)
  {
    forall k :: 0 <= k < |c| ==> |c[k]| == dim
  }

  /** The sum of entry d over the members of a cluster. */
  function ColumnSum(c: Dataset, d: nat): real
    requires forall k :: 0 <= k < |c| ==> d < |c[k]|
    decreases |c|
  {
    if |c| == 0 then 0.0 else ColumnSum(c[..|c| - 1], d) + c[|c| - 1][d]
  }

  /** The componentwise sum of the members, accumulated one instance at a
      time from a zero vector of the given dimension. */
  function VectorSum(c: Dataset, dim: nat): (r: Vector)
    requires Uniform(c, dim)
    ensures |r| == dim
    ensures forall d :: 0 <= d < dim ==> r[d] == ColumnSum(c, d)
    decreases |c|
  {
    if |c| == 0 then MarioStates.Zeros(dim)
    else
      var prev := VectorSum(c[..|c| - 1], dim);
      var last := c[|c| - 1];
      seq(dim, d requires 0 <= d < dim => prev[d] + last[d])
  }

  /** The mean of a cluster: its sum divided by its size. */
  function Mean(c: Dataset): (r: Vector)
    requires |c| > 0 && Uniform(c, |c[0]|)
    ensures |r| == |c[0]|
    ensures forall d :: 0 <= d < |r| ==> r[d] == ColumnSum(c, d) / (|c| as real)
  {
    var sum := VectorSum(c, |c[0]|);
    seq(|sum|, d requires 0 <= d < |sum| => sum[d] / (|c| as real))
  }

  /** Each cluster that has members has members of one length. */
  ghost predicate WellShaped(clusters: seq<Dataset>)
  {
    forall c :: 0 <= c < |clusters| && |clusters[c]| > 0 ==> Uniform(clusters[c], |clusters[c][0]|)
  }

  /** calculateMeans: one mean per cluster in cluster order, and the members
      cached to their cluster's index; an empty cluster is an error. */
  function CalculateMeans(clusters: seq<Dataset>, cache: Cache): (r: Result<(Dataset, Cache), TrainError>)
    requires WellShaped(clusters)
    ensures r.Failure? <==> exists c :: 0 <= c < |clusters| && |clusters[c]| == 0
    ensures r.Failure? ==> r.error == EmptyCluster
    ensures r.Success? ==> |r.value.0| == |clusters| && forall c :: 0 <= c < |clusters| ==> r.value.0[c] == Mean(clusters[c])
    ensures r.Success? ==> r.value.1 == CacheClusters(cache, clusters)
  {
    if exists c :: 0 <= c < |clusters| && |clusters[c]| == 0 then
      Failure(EmptyCluster)
    else
      Success((seq(|clusters|, c requires 0 <= c < |clusters| => Mean(clusters[c])), CacheClusters(cache, clusters)))
  }

  /** The constructor from training vectors: project them, then either make
      every projection its own mean (clusterAmount < 0) or take the means of
      the clusters the clusterer returned. */
  function Train(vectors: Dataset, numComponents: int, clusterAmount: int, iterations: int,
                 project: Vector -> Vector, clusters: seq<Dataset>): (r: Result<PCAMeans, TrainError>)
    requires clusterAmount >= 0 ==> WellShaped(clusters)
    ensures |vectors| == 0 ==> r == Failure(NoSamples)
    ensures r.Success? ==> Valid(r.value)
    ensures r.Success? ==> r.value.numComponents == numComponents && r.value.clusterAmount == clusterAmount && r.value.iterations == iterations
    ensures |vectors| > 0 && clusterAmount < 0 ==>
      && r.Success?
      && r.value.means == Projections(project, vectors)
      && r.value.cache == CacheEach(Projections(project, vectors))
    ensures |vectors| > 0 && clusterAmount >= 0 ==>
      && (r.Failure? <==> CalculateMeans(clusters, map[]).Failure?)
      && (r.Success? ==> r.value.means == CalculateMeans(clusters, map[]).value.0)
      && (r.Success? ==> r.value.cache == CalculateMeans(clusters, map[]).value.1)
  {
    if |vectors| == 0 then Failure(NoSamples)
    else
      var projections := Projections(project, vectors);
      CacheEachLastWins(projections);
      CacheClustersLastWins(map[], clusters);
      if clusterAmount < 0 then
        Success(PCAMeans(numComponents, clusterAmount, iterations, projections, CacheEach(projections)))
      else
        match CalculateMeans(clusters, map[])
        case Failure(e) => Failure(e)
        case Success((means, cache)) => Success(PCAMeans(numComponents, clusterAmount, iterations, means, cache))
  }

  /** Every projection as a one-member cluster, in order. */
  function Singletons(ps: Dataset): (r: seq<Dataset>)
    ensures |r| == |ps| && forall i :: 0 <= i < |ps| ==> r[i] == [ps[i]]
  {
    seq(|ps|, i requires 0 <= i < |ps| => [ps[i]])
  }

  /** A one-member cluster's mean is its member. */
  lemma MeanOfSingleton(v: Vector)
    ensures Mean([v]) == v
  {
    var m := Mean([v]);
    forall d | 0 <= d < |v|
      ensures m[d] == v[d]
    {
      assert [v][..0] == [];
    }
  }

  /** Filling the cache one singleton cluster at a time is filling it one
      projection at a time. */
  lemma {:induction false} CacheSingletons(ps: Dataset)
    ensures CacheClusters(map[], Singletons(ps)) == CacheEach(ps)
    decreases |ps|
  {
    if |ps| > 0 {
      var n := |ps| - 1;
      assert Singletons(ps)[..n] == Singletons(ps[..n]);
      CacheSingletons(ps[..n]);
      var prev := CacheClusters(map[], Singletons(ps)[..n]);
      assert prev == CacheEach(ps[..n]);
      assert [ps[n]][..0] == [];
      assert CacheMembers(prev, [ps[n]], n) == prev[ps[n] := n];
      assert CacheClusters(map[], Singletons(ps)) == CacheMembers(prev, [ps[n]], n);
    }
  }

  /** The clusterAmount < 0 mode is the clustering mode applied to the
      partition into singletons: the same means and the same cache. */
  lemma ExactModeIsSingletonClustering(ps: Dataset)
    ensures WellShaped(Singletons(ps))
    ensures CalculateMeans(Singletons(ps), map[]) == Success((ps, CacheEach(ps)))
  {
    var clusters := Singletons(ps);
    forall c | 0 <= c < |clusters|
      ensures Mean(clusters[c]) == ps[c]
    {
      MeanOfSingleton(ps[c]);
    }
    assert forall c :: 0 <= c < |clusters| ==> |clusters[c]| == 1;
    assert seq(|clusters|, c requires 0 <= c < |clusters| => Mean(clusters[c])) == ps;
    CacheSingletons(ps);
  }

  /** After training with clusterAmount < 0, every training vector is a
      cache hit whose mean is its own projection. */
  lemma ExactModeTrainingVectorsHit(vectors: Dataset, numComponents: int, clusterAmount: int, iterations: int,
                                    project: Vector -> Vector, clusters: seq<Dataset>, nearest: Vector -> Vector, i: nat)
    requires clusterAmount < 0 && i < |vectors|
    ensures Train(vectors, numComponents, clusterAmount, iterations, project, clusters).Success?
    ensures var pc := Train(vectors, numComponents, clusterAmount, iterations, project, clusters).value;
            && project(vectors[i]) in pc.cache
            && SampleToMean(pc, project, nearest, vectors[i]).1 == pc
            && SampleToMeanProject(pc, project, nearest, vectors[i]).0 == project(vectors[i])
  {
    var ps := Projections(project, vectors);
    CacheEachLastWins(ps);
    assert ps[i] == project(vectors[i]);
  }

  /** After training on clusters, a vector whose projection the clusterer
      placed in some cluster is a cache hit, and its index is the last
      cluster holding that projection. */
  lemma ClusteredVectorsHit(vectors: Dataset, numComponents: int, clusterAmount: int, iterations: int,
                            project: Vector -> Vector, clusters: seq<Dataset>, nearest: Vector -> Vector, sample: Vector, c: nat)
    requires clusterAmount >= 0 && |vectors| > 0 && WellShaped(clusters)
    requires forall k :: 0 <= k < |clusters| ==> |clusters[k]| > 0
    requires c < |clusters| && project(sample) in clusters[c]
    ensures project(sample) in Train(vectors, numComponents, clusterAmount, iterations, project, clusters).value.cache
    ensures var pc := Train(vectors, numComponents, clusterAmount, iterations, project, clusters).value;
            var k := pc.cache[project(sample)];
            && c <= k < |clusters|
            && project(sample) in clusters[k]
            && pc.means[k] == Mean(clusters[k])
            && SampleToMean(pc, project, nearest, sample) == (k, pc)
  {
    var pc := Train(vectors, numComponents, clusterAmount, iterations, project, clusters).value;
    CacheClustersLastWins(map[], clusters);
    assert project(sample) in pc.cache;
    var k := pc.cache[project(sample)];
    assert 0 <= k < |clusters| && project(sample) in clusters[k];
  }

  /** When the clusterer partitions the projections, so that every training
      projection lies in some cluster, every training vector is a cache hit
      after training, resolving to a cluster that holds its projection and to
      that cluster's mean. */
  lemma ClusterModeTrainingVectorsHit(vectors: Dataset, numComponents: int, clusterAmount: int, iterations: int,
                                      project: Vector -> Vector, clusters: seq<Dataset>, nearest: Vector -> Vector, i: nat)
    requires clusterAmount >= 0 && i < |vectors| && WellShaped(clusters)
    requires forall k :: 0 <= k < |clusters| ==> |clusters[k]| > 0
    requires forall j :: 0 <= j < |vectors| ==> exists c :: 0 <= c < |clusters| && project(vectors[j]) in clusters[c]
    ensures Train(vectors, numComponents, clusterAmount, iterations, project, clusters).Success?
    ensures project(vectors[i]) in Train(vectors, numComponents, clusterAmount, iterations, project, clusters).value.cache
    ensures var pc := Train(vectors, numComponents, clusterAmount, iterations, project, clusters).value;
            var k := pc.cache[project(vectors[i])];
            && 0 <= k < |clusters|
            && project(vectors[i]) in clusters[k]
            && pc.means[k] == Mean(clusters[k])
            && SampleToMean(pc, project, nearest, vectors[i]) == (k, pc)
  {
    var v := vectors[i];
    assert exists c :: 0 <= c < |clusters| && project(v) in clusters[c];
    var c :| 0 <= c < |clusters| && project(v) in clusters[c];
    ClusteredVectorsHit(vectors, numComponents, clusterAmount, iterations, project, clusters, nearest, vectors[i], c);
  }

  /** instanceToArray: a fresh array holding the instance's values. */
  method InstanceToArray(v: Vector) returns (a: Vector)
    ensures |a| == |v| && forall i :: 0 <= i < |v| ==> a[i] == v[i]
  {
    a := MarioStates.Zeros(|v|);
    var i := 0;
    while i < |a|
      invariant 0 <= i <= |a| == |v|
      invariant forall k :: 0 <= k < i ==> a[k] == v[k]
    {
      a := a[i := v[i]];
      i := i + 1;
    }
  }

  /** datasetToDoubleArray: one row per instance, in order. */
  method DatasetToDoubleArray(cluster: Dataset) returns (rows: Dataset)
    ensures rows == cluster
  {
    rows := seq(|cluster|, _ => []);
    var i := 0;
    while i < |cluster|
      invariant 0 <= i <= |cluster| == |rows|
      invariant forall k :: 0 <= k < i ==> rows[k] == cluster[k]
    {
      var row := InstanceToArray(cluster[i]);
      rows := rows[i := row];
      i := i + 1;
    }
  }

  /** The representations of the states, one row each, in order. */
  function Representations(states: seq<MarioStates.MarioState>): (r: Dataset)
    ensures |r| == |states|
  {
    seq(|states|, i requires 0 <= i < |states| => states[i].representation)
  }

  /** statesToVectors: row i is the representation of state i; an empty
      list has no first state to size the rows by. */
  method StatesToVectors(states: seq<MarioStates.MarioState>) returns (r: Option<Dataset>)
    ensures r.None? <==> |states| == 0
    ensures r.Some? ==> |r.value| == |states| && forall i :: 0 <= i < |states| ==> r.value[i] == states[i].representation
  {
    if |states| == 0 {
      return None;
    }
    var sampleSize := |states[0].representation|;
    var vectors := seq(|states|, _ => MarioStates.Zeros(sampleSize));
    var i := 0;
    while i < |vectors|
      invariant 0 <= i <= |vectors| == |states|
      invariant forall k :: 0 <= k < i ==> vectors[k] == states[k].representation
    {
      vectors := vectors[i := states[i].representation];
      i := i + 1;
    }
    return Some(vectors);
  }

  /** The constructor from a list of states: convert, then train. */
  method TrainFromStates(states: seq<MarioStates.MarioState>, numComponents: int, clusterAmount: int, iterations: int,
                         project: Vector -> Vector, clusters: seq<Dataset>) returns (r: Result<PCAMeans, TrainError>)
    requires clusterAmount >= 0 ==> WellShaped(clusters)
    ensures |states| == 0 ==> r == Failure(NoSamples)
    ensures |states| > 0 ==> r == Train(Representations(states), numComponents, clusterAmount, iterations, project, clusters)
  {
    var vectors := StatesToVectors(states);
    if vectors.None? {
      return Failure(NoSamples);
    }
    assert vectors.value == Representations(states);
    r := Train(vectors.value, numComponents, clusterAmount, iterations, project, clusters);
  }
}
