/**
  The map's data rules: which records it can place, how it groups nearby
  records into clusters, and how a cluster's marker is sized.

  Clustering is greedy in input order. The first record not yet taken seeds a
  cluster and collects every later record not yet taken that lies within the
  radius of the seed; the cluster's centre is a running pairwise average. The
  square root of the source's distance test is replaced by comparing squares
  over exact reals.
 */
module InteractiveMap {
  import opened Wrappers
  import opened Seqs
  import opened Text
  import opened SearchTypes
  import opened MapSearchRoute

  /** The map's own coordinate test: both coordinates present and non-zero (reals have no `NaN`). */
  predicate Placeable(o: Occurrence) {
    && o.decimalLatitude.Some? && o.decimalLatitude.value != 0.0
    && o.decimalLongitude.Some? && o.decimalLongitude.value != 0.0
  }

  /** `validOccurrences`: the placeable records, in order. */
  function PlaceableOccurrences(os: seq<Occurrence>): (r: seq<Occurrence>)
    ensures |r| <= |os|
    ensures forall o | o in r :: o in os && Placeable(o)
    ensures forall o | o in os && Placeable(o) :: o in r
    ensures forall o | o in os :: multiset(r)[o] == if Placeable(o) then multiset(os)[o] else 0
  {
    Filter(os, Placeable)
  }

  /** The map's filter distributes over concatenation, so kept records stay in input order. */
  lemma PlaceableOccurrencesKeepOrder(a: seq<Occurrence>, b: seq<Occurrence>)
    ensures PlaceableOccurrences(a + b) == PlaceableOccurrences(a) + PlaceableOccurrences(b)
  {
    FilterAppend(a, b, Placeable);
  }

  /** Records that passed the route's coordinate filter all pass the map's, so the map drops none of them. */
  lemma MapKeepsRouteResults(results: seq<Occurrence>)
    ensures PlaceableOccurrences(ValidOccurrences(results)) == ValidOccurrences(results)
  {
    var valid := ValidOccurrences(results);
    forall i | 0 <= i < |valid|
      ensures Placeable(valid[i])
    {
      assert valid[i] in valid;
    }
    FilterKeepsAll(valid, Placeable);
  }

  /** Every record carries both coordinates (the source asserts this with `!`). */
  predicate HasCoordinates(os: seq<Occurrence>) {
    forall i | 0 <= i < |os| :: os[i].decimalLatitude.Some? && os[i].decimalLongitude.Some?
  }

  /** Placeable records have coordinates, so the map may cluster them. */
  lemma PlaceableHaveCoordinates(os: seq<Occurrence>)
    ensures HasCoordinates(PlaceableOccurrences(os))
  {
    var r := PlaceableOccurrences(os);
    forall i | 0 <= i < |r|
      ensures r[i].decimalLatitude.Some? && r[i].decimalLongitude.Some?
    {
      assert r[i] in r;
    }
  }

  function Lat(o: Occurrence): real {
    o.decimalLatitude.GetOr(0.0)
  }

  function Lng(o: Occurrence): real {
    o.decimalLongitude.GetOr(0.0)
  }

  /** `sqrt((lat - otherLat)² + (lng - otherLng)²) <= radius`, over exact reals. */
  predicate Near(a: Occurrence, b: Occurrence, radius: real) {
    radius >= 0.0 &&
    (Lat(a) - Lat(b)) * (Lat(a) - Lat(b)) + (Lng(a) - Lng(b)) * (Lng(a) - Lng(b)) <= radius * radius
  }

  /**
    The inner sweep for seed `seed`, from index `from` on: the indices, in
    increasing order, of the records not yet taken that lie near the seed.
   */
  function Members(os: seq<Occurrence>, radius: real, seed: nat, taken: set<nat>, from: nat): (ms: seq<nat>)
    requires seed < |os| && from <= |os|
    ensures forall k | 0 <= k < |ms| ::
              from <= ms[k] < |os| && ms[k] !in taken && ms[k] != seed && Near(os[seed], os[ms[k]], radius)
    ensures forall k, l | 0 <= k < l < |ms| :: ms[k] < ms[l]
    ensures forall j: nat | from <= j < |os| && j !in taken && j != seed && Near(os[seed], os[j], radius) :: j in ms
    decreases |os| - from
  {
    if from == |os| then []
    else
      var rest := Members(os, radius, seed, taken, from + 1);
      if from !in taken && from != seed && Near(os[seed], os[from], radius) then [from] + rest else rest
  }

  /** The outer loop from index `i` on, as index lists: each cluster is its seed followed by its members. */
  function IndexClustersFrom(os: seq<Occurrence>, radius: real, i: nat, taken: set<nat>): (css: seq<seq<nat>>)
    requires i <= |os|
    ensures forall k | 0 <= k < |css| :: |css[k]| >= 1
    ensures forall k, m | 0 <= k < |css| && 0 <= m < |css[k]| :: css[k][m] < |os|
    decreases |os| - i
  {
    if i == |os| then []
    else if i in taken then IndexClustersFrom(os, radius, i + 1, taken)
    else
      var ms := Members(os, radius, i, taken, 0);
      [[i] + ms] + IndexClustersFrom(os, radius, i + 1, taken + {i} + (set k | k in ms))
  }

  function IndexClusters(os: seq<Occurrence>, radius: real): (css: seq<seq<nat>>)
    ensures forall k | 0 <= k < |css| :: |css[k]| >= 1
    ensures forall k, m | 0 <= k < |css| && 0 <= m < |css[k]| :: css[k][m] < |os|
  {
    IndexClustersFrom(os, radius, 0, {})
  }

  /** All the clusters' indices, one cluster after another. */
  function Flatten(css: seq<seq<nat>>): seq<nat>
    decreases |css|
  {
    if |css| == 0 then [] else css[0] + Flatten(css[1..])
  }

  /** The cluster sizes. */
  function Sizes(css: seq<seq<nat>>): (s: seq<int>)
    ensures |s| == |css|
    ensures forall k | 0 <= k < |s| :: s[k] == |css[k]|
    decreases |css|
  {
    if |css| == 0 then [] else [|css[0]|] + Sizes(css[1..])
  }

  lemma {:induction false} SizesSum(css: seq<seq<nat>>)
    ensures Sum(Sizes(css)) == |Flatten(css)|
    decreases |css|
  {
    if |css| > 0 {
      SizesSum(css[1..]);
    }
  }

  /** The indices below `n`. */
  ghost function Below(n: nat): (r: set<nat>)
    ensures forall k: nat :: k in r <==> k < n
    ensures |r| == n
    decreases n
  {
    if n == 0 then {} else Below(n - 1) + {n - 1}
  }

  lemma NoDupAppend<T>(a: seq<T>, b: seq<T>)
    requires NoDup(a) && NoDup(b)
    requires forall x | x in a :: x !in b
    ensures NoDup(a + b)
  {
    forall i, j | 0 <= i < j < |a + b|
      ensures (a + b)[i] != (a + b)[j]
    {
      if i < |a| && j >= |a| {
        assert (a + b)[i] in a && (a + b)[j] == b[j - |a|];
      }
    }
  }

  /** A seed followed by increasing members that all come after it has no duplicate. */
  lemma SeedThenMembersNoDup(i: nat, ms: seq<nat>)
    requires forall k | 0 <= k < |ms| :: i < ms[k]
    requires forall k, l | 0 <= k < l < |ms| :: ms[k] < ms[l]
    ensures NoDup([i] + ms)
  {
    var head := [i] + ms;
    forall a, b | 0 <= a < b < |head|
      ensures head[a] != head[b]
    {
      assert head[b] == ms[b - 1];
      if a > 0 {
        assert head[a] == ms[a - 1];
      }
    }
  }

  /**
    A fresh seed's cluster, followed by a duplicate-free tail holding exactly
    the indices left after it, holds every index not yet taken exactly once.
   */
  lemma PartitionStep(os: seq<Occurrence>, radius: real, i: nat, taken: set<nat>, tail: seq<nat>)
    requires i < |os| && i !in taken
    requires forall k: nat | k < i :: k in taken
    requires NoDup(tail)
    requires forall k: nat :: k in tail <==>
               k < |os| && k !in taken + {i} + (set m | m in Members(os, radius, i, taken, 0))
    ensures NoDup([i] + Members(os, radius, i, taken, 0) + tail)
    ensures forall k: nat :: k in [i] + Members(os, radius, i, taken, 0) + tail <==> k < |os| && k !in taken
  {
    var ms := Members(os, radius, i, taken, 0);
    var next := taken + {i} + (set m | m in ms);
    var head := [i] + ms;
    forall k | 0 <= k < |ms|
      ensures i < ms[k]
    {
      assert ms[k] !in taken;
    }
    SeedThenMembersNoDup(i, ms);
    forall x | x in head
      ensures x !in tail
    {
      assert x in next;
    }
    NoDupAppend(head, tail);
    forall k: nat
      ensures k in head + tail <==> k < |os| && k !in taken
    {
      if k < |os| && k !in taken && k !in next {
        assert k in tail;
      }
    }
  }

  /**
    The clusters from index `i` on take every index not yet taken exactly once,
    and nothing else.
   */
  lemma {:induction false} PartitionFrom(os: seq<Occurrence>, radius: real, i: nat, taken: set<nat>)
    requires i <= |os|
    requires forall k: nat | k < i :: k in taken
    ensures NoDup(Flatten(IndexClustersFrom(os, radius, i, taken)))
    ensures forall k: nat :: k in Flatten(IndexClustersFrom(os, radius, i, taken)) <==> k < |os| && k !in taken
    decreases |os| - i
  {
    if i == |os| {
    } else if i in taken {
      PartitionFrom(os, radius, i + 1, taken);
    } else {
      var ms := Members(os, radius, i, taken, 0);
      var next := taken + {i} + (set k | k in ms);
      PartitionFrom(os, radius, i + 1, next);
      var tail := Flatten(IndexClustersFrom(os, radius, i + 1, next));
      assert Flatten(IndexClustersFrom(os, radius, i, taken)) == [i] + ms + tail;
      PartitionStep(os, radius, i, taken, tail);
    }
  }

  /** `clusterOccurrences` partitions the input: every index lands in exactly one cluster. */
  lemma ClustersPartitionInput(os: seq<Occurrence>, radius: real)
    ensures NoDup(Flatten(IndexClusters(os, radius)))
    ensures Elems(Flatten(IndexClusters(os, radius))) == Below(|os|)
    ensures |Flatten(IndexClusters(os, radius))| == |os|
    ensures Sum(Sizes(IndexClusters(os, radius))) == |os|
  {
    PartitionFrom(os, radius, 0, {});
    var f := Flatten(IndexClusters(os, radius));
    assert Elems(f) == Below(|os|);
    NoDupCard(f);
    SizesSum(IndexClusters(os, radius));
  }

  /** A cluster as index list: its seed first, then members after the seed that lie near the seed. */
  ghost predicate WellShaped(os: seq<Occurrence>, radius: real, c: seq<nat>) {
    && |c| >= 1
    && (forall m | 0 <= m < |c| :: c[m] < |os|)
    && (forall m | 1 <= m < |c| :: c[0] < c[m] && Near(os[c[0]], os[c[m]], radius))
  }

  /** The cluster a fresh seed `i` forms is well shaped. */
  lemma SeedClusterShape(os: seq<Occurrence>, radius: real, i: nat, taken: set<nat>)
    requires i < |os| && i !in taken
    requires forall k: nat | k < i :: k in taken
    ensures WellShaped(os, radius, [i] + Members(os, radius, i, taken, 0))
  {
    var ms := Members(os, radius, i, taken, 0);
    var head := [i] + ms;
    forall m | 1 <= m < |head|
      ensures head[0] < head[m] && Near(os[head[0]], os[head[m]], radius)
    {
      assert head[m] == ms[m - 1];
      assert head[m] !in taken;
    }
  }

  /** From index `i` on, every cluster is well shaped and seeded at `i` or later. */
  lemma {:induction false} ShapeFrom(os: seq<Occurrence>, radius: real, i: nat, taken: set<nat>)
    requires i <= |os|
    requires forall k: nat | k < i :: k in taken
    ensures forall k | 0 <= k < |IndexClustersFrom(os, radius, i, taken)| ::
              WellShaped(os, radius, IndexClustersFrom(os, radius, i, taken)[k])
              && IndexClustersFrom(os, radius, i, taken)[k][0] >= i
    decreases |os| - i
  {
    if i == |os| {
    } else if i in taken {
      ShapeFrom(os, radius, i + 1, taken);
    } else {
      var ms := Members(os, radius, i, taken, 0);
      var next := taken + {i} + (set k | k in ms);
      ShapeFrom(os, radius, i + 1, next);
      SeedClusterShape(os, radius, i, taken);
      var rest := IndexClustersFrom(os, radius, i + 1, next);
      var css := IndexClustersFrom(os, radius, i, taken);
      assert css == [[i] + ms] + rest;
      forall k | 0 <= k < |css|
        ensures WellShaped(os, radius, css[k]) && css[k][0] >= i
      {
        if k > 0 {
          assert css[k] == rest[k - 1];
        }
      }
    }
  }

  /** From index `i` on, the seeds strictly increase from one cluster to the next. */
  lemma {:induction false} SeedsIncreaseFrom(os: seq<Occurrence>, radius: real, i: nat, taken: set<nat>)
    requires i <= |os|
    requires forall k: nat | k < i :: k in taken
    ensures forall a, b | 0 <= a < b < |IndexClustersFrom(os, radius, i, taken)| ::
              IndexClustersFrom(os, radius, i, taken)[a][0] < IndexClustersFrom(os, radius, i, taken)[b][0]
    decreases |os| - i
  {
    if i == |os| {
    } else if i in taken {
      SeedsIncreaseFrom(os, radius, i + 1, taken);
    } else {
      var ms := Members(os, radius, i, taken, 0);
      var next := taken + {i} + (set k | k in ms);
      SeedsIncreaseFrom(os, radius, i + 1, next);
      ShapeFrom(os, radius, i + 1, next);
      var rest := IndexClustersFrom(os, radius, i + 1, next);
      var css := IndexClustersFrom(os, radius, i, taken);
      assert css == [[i] + ms] + rest;
      forall a, b | 0 <= a < b < |css|
        ensures css[a][0] < css[b][0]
      {
        assert css[b] == rest[b - 1];
        if a > 0 {
          assert css[a] == rest[a - 1];
        }
      }
    }
  }

  /** Every cluster starts with its seed, later members lie within the radius of the seed, and seeds increase. */
  lemma ClustersAreSeeded(os: seq<Occurrence>, radius: real)
    ensures forall k | 0 <= k < |IndexClusters(os, radius)| :: WellShaped(os, radius, IndexClusters(os, radius)[k])
    ensures forall a, b | 0 <= a < b < |IndexClusters(os, radius)| ::
              IndexClusters(os, radius)[a][0] < IndexClusters(os, radius)[b][0]
  {
    ShapeFrom(os, radius, 0, {});
    SeedsIncreaseFrom(os, radius, 0, {});
  }

  /** A record's neighbours within the radius: if it seeds a cluster, every untaken one of them joins it. */
  lemma SeedCollectsAllNear(os: seq<Occurrence>, radius: real, i: nat, taken: set<nat>, j: nat)
    requires i < |os| && i !in taken
    requires j < |os| && j !in taken && j != i && Near(os[i], os[j], radius)
    ensures IndexClustersFrom(os, radius, i, taken)[0] == [i] + Members(os, radius, i, taken, 0)
    ensures j in IndexClustersFrom(os, radius, i, taken)[0]
  {
    var ms := Members(os, radius, i, taken, 0);
    assert j in ms;
    assert j in [i] + ms;
  }

  /** One cluster as the map shows it. */
  datatype Cluster = Cluster(id: string, lat: real, lng: real, count: int, occurrences: seq<Occurrence>)

  /** The running centre: each member moves it halfway towards itself, in order. */
  function Centre(start: real, others: seq<real>): (c: real)
    ensures (forall k | 0 <= k < |others| :: others[k] == start) ==> c == start
    decreases |others|
  {
    if |others| == 0 then start else Centre((start + others[0]) / 2.0, others[1..])
  }

  /** A member joining last moves the centre halfway towards itself. */
  lemma {:induction false} CentreAppend(start: real, others: seq<real>, x: real)
    ensures Centre(start, others + [x]) == (Centre(start, others) + x) / 2.0
    decreases |others|
  {
    if |others| > 0 {
      assert (others + [x])[1..] == others[1..] + [x];
      CentreAppend((start + others[0]) / 2.0, others[1..], x);
    }
  }

  /** The running centre stays between the smallest and the largest coordinate it has seen. */
  lemma {:induction false} CentreBetween(start: real, others: seq<real>, lo: real, hi: real)
    requires lo <= start <= hi
    requires forall k | 0 <= k < |others| :: lo <= others[k] <= hi
    ensures lo <= Centre(start, others) <= hi
    decreases |others|
  {
    if |others| > 0 {
      CentreBetween((start + others[0]) / 2.0, others[1..], lo, hi);
    }
  }

  /** The records at the given indices. */
  function Pick(os: seq<Occurrence>, idx: seq<nat>): (r: seq<Occurrence>)
    requires forall m | 0 <= m < |idx| :: idx[m] < |os|
    ensures |r| == |idx|
    ensures forall m | 0 <= m < |idx| :: r[m] == os[idx[m]]
    decreases |idx|
  {
    if |idx| == 0 then [] else [os[idx[0]]] + Pick(os, idx[1..])
  }

  function Lats(rs: seq<Occurrence>): (r: seq<real>)
    ensures |r| == |rs| && forall m | 0 <= m < |rs| :: r[m] == Lat(rs[m])
    decreases |rs|
  {
    if |rs| == 0 then [] else [Lat(rs[0])] + Lats(rs[1..])
  }

  function Lngs(rs: seq<Occurrence>): (r: seq<real>)
    ensures |r| == |rs| && forall m | 0 <= m < |rs| :: r[m] == Lng(rs[m])
    decreases |rs|
  {
    if |rs| == 0 then [] else [Lng(rs[0])] + Lngs(rs[1..])
  }

  /** The cluster record for an index list. */
  function MakeCluster(os: seq<Occurrence>, c: seq<nat>): (r: Cluster)
    requires |c| >= 1
    requires forall m | 0 <= m < |c| :: c[m] < |os|
    ensures r.id == "cluster-" + NatToString(c[0])
    ensures r.count == |r.occurrences| == |c|
    ensures forall m | 0 <= m < |c| :: r.occurrences[m] == os[c[m]]
    ensures |c| == 1 ==> r.lat == Lat(os[c[0]]) && r.lng == Lng(os[c[0]])
  {
    var members := Pick(os, c);
    Cluster("cluster-" + NatToString(c[0]),
            Centre(Lat(members[0]), Lats(members[1..])),
            Centre(Lng(members[0]), Lngs(members[1..])),
            |c|, members)
  }

  function MakeClusters(os: seq<Occurrence>, css: seq<seq<nat>>): (cs: seq<Cluster>)
    requires forall c | c in css :: |c| >= 1 && forall m | 0 <= m < |c| :: c[m] < |os|
    ensures |cs| == |css|
    ensures forall k | 0 <= k < |css| :: cs[k] == MakeCluster(os, css[k])
    decreases |css|
  {
    if |css| == 0 then [] else [MakeCluster(os, css[0])] + MakeClusters(os, css[1..])
  }

  /**
    `clusterOccurrences(os, radius)`: one cluster per index list, in seed
    order. Each cluster's id names its seed index, its count is the number of
    its records, and its records are the input's at its indices, the seed first.
   */
  function ClusterOccurrences(os: seq<Occurrence>, radius: real): (cs: seq<Cluster>)
    requires HasCoordinates(os)
    ensures |cs| == |IndexClusters(os, radius)|
    ensures forall k | 0 <= k < |cs| ::
              && cs[k].id == "cluster-" + NatToString(IndexClusters(os, radius)[k][0])
              && cs[k].count == |cs[k].occurrences| == |IndexClusters(os, radius)[k]|
              && cs[k].occurrences[0] == os[IndexClusters(os, radius)[k][0]]
              && forall m | 0 <= m < cs[k].count :: cs[k].occurrences[m] == os[IndexClusters(os, radius)[k][m]]
  {
    ClustersAreSeeded(os, radius);
    MakeClusters(os, IndexClusters(os, radius))
  }

  /** The cluster counts. */
  function Counts(cs: seq<Cluster>): (s: seq<int>)
    ensures |s| == |cs| && forall k | 0 <= k < |cs| :: s[k] == cs[k].count
    decreases |cs|
  {
    if |cs| == 0 then [] else [cs[0].count] + Counts(cs[1..])
  }

  /** The cluster counts add up to the number of records clustered. */
  lemma ClusterCountsSum(os: seq<Occurrence>, radius: real)
    requires HasCoordinates(os)
    ensures Sum(Counts(ClusterOccurrences(os, radius))) == |os|
  {
    ClustersPartitionInput(os, radius);
    assert Counts(ClusterOccurrences(os, radius)) == Sizes(IndexClusters(os, radius));
  }

  /** Distinct seeds give distinct cluster ids. */
  lemma ClusterIdsDistinct(os: seq<Occurrence>, radius: real)
    requires HasCoordinates(os)
    ensures forall a, b | 0 <= a < b < |ClusterOccurrences(os, radius)| ::
              ClusterOccurrences(os, radius)[a].id != ClusterOccurrences(os, radius)[b].id
  {
    var cs := ClusterOccurrences(os, radius);
    var ic := IndexClusters(os, radius);
    ClustersAreSeeded(os, radius);
    forall a, b | 0 <= a < b < |cs|
      ensures cs[a].id != cs[b].id
    {
      if cs[a].id == cs[b].id {
        var p := "cluster-";
        assert cs[a].id[|p|..] == NatToString(ic[a][0]);
        assert cs[b].id[|p|..] == NatToString(ic[b][0]);
        ParseNatToString(ic[a][0]);
        ParseNatToString(ic[b][0]);
        assert false;
      }
    }
  }

  /** A cluster's centre lies in the box spanned by its members' coordinates. */
  lemma ClusterCentreInBox(os: seq<Occurrence>, radius: real, k: nat, lo: real, hi: real)
    requires HasCoordinates(os)
    requires k < |ClusterOccurrences(os, radius)|
    requires forall o | o in ClusterOccurrences(os, radius)[k].occurrences :: lo <= Lat(o) <= hi
    ensures lo <= ClusterOccurrences(os, radius)[k].lat <= hi
  {
    ClustersAreSeeded(os, radius);
    var ic := IndexClusters(os, radius);
    assert ic[k] in ic;
    var members := Pick(os, ic[k]);
    assert members == ClusterOccurrences(os, radius)[k].occurrences;
    assert members[0] in members;
    var others := Lats(members[1..]);
    forall m | 0 <= m < |others|
      ensures lo <= others[m] <= hi
    {
      assert members[1..][m] in members;
    }
    CentreBetween(Lat(members[0]), others, lo, hi);
  }

  /** A cluster marker: its label markup, CSS class, pixel size and anchor offset. */
  datatype ClusterIcon = ClusterIcon(html: string, className: string, size: int, anchor: int)

  /** `createClusterIcon`: three size tiers by count, anchored at the icon's centre. */
  function CreateClusterIcon(count: int): (icon: ClusterIcon)
    ensures count > 100 ==> icon.size == 44 && icon.className == "custom-cluster-large"
    ensures 20 < count <= 100 ==> icon.size == 36 && icon.className == "custom-cluster-medium"
    ensures count <= 20 ==> icon.size == 30 && icon.className == "custom-cluster-small"
    ensures 2 * icon.anchor == icon.size
    ensures icon.html == "<div class=\"cluster-inner\">" + IntToString(count) + "</div>"
  {
    var (size, className) :=
      if count > 100 then (44, "custom-cluster-large")
      else if count > 20 then (36, "custom-cluster-medium")
      else (30, "custom-cluster-small");
    ClusterIcon("<div class=\"cluster-inner\">" + IntToString(count) + "</div>", className, size, size / 2)
  }

  /** A bigger cluster never gets a smaller marker. */
  lemma IconSizeMonotone(a: int, b: int)
    requires a <= b
    ensures CreateClusterIcon(a).size <= CreateClusterIcon(b).size
  {
  }
}
