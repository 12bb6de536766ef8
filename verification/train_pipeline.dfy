/**
 * The pure part of the training driver (`train_until`): grouping the
 * training synapses of a split by brain region, choosing the classes that
 * have enough of them, the output-class default, one sample source per
 * class, the physical request size, and the loop's stop rule.
 */
module TrainPipeline {
  import opened Wrappers
  import opened Seqs
  import opened Arith
  import opened Synapses

  /** A single-region record with no tag for the split raises a KeyError. */
  datatype TrainError = MissingSplitTag(id: SynapseId)

  /** A region is kept when its stored list has at least this many entries. */
  const MinListLength: nat := 10

  /** `synapses_per_brain_region`: its keys in insertion order and the list stored under each key. */
  datatype RegionTable = RegionTable(order: seq<RegionId>, lists: map<RegionId, seq<SynapseId>>)

  /** The keys are listed once each, and exactly the keys are listed. */
  ghost predicate WellFormed(t: RegionTable)
  {
    && Distinct(t.order)
    && (forall r :: r in t.lists <==> r in t.order)
  }

  /**
   * The eligibility condition: a record qualifies when it has exactly one
   * region and its split role is "train"; the role is looked up only for
   * single-region records.
   */
  function Eligibility(e: (SynapseId, Synapse), splitName: string): (r: Result<bool, TrainError>)
  {
    if |e.1.brainRegion| != 1 then Ok(false)
    else if splitName !in e.1.splits then Err(MissingSplitTag(e.0))
    else Ok(e.1.splits[splitName] == "train")
  }

  /**
   * Recording an eligible synapse: the first one of a region only creates
   * the region's empty list; later ones are appended.
   */
  function Record(t: RegionTable, id: SynapseId, region: RegionId): (r: RegionTable)
  {
    if region !in t.lists then RegionTable(t.order + [region], t.lists[region := []])
    else RegionTable(t.order, t.lists[region := t.lists[region] + [id]])
  }

  /** The grouping loop over the split's synapses, in iteration order. */
  function Group(syns: SynapseTable, splitName: string): (r: Result<RegionTable, TrainError>)
    decreases |syns|
  {
    if |syns| == 0 then Ok(RegionTable([], map[]))
    else
      match Group(syns[..|syns| - 1], splitName)
      case Err(e) => Err(e)
      case Ok(t) =>
        var e := syns[|syns| - 1];
        match Eligibility(e, splitName)
        case Err(err) => Err(err)
        case Ok(eligible) => if eligible then Ok(Record(t, e.0, e.1.brainRegion[0])) else Ok(t)
  }

  // ----- reference definitions -----

  /** A synapse with exactly one region whose role in the split is "train". */
  predicate Eligible(e: (SynapseId, Synapse), splitName: string)
  {
    |e.1.brainRegion| == 1 && splitName in e.1.splits && e.1.splits[splitName] == "train"
  }

  /** Evaluating the eligibility condition on this record raises no KeyError. */
  predicate Checkable(e: (SynapseId, Synapse), splitName: string)
  {
    |e.1.brainRegion| == 1 ==> splitName in e.1.splits
  }

  /** Record `i` is the first one whose eligibility check raises a KeyError. */
  predicate FirstUncheckable(syns: SynapseTable, splitName: string, i: int)
  {
    && 0 <= i < |syns|
    && !Checkable(syns[i], splitName)
    && forall j :: 0 <= j < i ==> Checkable(syns[j], splitName)
  }

  /** The ids of the eligible synapses of `region`, in iteration order. */
  function EligibleIds(syns: SynapseTable, splitName: string, region: RegionId): (r: seq<SynapseId>)
    decreases |syns|
  {
    if |syns| == 0 then []
    else
      var rest := EligibleIds(syns[..|syns| - 1], splitName, region);
      var e := syns[|syns| - 1];
      if Eligible(e, splitName) && e.1.brainRegion[0] == region then rest + [e.0] else rest
  }

  /** The region of every eligible synapse, in iteration order, repeats included. */
  function EligibleRegions(syns: SynapseTable, splitName: string): (r: seq<RegionId>)
    decreases |syns|
  {
    if |syns| == 0 then []
    else
      var rest := EligibleRegions(syns[..|syns| - 1], splitName);
      var e := syns[|syns| - 1];
      if Eligible(e, splitName) then rest + [e.1.brainRegion[0]] else rest
  }

  /** In `rs`, region `a` occurs before the first occurrence of `b`. */
  ghost predicate FirstSeenBefore(rs: seq<RegionId>, a: RegionId, b: RegionId)
  {
    exists p :: 0 <= p < |rs| && rs[p] == a && forall q :: 0 <= q <= p ==> rs[q] != b
  }

  /** The entries of `s` are ordered by first appearance in `rs`. */
  ghost predicate OrderedByFirstSight(s: seq<RegionId>, rs: seq<RegionId>)
  {
    forall i, j :: 0 <= i < j < |s| ==> FirstSeenBefore(rs, s[i], s[j])
  }

  /** What the table built from `syns` holds, stated through the reference definitions. */
  ghost predicate Represents(t: RegionTable, syns: SynapseTable, splitName: string)
  {
    && WellFormed(t)
    && (forall r :: r in t.lists <==> 1 <= |EligibleIds(syns, splitName, r)|)
    && (forall r :: r in t.lists ==> t.lists[r] == EligibleIds(syns, splitName, r)[1..])
    && (forall r :: r in t.order <==> r in EligibleRegions(syns, splitName))
    && OrderedByFirstSight(t.order, EligibleRegions(syns, splitName))
  }

  lemma EligibleSnoc(pre: SynapseTable, e: (SynapseId, Synapse), splitName: string)
    ensures forall r ::
      EligibleIds(pre + [e], splitName, r) == EligibleIds(pre, splitName, r) + (if Eligible(e, splitName) && e.1.brainRegion[0] == r then [e.0] else [])
    ensures EligibleRegions(pre + [e], splitName)
      == EligibleRegions(pre, splitName) + (if Eligible(e, splitName) then [e.1.brainRegion[0]] else [])
  {
    assert (pre + [e])[..|pre|] == pre;
  }

  lemma FirstSeenExtend(rs: seq<RegionId>, extra: seq<RegionId>, a: RegionId, b: RegionId)
    requires FirstSeenBefore(rs, a, b)
    ensures FirstSeenBefore(rs + extra, a, b)
  {
    var p :| 0 <= p < |rs| && rs[p] == a && forall q :: 0 <= q <= p ==> rs[q] != b;
    assert (rs + extra)[p] == a;
  }

  lemma FirstSeenNew(rs: seq<RegionId>, a: RegionId, b: RegionId)
    requires a in rs && b !in rs
    ensures FirstSeenBefore(rs + [b], a, b)
  {
    var p :| 0 <= p < |rs| && rs[p] == a;
    assert (rs + [b])[p] == a;
  }

  /** One step of the grouping loop keeps the table in step with the reference definitions. */
  lemma RecordStep(t: RegionTable, pre: SynapseTable, e: (SynapseId, Synapse), splitName: string)
    requires Represents(t, pre, splitName)
    requires Checkable(e, splitName)
    ensures Eligible(e, splitName) ==> Represents(Record(t, e.0, e.1.brainRegion[0]), pre + [e], splitName)
    ensures !Eligible(e, splitName) ==> Represents(t, pre + [e], splitName)
  {
    EligibleSnoc(pre, e, splitName);
    if Eligible(e, splitName) {
      if e.1.brainRegion[0] !in t.lists {
        RecordNewRegion(t, pre, e, splitName);
      } else {
        RecordKnownRegion(t, pre, e, splitName);
      }
    } else {
      assert EligibleRegions(pre + [e], splitName) == EligibleRegions(pre, splitName);
    }
  }

  /** The first eligible synapse of a region adds the region, last in first-sight order, with an empty list. */
  lemma RecordNewRegion(t: RegionTable, pre: SynapseTable, e: (SynapseId, Synapse), splitName: string)
    requires Represents(t, pre, splitName)
    requires Eligible(e, splitName)
    requires e.1.brainRegion[0] !in t.lists
    ensures Represents(Record(t, e.0, e.1.brainRegion[0]), pre + [e], splitName)
  {
    EligibleSnoc(pre, e, splitName);
    var rs := EligibleRegions(pre, splitName);
    var rs' := EligibleRegions(pre + [e], splitName);
    var g := e.1.brainRegion[0];
    var t' := Record(t, e.0, g);
    assert g !in rs;
    assert rs' == rs + [g];
    forall i, j | 0 <= i < j < |t'.order|
      ensures FirstSeenBefore(rs', t'.order[i], t'.order[j])
    {
      if j < |t.order| {
        FirstSeenExtend(rs, [g], t.order[i], t.order[j]);
      } else {
        FirstSeenNew(rs, t.order[i], g);
      }
    }
    assert Distinct(t'.order);
  }

  /** A later eligible synapse of a known region is appended to its list; the key order is unchanged. */
  lemma RecordKnownRegion(t: RegionTable, pre: SynapseTable, e: (SynapseId, Synapse), splitName: string)
    requires Represents(t, pre, splitName)
    requires Eligible(e, splitName)
    requires e.1.brainRegion[0] in t.lists
    ensures Represents(Record(t, e.0, e.1.brainRegion[0]), pre + [e], splitName)
  {
    EligibleSnoc(pre, e, splitName);
    var rs := EligibleRegions(pre, splitName);
    var g := e.1.brainRegion[0];
    var t' := Record(t, e.0, g);
    forall i, j | 0 <= i < j < |t'.order|
      ensures FirstSeenBefore(rs + [g], t'.order[i], t'.order[j])
    {
      FirstSeenExtend(rs, [g], t.order[i], t.order[j]);
    }
    assert (EligibleIds(pre, splitName, g) + [e.0])[1..] == EligibleIds(pre, splitName, g)[1..] + [e.0];
  }

  /**
   * The grouping loop fails exactly when some single-region record lacks the
   * split tag (reporting the first); otherwise it keys exactly the regions
   * with an eligible synapse, in order of first sight, and stores for each
   * region its eligible synapses minus the first one.
   */
  lemma {:induction false} GroupSpec(syns: SynapseTable, splitName: string)
    ensures var r := Group(syns, splitName);
      && (r.Ok? <==> forall i :: 0 <= i < |syns| ==> Checkable(syns[i], splitName))
      && (r.Ok? ==> Represents(r.value, syns, splitName))
      && (r.Err? ==> exists i :: FirstUncheckable(syns, splitName, i) && r.error == MissingSplitTag(syns[i].0))
    decreases |syns|
  {
    if |syns| == 0 {
      var t := RegionTable([], map[]);
      forall r
        ensures r in t.lists <==> 1 <= |EligibleIds(syns, splitName, r)|
      {
      }
    } else {
      var pre := syns[..|syns| - 1];
      var e := syns[|syns| - 1];
      assert syns == pre + [e];
      assert forall j :: 0 <= j < |pre| ==> syns[j] == pre[j];
      GroupSpec(pre, splitName);
      var rp := Group(pre, splitName);
      if rp.Err? {
        var i :| FirstUncheckable(pre, splitName, i) && rp.error == MissingSplitTag(pre[i].0);
        assert FirstUncheckable(syns, splitName, i);
      } else if Checkable(e, splitName) {
        RecordStep(rp.value, pre, e, splitName);
      } else {
        assert FirstUncheckable(syns, splitName, |syns| - 1);
      }
    }
  }

  // ----- class selection -----

  /** `brain_region_ids`: the keys, in insertion order, whose stored list is long enough. */
  function SelectClasses(order: seq<RegionId>, lists: map<RegionId, seq<SynapseId>>): (ids: seq<RegionId>)
    ensures forall r :: r in ids <==> r in order && r in lists && MinListLength <= |lists[r]|
    ensures Distinct(order) ==> Distinct(ids)
    decreases |order|
  {
    if |order| == 0 then []
    else
      var pre := order[..|order| - 1];
      var r := order[|order| - 1];
      assert order == pre + [r];
      var rest := SelectClasses(pre, lists);
      if r in lists && MinListLength <= |lists[r]| then rest + [r] else rest
  }

  /** Selection keeps the relative order of the keys. */
  lemma {:induction false} SelectKeepsOrder(order: seq<RegionId>, lists: map<RegionId, seq<SynapseId>>, rs: seq<RegionId>)
    requires OrderedByFirstSight(order, rs)
    ensures OrderedByFirstSight(SelectClasses(order, lists), rs)
    decreases |order|
  {
    if |order| > 0 {
      var pre := order[..|order| - 1];
      var last := order[|order| - 1];
      assert order == pre + [last];
      assert OrderedByFirstSight(pre, rs) by {
        forall i, j | 0 <= i < j < |pre|
          ensures FirstSeenBefore(rs, pre[i], pre[j])
        {
          assert pre[i] == order[i] && pre[j] == order[j];
        }
      }
      SelectKeepsOrder(pre, lists, rs);
      var rest := SelectClasses(pre, lists);
      if last in lists && MinListLength <= |lists[last]| {
        var ids := rest + [last];
        forall i, j | 0 <= i < j < |ids|
          ensures FirstSeenBefore(rs, ids[i], ids[j])
        {
          if j == |rest| {
            assert ids[i] in pre;
            var k :| 0 <= k < |pre| && pre[k] == ids[i];
            assert order[k] == ids[i];
          }
        }
      }
    }
  }

  /** `brain_region_ids` as computed from the split's synapses. */
  function BrainRegionIds(syns: SynapseTable, splitName: string): (r: Result<seq<RegionId>, TrainError>)
  {
    match Group(syns, splitName)
    case Err(e) => Err(e)
    case Ok(t) => Ok(SelectClasses(t.order, t.lists))
  }

  /**
   * A region is chosen as a class exactly when it has at least
   * `MinListLength + 1` (that is, 11) eligible synapses, because its first
   * eligible synapse is never stored. The classes are distinct and listed in
   * order of first sight.
   */
  lemma BrainRegionIdsSpec(syns: SynapseTable, splitName: string)
    ensures var r := BrainRegionIds(syns, splitName);
      && (r.Ok? <==> forall i :: 0 <= i < |syns| ==> Checkable(syns[i], splitName))
      && (r.Ok? ==> forall reg :: reg in r.value <==> MinListLength + 1 <= |EligibleIds(syns, splitName, reg)|)
      && (r.Ok? ==> Distinct(r.value))
      && (r.Ok? ==> OrderedByFirstSight(r.value, EligibleRegions(syns, splitName)))
  {
    GroupSpec(syns, splitName);
    var g := Group(syns, splitName);
    if g.Ok? {
      var t := g.value;
      SelectKeepsOrder(t.order, t.lists, EligibleRegions(syns, splitName));
      forall reg
        ensures reg in SelectClasses(t.order, t.lists) <==> MinListLength + 1 <= |EligibleIds(syns, splitName, reg)|
      {
        if reg in t.lists {
          assert |t.lists[reg]| == |EligibleIds(syns, splitName, reg)| - 1;
        }
      }
    }
  }

  /** A region with exactly ten eligible training synapses is NOT chosen. */
  lemma TenEligibleAreNotEnough(syns: SynapseTable, splitName: string, reg: RegionId)
    requires BrainRegionIds(syns, splitName).Ok?
    requires |EligibleIds(syns, splitName, reg)| == 10
    ensures reg !in BrainRegionIds(syns, splitName).value
  {
    BrainRegionIdsSpec(syns, splitName);
  }

  /** A region has an eligible synapse exactly when one of the records is an eligible synapse of it. */
  lemma {:induction false} EligibleIdsWitness(syns: SynapseTable, splitName: string, reg: RegionId)
    ensures 1 <= |EligibleIds(syns, splitName, reg)|
        <==> exists i :: 0 <= i < |syns| && Eligible(syns[i], splitName) && syns[i].1.brainRegion[0] == reg
    decreases |syns|
  {
    if |syns| > 0 {
      var pre := syns[..|syns| - 1];
      assert forall j :: 0 <= j < |pre| ==> syns[j] == pre[j];
      EligibleIdsWitness(pre, splitName, reg);
      if exists i :: 0 <= i < |syns| && Eligible(syns[i], splitName) && syns[i].1.brainRegion[0] == reg {
        var i :| 0 <= i < |syns| && Eligible(syns[i], splitName) && syns[i].1.brainRegion[0] == reg;
        if i < |pre| {
          assert Eligible(pre[i], splitName) && pre[i].1.brainRegion[0] == reg;
        }
      }
    }
  }

  /** The regions with more than `MinListLength` eligible training synapses. */
  ghost function QualifyingRegions(syns: SynapseTable, splitName: string): (r: set<RegionId>)
  {
    set i | 0 <= i < |syns| && Eligible(syns[i], splitName)
            && MinListLength + 1 <= |EligibleIds(syns, splitName, syns[i].1.brainRegion[0])|
      :: syns[i].1.brainRegion[0]
  }

  /** `output_classes`: the caller's value, or else the number of chosen classes. */
  function OutputClasses(requested: Option<int>, ids: seq<RegionId>): (r: int)
  {
    if requested.None? then |ids| else requested.value
  }

  /**
   * Without an explicit `output_classes`, the network gets one output per
   * qualifying region; an explicit value is kept as given.
   */
  lemma DefaultOutputClasses(syns: SynapseTable, splitName: string, requested: Option<int>)
    requires BrainRegionIds(syns, splitName).Ok?
    ensures requested.None? ==>
      OutputClasses(requested, BrainRegionIds(syns, splitName).value) == |QualifyingRegions(syns, splitName)|
    ensures requested.Some? ==>
      OutputClasses(requested, BrainRegionIds(syns, splitName).value) == requested.value
  {
    var ids := BrainRegionIds(syns, splitName).value;
    BrainRegionIdsSpec(syns, splitName);
    DistinctCardinality(ids);
    forall reg
      ensures reg in Elements(ids) <==> reg in QualifyingRegions(syns, splitName)
    {
      EligibleIdsWitness(syns, splitName, reg);
    }
    assert Elements(ids) == QualifyingRegions(syns, splitName);
  }

  // ----- sample sources -----

  /**
   * One per-class branch of the sampling pipeline: the raw volume, the
   * synapse locations of `region`, and the class label source, which is
   * given the whole class list.
   */
  datatype ClassSource = ClassSource(region: RegionId, classIds: seq<RegionId>)

  /** The `sample_sources` tuple: one branch per chosen class, in class order. */
  function SampleSources(ids: seq<RegionId>): (r: seq<ClassSource>)
  {
    seq(|ids|, i requires 0 <= i < |ids| => ClassSource(ids[i], ids))
  }

  /**
   * Every qualifying region gets exactly one sampling branch, every branch
   * is for a qualifying region, and each branch knows the full class list.
   */
  lemma OneSourcePerClass(syns: SynapseTable, splitName: string)
    requires BrainRegionIds(syns, splitName).Ok?
    ensures var ids := BrainRegionIds(syns, splitName).value;
      var src := SampleSources(ids);
      && (forall reg :: (exists i :: 0 <= i < |src| && src[i].region == reg)
                         <==> MinListLength + 1 <= |EligibleIds(syns, splitName, reg)|)
      && (forall i, j :: 0 <= i < j < |src| ==> src[i].region != src[j].region)
      && |src| == |ids|
      && (forall i :: 0 <= i < |src| ==> src[i].region == ids[i])
      && (forall i :: 0 <= i < |src| ==> src[i].classIds == ids)
  {
    var ids := BrainRegionIds(syns, splitName).value;
    BrainRegionIdsSpec(syns, splitName);
    var src := SampleSources(ids);
    forall reg
      ensures (exists i :: 0 <= i < |src| && src[i].region == reg) <==> reg in ids
    {
      if reg in ids {
        var i :| 0 <= i < |ids| && ids[i] == reg;
        assert src[i].region == reg;
      }
    }
  }

  // ----- request size -----

  /** `input_shape * voxel_size`: the componentwise product of two coordinates. */
  function InputSize(shape: seq<int>, voxelSize: seq<int>): (r: seq<int>)
    requires |shape| == |voxelSize|
    ensures |r| == |shape|
  {
    seq(|shape|, i requires 0 <= i < |shape| => shape[i] * voxelSize[i])
  }

  /** The product of all components: the number of voxels, or the physical volume. */
  function Volume(s: seq<int>): (r: int)
    decreases |s|
  {
    if |s| == 0 then 1 else Volume(s[..|s| - 1]) * s[|s| - 1]
  }

  /** The physical request volume is the voxel count times the volume of one voxel. */
  lemma {:induction false} InputSizeVolume(shape: seq<int>, voxelSize: seq<int>)
    requires |shape| == |voxelSize|
    ensures Volume(InputSize(shape, voxelSize)) == Volume(shape) * Volume(voxelSize)
    decreases |shape|
  {
    if |shape| > 0 {
      var n := |shape| - 1;
      assert InputSize(shape, voxelSize)[..n] == InputSize(shape[..n], voxelSize[..n]);
      InputSizeVolume(shape[..n], voxelSize[..n]);
      var a, b := Volume(shape[..n]), Volume(voxelSize[..n]);
      var c, d := shape[n], voxelSize[n];
      assert (a * b) * (c * d) == (a * c) * (b * d);
    }
  }

  // ----- the training loop -----

  /** The reported iteration goes up by one per batch. */
  predicate CountsFrom(iterations: seq<int>)
  {
    0 < |iterations| && forall k :: 0 <= k < |iterations| ==> iterations[k] == iterations[0] + k
  }

  /**
   * The training loop: it requests batches one after another until one
   * reports an iteration number of at least `max_iteration`. It is modelled
   * over the iteration numbers the pipeline reports for successive batches,
   * and returns how many batches were requested and whether the loop
   * stopped within the given trace. With a counter that goes up by one from
   * `c <= max_iteration`, exactly `max_iteration - c + 1` batches are
   * requested.
   */
  method TrainLoop(iterations: seq<int>, maxIteration: int) returns (requested: nat, stopped: bool)
    ensures requested <= |iterations|
    ensures stopped <==> exists k :: 0 <= k < |iterations| && maxIteration <= iterations[k]
    ensures stopped ==> 1 <= requested && maxIteration <= iterations[requested - 1]
    ensures forall j :: 0 <= j < requested - 1 ==> iterations[j] < maxIteration
    ensures !stopped ==> requested == |iterations|
    ensures CountsFrom(iterations) && iterations[0] <= maxIteration < iterations[0] + |iterations|
      ==> stopped && requested == maxIteration - iterations[0] + 1
  {
    requested := 0;
    stopped := false;
    while !stopped && requested < |iterations|
      invariant requested <= |iterations|
      invariant stopped ==> 1 <= requested && maxIteration <= iterations[requested - 1]
      invariant forall j :: 0 <= j < requested - 1 ==> iterations[j] < maxIteration
      invariant !stopped ==> forall j :: 0 <= j < requested ==> iterations[j] < maxIteration
    {
      var batchIteration := iterations[requested];
      requested := requested + 1;
      if batchIteration >= maxIteration {
        stopped := true;
      }
    }
    if CountsFrom(iterations) && iterations[0] <= maxIteration < iterations[0] + |iterations| {
      var k := maxIteration - iterations[0];
      assert maxIteration <= iterations[k];
    }
  }
}
