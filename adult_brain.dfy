/**
 * A segmented adult brain volume (AZBA atlas stack) with its region lookup
 * table, its optional voxel-to-physical scale and the cached table of
 * per-region statistics.
 */
module AdultBrain {
  import opened Wrappers
  import opened Text
  import opened RegionCatalog
  import opened VolumeStatistics

  /** The conditions the class raises. */
  datatype Error =
    | NotThreeDimensional   // ValueError: the stack does not have exactly 3 axes
    | BadVoxelConversion    // ValueError: the voxel conversion is not a 3-tuple
    | BadSortKey            // ValueError: sort_by is neither "region_id" nor "measure"
    | VolumesNotComputed    // RuntimeError: write_regions before compute_volumes

  /** A label stack with exactly three axes. */
  type Stack3 = a: LabelStack | |a.shape| == 3 witness LabelArray([1, 1, 1], [0])

  class AdultBrain {
    const stack: Stack3
    var regionLookup: map<int, string>
    var voxelConversion: Option<VoxelScale>
    /** The table of the last successful compute_volumes call, if any. */
    var volumes: Option<seq<Row>>

    /** The constructor once the stack has passed the shape check; see Create. */
    constructor (stack: Stack3, regionLookup: Option<map<int, string>>)
      ensures this.stack == stack
      ensures this.regionLookup == if regionLookup.Some? then Merge(DefaultRegionLut, regionLookup.value) else DefaultRegionLut
      ensures voxelConversion == None && volumes == None
    {
      this.stack := stack;
      this.regionLookup := DefaultRegionLut;
      voxelConversion := None;
      volumes := None;
      new;
      if regionLookup.Some? && regionLookup.value != map[] {
        SetRegionLookup(regionLookup.value, true);
      } else if regionLookup.Some? {
        assert Merge(DefaultRegionLut, regionLookup.value) == DefaultRegionLut;
      }
    }

    /**
     * AdultBrain(stack, region_lookup): fails unless the stack has exactly three
     * axes; otherwise the lookup table is the default one with region_lookup
     * merged over it, and there is no voxel conversion and no computed table.
     */
    static method Create(stack: LabelStack, regionLookup: Option<map<int, string>>) returns (r: Result<AdultBrain, Error>)
      ensures r.Failure? <==> |stack.shape| != 3
      ensures r.Failure? ==> r.error == NotThreeDimensional
      ensures r.Success? ==> fresh(r.value) && r.value.stack == stack
      ensures r.Success? && regionLookup.Some? ==> r.value.regionLookup == Merge(DefaultRegionLut, regionLookup.value)
      ensures r.Success? && regionLookup.None? ==> r.value.regionLookup == DefaultRegionLut
      ensures r.Success? ==> r.value.voxelConversion == None && r.value.volumes == None
    {
      if |stack.shape| != 3 {
        return Failure(NotThreeDimensional);
      }
      var brain := new AdultBrain(stack, regionLookup);
      return Success(brain);
    }

    /** The shape of the stack; its three extents multiply to the number of voxels. */
    function Dimensions(): (d: (nat, nat, nat))
      ensures d == (stack.shape[0], stack.shape[1], stack.shape[2])
      ensures d.0 * d.1 * d.2 == |stack.voxels|
    {
      var s := stack.shape;
      assert Product(s[2..]) == s[2] by {
        assert s[2..][1..] == [];
      }
      assert Product(s[1..]) == s[1] * s[2] by {
        assert s[1..][1..] == s[2..];
      }
      assert Product(s) == s[0] * (s[1] * s[2]);
      assert s[0] * (s[1] * s[2]) == s[0] * s[1] * s[2];
      (s[0], s[1], s[2])
    }

    /** The distinct labels of the stack, ascending. */
    function RegionLabels(): (r: seq<int>)
      ensures StrictlyIncreasing(r)
      ensures forall x :: x in r <==> x in stack.voxels
    {
      UniqueLabels(stack.voxels)
    }

    /** The voxel_conversion setter: a 3-tuple replaces the scale, anything else leaves it and fails. */
    method SetVoxelConversion(ratios: seq<real>) returns (r: Result<(), Error>)
      modifies this`voxelConversion
      ensures |ratios| != 3 ==> r == Failure(BadVoxelConversion) && voxelConversion == old(voxelConversion)
      ensures |ratios| == 3 ==> r == Success(()) && voxelConversion == Some((ratios[0], ratios[1], ratios[2]))
    {
      if |ratios| != 3 {
        return Failure(BadVoxelConversion);
      }
      voxelConversion := Some((ratios[0], ratios[1], ratios[2]));
      return Success(());
    }

    /** set_region_lookup: merge the entries over the table, or make them the whole table. */
    method SetRegionLookup(lut: map<int, string>, merge: bool)
      modifies this`regionLookup
      ensures regionLookup == if merge then Merge(old(regionLookup), lut) else lut
    {
      if merge {
        regionLookup := regionLookup + lut;
      } else {
        regionLookup := lut;
      }
    }

    /**
     * load_region_lookup_from_itksnap on the lines of the file: builds the
     * table of the file's entries line by line, then merges or replaces.
     */
    method LoadRegionLookupFromItksnap(lines: seq<string>, keepZero: bool, merge: bool)
      modifies this`regionLookup
      ensures regionLookup == if merge then Merge(old(regionLookup), ItkSnapLut(lines, keepZero)) else ItkSnapLut(lines, keepZero)
    {
      var lut: map<int, string> := map[];
      for i := 0 to |lines|
        invariant lut == ItkSnapLut(lines[..i], keepZero)
        invariant regionLookup == old(regionLookup)
      {
        ItkSnapLutStep(lines, keepZero, i);
        match ParseLabelLine(lines[i]) {
          case None =>
          case Some((idx, name)) =>
            if !(idx == 0 && !keepZero) {
              lut := lut[idx := name];
            }
        }
      }
      assert lines[..|lines|] == lines;
      SetRegionLookup(lut, merge);
    }

    /**
     * compute_volumes: the per-region table sorted as asked. A bad sort_by
     * fails and keeps the previous table; otherwise the new table is cached.
     */
    method ComputeVolumes(includeZero: bool, sortBy: string, ascending: bool) returns (r: Result<seq<Row>, Error>)
      modifies this`volumes
      ensures ParseSortKey(sortBy).None? ==> r == Failure(BadSortKey) && volumes == old(volumes)
      ensures ParseSortKey(sortBy).Some? ==> r.Success? && volumes == Some(r.value)
      ensures ParseSortKey(sortBy).Some? ==>
        r.value == VolumesTable(stack.voxels, regionLookup, voxelConversion, includeZero, Order(ParseSortKey(sortBy).value, ascending))
    {
      var rows := LabelRows(stack.voxels, regionLookup, voxelConversion, includeZero);
      var key := ParseSortKey(sortBy);
      if key.None? {
        return Failure(BadSortKey);
      }
      var table := MergeSort(rows, RankOf(Order(key.value, ascending)));
      volumes := Some(table);
      return Success(table);
    }

    /** write_regions: the rows it would write, or a failure while no table has been computed. */
    method WriteRegions() returns (r: Result<seq<Row>, Error>)
      ensures volumes.None? ==> r == Failure(VolumesNotComputed)
      ensures volumes.Some? ==> r == Success(volumes.value)
    {
      if volumes.None? {
        return Failure(VolumesNotComputed);
      }
      return Success(volumes.value);
    }
  }
}
