# AdultBrain: region volumes of a segmented adult zebrafish brain

This project models the `AdultBrain` class of adultbrain-volume_analysis in Dafny.
The class holds a 3-D stack of integer region labels (an atlas segmentation) and a
region lookup table that maps region ids to display names. It also holds an optional
physical voxel size and a cached table of per-region statistics.

The parts modelled are:

- **The lookup table.** It starts as a copy of the built-in default. Entries can be
  merged over it (`dict.update`) or can replace it. A missing id is shown as
  `"Region <id>"`.
- **The ITK-SNAP label-file parser.** It is modelled as a pure function from the
  file's lines to a table. It follows Python's `str.strip`, `split('"')`,
  `split()[0]` and base-10 `int()` on the parts it uses, with the differences
  listed under "Left out".
- **`compute_volumes`.** It takes the distinct labels in ascending order (`np.unique`),
  counts the voxels of each, and drops label 0 unless asked. When a voxel size is set,
  each count is multiplied by `sx * sy * sz`. Each row is joined with its name, the
  rows are stable-sorted by `region_id` or by `measure` in either direction, and the
  table is cached.
- **`write_regions`.** It refuses to run before a table has been computed.

Modules:

- `Wrappers` (`wrappers.dfy`): `Option` and `Result`.
- `Text` (`text.dfy`): the Python string operations the parser relies on, and
  `str(int)` for the fallback name.
- `RegionCatalog` (`region_catalog.dfy`): the default table, merging, name lookup and
  the ITK-SNAP parser.
- `VolumeStatistics` (`volume_statistics.dfy`):
  - counting and the distinct labels;
  - rows and measures;
  - a stable merge sort that stands in for pandas' `kind="mergesort"`;
  - the properties of the finished table.
- `AdultBrain` (`adult_brain.dfy`): the class. Its fields are the stack, the lookup
  table, the voxel conversion and the cached table. There is one method per public
  operation.

The volume is a `LabelArray`: a shape and its voxels, flattened. The number of voxels
equals the product of the shape. Counting does not depend on the flattening order.

The constructor's `ValueError` is modelled by the factory `AdultBrain.Create`. It
returns `Failure(NotThreeDimensional)` unless the stack has three axes; otherwise it
calls the constructor. Every other raised error is a `Failure` of the method's
`Result`, and a failed call leaves the state as it was.

A descending pandas `mergesort` keeps tied rows in their original order. The model
therefore sorts ascending, stably, on the negated key (`Rank`). The merge sort
and its lemmas take the sort key as a function `Row -> real`; the table uses
`RankOf(order)`.

## Model

| member | source | states |
|---|---|---|
| Text.IsSpace | adultbrain.py:302 | no contract of its own: the characters Python's `str.isspace` accepts, on which `TrimStart` and `TrimEnd` are stated |
| Text.Strip | adultbrain.py:302 | no contract of its own; `TrimStart`, `TrimEnd` and `StripTrimmed` state it |
| Text.TrimStart | adultbrain.py:302 | the result is a suffix of the input; every character removed is Python whitespace, and the result does not start with whitespace |
| Text.TrimEnd | adultbrain.py:302 | the result is a prefix of the input; every character removed is Python whitespace, and the result does not end with whitespace |
| Text.StripTrimmed | adultbrain.py:302 | `strip()` keeps only characters of the input and leaves no whitespace at either end |
| Text.BeforeQuote | adultbrain.py:306-308 | part 0 of `split('"')`: the longest prefix without a quote, followed by a quote or by the end of the string |
| Text.TakeWord | adultbrain.py:310 | the first item of `split()`: a prefix without whitespace, followed by whitespace or by the end |
| Text.FirstWord | adultbrain.py:310 | no contract of its own: None when the text is all whitespace (where `split()[0]` raises), else `TakeWord` of the text after its leading whitespace |
| Text.ParseInt | adultbrain.py:310 | no contract of its own; `ParseIntAccepts`, `ParseIntRefuses` and `ParseIntToString` state it |
| Text.ParseIntAccepts | adultbrain.py:310 | `int()` reads "007" as 7, "+5" as 5 and "-1_0" as -10 |
| Text.ParseIntRefuses | adultbrain.py:310 | `int()` raises on "1__0", "_1", "1_", "", "-" and "1a" |
| Text.IntToString | adultbrain.py:348 | no contract of its own; `NatToString`, `NatToStringValue` and `ParseIntToString` state it |
| Text.StripFramed | adultbrain.py:302 | `strip()` of whitespace, then text with non-space ends, then any tail is the text followed by the tail's `rstrip()` |
| Text.NatToString | adultbrain.py:348 | the decimal digits of a natural number: nonempty, all digits, no leading zero |
| Text.NatToStringValue | adultbrain.py:348 | the printed digits form a valid integer literal whose value is the number |
| Text.ParseIntToString | adultbrain.py:310 | `int(str(n)) == n` for every integer, negative ones included |
| RegionCatalog.Merge | adultbrain.py:289-291 | `update`: the keys are the union, every supplied key holds the supplied value, and every other key keeps its old value |
| RegionCatalog.DefaultLookupKnown | adultbrain.py:24-229 | the default table names the background 0 "Clear Label" and the reserved id 904 |
| RegionCatalog.DefaultLookupFallback | adultbrain.py:24-229 | ids 199 and 905, just past the default table's ranges 0-198 and 900-904, are shown as "Region 199" and "Region 905" |
| RegionCatalog.LookupName | adultbrain.py:348 | no contract of its own; `LookupNameFallback` states it |
| RegionCatalog.LookupNameFallback | adultbrain.py:348 | a known id is named by its entry; an unknown id gets "Region " followed by its printed id, from which the id parses back |
| RegionCatalog.ParseLabelLine | adultbrain.py:302-310 | a blank line, a `#` line or a line without a quote yields no entry |
| RegionCatalog.ParseLabelLineEntry | adultbrain.py:305-310 | an entry's id is the integer value of the first word before the first quote, and its name is free of quotes and of surrounding whitespace |
| RegionCatalog.ParseLabelLineSplit | adultbrain.py:302-310 | for any line whose stripped form is `left "q` followed by nothing or by a quote and any text, with no quote in left or q: it yields an entry exactly when it is not a `#` comment and the first word of left is an integer, and the entry is that integer with q stripped |
| RegionCatalog.ParseFormattedLine | adultbrain.py:301-310 | a line `<id> <columns> "<name>"`, indented by any whitespace and followed by any text, yields exactly `(id, name stripped)` when columns and name hold no quote |
| RegionCatalog.ParseItkSnapSample | adultbrain.py:301-310 | an indented ITK-SNAP line `    1   255    0    0        1  1  1    "Label 1"` with its newline yields region 1 named "Label 1" |
| RegionCatalog.LabelEntry | adultbrain.py:313-315 | no contract of its own; `ItkSnapLut` and `ItkSnapLutKeys` state that id 0 is dropped unless `keep_zero` and that every other parsed entry is kept |
| RegionCatalog.BuildLut | adultbrain.py:315 | no contract of its own; `BuildLutKeys` and `BuildLutLastWins` state its keys and that the last entry for an id wins |
| RegionCatalog.LineEntries | adultbrain.py:301-315 | no contract of its own; the entries of the lines in file order, used by `ItkSnapLut`, whose lemmas state the loaded table |
| RegionCatalog.BuildLutKeys | adultbrain.py:315 | an id is in the built table exactly when some entry is for that id |
| RegionCatalog.BuildLutLastWins | adultbrain.py:315 | an id's name comes from the last entry for that id |
| RegionCatalog.ItkSnapLut | adultbrain.py:313-314 | with `keep_zero` false, id 0 is never in the loaded table |
| RegionCatalog.ItkSnapLutKeys | adultbrain.py:300-315 | an id is in the loaded table exactly when some line parses to it and is not a dropped 0 |
| RegionCatalog.ItkSnapLutLaterWins | adultbrain.py:315 | when lines repeat an id, the last such line gives its name |
| RegionCatalog.ItkSnapLutStep | adultbrain.py:301-315 | the table of the first i+1 lines is the table of the first i lines updated with line i's entry, if any |
| VolumeStatistics.Count | adultbrain.py:333 | a label's count is at most the number of voxels, and is positive exactly when the label occurs |
| VolumeStatistics.CountIsPositions | adultbrain.py:333 | a label's count equals the number of positions that hold it |
| VolumeStatistics.InsertSorted | adultbrain.py:333 | inserting into an ascending sequence without repeats keeps it so and adds exactly the new element |
| VolumeStatistics.UniqueLabels | adultbrain.py:333 | `np.unique`: strictly ascending, and it holds exactly the labels of the volume |
| VolumeStatistics.StrictlyIncreasingUnique | adultbrain.py:333 | two strictly ascending sequences with the same elements are equal, so the distinct labels are determined |
| VolumeStatistics.DropZero | adultbrain.py:334-336 | masking out 0 removes exactly 0 and preserves ascending order |
| VolumeStatistics.KeptLabels | adultbrain.py:333-336 | strictly ascending; holds exactly the labels of the volume, with 0 only when `include_zero` |
| VolumeStatistics.ParseSortKey | adultbrain.py:352-353 | a key is accepted exactly for "region_id" and "measure" |
| VolumeStatistics.MergeSort | adultbrain.py:354 | no contract of its own; `MergeSortPermutation`, `MergeSortSorted`, `MergeSortStable`, `MergeSortOfSorted` and `MergeSortIdCount` state it |
| VolumeStatistics.Rank | adultbrain.py:354 | no contract of its own: the sort column, negated for a descending sort; `TableColumnOrder` states the resulting order of the column |
| VolumeStatistics.MergeRunsPermutation | adultbrain.py:354 | the merge of two runs is a permutation of their concatenation |
| VolumeStatistics.MergeSortPermutation | adultbrain.py:354 | the sorted rows are a permutation of the input, for any sort key |
| VolumeStatistics.MergeSortSorted | adultbrain.py:354 | the sorted rows are in ascending order of the sort key; the table's key is the column, or the negated column when descending |
| VolumeStatistics.MergeSortStable | adultbrain.py:354 | stability: for every key value, the rows with that value keep their input order |
| VolumeStatistics.MergeSortOfSorted | adultbrain.py:354 | input that is already in key order is left unchanged |
| VolumeStatistics.MergeSortIdCount | adultbrain.py:354 | sorting keeps the number of rows of each region id |
| VolumeStatistics.MeasureOf | adultbrain.py:338-344 | no contract of its own; `TableRowContents` states the measure |
| VolumeStatistics.RegionRow | adultbrain.py:346-350 | no contract of its own; `TableRowContents` and `TableRowIsLabelRow` state the row |
| VolumeStatistics.LabelRows | adultbrain.py:333-350 | no contract of its own; `LabelRowsIncreasing`, `LabelRowsMembers` and `TableRegions` state it |
| VolumeStatistics.VolumesTable | adultbrain.py:333-354 | no contract of its own; the `Table*` lemmas below state it |
| VolumeStatistics.LabelRowsIncreasing | adultbrain.py:333-350 | before sorting, the rows are in strictly increasing id order |
| VolumeStatistics.TableRegions | adultbrain.py:333-336 | every label of the volume, minus 0 unless `include_zero`, has exactly one row; no other id has any |
| VolumeStatistics.TableRowIsLabelRow | adultbrain.py:346-350 | every row belongs to a kept label and is that label's row |
| VolumeStatistics.TableRowContents | adultbrain.py:338-350 | a row's name is its lookup entry or "Region <id>"; its measure is the voxel count, or count × sx·sy·sz when a scale is set |
| VolumeStatistics.TableSorted | adultbrain.py:354 | the table is sorted by the chosen key and direction, is a permutation of the id-ordered rows, and keeps tied rows in their original order |
| VolumeStatistics.TableColumnOrder | adultbrain.py:354 | between any two rows, the sort column is non-decreasing when ascending and non-increasing when descending |
| VolumeStatistics.TableTiesAscending | adultbrain.py:333-354 | two rows with equal key appear in ascending id order, in either direction |
| VolumeStatistics.TableDefaultOrder | adultbrain.py:354 | sorting by region_id ascending gives exactly the id-ordered rows, with strictly increasing ids |
| VolumeStatistics.LabelRowsMembers | adultbrain.py:346-350 | a row is in the table exactly when its id is a kept label and it is that label's row |
| VolumeStatistics.TableMembers | adultbrain.py:354 | sorting changes no row's membership |
| VolumeStatistics.TableWithoutZero | adultbrain.py:334-336 | without `include_zero` the table holds exactly the rows of the full table whose id is not 0 |
| VolumeStatistics.ExampleLabels | adultbrain.py:333-336 | for the example volume, the kept labels are 1 and 2 |
| VolumeStatistics.ExampleCounts | adultbrain.py:333 | in the example volume, regions 1 and 2 hold three voxels each |
| VolumeStatistics.ExampleTable | adultbrain.py:333-354 | the example's default table has the rows (1, name, 3) and (2, name, 3); a scale of (2, 1, 1) makes each measure 6 |
| AdultBrain.AdultBrain.constructor | adultbrain.py:234-241 | the stack is stored; the lookup is the default with the given entries merged over it (none given: the default); no scale and no table |
| AdultBrain.AdultBrain.Create | adultbrain.py:231-241 | fails with the shape error exactly when the stack does not have three axes; otherwise returns a fresh object as the constructor describes |
| AdultBrain.AdultBrain.Dimensions | adultbrain.py:263-265 | exactly the stack's three extents, in order, whose product is the number of voxels |
| AdultBrain.AdultBrain.RegionLabels | adultbrain.py:267-269 | strictly ascending, holding exactly the labels in the stack |
| AdultBrain.AdultBrain.SetVoxelConversion | adultbrain.py:275-279 | a sequence whose length is not 3 fails and leaves the scale unchanged; otherwise the scale becomes those three values |
| AdultBrain.AdultBrain.SetRegionLookup | adultbrain.py:283-293 | with merge, the lookup becomes the old one updated with the entries; without merge, exactly the entries |
| AdultBrain.AdultBrain.LoadRegionLookupFromItksnap | adultbrain.py:295-316 | the loop builds exactly the table of the file's lines, which is then merged over the lookup or replaces it |
| AdultBrain.AdultBrain.ComputeVolumes | adultbrain.py:326-361 | a bad sort_by fails and leaves the cache unchanged; otherwise the result is the sorted table of the current stack, lookup and scale, and it becomes the cache |
| AdultBrain.AdultBrain.WriteRegions | adultbrain.py:364-366 | fails while no table has been computed; otherwise yields the cached table |

## Left out

- Reading the NIfTI stack (`from_file`, nibabel) is left out, because it is file I/O through a foreign library. The stack is a parameter.
- Opening the label file is left out, because it is file I/O. `LoadRegionLookupFromItksnap` takes the file's lines (Python's line iteration keeps each `"\n"`, which `strip` removes).
- `to_csv` and every `print` are left out, because they are output. `WriteRegions` returns the rows it would write.
- The float-to-int conversion `astype(np.int64)` is left out. The stack holds integer labels from the start.
- IEEE floating point is left out. Scales and volumes are Dafny `real`, so there is no rounding, and `float(r)` in the setter is the identity.
- Both the source and the model accept any three values as a voxel scale. Zero and negative values are not rejected.
- NaN ordering in `sort_values` is left out, because reals have no NaN.
- The measure column's name, which embeds the tuple's `repr`, is left out, because it is float formatting. The `_volumes_series` cache, `reset_index`, `rename`, `as_dataframe` and `__str__` are also left out, because they are presentation.
- The verbatim `DEFAULT_REGION_LUT` is left out, because it is reference data. `DefaultRegionLut` holds entries 0-5 and 900-904 as the source spells them.
- `SetRegionLookup` does not model the `int(k)` / `str(v)` coercion of keys and values. The table is typed `map<int, string>`, so the coercion is the identity.
- `ParseLabelLine` accepts an integer literal as ASCII digits with an optional sign and single underscores between digits. It does not model the Unicode decimal digits that Python's `int()` also accepts.
- ParseInt: does not model the limit of 4300 digits that current CPython puts on `int()` of a decimal string. Python raises there, and the loader skips the line; the model accepts any length. Region ids in real label files are far below that length.
- `ParseLabelLine` returns no entry where `left.split()[0]` raises `IndexError`. The loader's `except Exception: continue` makes the two equivalent.
- `main.py` is not part of this model. It is a script that loads a fixed file and calls the class.
- The default arguments are not modelled as defaults: `include_zero=False`, `sort_by="region_id"` and `ascending=True` of `compute_volumes`, `keep_zero=True` and `merge=True` of the loader, and `merge=True` of `set_region_lookup` are explicit parameters.
- ComputeVolumes: the cached table is a value. In the source, `compute_volumes` stores the DataFrame it returns, and the `volumes` property hands out that same object, so a caller's in-place edit of it changes what `write_regions` writes. The model does not capture that sharing: `WriteRegions` always yields exactly the rows the last successful `ComputeVolumes` returned.
- `self.stack` is a public attribute that the source lets callers reassign, and it holds the caller's array by reference. The model's `stack` is a `const` value, so later reassignment of the attribute and aliasing of the array are not captured.
