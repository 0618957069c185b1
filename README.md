# Verified model of the exbaboon data loader

This project models the sequential logic of `data.py`. That module loads the
retrospective MRI dataset of a baboon brain with `load_exbaboon_512_retrospection`.
The model covers four things:

- the normalisation of non-Cartesian k-space sample coordinates into
  `[-0.5, 0.5[` by `_normalize_localisations`, including its in-place tie-break
  on the caller's array (`localisations.dfy`, module `Localisations`);
- the validation of `mask_type` and `acc_factor`, and the choice of the
  mask/trajectory and k-space files each accepted combination reads
  (`acquisition.dfy`, module `Acquisition`);
- the binary region-of-interest mask. Its steps are the bitwise complement of
  the PNG's first channel, binarisation in place and `np.rot90(np.fliplr(...))`
  (`roi_mask.dfy`, module `RoiMask`);
- the `info` dictionary (`acquisition_info.dfy`, module `AcquisitionInfo`).

`loader.dfy` (module `Loader`) composes these into one call of the loader. The
arrays the loader would read from disk are parameters of that call.
`wrappers.dfy` holds the `Option` and `Result` types.

Coordinates are `real`s: floating-point rounding is not modelled. Under this
model the doc-comment's promise "Normalize localisation to [-0.5, 0.5[" holds
exactly. Normalisation is also idempotent: a second call takes the
`Kmax < |Kmin|` branch with divisor 1 and changes nothing.

The returned ROI mask is sometimes described as "rotated by 180° and mirrored".
The code computes `np.rot90(np.fliplr(B))`, and numpy defines `rot90(M)` as
`transpose(fliplr(M))`. So the result is exactly the transpose of `B`. The model
follows the code and proves this (`RoiMask.Rot90FlipLRIsTranspose`).

The description of the loader says that argument errors are raised before any
file is read. In the code, the reference image is read first (data.py:86-88).
The model does not model reads, so it makes no claim about their order.

## Model

| member | source | states |
|---|---|---|
| `Localisations.Max` | data.py:46 | `loc.max()`: the result is an element of the array and no element exceeds it |
| `Localisations.Min` | data.py:47 | `loc.min()`: the result is an element of the array and no element is below it |
| `Localisations.Extremes` | data.py:46-47 | one scan returns Kmax and Kmin, with every element between them |
| `Localisations.DivisorPositive` | data.py:48-52 | for a non-empty array that is not all zeros, the divisor of the branch taken (2abs(Kmin) or 2abs(Kmax)) is positive |
| `Localisations.OverwriteMaxima` | data.py:51 | `loc[loc == Kmax] = -Kmax`: in place, exactly the elements equal to Kmax become -Kmax and every other element is unchanged |
| `Localisations.DividedBy` | data.py:49 | `loc / d` is a new array of the same length holding each element divided by d |
| `Localisations.ScaledBack` | data.py:52 | multiplying each element of `loc / d` by d gives back `loc` |
| `Localisations.NormalizeLocalisations` | data.py:43-52 | returns a new array equal to the normalised coordinates; the caller's array is left alone in the first branch and tie-broken in the second |
| `Localisations.NormalizedInHalfOpenRange` | data.py:43-52 | the output has the input's length and every element lies in `[-0.5, 0.5[` |
| `Localisations.MinDominatesNegative` | data.py:48-49 | when `Kmax < abs(Kmin)`, Kmin is negative and the divisor is -2·Kmin |
| `Localisations.MaxDominatesPositive` | data.py:50-52 | otherwise Kmax is positive, the divisor is 2·Kmax, and every element lies in `[-Kmax, Kmax]` |
| `Localisations.MinDominatesScales` | data.py:48-49 | first branch: the caller's array is unchanged, the output is the input divided by 2abs(Kmin), Kmin maps to exactly -0.5 and Kmax maps strictly below 0.5 |
| `Localisations.TieBreakOverwritesMaxima` | data.py:50-52 | second branch: an element of the caller's array changes iff it equals Kmax, and then it becomes -Kmax; the output is that array divided by 2·Kmax; those elements map to -0.5 and no output element equals 0.5 |
| `Localisations.NormalizedExtremes` | data.py:43-52 | the minimum of the output is exactly -0.5 and its maximum is below 0.5 |
| `Localisations.NormalizeIdempotent` | data.py:43-52 | normalising the output again gives the same output and leaves the array untouched |
| `Localisations.NormalizedMonotone` | data.py:43-52 | the order of coordinates is kept, except for the Kmax elements that the second branch moves to the bottom |
| `Acquisition.ParseMaskType` | data.py:91-147 | a recognised `mask_type` string is the name of the mask type it is read as |
| `Acquisition.ParseMaskTypeName` | data.py:91-123 | each of the three mask types is read back from its own name |
| `Acquisition.SelectFiles` | data.py:91-147 | the call is accepted iff the combination is `("cartesianR4", None)` or a radial/sparkling type with a factor in the manifest; the Cartesian mask is chosen iff `mask_type` is `cartesianR4` and `acc_factor` is None |
| `Acquisition.RadialX8Files` | data.py:103-109 | `("radial", 8)` reads `samples_radial_x8_64x3072.mat` and `values_radial_x8_64x3072.mat` |
| `Acquisition.RadialX15Files` | data.py:111-117 | `("radial", 15)` reads `samples_radial_x15_34x3072.mat` and `values_radial_x15_34x3072.mat` |
| `Acquisition.RadialSparklingX8Files` | data.py:124-130 | `("radial-sparkling", 8)` reads `samples_sparkling_x8_64x3072.mat` and `values_sparkling_x8_64x3072.mat` |
| `Acquisition.RadialSparklingX15Files` | data.py:132-138 | `("radial-sparkling", 15)` reads `samples_sparkling_x15_34x3072.mat` and `values_sparkling_x15_34x3072.mat` |
| `Acquisition.NonCartesianFilesPaired` | data.py:102-138 | every accepted non-Cartesian combination reads one samples file and one values file, named by its manifest entry with the `samples_`/`values_` prefix |
| `Acquisition.NonCartesianFilesDistinct` | data.py:102-138 | different accepted non-Cartesian combinations read different files |
| `Acquisition.CartesianRejectsAccFactor` | data.py:91-95 | `cartesianR4` with any `acc_factor` raises, naming the factor |
| `Acquisition.NonCartesianRejectsOtherFactors` | data.py:102-142 | `radial` or `radial-sparkling` with an `acc_factor` other than 8 or 15, None included, raises, naming the factor |
| `Acquisition.UnknownMaskTypeRejected` | data.py:144-147 | any other `mask_type` raises, naming the string |
| `Acquisition.DefaultArgumentsSelectCartesian` | data.py:55-56 | the default arguments select `mask_BrainPhantom512_R4.mat` |
| `RoiMask.InvertIsComplement` | data.py:162 | `~p` on a uint8 pixel is `255 - p`, and it is 0 exactly when p is 255 |
| `RoiMask.Rot90FlipLRIsTranspose` | data.py:173 | `rot90(fliplr(B))` is the transpose of B |
| `RoiMask.RoiMaskEntries` | data.py:160-173 | the returned mask has the PNG's dimensions swapped, holds only 0 and 1, and is 0 at (i, j) exactly when the first channel at (j, i) was 255 |
| `RoiMask.ComplementFirstChannel` | data.py:162 | builds a new array whose entries are the complemented first channel |
| `RoiMask.Binarize` | data.py:163 | in place, every nonzero entry becomes 1 and every zero stays 0 |
| `RoiMask.BinaryRoiMask` | data.py:160-173 | the imperative steps compute the specified mask: dimensions swapped, entries in {0, 1}, 0 exactly where the source pixel was 255 |
| `AcquisitionInfo.AssembleInfo` | data.py:152-170 | the dictionary has exactly the thirteen keys; `sigma`, `snr`, `psnr`, `mask_type` and `acc_factor` are stored as passed (None as None); the constants are N=512, FOV 200 mm, TE 30 ms, TR 550 ms, Tobs 30.72 ms, angle 25°, slice thickness 3 mm and contrast `T2*w` |
| `AcquisitionInfo.InfoDeterminesArguments` | data.py:166-170 | equal dictionaries come from equal arguments: the caller's values are recorded without loss |
| `Loader.LoadExbaboon512Retrospection` | data.py:55-173 | the call fails iff the combination is not accepted, with the error of the validation. On success: the selected files; the Cartesian locations as given, or the normalised samples with every coordinate in `[-0.5, 0.5[`; the specified ROI mask; the assembled `info` |

## Left out

- File reading and path resolution (`loadmat`, `misc.imread`, `osp.join`): these are I/O. The arrays they return are parameters of `Loader.LoadExbaboon512Retrospection`, and the model records which file names are chosen.
- `_l2_normalize` and the reference image: they need a square-root norm over floating point.
- `ifftshift`, `fft2` and the Cartesian k-space product: these are floating-point library numerics.
- `convert_mask_to_locations`: its source is not part of this model. Its result is the `maskLocations` parameter.
- Noise generation with `randn`, the addition of noise to the k-space, and the natural-logarithm formulas for SNR and PSNR: these are randomness and floating-point logarithms. The two ratios are parameters of `AcquisitionInfo.AssembleInfo`. When `sigma` is 0 the noise norm is 0 and both formulas divide by zero; the code does not guard against this.
- The `astype` casts of the returned arrays: they change only the representation.
- Localisations.NormalizeLocalisations: requires a non-empty array that is not all zeros. numpy raises on the reduction of an empty array, and an all-zero array divides by zero. Neither path is modelled.
- Localisations.NormalizeLocalisations: works over exact reals. Floating-point rounding of the division is not modelled.
- Localisations.NormalizeLocalisations: takes the two-dimensional coordinate array flattened to one dimension. The operation is element-wise and keeps the shape.
- RoiMask.BinaryRoiMask: requires an image with at least one row, one column and one channel, as every PNG has.
- Acquisition.SelectFiles: takes `acc_factor` as an optional integer. Python would also accept other objects that compare equal to 8 or 15, such as 8.0.
- AcquisitionInfo.AssembleInfo: uses an enumeration for the dictionary keys. `AcquisitionInfo.KeyName` gives each key's Python string; the model does not prove that these strings are distinct.
