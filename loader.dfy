/**
 * `load_exbaboon_512_retrospection` (data.py) with its file reads, Fourier
 * transform and noise taken as given: the arrays it would read are
 * parameters, and the model composes the argument validation, the
 * normalisation of the trajectory, the ROI mask and the info dictionary.
 */
module Loader {
  import opened Wrappers
  import opened Acquisition
  import Localisations
  import RoiMask
  import AcquisitionInfo

  /** The parts of the returned tuple this model computes. */
  datatype Dataset = Dataset(
    files: Files,
    loc: seq<real>,
    roiMask: RoiMask.Grid,
    info: map<AcquisitionInfo.InfoKey, AcquisitionInfo.InfoValue>)

  /** The samples array a non-Cartesian call reads must be normalisable. */
  predicate SamplesUsable(maskType: string, accFactor: Option<int>, samples: seq<real>)
  {
    var sel := SelectFiles(maskType, accFactor);
    sel.Success? && sel.value.NonCartesianData? ==> Localisations.Normalisable(samples)
  }

  /**
   * One call of the loader. `samples` is the array the selected samples
   * file holds, `maskLocations` what `convert_mask_to_locations` returns for
   * the Cartesian mask, `png` the pixels of the ROI image, and `snr`,
   * `psnr` the two ratios computed from the k-space and the noise.
   */
  method LoadExbaboon512Retrospection(
    sigma: real, maskType: string, accFactor: Option<int>,
    samples: seq<real>, maskLocations: seq<real>,
    png: seq<seq<seq<RoiMask.uint8>>>, snr: real, psnr: real)
    returns (r: Result<Dataset, LoadError>)
    requires SamplesUsable(maskType, accFactor, samples)
    requires RoiMask.IsImage(png)
    ensures r.Success? <==> Accepted(maskType, accFactor)
    ensures r.Failure? ==> SelectFiles(maskType, accFactor) == Failure(r.error)
    ensures r.Success? ==> SelectFiles(maskType, accFactor) == Success(r.value.files)
    ensures r.Success? && r.value.files.CartesianMask? ==> r.value.loc == maskLocations
    ensures r.Success? && r.value.files.NonCartesianData? ==>
      r.value.loc == Localisations.Normalized(samples) &&
      |r.value.loc| == |samples| &&
      forall i :: 0 <= i < |r.value.loc| ==> -0.5 <= r.value.loc[i] < 0.5
    ensures r.Success? ==>
      r.value.roiMask == RoiMask.RoiMaskOf(png) &&
      r.value.info == AcquisitionInfo.AssembleInfo(sigma, snr, psnr, maskType, accFactor)
  {
    var sel := SelectFiles(maskType, accFactor);
    if sel.Failure? {
      return Failure(sel.error);
    }
    var loc: seq<real>;
    match sel.value {
      case CartesianMask(_) =>
        loc := maskLocations;
      case NonCartesianData(_, _) =>
        // `loadmat` returns a new array, which the normalisation may overwrite
        var loaded := new real[|samples|](i requires 0 <= i < |samples| => samples[i]);
        assert loaded[..] == samples;
        var normalized := Localisations.NormalizeLocalisations(loaded);
        loc := normalized[..];
        Localisations.NormalizedInHalfOpenRange(samples);
    }
    var roi := RoiMask.BinaryRoiMask(png);
    var info := AcquisitionInfo.AssembleInfo(sigma, snr, psnr, maskType, accFactor);
    r := Success(Dataset(sel.value, loc, roi, info));
  }
}
