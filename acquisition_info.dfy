/**
 * The `info` dictionary returned by `load_exbaboon_512_retrospection`
 * (data.py): the caller's noise level, mask type and acceleration factor,
 * the two noise ratios, and the fixed constants of the acquisition.
 */
module AcquisitionInfo {
  import opened Wrappers

  /** The thirteen keys of the dictionary; `KeyName` gives the string the source uses. */
  datatype InfoKey =
    | Sigma | Snr | Psnr | N | FovMm | TeMs | TrMs | TobsMs
    | AngleDegree | SliceThicknessMm | Contrast | MaskType | AccFactor

  /** Every key, listed once. */
  const AllKeys: set<InfoKey> := {
    Sigma, Snr, Psnr, N, FovMm, TeMs, TrMs, TobsMs,
    AngleDegree, SliceThicknessMm, Contrast, MaskType, AccFactor
  }

  /** The key string of the Python dictionary. */
  function KeyName(k: InfoKey): string
  {
    match k
    case Sigma => "sigma"
    case Snr => "snr"
    case Psnr => "psnr"
    case N => "N"
    case FovMm => "FOV(mm)"
    case TeMs => "TE(ms)"
    case TrMs => "TR(ms)"
    case TobsMs => "Tobs(ms)"
    case AngleDegree => "Angle(degree)"
    case SliceThicknessMm => "Slice-thickness(mm)"
    case Contrast => "Contrast"
    case MaskType => "mask_type"
    case AccFactor => "acc_factor"
  }

  /** The Python values stored in the dictionary. */
  datatype InfoValue = Real(r: real) | Int(i: int) | Str(s: string) | NoneValue

  /** `acc_factor` as stored: the integer, or Python's None. */
  function AccFactorValue(accFactor: Option<int>): InfoValue
  {
    match accFactor
    case Some(f) => Int(f)
    case None => NoneValue
  }

  /**
   * The dictionary as the loader builds it: `{'sigma': sigma}`, then the two
   * ratios, then the constants, then `mask_type` and `acc_factor`. The
   * ratios `snr` and `psnr` are computed from the k-space and the noise by
   * natural logarithms, which this model takes as given.
   */
  function AssembleInfo(sigma: real, snr: real, psnr: real, maskType: string, accFactor: Option<int>)
    : (info: map<InfoKey, InfoValue>)
    ensures info.Keys == AllKeys
    ensures info[Sigma] == Real(sigma) && info[MaskType] == Str(maskType)
    ensures info[AccFactor] == (if accFactor.Some? then Int(accFactor.value) else NoneValue)
    ensures info[Snr] == Real(snr) && info[Psnr] == Real(psnr)
    ensures info[N] == Int(512) && info[FovMm] == Int(200)
    ensures info[TeMs] == Int(30) && info[TrMs] == Int(550) && info[TobsMs] == Real(30.72)
    ensures info[AngleDegree] == Int(25) && info[SliceThicknessMm] == Int(3)
    ensures info[Contrast] == Str("T2*w")
  {
    var info := map[Sigma := Real(sigma)];
    var info := info[Snr := Real(snr)][Psnr := Real(psnr)];
    var info := info + map[
      N := Int(512), FovMm := Int(200), TeMs := Int(30), TrMs := Int(550),
      TobsMs := Real(30.72), AngleDegree := Int(25), SliceThicknessMm := Int(3),
      Contrast := Str("T2*w")];
    info[MaskType := Str(maskType)][AccFactor := AccFactorValue(accFactor)]
  }

  /** The dictionary records the caller's arguments without loss: equal dictionaries come from equal arguments. */
  lemma InfoDeterminesArguments(
    sigma1: real, snr1: real, psnr1: real, maskType1: string, accFactor1: Option<int>,
    sigma2: real, snr2: real, psnr2: real, maskType2: string, accFactor2: Option<int>)
    requires AssembleInfo(sigma1, snr1, psnr1, maskType1, accFactor1) ==
             AssembleInfo(sigma2, snr2, psnr2, maskType2, accFactor2)
    ensures sigma1 == sigma2 && snr1 == snr2 && psnr1 == psnr2
    ensures maskType1 == maskType2 && accFactor1 == accFactor2
  {
  }
}
