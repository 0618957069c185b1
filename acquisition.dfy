/**
 * Argument validation and choice of the data files in
 * `load_exbaboon_512_retrospection` (data.py): which sampling mask or
 * trajectory is loaded for a given `mask_type` and `acc_factor`, and which
 * `ValueError` is raised otherwise.
 */
module Acquisition {
  import opened Wrappers

  /** The three accepted values of `mask_type`. */
  datatype MaskType = CartesianR4 | Radial | RadialSparkling

  /** The string the caller passes for each mask type. */
  function MaskTypeName(m: MaskType): string
  {
    match m
    case CartesianR4 => "cartesianR4"
    case Radial => "radial"
    case RadialSparkling => "radial-sparkling"
  }

  /** Reads a `mask_type` string; None for any string the loader does not understand. */
  function ParseMaskType(name: string): (m: Option<MaskType>)
    ensures m.Some? ==> MaskTypeName(m.value) == name
  {
    if name == "cartesianR4" then Some(CartesianR4)
    else if name == "radial" then Some(Radial)
    else if name == "radial-sparkling" then Some(RadialSparkling)
    else None
  }

  /** Every mask type is read back from its own name, so the parse is onto. */
  lemma ParseMaskTypeName(m: MaskType)
    ensures ParseMaskType(MaskTypeName(m)) == Some(m)
  {
    match m
    case CartesianR4 =>
    case Radial =>
      assert MaskTypeName(m) != "cartesianR4" by {
        assert MaskTypeName(m)[0] != "cartesianR4"[0];
      }
    case RadialSparkling =>
      assert MaskTypeName(m) != "cartesianR4" by {
        assert MaskTypeName(m)[0] != "cartesianR4"[0];
      }
      assert MaskTypeName(m) != "radial" by {
        assert |MaskTypeName(m)| != |"radial"|;
      }
  }

  /** The `ValueError`s of the loader, each carrying the offending value its message names. */
  datatype LoadError =
    | AccFactorMustBeNone(factor: int)           // cartesianR4 with an acc_factor
    | AccFactorNotSupported(given: Option<int>)  // radial / radial-sparkling without 8 or 15
    | MaskTypeNotUnderstood(name: string)     // any other mask_type

  /** The data files one accepted call reads besides the reference image and the ROI mask. */
  datatype Files =
    | CartesianMask(maskFile: string)
    | NonCartesianData(samplesFile: string, valuesFile: string)

  /** The reference image, read by every call. */
  const ReferenceImageFile: string := "Ref_babouin_NEX32.mat"

  /** The ROI mask image, read by every accepted call. */
  const RoiMaskFile: string := "Ref_N512_NEX32_mask.png"

  /**
   * The file-manifest table of the non-Cartesian acquisitions: for each
   * accepted (mask type, acceleration factor), the name shared by its
   * samples file and its values file after the `samples_`/`values_` prefix.
   */
  function ManifestStem(m: MaskType, f: int): Option<string>
  {
    match m
    case CartesianR4 => None
    case Radial =>
      if f == 8 then Some("radial_x8_64x3072.mat")
      else if f == 15 then Some("radial_x15_34x3072.mat")
      else None
    case RadialSparkling =>
      if f == 8 then Some("sparkling_x8_64x3072.mat")
      else if f == 15 then Some("sparkling_x15_34x3072.mat")
      else None
  }

  /** The combinations the loader accepts. */
  predicate Accepted(maskType: string, accFactor: Option<int>)
  {
    match ParseMaskType(maskType)
    case None => false
    case Some(CartesianR4) => accFactor.None?
    case Some(m) => accFactor.Some? && ManifestStem(m, accFactor.value).Some?
  }

  /**
   * The branches of `load_exbaboon_512_retrospection` on `mask_type` and
   * `acc_factor`: the files they load, or the `ValueError` they raise.
   */
  function SelectFiles(maskType: string, accFactor: Option<int>): (r: Result<Files, LoadError>)
    ensures r.Success? <==> Accepted(maskType, accFactor)
    ensures r.Success? && r.value.CartesianMask? <==> maskType == "cartesianR4" && accFactor.None?
  {
    if maskType == "cartesianR4" then
      if accFactor.Some? then Failure(AccFactorMustBeNone(accFactor.value))
      else Success(CartesianMask("mask_BrainPhantom512_R4.mat"))
    else if maskType == "radial" then
      if accFactor == Some(8) then
        Success(NonCartesianData("samples_radial_x8_64x3072.mat", "values_radial_x8_64x3072.mat"))
      else if accFactor == Some(15) then
        Success(NonCartesianData("samples_radial_x15_34x3072.mat", "values_radial_x15_34x3072.mat"))
      else Failure(AccFactorNotSupported(accFactor))
    else if maskType == "radial-sparkling" then
      if accFactor == Some(8) then
        Success(NonCartesianData("samples_sparkling_x8_64x3072.mat", "values_sparkling_x8_64x3072.mat"))
      else if accFactor == Some(15) then
        Success(NonCartesianData("samples_sparkling_x15_34x3072.mat", "values_sparkling_x15_34x3072.mat"))
      else Failure(AccFactorNotSupported(accFactor))
    else Failure(MaskTypeNotUnderstood(maskType))
  }

  /** `("radial", 8)` reads `samples_radial_x8_64x3072.mat` and `values_radial_x8_64x3072.mat`. */
  lemma RadialX8Files()
    ensures SelectFiles("radial", Some(8)) ==
      Success(NonCartesianData("samples_" + ManifestStem(Radial, 8).value, "values_" + ManifestStem(Radial, 8).value))
  {
    calc {
      SelectFiles("radial", Some(8));
      Success(NonCartesianData("samples_radial_x8_64x3072.mat", "values_radial_x8_64x3072.mat"));
      { assert "samples_radial_x8_64x3072.mat" == "samples_" + "radial_x8_64x3072.mat";
        assert "values_radial_x8_64x3072.mat" == "values_" + "radial_x8_64x3072.mat"; }
      Success(NonCartesianData("samples_" + ManifestStem(Radial, 8).value, "values_" + ManifestStem(Radial, 8).value));
    }
  }

  /** `("radial", 15)` reads `samples_radial_x15_34x3072.mat` and `values_radial_x15_34x3072.mat`. */
  lemma RadialX15Files()
    ensures SelectFiles("radial", Some(15)) ==
      Success(NonCartesianData("samples_" + ManifestStem(Radial, 15).value, "values_" + ManifestStem(Radial, 15).value))
  {
    calc {
      SelectFiles("radial", Some(15));
      Success(NonCartesianData("samples_radial_x15_34x3072.mat", "values_radial_x15_34x3072.mat"));
      { assert "samples_radial_x15_34x3072.mat" == "samples_" + "radial_x15_34x3072.mat";
        assert "values_radial_x15_34x3072.mat" == "values_" + "radial_x15_34x3072.mat"; }
      Success(NonCartesianData("samples_" + ManifestStem(Radial, 15).value, "values_" + ManifestStem(Radial, 15).value));
    }
  }

  /** `("radial-sparkling", 8)` reads `samples_sparkling_x8_64x3072.mat` and `values_sparkling_x8_64x3072.mat`. */
  lemma RadialSparklingX8Files()
    ensures SelectFiles("radial-sparkling", Some(8)) ==
      Success(NonCartesianData("samples_" + ManifestStem(RadialSparkling, 8).value, "values_" + ManifestStem(RadialSparkling, 8).value))
  {
    calc {
      SelectFiles("radial-sparkling", Some(8));
      Success(NonCartesianData("samples_sparkling_x8_64x3072.mat", "values_sparkling_x8_64x3072.mat"));
      { assert "samples_sparkling_x8_64x3072.mat" == "samples_" + "sparkling_x8_64x3072.mat";
        assert "values_sparkling_x8_64x3072.mat" == "values_" + "sparkling_x8_64x3072.mat"; }
      Success(NonCartesianData("samples_" + ManifestStem(RadialSparkling, 8).value, "values_" + ManifestStem(RadialSparkling, 8).value));
    }
  }

  /** `("radial-sparkling", 15)` reads `samples_sparkling_x15_34x3072.mat` and `values_sparkling_x15_34x3072.mat`. */
  lemma RadialSparklingX15Files()
    ensures SelectFiles("radial-sparkling", Some(15)) ==
      Success(NonCartesianData("samples_" + ManifestStem(RadialSparkling, 15).value, "values_" + ManifestStem(RadialSparkling, 15).value))
  {
    calc {
      SelectFiles("radial-sparkling", Some(15));
      Success(NonCartesianData("samples_sparkling_x15_34x3072.mat", "values_sparkling_x15_34x3072.mat"));
      { assert "samples_sparkling_x15_34x3072.mat" == "samples_" + "sparkling_x15_34x3072.mat";
        assert "values_sparkling_x15_34x3072.mat" == "values_" + "sparkling_x15_34x3072.mat"; }
      Success(NonCartesianData("samples_" + ManifestStem(RadialSparkling, 15).value, "values_" + ManifestStem(RadialSparkling, 15).value));
    }
  }

  /**
   * Each accepted non-Cartesian combination reads exactly the samples file
   * and the values file its manifest entry names; the two differ only in
   * the `samples_`/`values_` prefix.
   */
  lemma {:induction false} NonCartesianFilesPaired(m: MaskType, f: int)
    requires ManifestStem(m, f).Some?
    ensures SelectFiles(MaskTypeName(m), Some(f)) ==
      Success(NonCartesianData("samples_" + ManifestStem(m, f).value, "values_" + ManifestStem(m, f).value))
  {
    match (m, f)
    case (Radial, 8) => RadialX8Files();
    case (Radial, 15) => RadialX15Files();
    case (RadialSparkling, 8) => RadialSparklingX8Files();
    case (RadialSparkling, 15) => RadialSparklingX15Files();
  }

  /** `cartesianR4` with any `acc_factor` raises, naming the factor. */
  lemma CartesianRejectsAccFactor(f: int)
    ensures SelectFiles("cartesianR4", Some(f)) == Failure(AccFactorMustBeNone(f))
  {
  }

  /** `radial` and `radial-sparkling` raise unless `acc_factor` is 8 or 15 (None included). */
  lemma NonCartesianRejectsOtherFactors(m: MaskType, accFactor: Option<int>)
    requires m != CartesianR4
    requires accFactor != Some(8) && accFactor != Some(15)
    ensures SelectFiles(MaskTypeName(m), accFactor) == Failure(AccFactorNotSupported(accFactor))
  {
    ParseMaskTypeName(m);
  }

  /** Any `mask_type` other than the three names raises, naming the string. */
  lemma UnknownMaskTypeRejected(maskType: string, accFactor: Option<int>)
    requires ParseMaskType(maskType).None?
    ensures SelectFiles(maskType, accFactor) == Failure(MaskTypeNotUnderstood(maskType))
  {
  }

  /** The default arguments select the Cartesian R4 mask. */
  lemma DefaultArgumentsSelectCartesian()
    ensures SelectFiles("cartesianR4", None) == Success(CartesianMask("mask_BrainPhantom512_R4.mat"))
  {
  }

  /** Different accepted non-Cartesian combinations read different files. */
  lemma {:induction false} NonCartesianFilesDistinct(m1: MaskType, f1: int, m2: MaskType, f2: int)
    requires ManifestStem(m1, f1).Some? && ManifestStem(m2, f2).Some?
    requires (m1, f1) != (m2, f2)
    ensures SelectFiles(MaskTypeName(m1), Some(f1)) != SelectFiles(MaskTypeName(m2), Some(f2))
  {
    NonCartesianFilesPaired(m1, f1);
    NonCartesianFilesPaired(m2, f2);
    var s1 := ManifestStem(m1, f1).value;
    var s2 := ManifestStem(m2, f2).value;
    assert s1 != s2;
    assert ("samples_" + s1)[8..] == s1 && ("samples_" + s2)[8..] == s2;
  }
}
