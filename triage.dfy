/**
 * The image-triage glue (backend/utils/aiTriage.js): pack the resized
 * RGBA bitmap into an RGB buffer, run the object detector, lower-case its
 * class names, and rate the complaint High when a label is on the hazard
 * list. Any failure gives one fixed fallback result. The detector is an
 * abstract function from the packed pixels to its class names, or to
 * `None` when it throws.
 */
module Triage {
  import opened Wrappers
  import Text

  /** One channel value of the bitmap buffer. */
  newtype byte = x: int | 0 <= x < 256

  /** The image is resized to Side × Side pixels before packing. */
  const Side: nat := 224
  const NumPixels: nat := Side * Side

  /** The red, green and blue channels of the first `n` RGBA pixels, pixel by pixel. */
  function DropAlpha(data: seq<byte>, n: nat): (r: seq<int>)
    requires 4 * n <= |data|
    ensures |r| == 3 * n
  {
    if n == 0 then []
    else
      var p := 4 * (n - 1);
      DropAlpha(data, n - 1) + [data[p] as int, data[p + 1] as int, data[p + 2] as int]
  }

  /** Channel `k` of pixel `i` lands at `3i + k`; the alpha channel `4i + 3` is dropped. */
  lemma {:induction false} DropAlphaAt(data: seq<byte>, n: nat, i: nat, k: nat)
    requires 4 * n <= |data| && i < n && k < 3
    ensures DropAlpha(data, n)[3 * i + k] == data[4 * i + k] as int
  {
    if i < n - 1 {
      DropAlphaAt(data, n - 1, i, k);
    }
  }

  /**
   * The packing loop: a fresh buffer of `3 · NumPixels` integers holding
   * the RGB channels of each pixel. The bitmap is only read.
   */
  method PackRgb(data: array<byte>) returns (values: array<int>)
    requires data.Length >= 4 * NumPixels
    ensures fresh(values)
    ensures values[..] == DropAlpha(data[..], NumPixels)
  {
    values := new int[3 * NumPixels](_ => 0);
    var i := 0;
    while i < NumPixels
      invariant 0 <= i <= NumPixels
      invariant values.Length == 3 * NumPixels
      invariant values[..3 * i] == DropAlpha(data[..], i)
    {
      ghost var done := values[..3 * i];
      values[i * 3] := data[i * 4] as int;
      values[i * 3 + 1] := data[i * 4 + 1] as int;
      values[i * 3 + 2] := data[i * 4 + 2] as int;
      assert values[..3 * (i + 1)] == done + [data[i * 4] as int, data[i * 4 + 1] as int, data[i * 4 + 2] as int];
      i := i + 1;
    }
    assert values[..] == values[..3 * NumPixels];
  }

  datatype Urgency = Low | High

  /** The detector labels that mark a hazard. */
  const HazardKeywords: seq<string> := ["fire", "smoke", "cell phone", "remote", "mouse", "laptop", "person"]

  /** `tags.some(tag => hazardKeywords.includes(tag))`. */
  function AnyHazard(tags: seq<string>): (r: bool)
    ensures r <==> exists i :: 0 <= i < |tags| && tags[i] in HazardKeywords
  {
    if tags == [] then false
    else tags[0] in HazardKeywords || AnyHazard(tags[1..])
  }

  datatype TriageResult = TriageResult(urgency: Urgency, tags: seq<string>)

  /** What every failure path returns. */
  const Fallback: TriageResult := TriageResult(Low, ["analysis-failed"])

  /** The detector's class names, lower-cased, in detector order. */
  function LowerAll(names: seq<string>): (r: seq<string>)
    ensures |r| == |names|
    ensures forall i :: 0 <= i < |names| ==> r[i] == Text.Lower(names[i])
  {
    if names == [] then [] else [Text.Lower(names[0])] + LowerAll(names[1..])
  }

  /** The result of a successful detection. */
  function Rate(tags: seq<string>): (r: TriageResult)
    ensures r.tags == tags
    ensures r.urgency == High <==> exists i :: 0 <= i < |tags| && tags[i] in HazardKeywords
  {
    TriageResult(if AnyHazard(tags) then High else Low, tags)
  }

  /**
   * `analyzeImage` on its abstract inputs: whether the model loaded, the
   * resized bitmap (`None` when the image could not be read), and the
   * detector.
   */
  function Analysis(modelLoaded: bool, bitmap: Option<seq<byte>>, detect: seq<int> -> Option<seq<string>>)
    : (r: TriageResult)
    requires bitmap.Some? ==> |bitmap.value| == 4 * NumPixels
    // any failure gives exactly the fallback
    ensures !modelLoaded || bitmap.None? ==> r == Fallback
    ensures modelLoaded && bitmap.Some? && detect(DropAlpha(bitmap.value, NumPixels)).None? ==> r == Fallback
    // a detection gives its lower-cased labels and the hazard rule
    ensures modelLoaded && bitmap.Some? && detect(DropAlpha(bitmap.value, NumPixels)).Some? ==>
              var names := detect(DropAlpha(bitmap.value, NumPixels)).value;
              && |r.tags| == |names|
              && (forall i :: 0 <= i < |names| ==> r.tags[i] == Text.Lower(names[i]))
              && (r.urgency == High <==> exists i :: 0 <= i < |r.tags| && r.tags[i] in HazardKeywords)
  {
    if !modelLoaded || bitmap.None? then Fallback
    else
      match detect(DropAlpha(bitmap.value, NumPixels))
      case None => Fallback
      case Some(names) => Rate(LowerAll(names))
  }

  /** Every result is either the fallback or rated High exactly when a tag is a hazard. */
  lemma AnalysisShape(modelLoaded: bool, bitmap: Option<seq<byte>>, detect: seq<int> -> Option<seq<string>>)
    requires bitmap.Some? ==> |bitmap.value| == 4 * NumPixels
    ensures var r := Analysis(modelLoaded, bitmap, detect);
      r == Fallback || (r.urgency == High <==> AnyHazard(r.tags))
  {
  }

  /** Only exact labels count: near spellings of a hazard are no hazard. */
  lemma ExactLabelsOnly()
    ensures Rate(["cellphone", "fire extinguisher"]).urgency == Low
  {
  }

  /** A detector class name in capitals is rated as a hazard once it is lower-cased. */
  lemma CapitalisedHazardRated()
    ensures Rate(LowerAll(["Smoke"])).urgency == High
  {
    var l := Text.Lower("Smoke");
    assert |l| == 5;
    assert l[0] == 's' && l[1] == 'm' && l[2] == 'o' && l[3] == 'k' && l[4] == 'e';
    assert l == "smoke";
    assert LowerAll(["Smoke"])[0] == l;
  }

  /** `analyzeImage` with the packing loop run on the bitmap array. */
  method AnalyzeImage(modelLoaded: bool, bitmap: Option<array<byte>>, detect: seq<int> -> Option<seq<string>>)
    returns (r: TriageResult)
    requires bitmap.Some? ==> bitmap.value.Length == 4 * NumPixels
    ensures r == Analysis(modelLoaded, if bitmap.Some? then Some(bitmap.value[..]) else None, detect)
  {
    if !modelLoaded || bitmap.None? {
      return Fallback;
    }
    var values := PackRgb(bitmap.value);
    match detect(values[..])
    case None =>
      r := Fallback;
    case Some(names) =>
      r := Rate(LowerAll(names));
  }
}
