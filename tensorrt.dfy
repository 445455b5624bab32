/**
 * The TensorRT engine codes: which graphics card family and operating system
 * a TensorRT model file is built for, and the card family read off a card's
 * description.
 */
module TensorRT {
  import opened Wrappers
  import opened Strings

  const GpuTrtMap: map<string, int> := map["RTX20" := 705, "RTX30" := 806, "RTX40" := 809]
  const OsTrtMap: map<string, int> := map["Windows" := 8500, "Linux" := 8517]

  /** The two codes that appear in a TensorRT model's file names. */
  datatype TRT = TRT(osFamily: int, gpuFamily: int)

  /** `d.get(key)`. */
  function Get(d: map<string, int>, key: string): (r: Option<int>)
    ensures r.Some? <==> key in d
    ensures r.Some? ==> r.value == d[key]
  {
    if key in d then Some(d[key]) else None
  }

  /** Python truthiness of an optional integer: present and not zero. */
  predicate IsTruthy(v: Option<int>) {
    v.Some? && v.value != 0
  }

  /**
   * `find_tensorrt_engine` on a card family and the name `platform.system()` reports:
   * nothing unless both are known, else the pair of their codes.
   */
  function FindTensorrtEngine(cardFamily: string, system: string): (r: Option<TRT>)
    ensures r.Some? <==> cardFamily in GpuTrtMap && system in OsTrtMap
    ensures r.Some? ==> r.value.osFamily == OsTrtMap[system] && r.value.gpuFamily == GpuTrtMap[cardFamily]
    ensures r.Some? ==> r.value.gpuFamily in {705, 806, 809} && r.value.osFamily in {8500, 8517}
  {
    var gpu := Get(GpuTrtMap, cardFamily);
    if !IsTruthy(gpu) then None
    else
      var os := Get(OsTrtMap, system);
      if !IsTruthy(os) then None
      else Some(TRT(os.value, gpu.value))
  }

  /** `find_graphics_card_family` on the adapter description: the first series named in it. */
  function FindGraphicsCardFamily(card: string): (family: string)
    ensures family == "" || family in GpuTrtMap
    ensures family == "RTX20" <==> Contains(card, "RTX 20")
    ensures family == "RTX30" <==> !Contains(card, "RTX 20") && Contains(card, "RTX 30")
    ensures family == "RTX40" <==> !Contains(card, "RTX 20") && !Contains(card, "RTX 30") && Contains(card, "RTX 40")
    ensures family == "" <==> !Contains(card, "RTX 20") && !Contains(card, "RTX 30") && !Contains(card, "RTX 40")
  {
    if Contains(card, "RTX 20") then "RTX20"
    else if Contains(card, "RTX 30") then "RTX30"
    else if Contains(card, "RTX 40") then "RTX40"
    else ""
  }

  /** A detected family has an engine on every supported operating system. */
  lemma DetectedFamilyHasEngine(card: string, system: string)
    requires FindGraphicsCardFamily(card) != "" && system in OsTrtMap
    ensures FindTensorrtEngine(FindGraphicsCardFamily(card), system).Some?
  {
  }

  lemma ExampleCardHasNo2()
    ensures '2' !in "GeForce RTX 3080"
  {
    var card := "GeForce RTX 3080";
    forall i | 0 <= i < |card| ensures card[i] != '2' { }
  }

  lemma ExampleCardNotRtx20()
    ensures !Contains("GeForce RTX 3080", "RTX 20")
  {
    var card := "GeForce RTX 3080";
    ExampleCardHasNo2();
    if Contains(card, "RTX 20") { ContainsChar(card, "RTX 20", '2'); }
  }

  lemma ExampleCardIsRtx30()
    ensures Contains("GeForce RTX 3080", "RTX 30")
  {
    var card := "GeForce RTX 3080";
    assert card[8..14] == "RTX 30";
    assert OccursAt(card, "RTX 30", 8);
    ContainsAt(card, "RTX 30");
  }

  /** A card naming the RTX 30 series and not the RTX 20 series uses 8517 and 806 on Linux. */
  lemma Rtx30OnLinux(card: string)
    requires !Contains(card, "RTX 20") && Contains(card, "RTX 30")
    ensures FindGraphicsCardFamily(card) == "RTX30"
    ensures FindTensorrtEngine(FindGraphicsCardFamily(card), "Linux") == Some(TRT(8517, 806))
  {
  }

  /** An RTX 3080 on Linux uses the engine codes 8517 and 806. */
  lemma ExampleRtx3080OnLinux()
    ensures FindGraphicsCardFamily("GeForce RTX 3080") == "RTX30"
    ensures FindTensorrtEngine("RTX30", "Linux") == Some(TRT(8517, 806))
  {
    ExampleCardNotRtx20();
    ExampleCardIsRtx30();
    Rtx30OnLinux("GeForce RTX 3080");
  }
}
