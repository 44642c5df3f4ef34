/**
 * The answers the interactive prompts accept, as lookups. An answer outside a table
 * makes the prompt ask again (`None` here).
 */
module Menus {
  import opened Wrappers
  import opened Scan
  import opened Filter
  import opened Provision

  /** The manufacturer menu: keys `1` to `6`. */
  function ManufacturerChoice(key: string): (r: Option<string>)
    ensures r.Some? <==> key in ["1", "2", "3", "4", "5", "6"]
    ensures r.Some? ==> r.value == OthersBucket || r.value in KnownManufacturers
  {
    if key == "1" then Some("Qwen")
    else if key == "2" then Some("GPT")
    else if key == "3" then Some("Llama")
    else if key == "4" then Some("DeepSeek")
    else if key == "5" then Some("Gemma")
    else if key == "6" then Some(OthersBucket)
    else None
  }

  /** The menu offers exactly the vendors the `Others` bucket excludes, plus `Others`. */
  lemma ManufacturerMenuCoversKnown(m: string)
    ensures m in KnownManufacturers || m == OthersBucket <==>
      exists key :: key in ["1", "2", "3", "4", "5", "6"] && ManufacturerChoice(key) == Some(m)
  {
    if m in KnownManufacturers || m == OthersBucket {
      var i :| 0 <= i < |KnownManufacturers| + 1 &&
        (if i < |KnownManufacturers| then KnownManufacturers[i] else OthersBucket) == m;
      var key := ["1", "2", "3", "4", "5", "6"][i];
      assert ManufacturerChoice(key) == Some(m);
    }
  }

  /** The dev-mode question, on the answer after trimming and lower-casing. */
  function DevConfigAnswer(answer: string): (r: Option<bool>)
    ensures r == Some(true) <==> answer in ["y", "yes", "是"]
    ensures r == Some(false) <==> answer in ["n", "no", "否"]
  {
    if answer in ["y", "yes", "是"] then Some(true)
    else if answer in ["n", "no", "否"] then Some(false)
    else None
  }

  /** The memory-size menu: keys `1` to `4`. */
  function VramChoice(key: string): (r: Option<string>)
    ensures r.Some? <==> key in ["1", "2", "3", "4"]
  {
    if key == "1" then Some("32G")
    else if key == "2" then Some("48G")
    else if key == "3" then Some("64G")
    else if key == "4" then Some("128G")
    else None
  }

  /** Of the offered memory sizes only the fourth selects the Thor platform; the
      other three select Orin. */
  lemma VramChoicePlatform(key: string)
    requires VramChoice(key).Some?
    ensures PlatformFolder(VramChoice(key).value) == "Thor" <==> key == "4"
    ensures PlatformFolder(VramChoice(key).value) == "Orin" <==> key != "4"
  {
  }

  /** The optimisation question: `1` yes, `2` no. */
  function OptimizationAnswer(choice: string): (r: Option<bool>)
    ensures r.Some? <==> choice == "1" || choice == "2"
    ensures r == Some(true) <==> choice == "1"
  {
    if choice == "1" then Some(true)
    else if choice == "2" then Some(false)
    else None
  }
}
