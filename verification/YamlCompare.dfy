// Comparing the YAML output of the two programs.
// scripts/rust-port/device_list_differential.py
module YamlCompare {
  import opened Wrappers
  import opened Compare
  import opened YamlScalars
  import opened BlockYaml
  import opened YamlLayouts
  import opened YamlDocuments
  import Numerals
  import YamlReader

  // bytes.strip leaves nothing.
  predicate IsEmptyOutput(text: string) { Numerals.Trim(text, Numerals.ByteSpace()) == "" }

  function CompareYaml(rd: Reader, order: Sorting<Key>, go: string, rust: string): Result<()>
  {
    if IsEmptyOutput(go) || IsEmptyOutput(rust) then Err(AssertionError)
    else
      match MiniYaml(rd, go)
      case Err(e) => Err(e)
      case Ok(left) =>
        match MiniYaml(rd, rust)
        case Err(e) => Err(e)
        case Ok(right) => if FirstDifference(order, left, right) == None then Ok(()) else Err(AssertionError)
  }

  // The comparison as the script runs it, on the reader with the cursor.
  method Check(rd: Reader, order: Sorting<Key>, go: string, rust: string) returns (r: Result<()>)
    requires Sorts(order)
    ensures r == CompareYaml(rd, order, go, rust)
    ensures r == Ok(()) <==> (&& !IsEmptyOutput(go) && !IsEmptyOutput(rust)
                              && MiniYaml(rd, go).Ok? && MiniYaml(rd, go) == MiniYaml(rd, rust)
                              && NaNFree(MiniYaml(rd, go).value))
  {
    if IsEmptyOutput(go) || IsEmptyOutput(rust) {
      return Err(AssertionError);
    }
    var left := YamlReader.MiniYaml(rd, go);
    if left.Err? {
      return Err(left.error);
    }
    var right := YamlReader.MiniYaml(rd, rust);
    if right.Err? {
      return Err(right.error);
    }
    NoneIffEqual(order, left.value, right.value);
    StrictEqIff(left.value, right.value);
    return if FirstDifference(order, left.value, right.value) == None then Ok(()) else Err(AssertionError);
  }

  // ---------------------------------------------------------------- what passing means

  lemma {:induction false} TrimKeeps(text: string, space: char -> bool, k: nat)
    requires k < |text| && !space(text[k])
    ensures Numerals.Trim(text, space) != ""
    decreases |text|
  {
    if space(text[0]) {
      TrimKeeps(text[1..], space, k - 1);
    } else if space(text[|text| - 1]) {
      TrimKeeps(text[..|text| - 1], space, k);
    }
  }

  // Output with a line in it is not empty.
  lemma {:induction false} RenderedIsNotEmpty(ls: seq<Line>)
    requires ls != [] && Printable(ls[0])
    ensures !IsEmptyOutput(Render(ls))
  {
    var pad, text := Pad(ls[0].indent), Render(ls);
    assert text == pad + (ls[0].content + "\n" + Render(ls[1..]));
    assert text[|pad|] == ls[0].content[0];
    TrimKeeps(text, Numerals.ByteSpace(), |pad|);
  }

  lemma {:induction false} PrintedIsNotEmpty(rd: Reader, doc: Doc, d: nat)
    requires Wf(rd, doc) && IsBlock(doc)
    ensures !IsEmptyOutput(Render(Print(doc, d)))
  {
    PrintsPrintable(rd, doc, d);
    BlockHead(rd, doc, d);
    RenderedIsNotEmpty(Print(doc, d));
  }

  // Two outputs, each in a layout of its own, pass exactly if they hold the
  // same value and no NaN.
  lemma {:induction false} PassesIff(rd: Reader, order: Sorting<Key>, go: Doc, rust: Doc, d: nat, e: nat)
    requires Sorts(order) && Wf(rd, go) && IsBlock(go) && Wf(rd, rust) && IsBlock(rust)
    ensures CompareYaml(rd, order, Render(Print(go, d)), Render(Print(rust, e))) == Ok(())
        <==> Meaning(rd, go) == Meaning(rd, rust) && NaNFree(Meaning(rd, go))
  {
    LayoutReadsBack(rd, go, d);
    LayoutReadsBack(rd, rust, e);
    PrintedIsNotEmpty(rd, go, d);
    PrintedIsNotEmpty(rd, rust, e);
    NoneIffEqual(order, Meaning(rd, go), Meaning(rd, rust));
    StrictEqIff(Meaning(rd, go), Meaning(rd, rust));
  }
}
