/**
 * Label resolution: the fixed 17-entry class table of the layout model and the
 * `classes_map.get(label_id, f"Unknown_{label_id}")` lookup with its fallback.
 */
module Labels {
  import opened Wrappers
  import opened Decimal

  /** Class names in id order: entry k is the name of class id k. */
  const ClassNames: seq<string> := [
    "Caption", "Footnote", "Formula", "List-item", "Page-footer", "Page-header",
    "Picture", "Section-header", "Table", "Text", "Title", "Document Index",
    "Code", "Checkbox-Selected", "Checkbox-Unselected", "Form", "Key-Value Region"
  ]

  const UnknownPrefix: string := "Unknown_"

  /** `classes_map`: ids 0..16 to their class names. */
  function ClassesMap(): (m: map<int, string>)
    ensures forall id :: id in m <==> 0 <= id < 17
  {
    map id | 0 <= id < |ClassNames| :: ClassNames[id]
  }

  /** The label text drawn and exported for a detector label id. */
  function LabelText(id: int): string
  {
    if id in ClassesMap() then ClassesMap()[id] else UnknownPrefix + IntToDecimal(id)
  }

  /** Reverse lookup in the class table, scanning ids from `k` upward. */
  function FindClass(name: string, k: nat): (r: Option<int>)
    ensures r.Some? ==> k <= r.value < 17 && ClassNames[r.value] == name
    decreases 17 - k
  {
    if k >= 17 then None
    else if ClassNames[k] == name then Some(k)
    else FindClass(name, k + 1)
  }

  /** Recovers the label id from a label text. */
  function ParseLabel(name: string): Option<int>
  {
    if |UnknownPrefix| <= |name| && name[..|UnknownPrefix|] == UnknownPrefix
    then ParseInt(name[|UnknownPrefix|..])
    else FindClass(name, 0)
  }

  /** No two table entries share a name, and none starts like the fallback. */
  lemma ClassNamesDistinct()
    ensures forall i, j :: 0 <= i < j < 17 ==> ClassNames[i] != ClassNames[j]
    ensures forall i :: 0 <= i < 17 ==> ClassNames[i][0] != 'U'
  {
  }

  lemma {:induction false} FindClassOfEntry(id: int, k: nat)
    requires k <= id < 17
    requires forall i, j :: 0 <= i < j < 17 ==> ClassNames[i] != ClassNames[j]
    ensures FindClass(ClassNames[id], k) == Some(id)
    decreases 17 - k
  {
    if k < id {
      FindClassOfEntry(id, k + 1);
    }
  }

  /** Ids 0..16 resolve to exactly their table entry; every other id to "Unknown_<id>". */
  lemma LabelTextTable(id: int)
    ensures 0 <= id < 17 ==> LabelText(id) == ClassNames[id]
    ensures !(0 <= id < 17) ==> LabelText(id) == "Unknown_" + IntToDecimal(id)
    ensures |LabelText(id)| > 0
  {
  }

  /** Resolution never loses the id: parsing the label text gives it back. */
  lemma LabelTextRoundTrip(id: int)
    ensures ParseLabel(LabelText(id)) == Some(id)
  {
    var name := LabelText(id);
    if 0 <= id < 17 {
      ClassNamesDistinct();
      assert name == ClassNames[id];
      assert name[0] != 'U';
      assert name[0] != UnknownPrefix[0];
      FindClassOfEntry(id, 0);
    } else {
      assert name[..|UnknownPrefix|] == UnknownPrefix;
      assert name[|UnknownPrefix|..] == IntToDecimal(id);
      IntToDecimalRoundTrip(id);
    }
  }

  /** Distinct ids always get distinct label texts, known or unknown. */
  lemma LabelTextInjective(i: int, j: int)
    requires LabelText(i) == LabelText(j)
    ensures i == j
  {
    LabelTextRoundTrip(i);
    LabelTextRoundTrip(j);
  }

  /** The two examples of the fallback and the table. */
  lemma LabelTextExamples()
    ensures LabelText(10) == "Title"
    ensures LabelText(99) == "Unknown_99"
    ensures LabelText(-1) == "Unknown_-1"
  {
  }
}
