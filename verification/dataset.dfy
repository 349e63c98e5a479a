/** What both `preprocess_dataset` functions read from the CSV file: the
    rows, and the label mapping they share. */
module Dataset {
  import opened Base

  /** A row of the CSV file: its `label` and `text_` columns. */
  datatype Row = Row(rawLabel: PyValue, text: PyValue)

  /** `df['label'].map({'CG': 1, 'OR': 0})`; `None` is the NaN every other
      label becomes. */
  function LabelCode(rawLabel: PyValue): (r: Option<int>)
    ensures r == Some(1) <==> rawLabel == PyStr("CG")
    ensures r == Some(0) <==> rawLabel == PyStr("OR")
    ensures r.Some? ==> r.value == 0 || r.value == 1
  {
    if rawLabel == PyStr("CG") then Some(1)
    else if rawLabel == PyStr("OR") then Some(0)
    else None
  }
}
