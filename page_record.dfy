/**
 * The per-page record builder: the loop over the detector's
 * `(label_id, box, score)` tuples that fills the three parallel JSON arrays
 * `boxes`, `labels`, `scores` and draws each detection with its display index.
 * Scores are an opaque type `S`, carried through unchanged.
 */
module PageRecord {
  import opened Wrappers
  import opened Decimal
  import opened Labels

  /** A detector box in page pixels, already integer, never checked or clamped. */
  datatype Box = Box(x1: int, y1: int, x2: int, y2: int)

  /** One tuple of the detector's post-processed output. */
  datatype Detection<S> = Detection(labelId: int, box: Box, score: S)

  /** The `json_output` dictionary of one page. */
  datatype JsonRecord<S> = JsonRecord(boxes: seq<seq<int>>, labels: seq<string>, scores: seq<S>)

  /**
   * What is drawn for one detection: the rectangle, the label text and the
   * display index (text positions, colours and fonts belong to the drawing library).
   */
  datatype Annotation = Annotation(box: Box, text: string, index: string)

  /** The JSON form `[x1, y1, x2, y2]` of a box. */
  function Coords(b: Box): seq<int>
  {
    [b.x1, b.y1, b.x2, b.y2]
  }

  /** The record after one more detection: one element appended to each array. */
  function Push<S>(rec: JsonRecord<S>, d: Detection<S>): JsonRecord<S>
  {
    JsonRecord(rec.boxes + [Coords(d.box)], rec.labels + [LabelText(d.labelId)], rec.scores + [d.score])
  }

  /** The record for a page's detections, taken in detector order from empty arrays. */
  function RecordOf<S>(dets: seq<Detection<S>>): JsonRecord<S>
  {
    if |dets| == 0 then JsonRecord([], [], [])
    else Push(RecordOf(dets[..|dets| - 1]), dets[|dets| - 1])
  }

  /** What is drawn for the detection at loop position `idx`. */
  function Mark<S>(d: Detection<S>, idx: nat): Annotation
  {
    Annotation(d.box, LabelText(d.labelId), IntToDecimal(idx))
  }

  /** The drawings for a page's detections, in drawing order. */
  function MarksOf<S>(dets: seq<Detection<S>>): seq<Annotation>
  {
    if |dets| == 0 then [] else MarksOf(dets[..|dets| - 1]) + [Mark(dets[|dets| - 1], |dets| - 1)]
  }

  predicate Aligned<S>(rec: JsonRecord<S>) {
    |rec.boxes| == |rec.labels| == |rec.scores|
  }

  /** Reads one entry of the record back as a detection. */
  function DecodeEntry<S>(coords: seq<int>, labelText: string, score: S): Option<Detection<S>>
  {
    if |coords| == 4 && ParseLabel(labelText).Some?
    then Some(Detection(ParseLabel(labelText).value, Box(coords[0], coords[1], coords[2], coords[3]), score))
    else None
  }

  /** Reads a whole record back as the detections it was built from. */
  function DecodeRecord<S>(rec: JsonRecord<S>): Option<seq<Detection<S>>>
    decreases |rec.boxes|
  {
    if !Aligned(rec) then None
    else if |rec.boxes| == 0 then Some([])
    else
      var n := |rec.boxes| - 1;
      var init := DecodeRecord(JsonRecord(rec.boxes[..n], rec.labels[..n], rec.scores[..n]));
      var last := DecodeEntry(rec.boxes[n], rec.labels[n], rec.scores[n]);
      if init.Some? && last.Some? then Some(init.value + [last.value]) else None
  }

  /** The three arrays grow together: one entry per detection in each. */
  lemma {:induction false} RecordOfLength<S>(dets: seq<Detection<S>>)
    ensures |RecordOf(dets).boxes| == |RecordOf(dets).labels| == |RecordOf(dets).scores| == |dets|
  {
    if |dets| > 0 {
      RecordOfLength(dets[..|dets| - 1]);
    }
  }

  /**
   * The three arrays have one entry per detection, and entry k of each comes
   * from the k-th detection: the box copied as-is, the resolved label, the score.
   */
  lemma {:induction false} RecordOfSpec<S>(dets: seq<Detection<S>>)
    ensures Aligned(RecordOf(dets)) && |RecordOf(dets).boxes| == |dets|
    ensures forall k :: 0 <= k < |dets| ==>
      && RecordOf(dets).boxes[k] == Coords(dets[k].box)
      && RecordOf(dets).labels[k] == LabelText(dets[k].labelId)
      && RecordOf(dets).scores[k] == dets[k].score
  {
    if |dets| > 0 {
      var n := |dets| - 1;
      var prev := dets[..n];
      RecordOfSpec(prev);
      RecordOfLength(dets);
      var rec, before := RecordOf(dets), RecordOf(prev);
      assert rec == Push(before, dets[n]);
      forall k | 0 <= k < |dets|
        ensures rec.boxes[k] == Coords(dets[k].box)
        ensures rec.labels[k] == LabelText(dets[k].labelId)
        ensures rec.scores[k] == dets[k].score
      {
        if k < n {
          assert prev[k] == dets[k];
        }
      }
    }
  }

  /** One drawing per detection. */
  lemma {:induction false} MarksOfLength<S>(dets: seq<Detection<S>>)
    ensures |MarksOf(dets)| == |dets|
  {
    if |dets| > 0 {
      MarksOfLength(dets[..|dets| - 1]);
    }
  }

  /** The k-th drawing is the k-th detection's box and label, with the number k as its index. */
  lemma {:induction false} MarksOfSpec<S>(dets: seq<Detection<S>>, k: nat)
    requires k < |dets|
    ensures |MarksOf(dets)| == |dets| && MarksOf(dets)[k] == Mark(dets[k], k)
  {
    var n := |dets| - 1;
    var prev := dets[..n];
    MarksOfLength(dets);
    MarksOfLength(prev);
    assert MarksOf(dets) == MarksOf(prev) + [Mark(dets[n], n)];
    if k < n {
      MarksOfSpec(prev, k);
      assert prev[k] == dets[k];
    }
  }

  /** The index drawn next to the k-th detection reads back as k. */
  lemma DisplayIndex<S>(dets: seq<Detection<S>>, k: nat)
    requires k < |dets|
    ensures |MarksOf(dets)| == |dets| && ParseInt(MarksOf(dets)[k].index) == Some(k)
    ensures |RecordOf(dets).labels| == |dets|
    ensures MarksOf(dets)[k].box == dets[k].box && MarksOf(dets)[k].text == RecordOf(dets).labels[k]
  {
    MarksOfSpec(dets, k);
    RecordOfSpec(dets);
    IntToDecimalRoundTrip(k);
  }

  /** Decoding a record with one more entry decodes the old record and then that entry. */
  lemma DecodePush<S>(rec: JsonRecord<S>, d: Detection<S>)
    requires Aligned(rec)
    ensures DecodeRecord(Push(rec, d)) ==
      if DecodeRecord(rec).Some? then Some(DecodeRecord(rec).value + [d]) else None
  {
    var next := Push(rec, d);
    var n := |rec.boxes|;
    assert JsonRecord(next.boxes[..n], next.labels[..n], next.scores[..n]) == rec;
    DecodeEntryOf(d);
  }

  /** The record loses nothing: decoding it gives back the detector's tuples, in order. */
  lemma {:induction false} DecodeRecordOf<S>(dets: seq<Detection<S>>)
    ensures DecodeRecord(RecordOf(dets)) == Some(dets)
  {
    if |dets| > 0 {
      var n := |dets| - 1;
      RecordOfLength(dets[..n]);
      DecodeRecordOf(dets[..n]);
      DecodePush(RecordOf(dets[..n]), dets[n]);
      assert dets[..n] + [dets[n]] == dets;
    }
  }

  /** One exported entry reads back as the tuple it came from. */
  lemma DecodeEntryOf<S>(d: Detection<S>)
    ensures DecodeEntry(Coords(d.box), LabelText(d.labelId), d.score) == Some(d)
  {
    LabelTextRoundTrip(d.labelId);
  }

  /** Different detector outputs always give different records. */
  lemma RecordOfInjective<S>(a: seq<Detection<S>>, b: seq<Detection<S>>)
    requires RecordOf(a) == RecordOf(b)
    ensures a == b
  {
    DecodeRecordOf(a);
    DecodeRecordOf(b);
  }

  /** A box with x1 >= x2 or y1 >= y2 is exported exactly as the detector gave it, at its position. */
  lemma DegenerateBoxKept<S>(dets: seq<Detection<S>>, k: nat)
    requires k < |dets|
    requires dets[k].box.x1 >= dets[k].box.x2 || dets[k].box.y1 >= dets[k].box.y2
    ensures |RecordOf(dets).boxes| == |dets|
    ensures RecordOf(dets).boxes[k] == [dets[k].box.x1, dets[k].box.y1, dets[k].box.x2, dets[k].box.y2]
  {
    RecordOfSpec(dets);
  }

  /** One "Title" detection gives one entry in each array. */
  lemma TitleScenario<S>(score: S)
    ensures RecordOf([Detection(10, Box(10, 10, 200, 50), score)]) == JsonRecord([[10, 10, 200, 50]], ["Title"], [score])
  {
  }

  /**
   * The detection loop of one page: start from empty arrays and append one box,
   * one label and one score per detector tuple, drawing each with its position
   * as display index.
   */
  method BuildPage<S>(dets: seq<Detection<S>>) returns (rec: JsonRecord<S>, marks: seq<Annotation>)
    ensures rec == RecordOf(dets) && marks == MarksOf(dets)
  {
    var boxes: seq<seq<int>> := [];
    var labels: seq<string> := [];
    var scores: seq<S> := [];
    marks := [];
    var idx := 0;
    while idx < |dets|
      invariant 0 <= idx <= |dets|
      invariant JsonRecord(boxes, labels, scores) == RecordOf(dets[..idx])
      invariant marks == MarksOf(dets[..idx])
    {
      var Detection(labelId, box, score) := dets[idx];
      var labelText := LabelText(labelId);
      var Box(x1, y1, x2, y2) := box;
      marks := marks + [Annotation(box, labelText, IntToDecimal(idx))];
      boxes := boxes + [[x1, y1, x2, y2]];
      labels := labels + [labelText];
      scores := scores + [score];
      assert dets[..idx + 1][..idx] == dets[..idx];
      idx := idx + 1;
    }
    assert dets[..idx] == dets;
    rec := JsonRecord(boxes, labels, scores);
  }
}
