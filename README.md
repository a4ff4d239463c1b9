# Heron layout parser: record building and output naming

This project models the deterministic layer of `heron_parse.py`, the script
that runs the Docling "heron" RT-DETR layout detector over a PDF or an image and
writes, for every page, an annotated PNG and a JSON file of the detected
regions. The detector, the PDF rasterizer (`pdftoppm`), image decoding and
drawing stay outside the model. What is modelled is what the script itself
decides:

- **Label resolution** (`Labels`): the 17-entry `classes_map` and the lookup
  `classes_map.get(label_id, f"Unknown_{label_id}")`. The model proves that the
  lookup is total, returns the table entry for ids 0..16 and "Unknown_<id>"
  otherwise, and loses nothing: the label text parses back to its id, so
  distinct ids always get distinct labels.
- **Decimal text** (`Decimal`): Python's `str(int)` and the `03` format spec,
  each with a parser that inverts it.
- **Per-page record** (`PageRecord`): the detection loop that fills the JSON
  arrays `boxes`, `labels` and `scores` and draws each detection with its loop
  position as display index. `BuildPage` is proved against the specification
  `RecordOf`/`MarksOf`. The arrays are aligned and in detector order. Boxes and
  scores are copied unchanged, degenerate boxes included. The record decodes
  back to the detector's tuples.
- **Output naming** (`Naming`): `f"{stem}_boxes_{i:03}"`, the `.png` and
  `.json` names built from it, and the `save_images`/`save_json` flags.
  Distinct pages never share a file name.
- **Input dispatch** (`InputPath`): `pathlib`'s name, suffix and stem, and the
  test `suffix.lower() == ".pdf"`, characterised without `rfind`.
- **The run** (`Layout`): the page loop `enumerate(images, 1)` and
  `parse_layout`'s dispatch. A run is described by the sequence of files it
  writes, in order. The model proves the number of writes, that no write
  overwrites an earlier one, and which page's data each file holds.

The detector is a function parameter `detect: P -> seq<Detection<S>>` over
opaque page images `P`. It returns post-processed `(label_id, box, score)`
tuples with integer boxes and opaque scores `S`. The rasterizer
(`rasterize: string -> seq<P>`) and the image decoder
(`decode: string -> P`) are parameters too.

Three behaviours of the script that a reader might expect otherwise:

- The script performs no threshold filtering of its own. It never compares a
  score with `threshold`; it only passes `threshold=0.6` to the library's
  `post_process_object_detection`. So the model has no filter step: every tuple
  the detector returns is exported.
- Boxes are not checked for x1 < x2 or y1 < y2. The script copies whatever
  the detector returns (`DegenerateBoxKept`).
- The format spec `03` pads page numbers to *at least* three digits, so page
  1000 is "1000" (`BaseNameExamples`).

## Model

| member | source | states |
|---|---|---|
| `Labels.ClassesMap` | heron_parse.py:60-78 | the class table is defined exactly for the ids 0..16 |
| `Labels.ClassNamesDistinct` | heron_parse.py:60-78 | the 17 class names are pairwise distinct and none begins with 'U', so none can be mistaken for a fallback name |
| `Labels.LabelTextTable` | heron_parse.py:121 | ids 0..16 resolve to their table entry, every other id to "Unknown_" followed by its decimal form; the result is never empty |
| `Labels.LabelTextRoundTrip` | heron_parse.py:121 | the label text of any id, known or unknown, parses back to that id |
| `Labels.LabelTextInjective` | heron_parse.py:121 | distinct label ids never share a label text |
| `Labels.LabelTextExamples` | heron_parse.py:121 | id 10 gives "Title", id 99 gives "Unknown_99", id -1 gives "Unknown_-1" |
| `Decimal.NatToDecimal` | heron_parse.py:128 | the decimal text of a natural number is non-empty, all digits, and has no leading zero unless the number is 0 |
| `Decimal.ParseNatToDecimal` | heron_parse.py:128 | the decimal text of a natural number reads back as that number |
| `Decimal.IntToDecimalRoundTrip` | heron_parse.py:121 | `str` of any integer, negative ones included, parses back to the integer |
| `Decimal.IntToDecimalInjective` | heron_parse.py:121 | distinct integers have distinct decimal texts |
| `Decimal.ZeroPadSpec` | heron_parse.py:135 | the zero-padded form is all digits, at least `width` long, exactly `width` long when the number fits, the plain decimal form when it does not (never truncated, no extra zero), and reads back as the number |
| `Decimal.ZeroPadInjective` | heron_parse.py:135 | distinct numbers never share a zero-padded form |
| `InputPath.Name` | heron_parse.py:97 | the file name is the tail of the path after its last '/': it contains no '/', and it is the whole path or is preceded by a '/' |
| `InputPath.Lower` | heron_parse.py:99 | the lower-cased name has the same length, contains no ASCII capital, and changes only capitals, each into its lower-case letter |
| `InputPath.IsPdfCaseInsensitive` | heron_parse.py:99 | two names that differ only in ASCII letter case are both PDFs or both images |
| `InputPath.StemSuffixSplit` | heron_parse.py:97-99 | the stem followed by the suffix is the file name |
| `InputPath.SuffixShape` | heron_parse.py:99 | a suffix is empty or a '.' followed by at least one non-'.' character, and a non-empty suffix leaves a non-empty stem |
| `InputPath.SuffixOfLastDot` | heron_parse.py:97-99 | a '.' that is neither first nor last and has no '.' after it opens the suffix; the stem is everything before it |
| `InputPath.NoDotNoSuffix` | heron_parse.py:97-99 | a name with no '.' after its first character has an empty suffix and is its own stem |
| `InputPath.IsPdfIff` | heron_parse.py:99-102 | the input takes the PDF path exactly when its name has at least five characters and its last four, lower-cased, are ".pdf" |
| `InputPath.IsPdfUpperCase` | heron_parse.py:99 | "X.PDF" takes the PDF path |
| `InputPath.IsPdfHiddenFile` | heron_parse.py:99 | a file named just ".pdf" has an empty suffix and is read as an image |
| `InputPath.IsPdfLastSuffix` | heron_parse.py:99 | only the last suffix counts: "scan.pdf.png" is read as an image |
| `InputPath.StemExample` | heron_parse.py:97 | the stem of "docs/report.v2.pdf" is "report.v2" |
| `PageRecord.BuildPage` | heron_parse.py:117-133 | the detection loop, starting from empty arrays, produces exactly the record `RecordOf` and the drawings `MarksOf` of the page's detections |
| `PageRecord.RecordOfLength` | heron_parse.py:117-133 | `boxes`, `labels` and `scores` all have one entry per detector tuple |
| `PageRecord.RecordOfSpec` | heron_parse.py:119-133 | entry k of `boxes` is the k-th tuple's box as `[x1, y1, x2, y2]`, entry k of `labels` its resolved label, entry k of `scores` its score, all unchanged |
| `PageRecord.MarksOfLength` | heron_parse.py:119-129 | one drawing per detector tuple |
| `PageRecord.MarksOfSpec` | heron_parse.py:119-129 | drawing k shows the k-th tuple's box, its resolved label and the index text of k |
| `PageRecord.DisplayIndex` | heron_parse.py:119-128 | the index drawn next to the k-th detection reads back as k, and its label is the k-th JSON label |
| `PageRecord.DecodeEntryOf` | heron_parse.py:121-133 | one exported entry, box, label and score, reads back as the tuple it came from |
| `PageRecord.DecodePush` | heron_parse.py:131-133 | appending one tuple's entry to the arrays appends that tuple to what the record decodes to |
| `PageRecord.DecodeRecordOf` | heron_parse.py:117-133 | decoding a page's record gives back the detector's tuples, in order |
| `PageRecord.RecordOfInjective` | heron_parse.py:117-133 | different detector outputs always give different records |
| `PageRecord.DegenerateBoxKept` | heron_parse.py:122-131 | any box with x1 >= x2 or y1 >= y2, at any position of any page, is exported at that position exactly as the detector gave it |
| `PageRecord.TitleScenario` | heron_parse.py:117-133 | one detection of id 10 with box (10, 10, 200, 50) gives one entry per array: `[10, 10, 200, 50]`, "Title" and its score |
| `Naming.BaseNameShape` | heron_parse.py:135 | a base name is the stem, "_boxes_", then only digits, at least three and exactly three below 1000, the plain decimal page number from 100 on, reading back as the page number |
| `Naming.BaseNameInjective` | heron_parse.py:135 | two different page numbers never give the same base name |
| `Naming.ImageJsonNames` | heron_parse.py:135-140 | a page's image and JSON names share its base name and differ only in ".png" and ".json"; no image name is ever a JSON name |
| `Naming.PageFilesSpec` | heron_parse.py:136-140 | a page's image file exists exactly when `save_images` is set, its JSON file exactly when `save_json` is set, and it has one file per set flag |
| `Naming.PageFilesDisjoint` | heron_parse.py:105-140 | two different pages of one input never write to the same file |
| `Naming.BaseNameExamples` | heron_parse.py:135 | page 1 of "doc" is "doc_boxes_001", page 42 is "doc_boxes_042", page 1000 is "doc_boxes_1000" |
| `Layout.ProcessPages` | heron_parse.py:104-142 | the page loop numbers pages from 1 in input order and writes exactly the files of `RunOutputs` in that order |
| `Layout.ParseLayout` | heron_parse.py:93-105 | a ".pdf" input of any case runs over the rasterized pages, any other input over one decoded image, with the stem of the input name |
| `Layout.RunOutputsCount` | heron_parse.py:105-142 | a run writes one file per page and set flag |
| `Layout.PageOutputsFiles` | heron_parse.py:135-142 | a page writes its image with its drawings to its image file when `save_images` is set and its record to its JSON file when `save_json` is set, nothing else, and never twice to one name |
| `Layout.NewPageFilesAreFresh` | heron_parse.py:105-142 | the files of a later page are none of the files of the earlier pages |
| `Layout.RunOutputsFiles` | heron_parse.py:105-142 | no write of a run overwrites another, and every written name is a file of one of the run's pages |
| `Layout.RunOutputsOfPage` | heron_parse.py:105-142 | page p's image with its drawings, and its record, are written under page p's base name, each when its flag is set |
| `Layout.SingleImageRun` | heron_parse.py:101-105 | an image input is one page, numbered 1 |

## Left out

- Model and processor loading from Hugging Face and the input geometry `width`/`height` read from the processor: foreign library calls. The geometry reaches the model only through the `rasterize` and `detect` parameters.
- Inference, resizing for inference and `post_process_object_detection`, including the `threshold` passed to it: the detector is the parameter `detect`, which returns the post-processed tuples. The script performs no threshold filtering of its own, so none is modelled.
- Floating-point scores and the `int(...)` truncation of float box coordinates: scores are an opaque type carried through unchanged, and boxes arrive as integers.
- PDF rasterization with `pdftoppm`, the temporary directory, the sorted glob of page files and image decoding: these are the parameters `rasterize` and `decode`. Their failures (a non-zero exit, an unreadable file) raise in the script and are not modelled: the parameters are total.
- Failures of the detector, of `cv2.imwrite` (whose false result the script ignores) and of `json.dump`: the model assumes every detector call and every write succeeds. In the script an exception on page k stops the run with the files of pages 1..k-1 already written, together with whatever page k wrote before the failure (its image, or a JSON file that `open(..., "w")` created and `json.dump` left empty or cut short).
- Colour conversion and the `cv2.rectangle`/`cv2.putText` drawing, including text positions, colours and fonts: an image file is modelled as the page image (opaque) together with the drawings on it, each drawing as the box, the label text and the index text it shows.
- Directory creation, `cv2.imwrite`, the JSON text written by `json.dump` (indentation, float formatting), the console messages and the argparse CLI: a run is modelled as the sequence of files it writes, each with the record or drawings it holds. The output directory prefix of each path is not modelled.
- `InputPath.Name`: takes the text after the last '/'; `pathlib`'s normalisation (trailing slashes, "." components, other separators) is not modelled.
- `InputPath.Lower`: lower-cases ASCII letters only, not the full Unicode mapping of `str.lower()`.
