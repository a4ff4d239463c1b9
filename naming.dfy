/**
 * Output naming: the per-page base name `f"{stem}_boxes_{i:03}"`, the image and
 * JSON file names built from it, and the two flags that decide which exist.
 */
module Naming {
  import opened Decimal

  const Infix: string := "_boxes_"
  const ImageExt: string := ".png"
  const JsonExt: string := ".json"

  /** The base name of page `page` (1-based) of the input with stem `stem`. */
  function BaseName(stem: string, page: nat): string
  {
    stem + Infix + ZeroPad(page, 3)
  }

  function ImageName(base: string): string
  {
    base + ImageExt
  }

  function JsonName(base: string): string
  {
    base + JsonExt
  }

  /** The files a page produces under the `save_images` and `save_json` flags. */
  function PageFiles(stem: string, page: nat, saveImages: bool, saveJson: bool): set<string>
  {
    var base := BaseName(stem, page);
    (if saveImages then {ImageName(base)} else {}) + (if saveJson then {JsonName(base)} else {})
  }

  /**
   * A base name is the stem, "_boxes_", then the page number in decimal: only
   * digits, at least three of them, exactly three below 1000, the plain decimal
   * form from three digits on, reading back as the page.
   */
  lemma BaseNameShape(stem: string, page: nat)
    ensures var b := BaseName(stem, page);
      && |b| >= |stem| + 10
      && b[..|stem|] == stem && b[|stem|..|stem| + 7] == "_boxes_"
      && AllDigits(b[|stem| + 7..])
      && (page < 1000 ==> |b| == |stem| + 10)
      && (3 <= |NatToDecimal(page)| ==> b[|stem| + 7..] == NatToDecimal(page))
      && ParseNat(b[|stem| + 7..]) == page
  {
    ZeroPadSpec(page, 3);
    var b := BaseName(stem, page);
    assert b[|stem| + 7..] == ZeroPad(page, 3);
    if page < 1000 {
      NatToDecimalLength(page);
    }
  }

  lemma {:induction false} NatToDecimalLength(n: nat)
    requires n < 1000
    ensures |NatToDecimal(n)| <= 3
  {
    if n >= 10 {
      NatToDecimalLength(n / 10);
    }
  }

  /** Distinct page numbers of one input never share a base name. */
  lemma BaseNameInjective(stem: string, p: nat, q: nat)
    requires p != q
    ensures BaseName(stem, p) != BaseName(stem, q)
  {
    BaseNameShape(stem, p);
    BaseNameShape(stem, q);
  }

  /**
   * The image and the JSON file of a page share the base name and differ only
   * in the extension; no image name is ever a JSON name.
   */
  lemma ImageJsonNames(base: string, other: string)
    ensures ImageName(base)[..|base|] == base && ImageName(base)[|base|..] == ".png"
    ensures JsonName(base)[..|base|] == base && JsonName(base)[|base|..] == ".json"
    ensures ImageName(base) != JsonName(other)
  {
    var i, j := ImageName(base), JsonName(other);
    assert i[|i| - 1] == 'g' && j[|j| - 1] == 'n';
  }

  /** A page produces its image file exactly when `saveImages` and its JSON file exactly when `saveJson`. */
  lemma PageFilesSpec(stem: string, page: nat, saveImages: bool, saveJson: bool)
    ensures ImageName(BaseName(stem, page)) in PageFiles(stem, page, saveImages, saveJson) <==> saveImages
    ensures JsonName(BaseName(stem, page)) in PageFiles(stem, page, saveImages, saveJson) <==> saveJson
    ensures |PageFiles(stem, page, saveImages, saveJson)| == (if saveImages then 1 else 0) + (if saveJson then 1 else 0)
  {
  }

  /** Two different pages of one input never write to the same file. */
  lemma PageFilesDisjoint(stem: string, p: nat, q: nat, saveImages: bool, saveJson: bool)
    requires p != q
    ensures PageFiles(stem, p, saveImages, saveJson) !! PageFiles(stem, q, saveImages, saveJson)
  {
    var bp, bq := BaseName(stem, p), BaseName(stem, q);
    BaseNameInjective(stem, p, q);
    ImageJsonNames(bp, bq);
    ImageJsonNames(bq, bp);
  }

  /** Page 1 is padded to "001"; page 1000 keeps all four digits. */
  lemma BaseNameExamples()
    ensures BaseName("doc", 1) == "doc_boxes_001"
    ensures BaseName("doc", 42) == "doc_boxes_042"
    ensures BaseName("doc", 1000) == "doc_boxes_1000"
  {
    assert NatToDecimal(42) == "42";
    assert NatToDecimal(1000) == "1000";
  }
}
