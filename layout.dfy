/**
 * The page loop of `parse_layout`: pages numbered from 1 in input order, each
 * run through the detector and the record builder, then its image and/or JSON
 * file written under the page's base name. The detector, the PDF rasterizer
 * and the image decoder are parameters; a run is described by the sequence of
 * files it writes, in writing order.
 */
module Layout {
  import opened Naming
  import opened PageRecord
  import opened InputPath

  /** One file write: the page image with its drawings on it, or the page's JSON record. */
  datatype OutputFile<P, S> =
    | ImageFile(name: string, image: P, marks: seq<Annotation>)
    | JsonFile(name: string, record: JsonRecord<S>)

  /** What one page writes: first the image if `saveImages`, then the JSON if `saveJson`. */
  function PageOutputs<P, S>(stem: string, page: nat, img: P, dets: seq<Detection<S>>, saveImages: bool, saveJson: bool): seq<OutputFile<P, S>>
  {
    var base := BaseName(stem, page);
    (if saveImages then [ImageFile(ImageName(base), img, MarksOf(dets))] else [])
    + (if saveJson then [JsonFile(JsonName(base), RecordOf(dets))] else [])
  }

  /** What a run over `pages` writes: page k (1-based) is the k-th element of `pages`. */
  function RunOutputs<P, S>(stem: string, pages: seq<P>, detect: P -> seq<Detection<S>>, saveImages: bool, saveJson: bool): seq<OutputFile<P, S>>
  {
    if |pages| == 0 then []
    else RunOutputs(stem, pages[..|pages| - 1], detect, saveImages, saveJson)
         + PageOutputs(stem, |pages|, pages[|pages| - 1], detect(pages[|pages| - 1]), saveImages, saveJson)
  }

  /** The names of every file of pages 1..count. */
  function RunFiles(stem: string, count: nat, saveImages: bool, saveJson: bool): set<string>
  {
    if count == 0 then {} else RunFiles(stem, count - 1, saveImages, saveJson) + PageFiles(stem, count, saveImages, saveJson)
  }

  function FlagCount(saveImages: bool, saveJson: bool): nat {
    (if saveImages then 1 else 0) + (if saveJson then 1 else 0)
  }

  /** No two writes of the sequence go to the same file name. */
  predicate DistinctNames<P, S>(files: seq<OutputFile<P, S>>) {
    forall a, b :: 0 <= a < b < |files| ==> files[a].name != files[b].name
  }

  /** The page loop: `for i, img in enumerate(images, 1)`. */
  method ProcessPages<P, S>(stem: string, pages: seq<P>, detect: P -> seq<Detection<S>>, saveImages: bool, saveJson: bool)
    returns (written: seq<OutputFile<P, S>>)
    ensures written == RunOutputs(stem, pages, detect, saveImages, saveJson)
  {
    written := [];
    var i := 1;
    while i <= |pages|
      invariant 1 <= i <= |pages| + 1
      invariant written == RunOutputs(stem, pages[..i - 1], detect, saveImages, saveJson)
    {
      ghost var before := written;
      var img := pages[i - 1];
      var rec, marks := BuildPage(detect(img));
      var base := BaseName(stem, i);
      if saveImages {
        written := written + [ImageFile(ImageName(base), img, marks)];
      }
      if saveJson {
        written := written + [JsonFile(JsonName(base), rec)];
      }
      assert written == before + PageOutputs(stem, i, img, detect(img), saveImages, saveJson);
      assert pages[..i][..i - 1] == pages[..i - 1] && pages[..i][i - 1] == img;
      i := i + 1;
    }
    assert pages[..i - 1] == pages;
  }

  /** `parse_layout`: a ".pdf" input (any case) is rasterized into pages, any other input is one image. */
  method ParseLayout<P, S>(inputPath: string, rasterize: string -> seq<P>, decode: string -> P,
                           detect: P -> seq<Detection<S>>, saveImages: bool, saveJson: bool)
    returns (written: seq<OutputFile<P, S>>)
    ensures IsPdf(Name(inputPath)) ==> written == RunOutputs(Stem(Name(inputPath)), rasterize(inputPath), detect, saveImages, saveJson)
    ensures !IsPdf(Name(inputPath)) ==> written == RunOutputs(Stem(Name(inputPath)), [decode(inputPath)], detect, saveImages, saveJson)
  {
    var name := Name(inputPath);
    var basename := Stem(name);
    var images: seq<P>;
    if Lower(Suffix(name)) == ".pdf" {
      images := rasterize(inputPath);
    } else {
      images := [decode(inputPath)];
    }
    written := ProcessPages(basename, images, detect, saveImages, saveJson);
  }

  /** Every page writes one file per set flag. */
  lemma {:induction false} RunOutputsCount<P, S>(stem: string, pages: seq<P>, detect: P -> seq<Detection<S>>, saveImages: bool, saveJson: bool)
    ensures |RunOutputs(stem, pages, detect, saveImages, saveJson)| == |pages| * FlagCount(saveImages, saveJson)
  {
    if |pages| > 0 {
      var n, c := |pages|, FlagCount(saveImages, saveJson);
      RunOutputsCount(stem, pages[..n - 1], detect, saveImages, saveJson);
      assert |PageOutputs(stem, n, pages[n - 1], detect(pages[n - 1]), saveImages, saveJson)| == c;
      assert (n - 1) * c + c == n * c;
    }
  }

  /** The files a page writes are exactly the names of `PageFiles`, without repetition. */
  lemma PageOutputsFiles<P, S>(stem: string, page: nat, img: P, dets: seq<Detection<S>>, saveImages: bool, saveJson: bool)
    ensures DistinctNames(PageOutputs(stem, page, img, dets, saveImages, saveJson))
    ensures forall f :: f in PageOutputs(stem, page, img, dets, saveImages, saveJson) <==>
      (saveImages && f == ImageFile(ImageName(BaseName(stem, page)), img, MarksOf(dets)))
      || (saveJson && f == JsonFile(JsonName(BaseName(stem, page)), RecordOf(dets)))
    ensures forall k :: 0 <= k < |PageOutputs(stem, page, img, dets, saveImages, saveJson)| ==>
      PageOutputs(stem, page, img, dets, saveImages, saveJson)[k].name in PageFiles(stem, page, saveImages, saveJson)
  {
  }

  /** A later page's files are none of the earlier pages' files. */
  lemma {:induction false} NewPageFilesAreFresh(stem: string, count: nat, page: nat, saveImages: bool, saveJson: bool)
    requires count < page
    ensures PageFiles(stem, page, saveImages, saveJson) !! RunFiles(stem, count, saveImages, saveJson)
  {
    if count > 0 {
      NewPageFilesAreFresh(stem, count - 1, page, saveImages, saveJson);
      PageFilesDisjoint(stem, page, count, saveImages, saveJson);
    }
  }

  /**
   * A run never overwrites a file: all written names differ, and each is a
   * file of one of pages 1..|pages| under the two flags.
   */
  lemma {:induction false} RunOutputsFiles<P, S>(stem: string, pages: seq<P>, detect: P -> seq<Detection<S>>, saveImages: bool, saveJson: bool)
    ensures DistinctNames(RunOutputs(stem, pages, detect, saveImages, saveJson))
    ensures forall k :: 0 <= k < |RunOutputs(stem, pages, detect, saveImages, saveJson)| ==>
      RunOutputs(stem, pages, detect, saveImages, saveJson)[k].name in RunFiles(stem, |pages|, saveImages, saveJson)
  {
    if |pages| > 0 {
      var n := |pages|;
      var earlier := RunOutputs(stem, pages[..n - 1], detect, saveImages, saveJson);
      var current := PageOutputs(stem, n, pages[n - 1], detect(pages[n - 1]), saveImages, saveJson);
      var all := RunOutputs(stem, pages, detect, saveImages, saveJson);
      assert all == earlier + current;
      RunOutputsFiles(stem, pages[..n - 1], detect, saveImages, saveJson);
      PageOutputsFiles(stem, n, pages[n - 1], detect(pages[n - 1]), saveImages, saveJson);
      NewPageFilesAreFresh(stem, n - 1, n, saveImages, saveJson);
      forall a, b | 0 <= a < b < |all| ensures all[a].name != all[b].name {
        if b < |earlier| {
          assert all[a] == earlier[a] && all[b] == earlier[b];
        } else if a < |earlier| {
          assert all[a].name in RunFiles(stem, n - 1, saveImages, saveJson);
          assert all[b] == current[b - |earlier|];
        } else {
          assert all[a] == current[a - |earlier|] && all[b] == current[b - |earlier|];
        }
      }
      forall k | 0 <= k < |all| ensures all[k].name in RunFiles(stem, n, saveImages, saveJson) {
        if k < |earlier| {
          assert all[k] == earlier[k];
        } else {
          assert all[k] == current[k - |earlier|];
        }
      }
    }
  }

  /**
   * Page p (1-based) of the run writes its image with its drawings to the image file and its
   * record to the JSON file of base name `BaseName(stem, p)`, each when its flag is set.
   */
  lemma {:induction false} RunOutputsOfPage<P, S>(stem: string, pages: seq<P>, detect: P -> seq<Detection<S>>, saveImages: bool, saveJson: bool, p: nat)
    requires 1 <= p <= |pages|
    ensures saveImages ==> ImageFile(ImageName(BaseName(stem, p)), pages[p - 1], MarksOf(detect(pages[p - 1]))) in RunOutputs(stem, pages, detect, saveImages, saveJson)
    ensures saveJson ==> JsonFile(JsonName(BaseName(stem, p)), RecordOf(detect(pages[p - 1]))) in RunOutputs(stem, pages, detect, saveImages, saveJson)
  {
    var n := |pages|;
    var prefix := pages[..n - 1];
    var earlier := RunOutputs(stem, prefix, detect, saveImages, saveJson);
    var current := PageOutputs(stem, n, pages[n - 1], detect(pages[n - 1]), saveImages, saveJson);
    assert RunOutputs(stem, pages, detect, saveImages, saveJson) == earlier + current;
    if p < n {
      RunOutputsOfPage(stem, prefix, detect, saveImages, saveJson, p);
      assert prefix[p - 1] == pages[p - 1];
    } else {
      var base := BaseName(stem, n);
      assert saveImages ==> current[0] == ImageFile(ImageName(base), pages[n - 1], MarksOf(detect(pages[n - 1])));
      assert saveJson ==> current[|current| - 1] == JsonFile(JsonName(base), RecordOf(detect(pages[n - 1])));
    }
  }

  /** A non-PDF input is a single page: the run writes at most the two files of page 1. */
  lemma SingleImageRun<P, S>(stem: string, img: P, detect: P -> seq<Detection<S>>, saveImages: bool, saveJson: bool)
    ensures RunOutputs(stem, [img], detect, saveImages, saveJson) == PageOutputs(stem, 1, img, detect(img), saveImages, saveJson)
  {
  }
}
