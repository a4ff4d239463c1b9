/**
 * Input-kind dispatch: the `pathlib` name, suffix and stem of the input path,
 * and the test `input_path.suffix.lower() == ".pdf"`.
 */
module InputPath {

  /** `str.rfind(c)`: the last index of `c` in `s`, or -1. */
  function LastIndexOf(s: string, c: char): (i: int)
    ensures -1 <= i < |s|
    ensures 0 <= i ==> s[i] == c
    ensures forall k :: i < k < |s| ==> s[k] != c
  {
    if |s| == 0 then -1
    else if s[|s| - 1] == c then |s| - 1
    else LastIndexOf(s[..|s| - 1], c)
  }

  /** The final path component: everything after the last '/'. */
  function Name(path: string): (name: string)
    ensures '/' !in name
    ensures |name| <= |path| && path[|path| - |name|..] == name
    ensures |name| == |path| || path[|path| - |name| - 1] == '/'
  {
    path[LastIndexOf(path, '/') + 1..]
  }

  /** Whether the last '.' of `name` opens a suffix: not the first character, not the last. */
  predicate HasSuffix(name: string) {
    0 < LastIndexOf(name, '.') < |name| - 1
  }

  /** `PurePath.suffix`: from the last '.' on, or "" when `HasSuffix` fails. */
  function Suffix(name: string): string
  {
    if HasSuffix(name) then name[LastIndexOf(name, '.')..] else ""
  }

  /** `PurePath.stem`: the name without its suffix. */
  function Stem(name: string): string
  {
    if HasSuffix(name) then name[..LastIndexOf(name, '.')] else name
  }

  /** `str.lower()` on the ASCII letters; every other character is kept. */
  function LowerChar(c: char): char
  {
    if 'A' <= c <= 'Z' then (c as int - 'A' as int + 'a' as int) as char else c
  }

  function Lower(s: string): (r: string)
    ensures |r| == |s|
    ensures forall k :: 0 <= k < |r| ==> !('A' <= r[k] <= 'Z')
    ensures forall k :: 0 <= k < |r| ==> r[k] == s[k] || ('A' <= s[k] <= 'Z' && r[k] as int == s[k] as int + 32)
  {
    seq(|s|, k requires 0 <= k < |s| => LowerChar(s[k]))
  }

  /** The dispatch test of the layout parser. */
  predicate IsPdf(name: string) {
    Lower(Suffix(name)) == ".pdf"
  }

  /** Stem and suffix split the name: putting them back together gives the name. */
  lemma StemSuffixSplit(name: string)
    ensures Stem(name) + Suffix(name) == name
  {
  }

  /**
   * A suffix is empty, or a '.' followed by at least one character none of which
   * is a '.'; and a non-empty suffix leaves a non-empty stem.
   */
  lemma SuffixShape(name: string)
    ensures Suffix(name) == "" || (2 <= |Suffix(name)| && Suffix(name)[0] == '.' && 1 <= |Stem(name)|)
    ensures forall k :: 0 < k < |Suffix(name)| ==> Suffix(name)[k] != '.'
  {
  }

  /**
   * Conversely, a '.' that is neither the first nor the last character and has
   * no '.' after it opens the suffix, and the stem is everything before it.
   */
  lemma SuffixOfLastDot(name: string, i: nat)
    requires 0 < i < |name| - 1 && name[i] == '.'
    requires forall k :: i < k < |name| ==> name[k] != '.'
    ensures Suffix(name) == name[i..] && Stem(name) == name[..i]
  {
  }

  /** A name without a '.' after its first character has no suffix and is its own stem. */
  lemma NoDotNoSuffix(name: string)
    requires forall k :: 0 < k < |name| ==> name[k] != '.'
    ensures Suffix(name) == "" && Stem(name) == name
  {
  }

  lemma LowerCharDot(c: char)
    requires LowerChar(c) == '.'
    ensures c == '.'
  {
  }

  /**
   * The PDF test, characterised without `rfind`: the name has at least five
   * characters and its last four, lower-cased, are ".pdf".
   */
  lemma IsPdfIff(name: string)
    ensures IsPdf(name) <==> 5 <= |name| && Lower(name[|name| - 4..]) == ".pdf"
  {
    var n := |name|;
    if 5 <= n && Lower(name[n - 4..]) == ".pdf" {
      var tail := name[n - 4..];
      assert LowerChar(tail[0]) == '.';
      LowerCharDot(tail[0]);
      assert name[n - 4] == '.';
      forall k | n - 4 < k < n ensures name[k] != '.' {
        assert LowerChar(name[k]) == ".pdf"[k - (n - 4)];
      }
      assert LastIndexOf(name, '.') == n - 4;
    }
    if IsPdf(name) {
      assert HasSuffix(name);
      assert |Suffix(name)| == 4;
    }
  }

  /** Two names that differ only in the case of ASCII letters are dispatched alike. */
  lemma IsPdfCaseInsensitive(a: string, b: string)
    requires Lower(a) == Lower(b)
    ensures IsPdf(a) <==> IsPdf(b)
  {
  }

  /** The case of the suffix does not matter. */
  lemma IsPdfUpperCase()
    ensures IsPdf("X.PDF")
  {
    IsPdfIff("X.PDF");
    assert "X.PDF"[1..] == ".PDF";
    assert Lower(".PDF") == ".pdf";
  }

  /** A name that is only ".pdf" is a hidden file without a suffix, so not a PDF. */
  lemma IsPdfHiddenFile()
    ensures Suffix(".pdf") == "" && !IsPdf(".pdf")
  {
  }

  /** Only the last suffix counts. */
  lemma IsPdfLastSuffix()
    ensures !IsPdf("scan.pdf.png")
  {
  }

  /** The stem keeps every dot before the last one. */
  lemma StemExample()
    ensures Stem(Name("docs/report.v2.pdf")) == "report.v2"
  {
    var path := "docs/report.v2.pdf";
    assert path[4] == '/' && forall k :: 4 < k < |path| ==> path[k] != '/';
    assert Name(path) == "report.v2.pdf";
    var name := "report.v2.pdf";
    assert name[9] == '.' && forall k :: 9 < k < |name| ==> name[k] != '.';
  }
}
