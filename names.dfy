/**
 * The two file-name operations the engine uses to name its columns:
 * `Path(name).stem` and `str.lower()`.
 */
module Names {

  /** Index of the last '.' in `s`, or -1 when there is none (`str.rfind('.')`). */
  function LastDot(s: string): (i: int)
    ensures -1 <= i < |s|
    ensures 0 <= i ==> s[i] == '.'
    ensures forall k :: i < k < |s| ==> s[k] != '.'
  {
    if s == [] then -1
    else if s[|s| - 1] == '.' then |s| - 1
    else LastDot(s[..|s| - 1])
  }

  /**
   * `Path(name).stem` of a bare file name: the name without its last
   * suffix. A suffix starts at the last dot, and only counts when that dot
   * is neither the first nor the last character.
   */
  function Stem(name: string): (stem: string)
    ensures stem <= name
    ensures stem == name || (0 < |stem| < |name| - 1 && name[|stem|] == '.')
    ensures stem != name ==> forall k :: |stem| < k < |name| ==> name[k] != '.'
    ensures stem == name ==> forall i :: 0 < i < |name| - 1 && name[i] == '.' ==> name[|name| - 1] == '.'
  {
    var i := LastDot(name);
    if 0 < i < |name| - 1 then name[..i] else name
  }

  lemma StemExamples()
    ensures Stem("phylo100.txt") == "phylo100"
    ensures Stem("hek293.tsv.gz") == "hek293.tsv"
    ensures Stem(".hidden") == ".hidden"
    ensures Stem("trailing.") == "trailing."
    ensures Stem("plain") == "plain"
  {
    assert LastDot("phylo100.txt") == 8 by {
      assert "phylo100.txt"[..11][..10][..9] == "phylo100.";
    }
    assert LastDot("hek293.tsv.gz") == 10 by {
      assert "hek293.tsv.gz"[..12][..11] == "hek293.tsv.";
    }
    assert LastDot(".hidden") == 0 by {
      assert ".hidden"[..6] == ".hidde";
      assert ".hidde"[..5] == ".hidd";
      assert ".hidd"[..4] == ".hid";
      assert ".hid"[..3] == ".hi";
      assert ".hi"[..2] == ".h";
      assert ".h"[..1] == ".";
    }
    assert LastDot("plain") == -1 by {
      assert "plain"[..4][..3][..2][..1][..0] == "";
    }
  }

  /** ASCII lower-casing of one character. */
  function LowerChar(c: char): char
  {
    if 'A' <= c <= 'Z' then (c as int - 'A' as int + 'a' as int) as char else c
  }

  /** `str.lower()` on ASCII text. */
  function Lower(s: string): (r: string)
    ensures |r| == |s|
    ensures forall k :: 0 <= k < |s| ==> r[k] == LowerChar(s[k])
  {
    seq(|s|, k requires 0 <= k < |s| => LowerChar(s[k]))
  }

  /** Lower-casing leaves no upper-case ASCII letter and is idempotent. */
  lemma LowerIdempotent(s: string)
    ensures forall k :: 0 <= k < |s| ==> !('A' <= Lower(s)[k] <= 'Z')
    ensures Lower(Lower(s)) == Lower(s)
  {
  }
}
