/**
 * The manifest as the bumper sees it: the parsed `package.json` reduced to
 * its version field, and the indentation width taken from the raw text
 * (`readPackageVersion`, src/index.ts).
 */
module PackageJson {
  import opened Wrappers
  import opened JsString

  /** The parsed manifest; `None` stands for a missing `version` field. */
  datatype PackageData = PackageData(version: Option<string>)

  /**
   * The guard `!packageData || !packageData.version` fails: the manifest is
   * loaded and its version is a truthy string (so not the empty string).
   */
  predicate HasVersion(pkg: Option<PackageData>)
  {
    pkg.Some? && pkg.value.version.Some? && pkg.value.version.value != ""
  }

  /**
   * The guard's cases: no manifest, a manifest without `version` and one
   * whose version is the empty string all fail it; any other version passes.
   */
  lemma VersionGuardCases(v: string)
    ensures !HasVersion(None)
    ensures !HasVersion(Some(PackageData(None)))
    ensures !HasVersion(Some(PackageData(Some(""))))
    ensures HasVersion(Some(PackageData(Some(v)))) <==> v != ""
  {
  }

  /**
   * Lines 40-43: the distance from the first newline to the next `"`,
   * where 2 replaces any distance below 1. A missing newline (-1) makes the
   * search start at 0.
   */
  function Indentation(text: string): (w: int)
    ensures w >= 1
  {
    var eol1 := IndexOf(text, '\n');
    var qn := IndexOfFrom(text, '"', eol1);
    if qn - eol1 < 1 then 2 else qn - eol1
  }

  /**
   * The fallback to 2 is taken exactly when no `"` follows the first
   * newline; otherwise the width is the distance between the two. Without
   * any newline the width is one more than the index of the first `"`.
   */
  lemma IndentationCases(text: string)
    ensures var eol1 := IndexOf(text, '\n');
      var qn := IndexOfFrom(text, '"', eol1);
      && (eol1 != -1 && qn != -1 ==> eol1 < qn && Indentation(text) == qn - eol1)
      && (eol1 != -1 && qn == -1 ==> Indentation(text) == 2)
      && (eol1 == -1 ==> Indentation(text) == if '"' in text then IndexOf(text, '"') + 1 else 2)
  {
    var eol1 := IndexOf(text, '\n');
    if eol1 != -1 {
      assert text[eol1] == '\n';
    }
  }

  /** `k` blanks. */
  function Spaces(k: nat): (s: string)
    ensures |s| == k && forall i :: 0 <= i < k ==> s[i] == ' '
  {
    seq(k, _ => ' ')
  }

  /**
   * The newline itself is counted: a manifest whose first field is
   * indented by `k` blanks is re-written with width `k + 1`.
   */
  lemma IndentationCountsNewline(k: nat, rest: string)
    ensures Indentation("{\n" + Spaces(k) + "\"" + rest) == k + 1
  {
    var text := "{\n" + Spaces(k) + "\"" + rest;
    assert text[0] == '{' && text[1] == '\n';
    assert IndexOf(text, '\n') == 1;
    assert text[k + 2] == '"';
    assert forall i :: 1 <= i < k + 2 ==> text[i] != '"' by {
      forall i | 1 <= i < k + 2 ensures text[i] != '"' {
        if i >= 2 {
          assert text[i] == Spaces(k)[i - 2];
        }
      }
    }
    assert IndexOfFrom(text, '"', 1) == k + 2;
  }

  /** The common two-blank layout is read as width 3. */
  lemma IndentationTwoBlanksExample()
    ensures Indentation("{\n  \"" + "name\": \"x\"\n}") == 3
  {
    IndentationCountsNewline(2, "name\": \"x\"\n}");
    assert Spaces(2) == "  ";
    assert "{\n" + Spaces(2) + "\"" == "{\n  \"";
  }
}
