/**
 * The string computations inside `bumpVersion` and `setAsRelease`
 * (src/index.ts), exactly as written: a release version is advanced by a
 * template that starts with `%` and concatenates `1` onto the revision,
 * and a pre-release version is never advanced.
 */
module VersionText {
  import opened Wrappers
  import opened JsString

  /**
   * The tag compared at lines 63-65: `substring(dn+1, nn)` for the `-` at
   * `dn` and the next `.` at `nn`. When a `.` follows, that is the text
   * strictly between the two; when none does, `nn` is -1 and `substring`
   * swaps its arguments, giving everything up to and including the `-`.
   */
  function ExistingTag(version: string, dn: int): (tag: string)
    requires 0 <= dn < |version| && version[dn] == '-'
    ensures var nn := IndexOfFrom(version, '.', dn);
      && (nn != -1 ==> dn < nn && tag == version[dn + 1..nn] && '.' !in tag)
      && (nn == -1 ==> tag == version[..dn + 1])
  {
    Substring(version, dn + 1, IndexOfFrom(version, '.', dn))
  }

  /**
   * The template of line 60 applied to `version.split('.')`: a missing
   * minor part prints as `undefined`, a missing revision makes `rev+1`
   * print as `NaN`, and a present revision gets the character `1` appended.
   */
  function FirstPreRelease(version: string, tag: string): (r: string)
    ensures |r| >= |tag| + 3 && r[0] == '%' && r[|r| - |tag| - 3..] == "-" + tag + ".1"
  {
    var parts := Split(version, '.');
    var maj := parts[0];
    var min := if |parts| > 1 then parts[1] else "undefined";
    var revPlusOne := if |parts| > 2 then parts[2] + "1" else "NaN";
    "%" + maj + "." + min + "." + revPlusOne + "-" + tag + ".1"
  }

  /** What `bumpVersion` computes: the new version and the tag it complains about, if any. */
  datatype BumpOutcome = BumpOutcome(version: string, mismatch: Option<string>)

  /** The transition of lines 54-69 on the version string `version` and configured tag `configured`. */
  function Bumped(version: string, configured: string): (o: BumpOutcome)
    ensures '-' in version ==> o.version == version
    ensures '-' !in version ==> o.mismatch == None
  {
    var dn := IndexOf(version, '-');
    if dn == -1 then BumpOutcome(FirstPreRelease(version, configured), None)
    else
      var tag := ExistingTag(version, dn);
      BumpOutcome(version, if tag != configured then Some(tag) else None)
  }

  /** The transition of lines 77-80: cut the version at its first `-`. */
  function Released(v: string): (r: string)
    ensures '-' !in r
    ensures |r| <= |v| && r == v[..|r|]
    ensures '-' in v ==> |r| < |v| && v[|r|] == '-'
    ensures '-' !in v ==> r == v
  {
    var n := IndexOf(v, '-');
    if n != -1 then Substring(v, 0, n) else v
  }

  /** Finalizing twice is finalizing once. */
  lemma ReleasedIdempotent(v: string)
    ensures Released(Released(v)) == Released(v)
  {
  }

  /** Finalizing keeps exactly the text before the first `-`. */
  lemma ReleasedIsPrefixBeforeDash(x: string, y: string)
    requires '-' !in x
    ensures Released(x + "-" + y) == x
  {
    IndexOfAfterPrefix(x, '-', y);
    assert (x + "-" + y)[..|x|] == x;
  }

  /**
   * On a version with a `-` the version is returned unchanged, whether or
   * not its tag is the configured one; a different tag is only reported.
   */
  lemma BumpPreReleaseUnchanged(version: string, configured: string)
    requires '-' in version
    ensures Bumped(version, configured).version == version
    ensures Bumped(version, configured).mismatch.Some?
        <==> ExistingTag(version, IndexOf(version, '-')) != configured
    ensures Bumped(version, configured).mismatch.Some? ==>
        Bumped(version, configured).mismatch.value == ExistingTag(version, IndexOf(version, '-'))
  {
  }

  /** A version without `-` is advanced by the template of line 60 and nothing is reported. */
  lemma BumpRelease(version: string, tag: string)
    requires '-' !in version
    ensures Bumped(version, tag) == BumpOutcome(FirstPreRelease(version, tag), None)
  {
  }

  /**
   * A release version `maj.min.rev` becomes `%maj.min.rev1-<tag>.1`:
   * the literal `%` and the string concatenation of `rev+1` included.
   */
  lemma BumpReleaseThreeParts(maj: string, min: string, rev: string, tag: string)
    requires '.' !in maj && '.' !in min && '.' !in rev
    requires '-' !in maj && '-' !in min && '-' !in rev
    ensures Bumped(maj + "." + min + "." + rev, tag)
        == BumpOutcome("%" + maj + "." + min + "." + (rev + "1") + "-" + tag + ".1", None)
  {
    var v := maj + "." + min + "." + rev;
    assert '-' !in v;
    BumpRelease(v, tag);
    SplitThree(maj, min, rev);
  }

  /** A release version with fewer than three parts: `1.2` becomes `%1.2.NaN-<tag>.1`. */
  lemma BumpReleaseTwoParts(maj: string, min: string, tag: string)
    requires '.' !in maj && '.' !in min && '-' !in maj && '-' !in min
    ensures Bumped(maj + "." + min, tag).version == "%" + maj + "." + min + "." + "NaN" + "-" + tag + ".1"
  {
    var v := maj + "." + min;
    assert '-' !in v;
    BumpRelease(v, tag);
    SplitAfterPrefix(maj, '.', min);
    assert Split(v, '.') == [maj, min];
  }

  /** A release version of one part: `1` becomes `%1.undefined.NaN-<tag>.1`. */
  lemma BumpReleaseOnePart(maj: string, tag: string)
    requires '.' !in maj && '-' !in maj
    ensures Bumped(maj, tag).version == "%" + maj + ".undefined.NaN-" + tag + ".1"
  {
    BumpRelease(maj, tag);
    assert Split(maj, '.') == [maj];
    assert FirstPreRelease(maj, tag) == "%" + maj + "." + "undefined" + "." + "NaN" + "-" + tag + ".1";
    assert "." + "undefined" + "." + "NaN" + "-" == ".undefined.NaN-";
  }

  /** `1.2.3` with the default tag becomes `%1.2.31-pre-release.1` (not `1.2.4-pre-release.1`). */
  lemma BumpDefaultTagExample()
    ensures Bumped("1.2.3", "pre-release").version == "%1.2.31-pre-release.1"
  {
    var v := "1" + "." + "2" + "." + "3";
    var r := "%" + "1" + "." + "2" + "." + ("3" + "1") + "-" + "pre-release" + ".1";
    assert v == "1.2.3";
    assert r == "%1.2.31-pre-release.1";
    BumpReleaseThreeParts("1", "2", "3", "pre-release");
  }

  /**
   * A pre-release version `base-t.rest` keeps its text, and `t` is reported
   * exactly when it differs from the configured tag.
   */
  lemma BumpPreReleaseOf(base: string, t: string, rest: string, configured: string)
    requires '-' !in base && '.' !in t
    ensures Bumped(base + "-" + t + "." + rest, configured)
        == BumpOutcome(base + "-" + t + "." + rest, if t != configured then Some(t) else None)
  {
    var v := base + "-" + t + "." + rest;
    var p := |base| + 1 + |t|;
    assert v == base + ['-'] + (t + "." + rest);
    IndexOfAfterPrefix(base, '-', t + "." + rest);
    assert v[p] == '.';
    forall k | |base| <= k < p ensures v[k] != '.' {
      if k > |base| {
        assert v[k] == t[k - |base| - 1];
      }
    }
    assert IndexOfFrom(v, '.', |base|) == p;
    assert v[|base| + 1..p] == t;
  }

  /** Continuing a series with the matching tag does not advance the ordinal. */
  lemma BumpMatchingSeriesExample()
    ensures Bumped("1.2.4-" + "pre-release.1", "pre-release") == BumpOutcome("1.2.4-" + "pre-release.1", None)
  {
    var base, t, rest := "1.2.4", "pre-release", "1";
    BumpPreReleaseOf(base, t, rest, t);
    assert base + "-" + t + "." + rest == "1.2.4-" + "pre-release.1";
  }

  /** A different tag is reported and the version is left as it was. */
  lemma BumpOtherSeriesExample()
    ensures Bumped("1.2.4-" + "alpha.1", "pre-release") == BumpOutcome("1.2.4-" + "alpha.1", Some("alpha"))
  {
    var base, t, rest := "1.2.4", "alpha", "1";
    BumpPreReleaseOf(base, t, rest, "pre-release");
    assert base + "-" + t + "." + rest == "1.2.4-" + "alpha.1";
  }

  /** Finalizing `1.2.4-pre-release.2` gives `1.2.4`. */
  lemma ReleasedExample()
    ensures Released("1.2.4-" + "pre-release.2") == "1.2.4"
  {
    ReleasedIsPrefixBeforeDash("1.2.4", "pre-release.2");
    assert "1.2.4" + "-" + "pre-release.2" == "1.2.4-" + "pre-release.2";
  }
}
