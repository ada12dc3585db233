/**
 * The per-token step of `parseCLI` (src/index.ts) and the run of its
 * `while` loop. The loop only moves on after a `--tag` token; any other
 * token leaves the position where it is, so from there on every iteration
 * repeats the same step on the same state and the loop never exits.
 * `Run` stops at that point and reports the state the loop is stuck in.
 */
module Cli {
  import opened JsString

  /** The values `parseCLI` gives `mode`: 'bump', 'release' and 'error'. */
  datatype Mode = Bump | Release | Error

  /** A command-line token after `trim()`, as the comparisons of lines 113, 117 and 120 see it. */
  datatype Token = TagFlag | ReleaseWord | BumpWord | Unrecognized(text: string)

  /** Classifies `args[i].trim()` against `--tag`, `release` and `bump`. */
  function Classify(arg: string): (t: Token)
    ensures t == TagFlag <==> Trim(arg) == "--tag"
    ensures t == ReleaseWord <==> Trim(arg) == "release"
    ensures t == BumpWord <==> Trim(arg) == "bump"
    ensures t.Unrecognized? ==> t.text == Trim(arg)
  {
    var f := Trim(arg);
    if f == "--tag" then TagFlag
    else if f == "release" then ReleaseWord
    else if f == "bump" then BumpWord
    else Unrecognized(f)
  }

  /** Every argument classified; the loop compares these, while `--tag` takes its value from the raw arguments. */
  function Tokens(args: seq<string>): (toks: seq<Token>)
    ensures |toks| == |args|
    ensures forall k :: 0 <= k < |args| ==> toks[k] == Classify(args[k])
  {
    seq(|args|, k requires 0 <= k < |args| => Classify(args[k]))
  }

  /** The loop's variables `i` and `mode`, and the global `preReleaseTag`. */
  datatype CliState = CliState(i: nat, mode: Mode, tag: string)

  /** The loop either exits with its final state or repeats one state forever. */
  datatype CliOutcome = Returns(final: CliState) | Diverges(stuck: CliState)

  /** Before the loop: `i = 0`, `mode = 'bump'`, and the tag configured so far. */
  function Start(tag: string): CliState
  {
    CliState(0, Bump, tag)
  }

  /** One iteration of the loop body, lines 111-123, on the classified tokens `toks` of `args`. */
  function Step(args: seq<string>, toks: seq<Token>, st: CliState): (next: CliState)
    requires |toks| == |args| && st.i < |args|
    ensures next.i == st.i || next.i == st.i + 1
    ensures next.i == st.i + 1 <==> toks[st.i] == TagFlag
    ensures toks[st.i] == TagFlag ==> next.mode == st.mode
  {
    match toks[st.i]
    case TagFlag =>
      var j := st.i + 1;
      st.(i := j, tag := if j < |args| && args[j] != "" then args[j] else st.tag)
    case ReleaseWord => st.(mode := Release)
    case BumpWord => st
    case Unrecognized(_) => st.(mode := Error)
  }

  /** The loop of lines 110-124 from state `st`, cut short once a step leaves `i` where it was. */
  function Run(args: seq<string>, toks: seq<Token>, st: CliState): (o: CliOutcome)
    requires |toks| == |args|
    ensures o.Returns? ==> o.final.i == (if st.i < |args| then |args| else st.i) && o.final.mode == st.mode
    ensures o.Diverges? ==> st.i <= o.stuck.i < |args| && toks[o.stuck.i] != TagFlag
    decreases |args| - st.i
  {
    if st.i >= |args| then Returns(st)
    else
      var next := Step(args, toks, st);
      if next.i == st.i then Diverges(next) else Run(args, toks, next)
  }

  /** The loop run on the actual arguments, from the state before it. */
  function Parse(args: seq<string>, tag: string): (r: CliOutcome)
    ensures r.Returns? ==> r.final.i == |args| && r.final.mode == Bump
    ensures r.Diverges? ==> r.stuck.i < |args| && Trim(args[r.stuck.i]) != "--tag"
  {
    Run(args, Tokens(args), Start(tag))
  }

  /**
   * What one token does: `release` selects release mode, `bump` changes
   * nothing, `--tag` moves on and takes a non-empty following value as the
   * tag, and anything else selects error mode; only `--tag` advances.
   */
  lemma StepCases(args: seq<string>, toks: seq<Token>, st: CliState)
    requires |toks| == |args| && st.i < |args|
    ensures var t, next := toks[st.i], Step(args, toks, st);
      && (t == ReleaseWord ==> next == st.(mode := Release))
      && (t == BumpWord ==> next == st)
      && (t.Unrecognized? ==> next == st.(mode := Error))
      && (t == TagFlag ==> next.i == st.i + 1 && next.mode == st.mode)
      && (t == TagFlag && st.i + 1 < |args| && args[st.i + 1] != "" ==> next.tag == args[st.i + 1])
      && (t == TagFlag && (st.i + 1 == |args| || args[st.i + 1] == "") ==> next.tag == st.tag)
      && (t != TagFlag ==> next.tag == st.tag)
  {
  }

  /** The state `Run` reports for a loop that does not exit is one the loop body maps to itself. */
  lemma {:induction false} DivergesAtFixedPoint(args: seq<string>, toks: seq<Token>, st: CliState)
    requires |toks| == |args| && Run(args, toks, st).Diverges?
    ensures Run(args, toks, st).stuck.i < |args|
    ensures Step(args, toks, Run(args, toks, st).stuck) == Run(args, toks, st).stuck
    decreases |args| - st.i
  {
    var next := Step(args, toks, st);
    if next.i != st.i {
      DivergesAtFixedPoint(args, toks, next);
    }
  }

  /** The loop exits exactly when every remaining token is `--tag`. */
  lemma {:induction false} ReturnsIffOnlyTagFlags(args: seq<string>, toks: seq<Token>, st: CliState)
    requires |toks| == |args|
    ensures Run(args, toks, st).Returns? <==> forall k :: st.i <= k < |args| ==> toks[k] == TagFlag
    decreases |args| - st.i
  {
    if st.i < |args| {
      var next := Step(args, toks, st);
      if next.i != st.i {
        ReturnsIffOnlyTagFlags(args, toks, next);
      }
    }
  }

  /** Every `--tag` token comes from a non-empty argument, so it is a truthy tag value. */
  predicate FlagsNonEmpty(args: seq<string>, toks: seq<Token>)
    requires |toks| == |args|
  {
    forall k :: 0 <= k < |args| && toks[k] == TagFlag ==> args[k] != ""
  }

  /** The classified arguments satisfy `FlagsNonEmpty`: trimming never lengthens a string. */
  lemma TokensFlagsNonEmpty(args: seq<string>)
    ensures FlagsNonEmpty(args, Tokens(args))
  {
    forall k | 0 <= k < |args| && Tokens(args)[k] == TagFlag
      ensures args[k] != ""
    {
      assert |Trim(args[k])| == 5;
    }
  }

  /**
   * A loop that exits keeps its mode; its tag is the last argument (itself
   * `--tag`, untrimmed) when at least two tokens remained, and unchanged
   * otherwise.
   */
  lemma {:induction false} ReturnsState(args: seq<string>, toks: seq<Token>, st: CliState)
    requires |toks| == |args| && FlagsNonEmpty(args, toks)
    requires Run(args, toks, st).Returns?
    ensures Run(args, toks, st).final.mode == st.mode
    ensures Run(args, toks, st).final.i == if st.i < |args| then |args| else st.i
    ensures st.i + 1 < |args| ==> Run(args, toks, st).final.tag == args[|args| - 1]
    ensures st.i + 1 >= |args| ==> Run(args, toks, st).final.tag == st.tag
    decreases |args| - st.i
  {
    if st.i < |args| {
      var next := Step(args, toks, st);
      ReturnsState(args, toks, next);
      if st.i + 1 < |args| {
        assert toks[st.i + 1] == TagFlag by {
          ReturnsIffOnlyTagFlags(args, toks, next);
        }
      }
    }
  }

  /**
   * A loop that does not exit is stuck at the first token that is not
   * `--tag`, in the mode that token selects; when a `--tag` came just
   * before and the token is not empty, the token has become the tag.
   */
  lemma {:induction false} DivergesState(args: seq<string>, toks: seq<Token>, st: CliState)
    requires |toks| == |args| && Run(args, toks, st).Diverges?
    ensures var s := Run(args, toks, st).stuck;
      && st.i <= s.i < |args|
      && toks[s.i] != TagFlag
      && (forall k :: st.i <= k < s.i ==> toks[k] == TagFlag)
      && s.mode == match toks[s.i] {
           case ReleaseWord => Release
           case BumpWord => st.mode
           case _ => Error
         }
      && (st.i < s.i && args[s.i] != "" ==> s.tag == args[s.i])
    decreases |args| - st.i
  {
    var next := Step(args, toks, st);
    if next.i != st.i {
      DivergesState(args, toks, next);
    }
  }

  /** Classifying a two-argument list classifies each argument. */
  lemma TokensOfPair(a: string, b: string)
    ensures Tokens([a, b]) == [Classify(a), Classify(b)]
  {
    var t := Tokens([a, b]);
    assert |t| == 2;
    assert t[0] == Classify(a);
    assert t[1] == Classify(b);
  }

  /** `Parse` is `Run` on any sequence known to hold the classified arguments. */
  lemma ParseOnTokens(args: seq<string>, toks: seq<Token>, tag: string)
    requires Tokens(args) == toks
    ensures Parse(args, tag) == Run(args, toks, Start(tag))
  {
  }

  /**
   * On the actual arguments the loop exits exactly when every argument
   * trims to `--tag`, and then the mode is still 'bump': no argument list
   * both selects release mode and lets the loop exit.
   */
  lemma ParseReturnsOnlyBump(args: seq<string>, tag: string)
    ensures Parse(args, tag).Returns? <==> forall k :: 0 <= k < |args| ==> Trim(args[k]) == "--tag"
    ensures Parse(args, tag).Returns? ==> Parse(args, tag).final.mode == Bump
  {
    var toks := Tokens(args);
    ReturnsIffOnlyTagFlags(args, toks, Start(tag));
    assert forall k :: 0 <= k < |args| ==> (toks[k] == TagFlag <==> Trim(args[k]) == "--tag");
    if Parse(args, tag).Returns? {
      TokensFlagsNonEmpty(args);
      ReturnsState(args, toks, Start(tag));
    }
  }

  /** With no arguments the mode is 'bump'. */
  lemma NoArgumentsExample(tag: string)
    ensures Parse([], tag) == Returns(Start(tag))
  {
  }

  /**
   * `--tag <value>` with an unrecognised value stores the value as the tag
   * and then hangs on the value itself, in error mode.
   */
  lemma TagValueHangs(value: string, tag: string)
    requires Classify(value).Unrecognized? && value != ""
    ensures Parse(["--tag", value], tag) == Diverges(CliState(1, Error, value))
  {
    var args := ["--tag", value];
    var toks := [TagFlag, Classify(value)];
    TokensOfPair("--tag", value);
    assert Classify("--tag") == TagFlag by {
      assert Trim("--tag") == "--tag";
    }
    var next := Step(args, toks, Start(tag));
    assert next == CliState(1, Bump, value);
    assert Step(args, toks, next) == CliState(1, Error, value);
    ParseOnTokens(args, toks, tag);
  }

  /** `release` is recognised, but the loop then hangs on it. */
  lemma ReleaseHangsExample(tag: string)
    ensures Parse(["release"], tag) == Diverges(CliState(0, Release, tag))
  {
    assert Tokens(["release"]) == [ReleaseWord] by {
      assert Trim("release") == "release";
    }
  }

  /** A lone `--tag` is the one non-empty argument list on which the loop exits. */
  lemma LoneTagFlagExample(tag: string)
    ensures Parse(["--tag"], tag) == Returns(CliState(1, Bump, tag))
  {
    assert Tokens(["--tag"]) == [TagFlag] by {
      assert Trim("--tag") == "--tag";
    }
    var next := Step(["--tag"], [TagFlag], Start(tag));
    assert next == CliState(1, Bump, tag);
    assert Run(["--tag"], [TagFlag], next) == Returns(next);
    assert Run(["--tag"], [TagFlag], Start(tag)) == Returns(next);
  }
}
