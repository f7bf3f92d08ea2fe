/**
 * The on-disk record format: `save_cmd` writes the command, one space and the
 * space-joined arguments; the Run action reads it back by splitting on single
 * spaces and trimming every piece. There is no quoting or escaping.
 */
module Codec {
  import opened Text

  /** A program to start and the arguments to pass it. */
  datatype Invocation = Invocation(program: string, args: seq<string>)

  /** The content `save_cmd` writes for a command and its arguments: the separator
      after the command is written even when there are no arguments. */
  function Encode(cmd: string, cmdArgs: seq<string>): (r: string)
    ensures |r| > |cmd| && r[..|cmd|] == cmd && r[|cmd|] == ' '
  {
    cmd + " " + Join(cmdArgs)
  }

  /** Without spaces inside the tokens, a record holds one separator per argument,
      and one when there are none: so `Decode` finds that many arguments. */
  lemma EncodeSeparators(cmd: string, cmdArgs: seq<string>)
    requires ' ' !in cmd && forall a <- cmdArgs :: ' ' !in a
    ensures multiset(Encode(cmd, cmdArgs))[' '] == if cmdArgs == [] then 1 else |cmdArgs|
    ensures |Decode(Encode(cmd, cmdArgs)).args| == if cmdArgs == [] then 1 else |cmdArgs|
  {
    JoinSpaces(cmdArgs);
    assert Encode(cmd, cmdArgs) == cmd + " " + Join(cmdArgs);
  }

  /** The pieces of `content` split on single spaces, each trimmed. */
  function TrimmedPieces(content: string): (r: seq<string>)
    ensures |r| == |Split(content)|
  {
    var pieces := Split(content);
    seq(|pieces|, i requires 0 <= i < |pieces| => Trim(pieces[i]))
  }

  /** The Run action's reading of a record: the first trimmed piece is the program,
      the rest are its arguments, one per space in the content. */
  function Decode(content: string): (r: Invocation)
    ensures |r.args| == multiset(content)[' ']
    ensures Trimmed(r.program) && forall a <- r.args :: Trimmed(a)
    ensures ' ' !in r.program && forall a <- r.args :: ' ' !in a
  {
    var pieces := Split(content);
    var trimmed := TrimmedPieces(content);
    SplitPieces(content);
    assert forall i | 0 <= i < |pieces| :: Trimmed(trimmed[i]) && ' ' !in trimmed[i] by {
      forall i | 0 <= i < |pieces| ensures Trimmed(trimmed[i]) && ' ' !in trimmed[i] {
        TrimKeepsInfix(pieces[i]);
        assert ' ' !in pieces[i];
      }
    }
    Invocation(trimmed[0], trimmed[1..])
  }

  /** A token the format carries unchanged: no space, no surrounding whitespace. */
  predicate Word(s: string) {
    ' ' !in s && Trimmed(s)
  }

  /** Saving and then running gives back the command and its arguments, provided
      there is at least one argument and every token is a word. */
  lemma DecodeEncode(cmd: string, cmdArgs: seq<string>)
    requires Word(cmd) && forall a <- cmdArgs :: Word(a)
    requires cmdArgs != []
    ensures Decode(Encode(cmd, cmdArgs)) == Invocation(cmd, cmdArgs)
  {
    var xs := [cmd] + cmdArgs;
    JoinCons(cmd, cmdArgs);
    SplitJoin(xs);
    WordsSurviveTrim(xs);
    assert xs[1..] == cmdArgs;
  }

  /** A record saved without arguments runs with one empty argument: the trailing
      separator leaves an empty last piece. */
  lemma DecodeEncodeNoArgs(cmd: string)
    requires Word(cmd)
    ensures Encode(cmd, []) == cmd + " "
    ensures Decode(Encode(cmd, [])) == Invocation(cmd, [""])
  {
    var e := Encode(cmd, []);
    assert e == cmd + " " + "";
    SplitWordThenSpace(cmd, "");
    assert Split(e) == [cmd, ""];
    WordsSurviveTrim([cmd, ""]);
    assert TrimmedPieces(e) == [cmd, ""];
  }

  /** Trimming every piece of a list of words changes nothing. */
  lemma WordsSurviveTrim(xs: seq<string>)
    requires forall x <- xs :: Word(x)
    ensures seq(|xs|, i requires 0 <= i < |xs| => Trim(xs[i])) == xs
  {
    forall i | 0 <= i < |xs| ensures Trim(xs[i]) == xs[i] {
      assert xs[i] in xs;
      TrimFixesExactlyTrimmed(xs[i]);
    }
  }

  /** An argument holding a space comes back as two arguments: the record cannot
      tell `["a b"]` from `["a", "b"]`. */
  lemma EmbeddedSpaceSplitsArgument(cmd: string, a: string, b: string)
    requires Word(cmd) && Word(a) && Word(b)
    ensures Encode(cmd, [a + " " + b]) == Encode(cmd, [a, b])
    ensures Decode(Encode(cmd, [a + " " + b])) == Invocation(cmd, [a, b])
  {
    JoinCons(a, [b]);
    DecodeEncode(cmd, [a, b]);
  }

  /** With at least one argument, the record is the command and the arguments
      joined by single spaces: no separator follows the last argument. */
  lemma EncodeWithArguments(cmd: string, cmdArgs: seq<string>)
    requires cmdArgs != []
    ensures Encode(cmd, cmdArgs) == Join([cmd] + cmdArgs)
  {
    JoinCons(cmd, cmdArgs);
  }

  /** A single empty argument is stored exactly like no arguments. */
  lemma EmptyArgumentLikeNone(cmd: string)
    ensures Encode(cmd, [""]) == Encode(cmd, [])
  {
  }

  /** A record ends in a space exactly when there are no arguments, or the last
      argument is empty or itself ends in a space. */
  lemma EncodeEndsInSpace(cmd: string, cmdArgs: seq<string>)
    ensures var e := Encode(cmd, cmdArgs);
      |e| > 0 && (e[|e| - 1] == ' ' <==>
        cmdArgs == [] || (var last := cmdArgs[|cmdArgs| - 1]; last == "" || last[|last| - 1] == ' '))
  {
    if cmdArgs != [] {
      var n := |cmdArgs| - 1;
      EncodeWithArguments(cmd, cmdArgs);
      assert [cmd] + cmdArgs == ([cmd] + cmdArgs[..n]) + [cmdArgs[n]];
      JoinSnoc([cmd] + cmdArgs[..n], cmdArgs[n]);
    }
  }
}
