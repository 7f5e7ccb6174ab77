/** The argument echo written into the header of the cutout program
    (build_cmdline_str in board_cutout.py). */
module CommandLine {
  /** A header line may grow by another argument only while it stays within
      this many characters. */
  const MaxLine: nat := 80

  /** The arguments echoed into the header: everything after the script name,
      the input file and the output file (Python's argv[3:]). */
  function EchoedArgs(argv: seq<string>): seq<string>
  {
    if |argv| <= 3 then [] else argv[3..]
  }

  /** Words joined by single spaces, as Python's " ".join(words). */
  function JoinSpaced(words: seq<string>): string
  {
    if |words| == 0 then ""
    else if |words| == 1 then words[0]
    else JoinSpaced(words[..|words| - 1]) + " " + words[|words| - 1]
  }

  /** The concatenation of a list of argument groups. */
  function Flatten(groups: seq<seq<string>>): seq<string>
  {
    if |groups| == 0 then [] else Flatten(groups[..|groups| - 1]) + groups[|groups| - 1]
  }

  predicate NoEmptyArg(args: seq<string>)
  {
    forall k :: 0 <= k < |args| ==> args[k] != ""
  }

  /** Joining two non-empty word lists puts exactly one space between them. */
  lemma {:induction false} JoinSpacedAppend(a: seq<string>, b: seq<string>)
    requires a != [] && b != []
    ensures JoinSpaced(a + b) == JoinSpaced(a) + " " + JoinSpaced(b)
    decreases |b|
  {
    if |b| == 1 {
      assert (a + b)[..|a + b| - 1] == a;
    } else {
      var b' := b[..|b| - 1];
      assert (a + b)[..|a + b| - 1] == a + b';
      JoinSpacedAppend(a, b');
    }
  }

  /** Groups that are all non-empty flatten to a non-empty list when there is
      at least one of them. */
  lemma {:induction false} FlattenNonEmpty(groups: seq<seq<string>>)
    requires forall k :: 0 <= k < |groups| ==> groups[k] != []
    ensures |groups| > 0 ==> Flatten(groups) != []
  {
  }

  /** Joining the lines made of the groups is joining all the arguments:
      no argument is split or lost. */
  lemma {:induction false} JoinOfLines(lines: seq<string>, groups: seq<seq<string>>)
    requires |lines| == |groups|
    requires forall k :: 0 <= k < |groups| ==> groups[k] != [] && lines[k] == JoinSpaced(groups[k])
    ensures JoinSpaced(lines) == JoinSpaced(Flatten(groups))
    decreases |groups|
  {
    if |groups| == 1 {
      assert groups[..0] == [];
      assert Flatten(groups) == groups[0];
    } else if |groups| > 1 {
      var n := |groups| - 1;
      JoinOfLines(lines[..n], groups[..n]);
      FlattenNonEmpty(groups[..n]);
      JoinSpacedAppend(Flatten(groups[..n]), groups[n]);
    }
  }

  lemma NoEmptyArgSnoc(args: seq<string>, arg: string)
    ensures NoEmptyArg(args + [arg]) == (NoEmptyArg(args) && arg != "")
  {
    if NoEmptyArg(args + [arg]) {
      assert (args + [arg])[|args|] == arg;
      forall k | 0 <= k < |args| ensures args[k] != "" {
        assert (args + [arg])[k] == args[k];
      }
    }
  }

  /** `lines` is made of `groups`: each line is its non-empty group joined by
      spaces, only a one-argument line is longer than MaxLine, and no line
      could have taken the first argument of the next one. */
  ghost predicate Packing(lines: seq<string>, groups: seq<seq<string>>)
  {
    && |groups| == |lines|
    && (forall k :: 0 <= k < |lines| ==>
          groups[k] != [] && lines[k] == JoinSpaced(groups[k]) && (|lines[k]| > MaxLine ==> |groups[k]| == 1))
    && (forall k :: 0 <= k < |lines| - 1 ==> |lines[k]| + 1 + |groups[k + 1][0]| > MaxLine)
  }

  /** Closing the current line keeps the packing. */
  lemma ClosePreservesPacking(lines: seq<string>, groups: seq<seq<string>>, line: string, group: seq<string>)
    requires Packing(lines, groups)
    requires group != [] && line == JoinSpaced(group) && (|line| > MaxLine ==> |group| == 1)
    requires |lines| > 0 ==> |lines[|lines| - 1]| + 1 + |group[0]| > MaxLine
    ensures Packing(lines + [line], groups + [group])
    ensures Flatten(groups + [group]) == Flatten(groups) + group
  {
    var ls, gs := lines + [line], groups + [group];
    assert gs[..|groups|] == groups;
    forall k | 0 <= k < |ls|
      ensures gs[k] != [] && ls[k] == JoinSpaced(gs[k]) && (|ls[k]| > MaxLine ==> |gs[k]| == 1)
    {
      if k < |lines| {
        assert ls[k] == lines[k] && gs[k] == groups[k];
      }
    }
    forall k | 0 <= k < |ls| - 1
      ensures |ls[k]| + 1 + |gs[k + 1][0]| > MaxLine
    {
      if k < |lines| - 1 {
        assert ls[k] == lines[k] && gs[k + 1] == groups[k + 1];
      }
    }
  }

  /** The progress of build_cmdline_str after some arguments: the closed
      `lines` and the `current` one, and, for the proof, the argument groups
      they are made of (`groups`, `cg`), whether every argument so far was
      non-empty (`clean`) and where a line longer than MaxLine came from
      (`origin`, `co`). */
  datatype Packer = Packer(lines: seq<string>, current: string, groups: seq<seq<string>>, cg: seq<string>,
                           clean: bool, origin: seq<nat>, co: nat)

  /** One iteration of the loop of build_cmdline_str on argument `arg`, the
      i-th one. */
  ghost function Next(p: Packer, arg: string, i: nat): Packer
  {
    var clean := p.clean && arg != "";
    if p.current != "" && |p.current| + 1 + |arg| > MaxLine then
      Packer(p.lines + [p.current], arg, p.groups + [p.cg], [arg], clean, p.origin + [p.co], i)
    else if p.current != "" then
      p.(current := p.current + " " + arg, cg := p.cg + [arg], clean := clean)
    else
      p.(current := arg, cg := [arg], clean := clean, co := i)
  }

  /** The lines once the last current line is closed. */
  ghost function FinalLines(p: Packer): seq<string>
  {
    if p.current != "" then p.lines + [p.current] else p.lines
  }

  ghost function FinalGroups(p: Packer): seq<seq<string>>
  {
    if p.current != "" then p.groups + [p.cg] else p.groups
  }

  /** Every closed line is non-empty, and a line longer than MaxLine is one
      of the arguments (the one `origin` or `co` points at). */
  ghost predicate LinesState(args: seq<string>, p: Packer)
  {
    && (forall k :: 0 <= k < |p.lines| ==> p.lines[k] != "")
    && |p.origin| == |p.lines|
    && (forall k :: 0 <= k < |p.lines| && |p.lines[k]| > MaxLine ==> p.origin[k] < |args| && args[p.origin[k]] == p.lines[k])
    && (|p.current| > MaxLine ==> p.co < |args| && args[p.co] == p.current)
  }

  /** While no argument was empty, the closed lines are packed from `groups`,
      the current line is `cg` joined, and together they are exactly the
      consumed arguments `done`. */
  ghost predicate GroupsState(done: seq<string>, p: Packer)
  {
    && p.clean == NoEmptyArg(done)
    && (p.clean ==>
          && Packing(p.lines, p.groups)
          && Flatten(p.groups) + p.cg == done
          && (p.current == "" <==> p.cg == [])
          && (p.cg == [] <==> done == [])
          && p.current == JoinSpaced(p.cg)
          && (|p.current| > MaxLine ==> |p.cg| == 1)
          && (|p.lines| > 0 ==> p.cg != [] && |p.lines[|p.lines| - 1]| + 1 + |p.cg[0]| > MaxLine))
  }

  lemma StepLines(args: seq<string>, i: nat, p: Packer)
    requires LinesState(args, p) && i < |args|
    ensures LinesState(args, Next(p, args[i], i))
  {
    var q := Next(p, args[i], i);
    if p.current != "" && |p.current| + 1 + |args[i]| > MaxLine {
      forall k | 0 <= k < |q.lines| && |q.lines[k]| > MaxLine
        ensures q.origin[k] < |args| && args[q.origin[k]] == q.lines[k]
      {
        if k < |p.lines| {
          assert q.lines[k] == p.lines[k] && q.origin[k] == p.origin[k];
        }
      }
    }
  }

  lemma StepGroups(args: seq<string>, i: nat, p: Packer)
    requires i < |args| && GroupsState(args[..i], p)
    ensures GroupsState(args[..i + 1], Next(p, args[i], i))
  {
    var done, arg := args[..i], args[i];
    assert args[..i + 1] == done + [arg];
    NoEmptyArgSnoc(done, arg);
    if p.clean && arg != "" {
      if p.current != "" && |p.current| + 1 + |arg| > MaxLine {
        ClosePreservesPacking(p.lines, p.groups, p.current, p.cg);
      } else if p.current != "" {
        JoinSpacedAppend(p.cg, [arg]);
      }
    }
  }

  /** The progress of build_cmdline_str after its first i arguments. */
  ghost function Run(args: seq<string>, i: nat): Packer
    requires i <= |args|
  {
    if i == 0 then Packer([], "", [], [], true, [], 0) else Next(Run(args, i - 1), args[i - 1], i - 1)
  }

  lemma {:induction false} RunLines(args: seq<string>, i: nat)
    requires i <= |args|
    ensures LinesState(args, Run(args, i))
  {
    if i > 0 {
      RunLines(args, i - 1);
      StepLines(args, i - 1, Run(args, i - 1));
    }
  }

  lemma {:induction false} RunGroups(args: seq<string>, i: nat)
    requires i <= |args|
    ensures GroupsState(args[..i], Run(args, i))
  {
    if i > 0 {
      RunGroups(args, i - 1);
      StepGroups(args, i - 1, Run(args, i - 1));
    }
  }

  /** Closing the current line of a state whose lines are non-empty and
      whose long lines are arguments keeps both facts. */
  lemma CloseLines(args: seq<string>, p: Packer)
    requires LinesState(args, p)
    ensures forall k :: 0 <= k < |FinalLines(p)| ==> FinalLines(p)[k] != ""
    ensures forall k :: 0 <= k < |FinalLines(p)| && |FinalLines(p)[k]| > MaxLine ==> FinalLines(p)[k] in args
  {
    var lines := FinalLines(p);
    forall k | 0 <= k < |lines|
      ensures lines[k] != "" && (|lines[k]| > MaxLine ==> lines[k] in args)
    {
      if k < |p.lines| {
        assert lines[k] == p.lines[k];
        if |lines[k]| > MaxLine {
          assert args[p.origin[k]] == lines[k];
        }
      } else {
        assert p.current != "" && lines[k] == p.current;
        if |lines[k]| > MaxLine {
          assert args[p.co] == lines[k];
        }
      }
    }
  }

  /** Once all arguments are consumed, every line is non-empty and a line
      longer than MaxLine is a single argument. */
  lemma FinishLines(args: seq<string>, lines: seq<string>)
    requires lines == FinalLines(Run(args, |args|))
    ensures forall k :: 0 <= k < |lines| ==> lines[k] != ""
    ensures forall k :: 0 <= k < |lines| && |lines[k]| > MaxLine ==> lines[k] in args
  {
    RunLines(args, |args|);
    CloseLines(args, Run(args, |args|));
  }

  /** Lines packed from groups join to the groups' arguments joined. */
  lemma PackingJoins(lines: seq<string>, groups: seq<seq<string>>)
    requires Packing(lines, groups)
    ensures JoinSpaced(lines) == JoinSpaced(Flatten(groups))
  {
    JoinOfLines(lines, groups);
  }

  /** Closing the current line of a clean state leaves lines packed from
      groups that flatten to the consumed arguments. */
  lemma CloseGroups(done: seq<string>, p: Packer)
    requires GroupsState(done, p) && p.clean
    ensures Packing(FinalLines(p), FinalGroups(p))
    ensures Flatten(FinalGroups(p)) == done
  {
    if p.current != "" {
      ClosePreservesPacking(p.lines, p.groups, p.current, p.cg);
    }
  }

  /** Once all arguments are consumed, when none of them was empty, the lines
      are packed from groups that together are all the arguments. */
  lemma FinishGroups(args: seq<string>, lines: seq<string>, groups: seq<seq<string>>)
    requires lines == FinalLines(Run(args, |args|)) && groups == FinalGroups(Run(args, |args|))
    requires NoEmptyArg(args)
    ensures Packing(lines, groups)
    ensures Flatten(groups) == args
    ensures JoinSpaced(lines) == JoinSpaced(args)
  {
    RunGroups(args, |args|);
    assert args[..|args|] == args;
    CloseGroups(args, Run(args, |args|));
    PackingJoins(lines, groups);
  }

  /** Packs the echoed arguments into header lines the way build_cmdline_str
      does: an argument joins the current line when the line stays within
      MaxLine characters, and otherwise starts a new line. `groups` names the
      arguments each line is made of. */
  method BuildCmdline(argv: seq<string>) returns (lines: seq<string>, ghost groups: seq<seq<string>>)
    ensures forall k :: 0 <= k < |lines| ==> lines[k] != ""
    ensures forall k :: 0 <= k < |lines| && |lines[k]| > MaxLine ==> lines[k] in EchoedArgs(argv)
    ensures NoEmptyArg(EchoedArgs(argv)) ==>
      && Packing(lines, groups)
      && Flatten(groups) == EchoedArgs(argv)
      && JoinSpaced(lines) == JoinSpaced(EchoedArgs(argv))
  {
    var args := EchoedArgs(argv);
    lines := [];
    var current := "";
    for i := 0 to |args|
      invariant lines == Run(args, i).lines && current == Run(args, i).current
    {
      var arg := args[i];
      if current != "" && |current| + 1 + |arg| > MaxLine {
        lines := lines + [current];
        current := arg;
      } else if current != "" {
        current := current + " " + arg;
      } else {
        current := arg;
      }
    }
    if current != "" {
      lines := lines + [current];
    }
    groups := FinalGroups(Run(args, |args|));
    FinishLines(args, lines);
    if NoEmptyArg(args) {
      FinishGroups(args, lines, groups);
    }
  }
}
