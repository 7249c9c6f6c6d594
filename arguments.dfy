/**
 * Sub-command selection: after option parsing, `decode_arguments` scans the
 * remaining arguments left to right for the first `dump`, `ls` or `list`.
 * The file-scope variables `operation` and `opt_ind`, zero until the scan
 * sets them, are the out-parameters of `DecodePositionals`.
 */
module Arguments {
  import opened Wrappers

  /** `OP_LS` (1) and `OP_DUMP` (2). */
  datatype Operation = Ls | Dump

  /** The sub-command an argument names, if it names one. */
  function CommandOf(arg: string): Option<Operation> {
    if arg == "dump" then Some(Dump)
    else if arg == "ls" || arg == "list" then Some(Ls)
    else None
  }

  /** The index of the first sub-command token at or after `from`. */
  function FirstCommand(argv: seq<string>, from: nat): (r: Option<nat>)
    ensures r.Some? ==> from <= r.value < |argv| && CommandOf(argv[r.value]).Some?
    ensures r.Some? ==> forall k :: from <= k < r.value ==> CommandOf(argv[k]).None?
    ensures r.None? ==> forall k :: from <= k < |argv| ==> CommandOf(argv[k]).None?
    decreases |argv| - from
  {
    if from >= |argv| then None
    else if CommandOf(argv[from]).Some? then Some(from)
    else FirstCommand(argv, from + 1)
  }

  /** The outcome of the scan: the operation and the index just past its token (0 if none). */
  datatype Decoded = Decoded(operation: Operation, optInd: nat)

  /**
   * The scan from `optind`: the first token decides, and the listing is the
   * default when there is none.
   */
  function Decode(argv: seq<string>, optind: nat): (d: Decoded)
    ensures d.optInd == 0 <==> forall k :: optind <= k < |argv| ==> CommandOf(argv[k]).None?
    ensures d.optInd == 0 ==> d.operation == Ls
    ensures d.optInd != 0 ==>
              && optind < d.optInd <= |argv|
              && CommandOf(argv[d.optInd - 1]) == Some(d.operation)
              && forall k :: optind <= k < d.optInd - 1 ==> CommandOf(argv[k]).None?
  {
    match FirstCommand(argv, optind)
    case None => Decoded(Ls, 0)
    case Some(k) => Decoded(CommandOf(argv[k]).value, k + 1)
  }

  /** The positional loop of `decode_arguments`, from the index `getopt` stopped at. */
  method DecodePositionals(argv: seq<string>, optind: nat) returns (operation: Operation, optInd: nat)
    ensures Decoded(operation, optInd) == Decode(argv, optind)
  {
    var op: Option<Operation> := None;
    optInd := 0;
    var i := optind;
    while i < |argv|
      invariant optind <= i
      invariant op.None? && optInd == 0
      invariant FirstCommand(argv, optind) == FirstCommand(argv, i)
      decreases |argv| - i
    {
      if argv[i] == "dump" {
        op := Some(Dump);
        optInd := i + 1;
        break;
      } else if argv[i] == "ls" || argv[i] == "list" {
        op := Some(Ls);
        optInd := i + 1;
        break;
      }
      i := i + 1;
    }
    if op.None? {
      op := Some(Ls);
    }
    operation := op.value;
  }

  /** Examples: `ls` with a level and name, a bare `dump`, and no sub-command at all. */
  lemma DecodeExamples()
    ensures Decode(["group_tool", "ls", "0", "default"], 1) == Decoded(Ls, 2)
    ensures Decode(["group_tool", "dump"], 1) == Decoded(Dump, 2)
    ensures Decode(["group_tool", "0", "list", "dump"], 1) == Decoded(Ls, 3)
    ensures Decode(["group_tool", "0", "default"], 1) == Decoded(Ls, 0)
  {
  }
}
