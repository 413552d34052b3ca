/** The tc command runner of pkg/tc (runner.go) and the two operations
    built on it: attaching mirror filters (filter.go) and adding or
    removing the clsact qdisc (qdisc.go).

    Executing tc is outside the model: the environment decides the outcome
    of each invocation, as a function of its position in the run and its
    arguments, and the runner records every argument list it was asked to
    execute. */
module TcRunner {
  import opened Wrappers
  import opened GoText
  import opened SeqFacts
  import FilterBuilder
  import Config

  /** What one tc invocation yields: its output, its error output, and
      an error message when it failed. */
  datatype RunResult = RunResult(stdout: string, stderr: string, err: Option<string>)

  class Runner {
    /** The outcome of the n-th invocation with the given arguments. */
    const outcome: (nat, seq<string>) -> RunResult
    /** Every argument list executed so far, in order. */
    var issued: seq<seq<string>>

    constructor (outcome: (nat, seq<string>) -> RunResult)
      ensures this.outcome == outcome && issued == []
    {
      this.outcome := outcome;
      issued := [];
    }

    /** Run: execute `tc <args>` once. */
    method Run(args: seq<string>) returns (res: RunResult)
      modifies this
      ensures issued == old(issued) + [args]
      ensures res == outcome(|old(issued)|, args)
    {
      res := outcome(|issued|, args);
      issued := issued + [args];
    }

    /** AddMirrorFilter: one filter per hook of the direction, each built
        with or without the rewrite actions; an unknown direction is an
        error before anything runs. */
    method AddMirrorFilter(iface: string, direction: string, target: string, f: FilterBuilder.Filter,
                           rewrite: Option<Config.RewriteOptions>) returns (err: Option<string>)
      modifies this
      ensures Hooks(direction).None? ==>
                issued == old(issued) && err == Some("invalid direction '" + direction + "'")
      ensures Hooks(direction).Some? ==>
                var hooks := Hooks(direction).value;
                RanUntilFailure(old(issued), issued, iface, hooks, Commands(iface, hooks, target, f, rewrite), err)
    {
      var hooks := Hooks(direction);
      if hooks.None? {
        return Some("invalid direction '" + direction + "'");
      }
      err := RunHooks(iface, hooks.value, Commands(iface, hooks.value, target, f, rewrite));
    }

    /** The loop of AddMirrorFilter: run the command of each hook in
        order and stop at the first failure, leaving the filters already
        added in place. */
    method RunHooks(iface: string, hooks: seq<string>, cmds: seq<seq<string>>) returns (err: Option<string>)
      requires |cmds| == |hooks|
      modifies this
      ensures RanUntilFailure(old(issued), issued, iface, hooks, cmds, err)
    {
      ghost var base := |issued|;
      var i := 0;
      while i < |hooks|
        invariant 0 <= i <= |hooks|
        invariant issued == old(issued) + cmds[..i]
        invariant forall j :: 0 <= j < i ==> outcome(base + j, cmds[j]).err.None?
      {
        AppendNext(old(issued), cmds, i);
        var res := Run(cmds[i]);
        if res.err.Some? {
          err := Some(AddFailure(iface, hooks[i], res));
          return;
        }
        i := i + 1;
      }
      assert cmds[..i] == cmds;
      return None;
    }

    /** What running the commands of the hooks leaves behind: the first n
        commands were issued, all but possibly the last succeeded, and
        either all of them ran and the last succeeded too, or the last
        one failed and its error is reported with its hook. */
    predicate RanUntilFailure(before: seq<seq<string>>, after: seq<seq<string>>, iface: string,
                              hooks: seq<string>, cmds: seq<seq<string>>, err: Option<string>)
      requires |cmds| == |hooks|
    {
      var base := |before|;
      var n := |after| - base;
      && 0 <= n <= |cmds|
      && after == before + cmds[..n]
      && (forall i :: 0 <= i < n - 1 ==> outcome(base + i, cmds[i]).err.None?)
      && (err.None? <==> n == |cmds| && (n == 0 || outcome(base + n - 1, cmds[n - 1]).err.None?))
      && (err.Some? ==>
            && n >= 1
            && var res := outcome(base + n - 1, cmds[n - 1]);
               res.err.Some? && err == Some(AddFailure(iface, hooks[n - 1], res)))
    }

    /** The hooks all got their filter exactly when every command
        succeeded; otherwise the first failing command is the last one
        issued. */
    lemma SucceedsIffAllRan(before: seq<seq<string>>, after: seq<seq<string>>, iface: string,
                            hooks: seq<string>, cmds: seq<seq<string>>, err: Option<string>)
      requires |cmds| == |hooks|
      requires RanUntilFailure(before, after, iface, hooks, cmds, err)
      ensures err.None? <==> forall i :: 0 <= i < |cmds| ==> outcome(|before| + i, cmds[i]).err.None?
      ensures err.Some? ==> |after| > |before| && outcome(|after| - 1, after[|after| - 1]).err.Some?
    {
      var n := |after| - |before|;
      if err.Some? {
        assert after[|after| - 1] == cmds[n - 1];
        if n == |cmds| {
          assert !outcome(|before| + n - 1, cmds[n - 1]).err.None?;
        }
      }
    }

    /** EnsureClsactQdisc: `tc qdisc add dev <iface> clsact`; a qdisc that
        is already there is not an error. */
    method EnsureClsactQdisc(iface: string) returns (err: Option<string>)
      modifies this
      ensures issued == old(issued) + [QdiscArgs("add", iface)]
      ensures var res := outcome(|old(issued)|, QdiscArgs("add", iface));
              && (err.None? <==> res.err.None? || AlreadyPresent(res.stderr))
              && (err.Some? ==> err == Some(QdiscFailure("failed to add clsact qdisc to ", iface, res)))
    {
      var res := Run(QdiscArgs("add", iface));
      if res.err.Some? {
        if Contains(res.stderr, "File exists") {
          return None;
        }
        return Some(QdiscFailure("failed to add clsact qdisc to ", iface, res));
      }
      return None;
    }

    /** DeleteClsactQdisc: `tc qdisc del dev <iface> clsact`; a device or
        qdisc that is already gone is not an error. */
    method DeleteClsactQdisc(iface: string) returns (err: Option<string>)
      modifies this
      ensures issued == old(issued) + [QdiscArgs("del", iface)]
      ensures var res := outcome(|old(issued)|, QdiscArgs("del", iface));
              && (err.None? <==> res.err.None? || AlreadyGone(res.stderr))
              && (err.Some? ==> err == Some(QdiscFailure("failed to delete clsact qdisc from ", iface, res)))
    {
      var res := Run(QdiscArgs("del", iface));
      if res.err.Some? {
        if Contains(res.stderr, "Cannot find device")
           || Contains(res.stderr, NoSuchFile)
           || Contains(res.stderr, "Invalid handle")
           || Contains(res.stderr, RtnetlinkNoSuchFile)
        {
          return None;
        }
        return Some(QdiscFailure("failed to delete clsact qdisc from ", iface, res));
      }
      return None;
    }
  }

  // ---------------------------------------------------------------------
  // Mirror filters

  /** The hooks a direction attaches to, in order; None for a direction
      that is not one of ingress, egress and both. */
  function Hooks(direction: string): (hooks: Option<seq<string>>)
    ensures hooks.Some? <==> direction in {"ingress", "egress", "both"}
    ensures hooks.Some? ==> 1 <= |hooks.value| <= 2
    ensures hooks.Some? ==> forall k :: 0 <= k < |hooks.value| ==> hooks.value[k] in ["ingress", "egress"]
    ensures hooks.Some? && direction != "both" ==> hooks.value == [direction]
    ensures direction == "both" ==> hooks.value[0] == "ingress" && hooks.value[|hooks.value| - 1] == "egress"
  {
    match direction
    case "ingress" => Some(["ingress"])
    case "egress" => Some(["egress"])
    case "both" => Some(["ingress", "egress"])
    case _ => None
  }

  /** The tc arguments for one hook: the plain builder without a rewrite,
      the rewriting builder with the rewrite's four fields otherwise. */
  function FilterArgs(iface: string, hook: string, target: string, f: FilterBuilder.Filter,
                      rewrite: Option<Config.RewriteOptions>): seq<string>
  {
    match rewrite
    case None => FilterBuilder.BuildTCArgs(iface, hook, target, f)
    case Some(rw) => FilterBuilder.BuildTCArgsWithRewrite(iface, hook, target, f, Some(Config.ToFilterRewrite(rw)))
  }

  /** One command per hook, in hook order. */
  function Commands(iface: string, hooks: seq<string>, target: string, f: FilterBuilder.Filter,
                    rewrite: Option<Config.RewriteOptions>): (cmds: seq<seq<string>>)
    ensures |cmds| == |hooks|
  {
    seq(|hooks|, k requires 0 <= k < |hooks| => FilterArgs(iface, hooks[k], target, f, rewrite))
  }

  function AddFailure(iface: string, hook: string, res: RunResult): string
    requires res.err.Some?
  {
    "failed to add mirror filter to " + iface + " (" + hook + "): " + res.err.value + ", stderr: " + res.stderr
  }

  // ---------------------------------------------------------------------
  // The clsact qdisc

  function QdiscArgs(verb: string, iface: string): seq<string>
  {
    ["qdisc", verb, "dev", iface, "clsact"]
  }

  function QdiscFailure(prefix: string, iface: string, res: RunResult): string
    requires res.err.Some?
  {
    prefix + iface + ": " + res.err.value + ", stderr: " + res.stderr
  }

  /** The error output of an add that found the qdisc already attached. */
  predicate AlreadyPresent(stderr: string)
  {
    Contains(stderr, "File exists")
  }

  const NoSuchFile := "No such file or directory"
  const RtnetlinkNoSuchFile := "RTNETLINK answers: " + NoSuchFile

  /** The error output of a delete whose device or qdisc is already gone. */
  predicate AlreadyGone(stderr: string)
  {
    || Contains(stderr, "Cannot find device")
    || Contains(stderr, NoSuchFile)
    || Contains(stderr, "Invalid handle")
    || Contains(stderr, RtnetlinkNoSuchFile)
  }

  /** The RTNETLINK message is itself a "No such file or directory"
      message, so its test never decides anything. */
  lemma GoneWithoutRtnetlink(stderr: string)
    ensures AlreadyGone(stderr)
            <==> || Contains(stderr, "Cannot find device")
                 || Contains(stderr, NoSuchFile)
                 || Contains(stderr, "Invalid handle")
  {
    if Contains(stderr, RtnetlinkNoSuchFile) {
      ContainsSuffix(stderr, "RTNETLINK answers: ", NoSuchFile);
    }
  }

  /** Every command AddMirrorFilter issues is a well-formed tc flower
      command for the interface and its hook, matching the filter and
      carrying the compiled action chain that ends in the mirror. */
  lemma CommandsDecode(iface: string, hooks: seq<string>, target: string, f: FilterBuilder.Filter,
                       rewrite: Option<Config.RewriteOptions>, k: nat)
    requires FilterBuilder.PortsInRange(f) && k < |hooks|
    ensures FilterBuilder.Decode(Commands(iface, hooks, target, f, rewrite)[k])
            == Some(FilterBuilder.Command(iface, hooks[k], f,
                      FilterBuilder.CompiledChain(f, match rewrite
                                                     case None => None
                                                     case Some(rw) => Some(Config.ToFilterRewrite(rw)), target)))
  {
    match rewrite
    case None =>
      FilterBuilder.BuildRoundTrip(iface, hooks[k], target, f);
      assert FilterBuilder.CompiledChain(f, None, target)
             == [FilterBuilder.ChainStep(FilterBuilder.Mirred(target), FilterBuilder.Continue)];
    case Some(rw) =>
      FilterBuilder.BuildWithRewriteRoundTrip(iface, hooks[k], target, f, Some(Config.ToFilterRewrite(rw)));
  }
}
