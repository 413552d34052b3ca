/** The rule compiler of pkg/filter/builder.go: a match, a hook, a target
    device and an optional rewrite become the argument list of one
    `tc filter add` command.

    Beside the compiler stands its inverse, `Decode`, which reads such an
    argument list back into the interface, hook, match and action chain
    it encodes. The round-trip lemmas show that the compiled tokens are
    unambiguous and that they encode exactly the intended chain. */
module FilterBuilder {
  import opened Wrappers
  import opened GoText
  import opened SeqFacts

  /** filter.Filter: "" and 0 mean "not set". */
  datatype Filter = Filter(ipProto: string, srcIP: string, dstIP: string, srcPort: int, dstPort: int)

  const NoMatch := Filter("", "", "", 0, 0)

  /** filter.RewriteOptions: "" means "not set". */
  datatype RewriteOptions = RewriteOptions(dstMAC: string, srcMAC: string, dstIP: string, srcIP: string)
  {
    predicate HasMAC() { dstMAC != "" || srcMAC != "" }
    predicate HasIP() { dstIP != "" || srcIP != "" }
    predicate IsEmpty() { !HasMAC() && !HasIP() }
  }

  /** Go's int is 64 bits wide. */
  predicate PortsInRange(f: Filter)
  {
    Int64Min <= f.srcPort <= Int64Max && Int64Min <= f.dstPort <= Int64Max
  }

  // ---------------------------------------------------------------------
  // The compiler

  /** The arguments appended when a condition holds. */
  function When(cond: bool, args: seq<string>): seq<string>
  {
    if cond then args else []
  }

  function HeaderArgs(iface: string, hook: string): seq<string>
  {
    ["filter", "add", "dev", iface, hook, "protocol", "ip", "flower"]
  }

  /** The flower match: one key/value pair per field that is set, in the
      fixed order src_ip, dst_ip, ip_proto, src_port, dst_port. */
  function MatchArgs(f: Filter): (r: seq<string>)
    ensures |r| % 2 == 0
  {
    When(f.srcIP != "", ["src_ip", f.srcIP])
    + When(f.dstIP != "", ["dst_ip", f.dstIP])
    + When(f.ipProto != "", ["ip_proto", f.ipProto])
    + When(f.srcPort != 0, ["src_port", Itoa(f.srcPort)])
    + When(f.dstPort != 0, ["dst_port", Itoa(f.dstPort)])
  }

  /** The terminal action every compiled command ends with. */
  function MirrorArgs(target: string): seq<string>
  {
    ["action", "mirred", "egress", "mirror", "dev", target, "continue"]
  }

  /** BuildTCArgs: a mirror without rewrite. */
  function BuildTCArgs(iface: string, hook: string, target: string, f: Filter): (r: seq<string>)
    ensures |r| >= 15 && r[..8] == HeaderArgs(iface, hook)
    ensures r[|r| - 7..] == MirrorArgs(target)
  {
    HeaderArgs(iface, hook) + MatchArgs(f) + MirrorArgs(target)
  }

  /** The checksum targets after an IP rewrite, joined by " and " into a
      single argument. */
  function CsumTargets(ipProto: string): string
  {
    var checksums := ["ip"] + (if ipProto == "tcp" then ["tcp"]
                               else if ipProto == "udp" then ["udp"]
                               else if ipProto == "icmp" then ["icmp"]
                               else []);
    Join(checksums, " and ")
  }

  function SkbmodArgs(rw: RewriteOptions): seq<string>
  {
    if rw.HasMAC() then
      ["action", "skbmod"]
      + When(rw.dstMAC != "", ["set", "dmac", rw.dstMAC])
      + When(rw.srcMAC != "", ["set", "smac", rw.srcMAC])
      + ["pipe"]
    else []
  }

  /** pedit with its munges, then csum. No chain verb follows the csum
      argument. */
  function PeditArgs(rw: RewriteOptions, ipProto: string): seq<string>
  {
    if rw.HasIP() then
      ["action", "pedit", "ex"]
      + When(rw.dstIP != "", ["munge", "ip", "dst", "set", rw.dstIP])
      + When(rw.srcIP != "", ["munge", "ip", "src", "set", rw.srcIP])
      + ["pipe", "action", "csum", CsumTargets(ipProto)]
    else []
  }

  function RewriteArgs(f: Filter, rewrite: Option<RewriteOptions>): seq<string>
  {
    match rewrite
    case Some(rw) => if rw.IsEmpty() then [] else SkbmodArgs(rw) + PeditArgs(rw, f.ipProto)
    case None => []
  }

  /** BuildTCArgsWithRewrite: rewrite actions, if any, between the match and
      the terminal mirror. */
  function BuildTCArgsWithRewrite(iface: string, hook: string, target: string, f: Filter,
                                  rewrite: Option<RewriteOptions>): (r: seq<string>)
    ensures |r| >= 15 && r[..8] == HeaderArgs(iface, hook)
    ensures r[|r| - 7..] == MirrorArgs(target)
  {
    HeaderArgs(iface, hook) + MatchArgs(f) + RewriteArgs(f, rewrite) + MirrorArgs(target)
  }

  /** ValidateRewriteOptions: an error exactly for a present rewrite with no
      field set. */
  function ValidateRewriteOptions(rewrite: Option<RewriteOptions>): (err: Option<string>)
    ensures err.Some? <==> rewrite.Some? && rewrite.value.IsEmpty()
  {
    match rewrite
    case None => None
    case Some(rw) =>
      if rw.dstMAC == "" && rw.srcMAC == "" && rw.dstIP == "" && rw.srcIP == ""
      then Some("at least one rewrite option must be specified")
      else None
  }

  // ---------------------------------------------------------------------
  // The action chain a command encodes, and the decoder

  /** The chain verb written after an action's parameters. */
  datatype Verb = Pipe | Continue | NoVerb

  datatype TcAction =
    | Skbmod(dmac: string, smac: string)
    | Pedit(dstIP: string, srcIP: string)
    | Csum(targets: string)
    | Mirred(dev: string)

  datatype ChainStep = ChainStep(action: TcAction, verb: Verb)

  datatype Command = Command(iface: string, hook: string, filter: Filter, chain: seq<ChainStep>)

  /** The chain a rule compiles to: skbmod when a MAC is rewritten, pedit
      and csum when an IP is rewritten, and always the mirror last. */
  function CompiledChain(f: Filter, rewrite: Option<RewriteOptions>, target: string): (chain: seq<ChainStep>)
    ensures |chain| >= 1 && chain[|chain| - 1] == ChainStep(Mirred(target), Continue)
    ensures forall k :: 0 <= k < |chain| - 1 ==> !chain[k].action.Mirred?
  {
    var rw := rewrite.GetOr(RewriteOptions("", "", "", ""));
    (if rw.HasMAC() then [ChainStep(Skbmod(rw.dstMAC, rw.srcMAC), Pipe)] else [])
    + (if rw.HasIP() then [ChainStep(Pedit(rw.dstIP, rw.srcIP), Pipe), ChainStep(Csum(CsumTargets(f.ipProto)), NoVerb)]
       else [])
    + [ChainStep(Mirred(target), Continue)]
  }

  predicate IsMatchKey(k: string)
  {
    k == "src_ip" || k == "dst_ip" || k == "ip_proto" || k == "src_port" || k == "dst_port"
  }

  /** A match key's place in the order the compiler writes the keys in. */
  function MatchRank(k: string): nat
  {
    if k == "src_ip" then 0
    else if k == "dst_ip" then 1
    else if k == "ip_proto" then 2
    else if k == "src_port" then 3
    else 4
  }

  function SetMatchField(acc: Filter, key: string, value: string): Option<Filter>
  {
    if key == "src_ip" then Some(acc.(srcIP := value))
    else if key == "dst_ip" then Some(acc.(dstIP := value))
    else if key == "ip_proto" then Some(acc.(ipProto := value))
    else
      match ParseInt(value)
      case None => None
      case Some(n) => if key == "src_port" then Some(acc.(srcPort := n)) else Some(acc.(dstPort := n))
  }

  /** Reads key/value pairs while the next argument is a match key. A key
      must rank above every key read before it (floor is one above the
      last rank read), so only the compiler's order is accepted. */
  function DecodeMatch(args: seq<string>, acc: Filter, floor: nat): Option<(Filter, seq<string>)>
  {
    if |args| >= 2 && IsMatchKey(args[0]) then
      if MatchRank(args[0]) < floor then None
      else
        match SetMatchField(acc, args[0], args[1])
        case None => None
        case Some(acc') => DecodeMatch(args[2..], acc', MatchRank(args[0]) + 1)
    else Some((acc, args))
  }

  function DecodeVerb(args: seq<string>): (Verb, seq<string>)
  {
    if |args| > 0 && args[0] == "pipe" then (Pipe, args[1..])
    else if |args| > 0 && args[0] == "continue" then (Continue, args[1..])
    else (NoVerb, args)
  }

  /** The "set" parameters of skbmod: at most one dmac, then at most one
      smac. floor counts the kinds already passed (dmac 0, smac 1). */
  function DecodeSkbmodSets(args: seq<string>, dmac: string, smac: string, floor: nat)
    : (r: Option<(string, string, seq<string>)>)
    ensures r.Some? ==> |r.value.2| <= |args|
  {
    if |args| >= 3 && args[0] == "set" then
      if args[1] == "dmac" && floor == 0 then DecodeSkbmodSets(args[3..], args[2], smac, 1)
      else if args[1] == "smac" && floor <= 1 then DecodeSkbmodSets(args[3..], dmac, args[2], 2)
      else None
    else Some((dmac, smac, args))
  }

  /** The "munge ip" parameters of pedit: at most one dst, then at most one
      src. floor counts the kinds already passed (dst 0, src 1). */
  function DecodeMunges(args: seq<string>, dst: string, src: string, floor: nat)
    : (r: Option<(string, string, seq<string>)>)
    ensures r.Some? ==> |r.value.2| <= |args|
  {
    if |args| >= 5 && args[0] == "munge" then
      if args[1..3] == ["ip", "dst"] && args[3] == "set" && floor == 0 then DecodeMunges(args[5..], args[4], src, 1)
      else if args[1..3] == ["ip", "src"] && args[3] == "set" && floor <= 1 then DecodeMunges(args[5..], dst, args[4], 2)
      else None
    else Some((dst, src, args))
  }

  /** One action: its kind and parameters, without the verb. */
  function DecodeAction(args: seq<string>): (r: Option<(TcAction, seq<string>)>)
    ensures r.Some? ==> |r.value.1| < |args|
  {
    if |args| == 0 then None
    else if args[0] == "skbmod" then
      match DecodeSkbmodSets(args[1..], "", "", 0)
      case None => None
      case Some((d, s, rest)) => Some((Skbmod(d, s), rest))
    else if args[0] == "pedit" && |args| >= 2 && args[1] == "ex" then
      match DecodeMunges(args[2..], "", "", 0)
      case None => None
      case Some((d, s, rest)) => Some((Pedit(d, s), rest))
    else if args[0] == "csum" && |args| >= 2 then
      Some((Csum(args[1]), args[2..]))
    else if args[0] == "mirred" && |args| >= 5 && args[1..4] == ["egress", "mirror", "dev"] then
      Some((Mirred(args[4]), args[5..]))
    else None
  }

  function DecodeChain(args: seq<string>): Option<seq<ChainStep>>
    decreases |args|
  {
    if args == [] then Some([])
    else if args[0] == "action" then
      match DecodeAction(args[1..])
      case None => None
      case Some((a, rest)) =>
        var (verb, rest') := DecodeVerb(rest);
        match DecodeChain(rest')
        case None => None
        case Some(steps) => Some([ChainStep(a, verb)] + steps)
    else None
  }

  /** Reads a `tc filter add` argument list back. */
  function Decode(args: seq<string>): Option<Command>
  {
    if |args| >= 8 && args[..3] == ["filter", "add", "dev"] && args[5..8] == ["protocol", "ip", "flower"] then
      match DecodeMatch(args[8..], NoMatch, 0)
      case None => None
      case Some((f, rest)) =>
        match DecodeChain(rest)
        case None => None
        case Some(chain) => Some(Command(args[3], args[4], f, chain))
    else None
  }

  // ---------------------------------------------------------------------
  // Round trips

  lemma DecodeMatchPair(cond: bool, key: string, value: string, rest: seq<string>, acc: Filter, acc': Filter,
                         floor: nat)
    requires cond ==> IsMatchKey(key) && floor <= MatchRank(key) && SetMatchField(acc, key, value) == Some(acc')
    ensures DecodeMatch(When(cond, [key, value]) + rest, acc, floor)
            == if cond then DecodeMatch(rest, acc', MatchRank(key) + 1) else DecodeMatch(rest, acc, floor)
  {
    if cond {
      assert ([key, value] + rest)[2..] == rest;
    } else {
      assert When(cond, [key, value]) + rest == rest;
    }
  }

  lemma SetPortField(acc: Filter, key: string, port: int)
    requires key == "src_port" || key == "dst_port"
    requires Int64Min <= port <= Int64Max
    ensures SetMatchField(acc, key, Itoa(port))
            == Some(if key == "src_port" then acc.(srcPort := port) else acc.(dstPort := port))
  {
    ParseIntItoa(port);
  }

  lemma MatchArgsSplit(f: Filter, rest: seq<string>)
    ensures MatchArgs(f) + rest
            == When(f.srcIP != "", ["src_ip", f.srcIP])
               + (When(f.dstIP != "", ["dst_ip", f.dstIP])
               + (When(f.ipProto != "", ["ip_proto", f.ipProto])
               + (When(f.srcPort != 0, ["src_port", Itoa(f.srcPort)])
               + (When(f.dstPort != 0, ["dst_port", Itoa(f.dstPort)]) + rest))))
  {
    Nest6(When(f.srcIP != "", ["src_ip", f.srcIP]), When(f.dstIP != "", ["dst_ip", f.dstIP]),
          When(f.ipProto != "", ["ip_proto", f.ipProto]), When(f.srcPort != 0, ["src_port", Itoa(f.srcPort)]),
          When(f.dstPort != 0, ["dst_port", Itoa(f.dstPort)]), rest);
  }


  /** The two port pairs decode onto a filter whose other fields are set. */
  lemma DecodePortArgs(f: Filter, rest: seq<string>, floor: nat)
    requires PortsInRange(f) && floor <= 3
    requires rest == [] || !IsMatchKey(rest[0])
    ensures DecodeMatch(When(f.srcPort != 0, ["src_port", Itoa(f.srcPort)])
                        + (When(f.dstPort != 0, ["dst_port", Itoa(f.dstPort)]) + rest),
                        f.(srcPort := 0, dstPort := 0), floor)
            == Some((f, rest))
  {
    var f4 := f.(dstPort := 0);
    var fl4: nat := if f.srcPort != 0 then 4 else floor;
    var fl5: nat := if f.dstPort != 0 then 5 else fl4;
    assert DecodeMatch(rest, f, fl5) == Some((f, rest));
    SetPortField(f4, "dst_port", f.dstPort);
    DecodeMatchPair(f.dstPort != 0, "dst_port", Itoa(f.dstPort), rest, f4, f, fl4);
    SetPortField(f.(srcPort := 0, dstPort := 0), "src_port", f.srcPort);
    DecodeMatchPair(f.srcPort != 0, "src_port", Itoa(f.srcPort),
                    When(f.dstPort != 0, ["dst_port", Itoa(f.dstPort)]) + rest,
                    f.(srcPort := 0, dstPort := 0), f4, floor);
  }

  /** The match arguments decode to the filter they came from. */
  lemma DecodeMatchArgs(f: Filter, rest: seq<string>)
    requires PortsInRange(f)
    requires rest == [] || !IsMatchKey(rest[0])
    ensures DecodeMatch(MatchArgs(f) + rest, NoMatch, 0) == Some((f, rest))
  {
    var r3 := When(f.srcPort != 0, ["src_port", Itoa(f.srcPort)])
              + (When(f.dstPort != 0, ["dst_port", Itoa(f.dstPort)]) + rest);
    var r2 := When(f.ipProto != "", ["ip_proto", f.ipProto]) + r3;
    var r1 := When(f.dstIP != "", ["dst_ip", f.dstIP]) + r2;
    var f1 := NoMatch.(srcIP := f.srcIP);
    var f2 := f1.(dstIP := f.dstIP);
    var f3 := f2.(ipProto := f.ipProto);
    var fl1: nat := if f.srcIP != "" then 1 else 0;
    var fl2: nat := if f.dstIP != "" then 2 else fl1;
    var fl3: nat := if f.ipProto != "" then 3 else fl2;
    MatchArgsSplit(f, rest);
    DecodePortArgs(f, rest, fl3);
    assert f3 == f.(srcPort := 0, dstPort := 0);
    DecodeMatchPair(f.ipProto != "", "ip_proto", f.ipProto, r3, f2, f3, fl2);
    DecodeMatchPair(f.dstIP != "", "dst_ip", f.dstIP, r2, f1, f2, fl1);
    DecodeMatchPair(f.srcIP != "", "src_ip", f.srcIP, r1, NoMatch, f1, 0);
  }

  const NoArgs: seq<string> := []

  lemma DecodeMirror(target: string)
    ensures DecodeChain(MirrorArgs(target)) == Some([ChainStep(Mirred(target), Continue)])
  {
    var args := MirrorArgs(target);
    assert args[1..][1..4] == ["egress", "mirror", "dev"];
    assert DecodeAction(args[1..]) == Some((Mirred(target), ["continue"]));
    var c := ["continue"];
    assert c[0] == "continue";
    assert c[0] != "pipe";
    assert c[1..] == NoArgs;
    assert DecodeVerb(c) == (Continue, NoArgs);
    assert DecodeChain(NoArgs) == Some([]);
    assert args[0] == "action";
    var one := [ChainStep(Mirred(target), Continue)];
    assert one + [] == one;
  }

  lemma DecodeSet(cond: bool, field: string, value: string, rest: seq<string>, dmac: string, smac: string,
                  floor: nat)
    requires field == "dmac" || field == "smac"
    requires cond ==> if field == "dmac" then floor == 0 else floor <= 1
    ensures DecodeSkbmodSets(When(cond, ["set", field, value]) + rest, dmac, smac, floor)
            == if !cond then DecodeSkbmodSets(rest, dmac, smac, floor)
               else if field == "dmac" then DecodeSkbmodSets(rest, value, smac, 1)
               else DecodeSkbmodSets(rest, dmac, value, 2)
  {
    if cond {
      assert (["set", field, value] + rest)[3..] == rest;
    } else {
      assert When(cond, ["set", field, value]) + rest == rest;
    }
  }

  lemma SkbmodSplit(rw: RewriteOptions, rest: seq<string>)
    requires rw.HasMAC()
    ensures SkbmodArgs(rw) + rest
            == ["action"] + (["skbmod"] + (When(rw.dstMAC != "", ["set", "dmac", rw.dstMAC])
               + (When(rw.srcMAC != "", ["set", "smac", rw.srcMAC]) + (["pipe"] + rest))))
  {
    var sd := When(rw.dstMAC != "", ["set", "dmac", rw.dstMAC]);
    var ss := When(rw.srcMAC != "", ["set", "smac", rw.srcMAC]);
    Nest5(["action", "skbmod"], sd, ss, ["pipe"], rest);
    Regroup(["action"], ["skbmod"], sd + (ss + (["pipe"] + rest)));
  }


  lemma DecodeSkbmod(rw: RewriteOptions, rest: seq<string>, steps: seq<ChainStep>)
    requires rw.HasMAC() && |rest| > 0 && rest[0] == "action"
    requires DecodeChain(rest) == Some(steps)
    ensures DecodeChain(SkbmodArgs(rw) + rest) == Some([ChainStep(Skbmod(rw.dstMAC, rw.srcMAC), Pipe)] + steps)
  {
    var sd := When(rw.dstMAC != "", ["set", "dmac", rw.dstMAC]);
    var ss := When(rw.srcMAC != "", ["set", "smac", rw.srcMAC]);
    var piped := ["pipe"] + rest;
    var params := sd + (ss + piped);
    var args := SkbmodArgs(rw) + rest;
    SkbmodSplit(rw, rest);
    assert args[1..] == ["skbmod"] + params;
    assert args[1..][1..] == params;
    var fl: nat := if rw.dstMAC != "" then 1 else 0;
    var fl': nat := if rw.srcMAC != "" then 2 else fl;
    assert DecodeSkbmodSets(piped, rw.dstMAC, rw.srcMAC, fl') == Some((rw.dstMAC, rw.srcMAC, piped));
    DecodeSet(rw.srcMAC != "", "smac", rw.srcMAC, piped, rw.dstMAC, "", fl);
    DecodeSet(rw.dstMAC != "", "dmac", rw.dstMAC, ss + piped, "", "", 0);
    assert DecodeAction(args[1..]) == Some((Skbmod(rw.dstMAC, rw.srcMAC), piped));
    assert piped[1..] == rest;
    DecodeChainStep(args, Skbmod(rw.dstMAC, rw.srcMAC), piped, Pipe, rest, steps);
  }

  lemma DecodeMunge(cond: bool, dir: string, value: string, rest: seq<string>, dst: string, src: string,
                    floor: nat)
    requires dir == "dst" || dir == "src"
    requires cond ==> if dir == "dst" then floor == 0 else floor <= 1
    ensures DecodeMunges(When(cond, ["munge", "ip", dir, "set", value]) + rest, dst, src, floor)
            == if !cond then DecodeMunges(rest, dst, src, floor)
               else if dir == "dst" then DecodeMunges(rest, value, src, 1)
               else DecodeMunges(rest, dst, value, 2)
  {
    if cond {
      var args := ["munge", "ip", dir, "set", value] + rest;
      assert args[5..] == rest;
      assert args[1..3] == ["ip", dir];
    } else {
      assert When(cond, ["munge", "ip", dir, "set", value]) + rest == rest;
    }
  }

  lemma PeditSplit(rw: RewriteOptions, ipProto: string, rest: seq<string>)
    requires rw.HasIP()
    ensures PeditArgs(rw, ipProto) + rest
            == ["action"] + (["pedit", "ex"] + (When(rw.dstIP != "", ["munge", "ip", "dst", "set", rw.dstIP])
               + (When(rw.srcIP != "", ["munge", "ip", "src", "set", rw.srcIP])
               + (["pipe"] + (["action", "csum", CsumTargets(ipProto)] + rest)))))
  {
    var md := When(rw.dstIP != "", ["munge", "ip", "dst", "set", rw.dstIP]);
    var ms := When(rw.srcIP != "", ["munge", "ip", "src", "set", rw.srcIP]);
    var csum := ["action", "csum", CsumTargets(ipProto)];
    Nest5(["action", "pedit", "ex"], md, ms, ["pipe"] + csum, rest);
    Regroup(["pipe"], csum, rest);
    Regroup(["action"], ["pedit", "ex"], md + (ms + (["pipe"] + (csum + rest))));
  }


  /** One step of DecodeChain, stated once so that callers need not unfold it. */
  lemma DecodeChainStep(args: seq<string>, a: TcAction, rest: seq<string>, verb: Verb, rest': seq<string>,
                        steps: seq<ChainStep>)
    requires |args| > 0 && args[0] == "action"
    requires DecodeAction(args[1..]) == Some((a, rest))
    requires DecodeVerb(rest) == (verb, rest')
    requires DecodeChain(rest') == Some(steps)
    ensures DecodeChain(args) == Some([ChainStep(a, verb)] + steps)
  {
  }

  lemma DecodeCsum(targets: string, rest: seq<string>, steps: seq<ChainStep>)
    requires |rest| > 0 && rest[0] == "action"
    requires DecodeChain(rest) == Some(steps)
    ensures DecodeChain(["action", "csum", targets] + rest) == Some([ChainStep(Csum(targets), NoVerb)] + steps)
  {
    var args := ["action", "csum", targets] + rest;
    assert args[1..][2..] == rest;
    assert DecodeAction(args[1..]) == Some((Csum(targets), rest));
    assert DecodeVerb(rest) == (NoVerb, rest);
    DecodeChainStep(args, Csum(targets), rest, NoVerb, rest, steps);
  }

  lemma DecodePeditAction(rw: RewriteOptions, ipProto: string, rest: seq<string>)
    requires rw.HasIP()
    ensures var csum := ["action", "csum", CsumTargets(ipProto)] + rest;
            (PeditArgs(rw, ipProto) + rest)[0] == "action"
            && DecodeAction((PeditArgs(rw, ipProto) + rest)[1..]) == Some((Pedit(rw.dstIP, rw.srcIP), ["pipe"] + csum))
  {
    var md := When(rw.dstIP != "", ["munge", "ip", "dst", "set", rw.dstIP]);
    var ms := When(rw.srcIP != "", ["munge", "ip", "src", "set", rw.srcIP]);
    var csum := ["action", "csum", CsumTargets(ipProto)] + rest;
    var piped := ["pipe"] + csum;
    var params := md + (ms + piped);
    var args := PeditArgs(rw, ipProto) + rest;
    PeditSplit(rw, ipProto, rest);
    assert args[1..] == ["pedit", "ex"] + params;
    assert args[1..][2..] == params;
    var fl: nat := if rw.dstIP != "" then 1 else 0;
    var fl': nat := if rw.srcIP != "" then 2 else fl;
    assert DecodeMunges(piped, rw.dstIP, rw.srcIP, fl') == Some((rw.dstIP, rw.srcIP, piped));
    DecodeMunge(rw.srcIP != "", "src", rw.srcIP, piped, rw.dstIP, "", fl);
    DecodeMunge(rw.dstIP != "", "dst", rw.dstIP, ms + piped, "", "", 0);
  }

  lemma DecodePedit(rw: RewriteOptions, ipProto: string, rest: seq<string>, steps: seq<ChainStep>)
    requires rw.HasIP() && |rest| > 0 && rest[0] == "action"
    requires DecodeChain(rest) == Some(steps)
    ensures DecodeChain(PeditArgs(rw, ipProto) + rest)
            == Some([ChainStep(Pedit(rw.dstIP, rw.srcIP), Pipe), ChainStep(Csum(CsumTargets(ipProto)), NoVerb)] + steps)
  {
    var csum := ["action", "csum", CsumTargets(ipProto)] + rest;
    var sum := ChainStep(Csum(CsumTargets(ipProto)), NoVerb);
    PipedCsum(CsumTargets(ipProto), rest, steps);
    DecodePeditAction(rw, ipProto, rest);
    DecodeChainStep(PeditArgs(rw, ipProto) + rest, Pedit(rw.dstIP, rw.srcIP), ["pipe"] + csum, Pipe, csum, [sum] + steps);
    PairThen(ChainStep(Pedit(rw.dstIP, rw.srcIP), Pipe), sum, steps);
  }

  /** "pipe" and then a checksum action in front of a chain. */
  lemma PipedCsum(targets: string, rest: seq<string>, steps: seq<ChainStep>)
    requires |rest| > 0 && rest[0] == "action"
    requires DecodeChain(rest) == Some(steps)
    ensures DecodeVerb(["pipe"] + (["action", "csum", targets] + rest)) == (Pipe, ["action", "csum", targets] + rest)
    ensures DecodeChain(["action", "csum", targets] + rest) == Some([ChainStep(Csum(targets), NoVerb)] + steps)
  {
    var csum := ["action", "csum", targets] + rest;
    assert (["pipe"] + csum)[1..] == csum;
    DecodeCsum(targets, rest, steps);
  }



  lemma DecodeCommand(iface: string, hook: string, body: seq<string>, f: Filter, rest: seq<string>,
                      chain: seq<ChainStep>)
    requires DecodeMatch(body, NoMatch, 0) == Some((f, rest))
    requires DecodeChain(rest) == Some(chain)
    ensures Decode(HeaderArgs(iface, hook) + body) == Some(Command(iface, hook, f, chain))
  {
    var args := HeaderArgs(iface, hook) + body;
    assert args[..3] == ["filter", "add", "dev"];
    assert args[5..8] == ["protocol", "ip", "flower"];
    assert args[8..] == body;
  }

  /** The rewrite actions and the mirror decode to the compiled chain. */
  lemma DecodeRewriteChain(f: Filter, rw: RewriteOptions, target: string)
    ensures DecodeChain(SkbmodArgs(rw) + (PeditArgs(rw, f.ipProto) + MirrorArgs(target)))
            == Some(CompiledChain(f, Some(rw), target))
  {
    var tail := MirrorArgs(target);
    var skb := SkbmodArgs(rw);
    var ped := PeditArgs(rw, f.ipProto);
    DecodeMirror(target);
    var mirror := [ChainStep(Mirred(target), Continue)];
    var pedSteps := if rw.HasIP() then [ChainStep(Pedit(rw.dstIP, rw.srcIP), Pipe), ChainStep(Csum(CsumTargets(f.ipProto)), NoVerb)] else [];
    var skbSteps := if rw.HasMAC() then [ChainStep(Skbmod(rw.dstMAC, rw.srcMAC), Pipe)] else [];
    assert DecodeChain(ped + tail) == Some(pedSteps + mirror) by {
      if rw.HasIP() {
        DecodePedit(rw, f.ipProto, tail, mirror);
      } else {
        assert ped + tail == tail && pedSteps + mirror == mirror;
      }
    }
    assert DecodeChain(skb + (ped + tail)) == Some(skbSteps + (pedSteps + mirror)) by {
      if rw.HasMAC() {
        DecodeSkbmod(rw, ped + tail, pedSteps + mirror);
      } else {
        assert skb + (ped + tail) == ped + tail && skbSteps + (pedSteps + mirror) == pedSteps + mirror;
      }
    }
    assert CompiledChain(f, Some(rw), target) == skbSteps + (pedSteps + mirror);
  }


  lemma BuildWithRewriteSplit(iface: string, hook: string, target: string, f: Filter, rw: RewriteOptions)
    ensures BuildTCArgsWithRewrite(iface, hook, target, f, Some(rw))
            == HeaderArgs(iface, hook) + (MatchArgs(f) + (SkbmodArgs(rw) + (PeditArgs(rw, f.ipProto) + MirrorArgs(target))))
  {
    var skb := SkbmodArgs(rw);
    var ped := PeditArgs(rw, f.ipProto);
    assert RewriteArgs(f, Some(rw)) == skb + ped by {
      if rw.IsEmpty() {
        assert !rw.HasMAC() && !rw.HasIP();
        assert skb == [] && ped == [];
      }
    }
    NestMiddle(HeaderArgs(iface, hook), MatchArgs(f), skb, ped, MirrorArgs(target));
  }

  lemma ChainArgsHead(rw: RewriteOptions, ipProto: string, target: string)
    ensures (SkbmodArgs(rw) + (PeditArgs(rw, ipProto) + MirrorArgs(target)))[0] == "action"
  {
    var chainArgs := SkbmodArgs(rw) + (PeditArgs(rw, ipProto) + MirrorArgs(target));
    if rw.HasMAC() {
      assert chainArgs[0] == SkbmodArgs(rw)[0];
    } else if rw.HasIP() {
      assert chainArgs == PeditArgs(rw, ipProto) + MirrorArgs(target);
    } else {
      assert chainArgs == MirrorArgs(target);
    }
  }

  /** BuildTCArgsWithRewrite is lossless: its arguments decode to the
      interface, hook and match they were built from, followed by exactly
      the chain CompiledChain describes. */
  lemma {:induction false} BuildWithRewriteRoundTrip(iface: string, hook: string, target: string, f: Filter,
                                                     rewrite: Option<RewriteOptions>)
    requires PortsInRange(f)
    ensures Decode(BuildTCArgsWithRewrite(iface, hook, target, f, rewrite))
            == Some(Command(iface, hook, f, CompiledChain(f, rewrite, target)))
  {
    var rw := rewrite.GetOr(RewriteOptions("", "", "", ""));
    assert BuildTCArgsWithRewrite(iface, hook, target, f, rewrite)
           == BuildTCArgsWithRewrite(iface, hook, target, f, Some(rw));
    var chainArgs := SkbmodArgs(rw) + (PeditArgs(rw, f.ipProto) + MirrorArgs(target));
    BuildWithRewriteSplit(iface, hook, target, f, rw);
    ChainArgsHead(rw, f.ipProto, target);
    DecodeMatchArgs(f, chainArgs);
    DecodeRewriteChain(f, rw, target);
    assert CompiledChain(f, Some(rw), target) == CompiledChain(f, rewrite, target);
    DecodeCommand(iface, hook, MatchArgs(f) + chainArgs, f, chainArgs, CompiledChain(f, rewrite, target));
  }

  /** The decoder admits the compiler's order only: a match key that does
      not rank above the key before it is refused, so the round trips
      above fix where every pair goes and not just which pairs occur. */
  lemma MatchOrderEnforced(k1: string, v1: string, k2: string, v2: string, rest: seq<string>, acc: Filter,
                           floor: nat)
    requires IsMatchKey(k1) && IsMatchKey(k2) && MatchRank(k2) <= MatchRank(k1) && floor <= MatchRank(k1)
    requires SetMatchField(acc, k1, v1).Some?
    ensures DecodeMatch([k1, v1, k2, v2] + rest, acc, floor).None?
  {
    var args := [k1, v1, k2, v2] + rest;
    assert args[2..] == [k2, v2] + rest;
  }

  /** An smac before a dmac, or a second dmac, is refused. */
  lemma SkbmodOrderEnforced(a: string, b: string, second: string, rest: seq<string>)
    requires second == "dmac" || second == "smac"
    ensures DecodeSkbmodSets(["set", "smac", a, "set", "dmac", b] + rest, "", "", 0).None?
    ensures DecodeSkbmodSets(["set", second, a, "set", second, b] + rest, "", "", 0).None?
  {
    var args := ["set", "smac", a, "set", "dmac", b] + rest;
    assert args[3..] == ["set", "dmac", b] + rest;
    var dup := ["set", second, a, "set", second, b] + rest;
    assert dup[3..] == ["set", second, b] + rest;
  }

  /** A src munge before a dst munge, or a repeated munge, is refused. */
  lemma MungeOrderEnforced(a: string, b: string, dir: string, rest: seq<string>)
    requires dir == "dst" || dir == "src"
    ensures DecodeMunges(["munge", "ip", "src", "set", a, "munge", "ip", "dst", "set", b] + rest, "", "", 0).None?
    ensures DecodeMunges(["munge", "ip", dir, "set", a, "munge", "ip", dir, "set", b] + rest, "", "", 0).None?
  {
    var args := ["munge", "ip", "src", "set", a, "munge", "ip", "dst", "set", b] + rest;
    assert args[1..3] == ["ip", "src"];
    assert args[5..] == ["munge", "ip", "dst", "set", b] + rest;
    assert args[5..][1..3] == ["ip", "dst"];
    var dup := ["munge", "ip", dir, "set", a, "munge", "ip", dir, "set", b] + rest;
    assert dup[1..3] == ["ip", dir];
    assert dup[5..] == ["munge", "ip", dir, "set", b] + rest;
    assert dup[5..][1..3] == ["ip", dir];
  }

  /** Without rewrite the command decodes to the match and one mirror. */
  lemma BuildRoundTrip(iface: string, hook: string, target: string, f: Filter)
    requires PortsInRange(f)
    ensures Decode(BuildTCArgs(iface, hook, target, f))
            == Some(Command(iface, hook, f, [ChainStep(Mirred(target), Continue)]))
  {
    Regroup(HeaderArgs(iface, hook), MatchArgs(f), MirrorArgs(target));
    DecodeMatchArgs(f, MirrorArgs(target));
    DecodeMirror(target);
    DecodeCommand(iface, hook, MatchArgs(f) + MirrorArgs(target), f, MirrorArgs(target),
                  [ChainStep(Mirred(target), Continue)]);
  }

  /** A missing rewrite, and one with no field set, add nothing: the
      command is exactly the plain mirror command. */
  lemma NoRewriteIsPlainMirror(iface: string, hook: string, target: string, f: Filter,
                               rewrite: Option<RewriteOptions>)
    requires rewrite.None? || rewrite.value.IsEmpty()
    ensures BuildTCArgsWithRewrite(iface, hook, target, f, rewrite) == BuildTCArgs(iface, hook, target, f)
  {
    assert RewriteArgs(f, rewrite) == [];
  }

  /** The checksum argument: "ip", extended by the transport protocol for
      exactly tcp, udp and icmp. */
  lemma CsumTargetsValue(ipProto: string)
    ensures ipProto in {"tcp", "udp", "icmp"} ==> CsumTargets(ipProto) == "ip and " + ipProto
    ensures ipProto !in {"tcp", "udp", "icmp"} ==> CsumTargets(ipProto) == "ip"
  {
    if ipProto in {"tcp", "udp", "icmp"} {
      assert Join(["ip", ipProto], " and ") == "ip" + " and " + Join([ipProto], " and ");
    }
  }
}
