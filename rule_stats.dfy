/** The rule-statistics correlation of cmd/tcbroker/status.go: which
    parsed filter records belong to a rule filter (matchesFilter), and the
    packet and byte totals of a rule (getRuleStats).

    The listing of `tc -s filter show dev <src_intf> ingress` is an
    input: None stands for a listing that could not be obtained. */
module RuleStats {
  import opened Wrappers
  import opened GoText
  import opened TcParser
  import FilterBuilder
  import Config

  // ---------------------------------------------------------------------
  // Go's int64 addition

  const Two64: int := 0x1_0000_0000_0000_0000

  /** x brought into the int64 range by whole multiples of 2^64, as
      Go's int64 addition wraps around. */
  function Wrap64(x: int): int
    decreases if x > Int64Max then x else if x < Int64Min then -x else 0
  {
    if x > Int64Max then Wrap64(x - Two64)
    else if x < Int64Min then Wrap64(x + Two64)
    else x
  }

  /** The wrapped value is an int64, and an int64 is its own wrapped value. */
  lemma {:induction false} WrapRange(x: int)
    ensures Int64Min <= Wrap64(x) <= Int64Max
    ensures Int64Min <= x <= Int64Max ==> Wrap64(x) == x
    decreases if x > Int64Max then x else if x < Int64Min then -x else 0
  {
    if x > Int64Max {
      WrapRange(x - Two64);
    } else if x < Int64Min {
      WrapRange(x + Two64);
    }
  }

  /** Wrapping differs from its argument by a whole multiple of 2^64. */
  lemma {:induction false} WrapOffset(x: int) returns (k: int)
    ensures Wrap64(x) == x + k * Two64
    decreases if x > Int64Max then x else if x < Int64Min then -x else 0
  {
    if x > Int64Max {
      var k' := WrapOffset(x - Two64);
      k := k' - 1;
    } else if x < Int64Min {
      var k' := WrapOffset(x + Two64);
      k := k' + 1;
    } else {
      k := 0;
    }
  }

  /** Adding a whole multiple of 2^64 does not change the wrapped value. */
  lemma {:induction false} WrapShift(x: int, k: int)
    ensures Wrap64(x + k * Two64) == Wrap64(x)
    decreases if k < 0 then -k else k
  {
    if k > 0 {
      WrapShift(x, k - 1);
      assert x + k * Two64 == (x + (k - 1) * Two64) + Two64;
    } else if k < 0 {
      WrapShift(x, k + 1);
      assert x + k * Two64 == (x + (k + 1) * Two64) - Two64;
    }
  }

  /** Wrapping after every addition is wrapping once at the end. */
  lemma WrapAdd(x: int, y: int)
    ensures Wrap64(Wrap64(x) + y) == Wrap64(x + y)
  {
    var k := WrapOffset(x);
    WrapShift(x + y, k);
    assert Wrap64(x) + y == (x + y) + k * Two64;
  }

  // ---------------------------------------------------------------------
  // Matching

  /** A text field of the rule filter constrains the record only when set. */
  predicate KeyAgrees(m: map<string, string>, key: string, want: string)
  {
    want == "" || (key in m && m[key] == want)
  }

  /** A port of the rule filter constrains the record only when non-zero,
      and is compared by its decimal text. */
  predicate PortAgrees(m: map<string, string>, key: string, port: int)
  {
    port == 0 || (key in m && m[key] == Itoa(port))
  }

  /** Some action of the record mirrors to dev. */
  predicate SendsTo(rec: FilterStats, dev: string)
  {
    exists k :: 0 <= k < |rec.actions| && rec.actions[k].targetDev == dev
  }

  /** When a parsed record belongs to a rule filter with the rule's
      destination interface. */
  predicate Matches(rec: FilterStats, rf: FilterBuilder.Filter, dstIntf: string)
  {
    && KeyAgrees(rec.matches, "ip_proto", rf.ipProto)
    && KeyAgrees(rec.matches, "src_ip", rf.srcIP)
    && KeyAgrees(rec.matches, "dst_ip", rf.dstIP)
    && PortAgrees(rec.matches, "src_port", rf.srcPort)
    && PortAgrees(rec.matches, "dst_port", rf.dstPort)
    && (dstIntf != "" ==> SendsTo(rec, dstIntf))
  }

  /** matchesFilter: field checks with early returns, then a search of the
      actions for the destination interface. */
  method MatchesFilter(rec: FilterStats, rf: FilterBuilder.Filter, dstIntf: string) returns (b: bool)
    ensures b == Matches(rec, rf, dstIntf)
  {
    if rf.ipProto != "" {
      if "ip_proto" !in rec.matches || rec.matches["ip_proto"] != rf.ipProto {
        return false;
      }
    }
    if rf.srcIP != "" {
      if "src_ip" !in rec.matches || rec.matches["src_ip"] != rf.srcIP {
        return false;
      }
    }
    if rf.dstIP != "" {
      if "dst_ip" !in rec.matches || rec.matches["dst_ip"] != rf.dstIP {
        return false;
      }
    }
    if rf.srcPort != 0 {
      if "src_port" !in rec.matches || rec.matches["src_port"] != Itoa(rf.srcPort) {
        return false;
      }
    }
    if rf.dstPort != 0 {
      if "dst_port" !in rec.matches || rec.matches["dst_port"] != Itoa(rf.dstPort) {
        return false;
      }
    }
    if dstIntf != "" {
      var found := false;
      var k := 0;
      while k < |rec.actions|
        invariant 0 <= k <= |rec.actions|
        invariant !found ==> forall j :: 0 <= j < k ==> rec.actions[j].targetDev != dstIntf
        invariant found ==> SendsTo(rec, dstIntf)
      {
        if rec.actions[k].targetDev == dstIntf {
          found := true;
          break;
        }
        k := k + 1;
      }
      if !found {
        return false;
      }
    }
    return true;
  }

  // ---------------------------------------------------------------------
  // Totals

  datatype Totals = Totals(packets: int, bytes: int)

  function Plus(a: Totals, b: Totals): Totals
  {
    Totals(a.packets + b.packets, a.bytes + b.bytes)
  }

  const Zero := Totals(0, 0)

  lemma PlusAssoc(a: Totals, b: Totals, c: Totals)
    ensures Plus(Plus(a, b), c) == Plus(a, Plus(b, c))
  {
  }

  /** The counters of the actions that mirror to dev, in order. */
  function DeviceTotals(actions: seq<ActionStats>, dev: string): Totals
  {
    if actions == [] then Zero
    else
      var a := actions[|actions| - 1];
      var t := DeviceTotals(actions[..|actions| - 1], dev);
      if a.targetDev == dev then Plus(t, Totals(a.packets, a.bytes)) else t
  }

  /** What one rule filter adds: the device totals of every record it
      matches. */
  function FilterTotals(records: seq<FilterStats>, rf: FilterBuilder.Filter, dev: string): Totals
  {
    if records == [] then Zero
    else
      var rec := records[|records| - 1];
      var t := FilterTotals(records[..|records| - 1], rf, dev);
      if Matches(rec, rf, dev) then Plus(t, DeviceTotals(rec.actions, dev)) else t
  }

  /** The rule's totals: the sum over every pair of rule filter and
      matching record. */
  function RuleTotals(records: seq<FilterStats>, filters: seq<FilterBuilder.Filter>, dev: string): Totals
  {
    if filters == [] then Zero
    else Plus(RuleTotals(records, filters[..|filters| - 1], dev), FilterTotals(records, filters[|filters| - 1], dev))
  }

  lemma DeviceTotalsStep(actions: seq<ActionStats>, k: nat, dev: string)
    requires k < |actions|
    ensures DeviceTotals(actions[..k + 1], dev)
            == if actions[k].targetDev == dev
               then Plus(DeviceTotals(actions[..k], dev), Totals(actions[k].packets, actions[k].bytes))
               else DeviceTotals(actions[..k], dev)
  {
    assert actions[..k + 1][..k] == actions[..k];
  }

  lemma FilterTotalsStep(records: seq<FilterStats>, j: nat, rf: FilterBuilder.Filter, dev: string)
    requires j < |records|
    ensures FilterTotals(records[..j + 1], rf, dev)
            == if Matches(records[j], rf, dev)
               then Plus(FilterTotals(records[..j], rf, dev), DeviceTotals(records[j].actions, dev))
               else FilterTotals(records[..j], rf, dev)
  {
    assert records[..j + 1][..j] == records[..j];
  }

  lemma RuleTotalsStep(records: seq<FilterStats>, filters: seq<FilterBuilder.Filter>, i: nat, dev: string)
    requires i < |filters|
    ensures RuleTotals(records, filters[..i + 1], dev)
            == Plus(RuleTotals(records, filters[..i], dev), FilterTotals(records, filters[i], dev))
  {
    assert filters[..i + 1][..i] == filters[..i];
  }

  /** getRuleStats: no listing gives (0, 0); otherwise the records parsed
      from it are summed by SumMatched. */
  method GetRuleStats(rule: Config.Rule, listing: Option<string>) returns (packets: int, bytes: int)
    ensures listing.None? ==> packets == 0 && bytes == 0
    ensures listing.Some? ==>
              var t := RuleTotals(ParseSpec(listing.value), rule.filters, rule.dstIntf);
              packets == Wrap64(t.packets) && bytes == Wrap64(t.bytes)
  {
    if listing.None? {
      return 0, 0;
    }
    var records, parseErr := ParseFilterStats(listing.value);
    if parseErr.Some? {
      return 0, 0;
    }
    packets, bytes := SumMatched(records, rule.filters, rule.dstIntf);
  }

  /** The int64 counters hold the exact totals wrapped. */
  ghost predicate Tracks(packets: int, bytes: int, exact: Totals)
  {
    packets == Wrap64(exact.packets) && bytes == Wrap64(exact.bytes)
  }

  lemma TracksRange(packets: int, bytes: int, exact: Totals)
    requires Tracks(packets, bytes, exact)
    ensures Int64Min <= packets <= Int64Max && Int64Min <= bytes <= Int64Max
  {
    WrapRange(exact.packets);
    WrapRange(exact.bytes);
  }

  lemma TracksAdd(packets: int, bytes: int, exact: Totals, p: int, b: int)
    requires Tracks(packets, bytes, exact)
    ensures Tracks(Wrap64(packets + p), Wrap64(bytes + b), Plus(exact, Totals(p, b)))
  {
    WrapStep(packets, exact.packets, p);
    WrapStep(bytes, exact.bytes, b);
  }

  lemma WrapStep(w: int, x: int, y: int)
    requires w == Wrap64(x)
    ensures Wrap64(w + y) == Wrap64(x + y)
  {
    WrapAdd(x, y);
  }

  /** The summation loops of getRuleStats: for every rule filter, every
      record it matches, every action of that record that mirrors to the
      rule's destination, add the counters with int64 additions. */
  method SumMatched(records: seq<FilterStats>, filters: seq<FilterBuilder.Filter>, dev: string)
    returns (packets: int, bytes: int)
    ensures packets == Wrap64(RuleTotals(records, filters, dev).packets)
    ensures bytes == Wrap64(RuleTotals(records, filters, dev).bytes)
  {
    packets, bytes := 0, 0;
    ghost var exact := Zero;
    var i := 0;
    while i < |filters|
      invariant 0 <= i <= |filters|
      invariant exact == RuleTotals(records, filters[..i], dev)
      invariant Tracks(packets, bytes, exact)
    {
      var rf := filters[i];
      ghost var before := exact;
      var j := 0;
      while j < |records|
        invariant 0 <= j <= |records|
        invariant exact == Plus(before, FilterTotals(records[..j], rf, dev))
        invariant Tracks(packets, bytes, exact)
      {
        var rec := records[j];
        FilterTotalsStep(records, j, rf, dev);
        var matched := MatchesFilter(rec, rf, dev);
        if matched {
          ghost var d := DeviceTotals(rec.actions, dev);
          assert Totals(d.packets, d.bytes) == d;
          PlusAssoc(before, FilterTotals(records[..j], rf, dev), d);
          TracksRange(packets, bytes, exact);
          TracksAdd(packets, bytes, exact, d.packets, d.bytes);
          packets, bytes := AddMirrored(rec.actions, dev, packets, bytes);
          exact := Plus(exact, d);
        }
        j := j + 1;
      }
      assert records[..j] == records;
      RuleTotalsStep(records, filters, i, dev);
      i := i + 1;
    }
    assert filters[..i] == filters;
  }

  /** The innermost loop of getRuleStats: add the counters of the actions
      that mirror to dev, with int64 additions. The result is the running
      sums plus the device's exact totals, wrapped once. */
  method AddMirrored(actions: seq<ActionStats>, dev: string, packets0: int, bytes0: int)
    returns (packets: int, bytes: int)
    requires Int64Min <= packets0 <= Int64Max && Int64Min <= bytes0 <= Int64Max
    ensures packets == Wrap64(packets0 + DeviceTotals(actions, dev).packets)
    ensures bytes == Wrap64(bytes0 + DeviceTotals(actions, dev).bytes)
  {
    packets, bytes := packets0, bytes0;
    var k := 0;
    assert actions[..k] == [];
    WrapRange(packets0);
    WrapRange(bytes0);
    while k < |actions|
      invariant 0 <= k <= |actions|
      invariant packets == Wrap64(packets0 + DeviceTotals(actions[..k], dev).packets)
      invariant bytes == Wrap64(bytes0 + DeviceTotals(actions[..k], dev).bytes)
    {
      var action := actions[k];
      DeviceTotalsStep(actions, k, dev);
      if action.targetDev == dev {
        var t := DeviceTotals(actions[..k], dev);
        WrapStep(packets, packets0 + t.packets, action.packets);
        WrapStep(bytes, bytes0 + t.bytes, action.bytes);
        packets := Wrap64(packets + action.packets);
        bytes := Wrap64(bytes + action.bytes);
      }
      k := k + 1;
    }
    assert actions[..k] == actions;
  }

  // ---------------------------------------------------------------------
  // What the totals promise

  /** Rule filters add up: the totals of two lists of rule filters are the
      sum of their totals, so nothing is deduplicated. */
  lemma {:induction false} RuleTotalsAppend(records: seq<FilterStats>, fs: seq<FilterBuilder.Filter>,
                                            gs: seq<FilterBuilder.Filter>, dev: string)
    ensures RuleTotals(records, fs + gs, dev) == Plus(RuleTotals(records, fs, dev), RuleTotals(records, gs, dev))
    decreases |gs|
  {
    if gs == [] {
      assert fs + gs == fs;
    } else {
      var init := gs[..|gs| - 1];
      assert (fs + gs)[..|fs + gs| - 1] == fs + init;
      assert (fs + gs)[|fs + gs| - 1] == gs[|gs| - 1];
      RuleTotalsAppend(records, fs, init, dev);
    }
  }

  /** A lone record adds its device totals to every rule filter that
      matches it. */
  lemma LoneRecord(rec: FilterStats, f: FilterBuilder.Filter, dev: string)
    requires Matches(rec, f, dev)
    ensures FilterTotals([rec], f, dev) == DeviceTotals(rec.actions, dev)
  {
    var d := DeviceTotals(rec.actions, dev);
    assert [rec][..0] == [] && [rec][0] == rec;
    assert FilterTotals([], f, dev) == Zero;
    assert Plus(Zero, d) == d;
  }

  /** A record matched by two rule filters is counted twice. */
  lemma CountedTwice(rec: FilterStats, f1: FilterBuilder.Filter, f2: FilterBuilder.Filter, dev: string)
    requires Matches(rec, f1, dev) && Matches(rec, f2, dev)
    ensures RuleTotals([rec], [f1, f2], dev)
            == Plus(DeviceTotals(rec.actions, dev), DeviceTotals(rec.actions, dev))
  {
    TwoFilters([rec], f1, f2, dev);
    LoneRecord(rec, f1, dev);
    LoneRecord(rec, f2, dev);
  }

  /** A rule with one filter totals what that filter adds. */
  lemma OneFilter(records: seq<FilterStats>, f: FilterBuilder.Filter, dev: string)
    ensures RuleTotals(records, [f], dev) == FilterTotals(records, f, dev)
  {
    var t := FilterTotals(records, f, dev);
    assert [f][..0] == [] && [f][0] == f;
    assert RuleTotals(records, [], dev) == Zero;
    assert Plus(Zero, t) == t;
  }

  /** A rule with two filters totals the sum of what each adds. */
  lemma TwoFilters(records: seq<FilterStats>, f1: FilterBuilder.Filter, f2: FilterBuilder.Filter, dev: string)
    ensures RuleTotals(records, [f1, f2], dev) == Plus(FilterTotals(records, f1, dev), FilterTotals(records, f2, dev))
  {
    assert [f1, f2][..1] == [f1] && [f1, f2][1] == f2;
    OneFilter(records, f1, dev);
  }

  /** Actions that mirror elsewhere, such as a rewrite action with no
      device, add nothing wherever they stand. */
  lemma {:induction false} OtherDeviceIgnored(xs: seq<ActionStats>, a: ActionStats, ys: seq<ActionStats>, dev: string)
    requires a.targetDev != dev
    ensures DeviceTotals(xs + [a] + ys, dev) == DeviceTotals(xs + ys, dev)
    decreases |ys|
  {
    if ys == [] {
      assert xs + [a] + ys == xs + [a];
      assert (xs + [a])[..|xs|] == xs;
      assert xs + ys == xs;
    } else {
      var init := ys[..|ys| - 1];
      assert (xs + [a] + ys)[..|xs + [a] + ys| - 1] == xs + [a] + init;
      assert (xs + ys)[..|xs + ys| - 1] == xs + init;
      assert (xs + [a] + ys)[|xs + [a] + ys| - 1] == ys[|ys| - 1];
      assert (xs + ys)[|xs + ys| - 1] == ys[|ys| - 1];
      OtherDeviceIgnored(xs, a, init, dev);
    }
  }

  /** A record none of whose actions mirrors to dev adds nothing. */
  lemma {:induction false} NoActionOnDevice(actions: seq<ActionStats>, dev: string)
    requires forall k :: 0 <= k < |actions| ==> actions[k].targetDev != dev
    ensures DeviceTotals(actions, dev) == Zero
  {
    if actions != [] {
      NoActionOnDevice(actions[..|actions| - 1], dev);
    }
  }

  // ---------------------------------------------------------------------
  // The keys the builder writes are the keys matchesFilter reads

  /** Every key/value pair of a flat argument list is in the map. */
  predicate Holds(m: map<string, string>, args: seq<string>)
    decreases |args|
  {
    |args| < 2 || (args[0] in m && m[args[0]] == args[1] && Holds(m, args[2..]))
  }

  lemma {:induction false} HoldsAppend(m: map<string, string>, a: seq<string>, b: seq<string>)
    requires |a| % 2 == 0
    ensures Holds(m, a + b) <==> Holds(m, a) && Holds(m, b)
    decreases |a|
  {
    if a == [] {
      assert a + b == b;
    } else {
      assert (a + b)[2..] == a[2..] + b;
      HoldsAppend(m, a[2..], b);
    }
  }

  lemma HoldsPair(m: map<string, string>, cond: bool, key: string, value: string)
    ensures Holds(m, FilterBuilder.When(cond, [key, value])) <==> (cond ==> key in m && m[key] == value)
  {
    if cond {
      assert [key, value][2..] == [];
    }
  }

  lemma HoldsFive(m: map<string, string>, a1: seq<string>, a2: seq<string>, a3: seq<string>,
                  a4: seq<string>, a5: seq<string>)
    requires |a1| % 2 == 0 && |a2| % 2 == 0 && |a3| % 2 == 0 && |a4| % 2 == 0
    ensures Holds(m, a1 + a2 + a3 + a4 + a5)
            <==> Holds(m, a1) && Holds(m, a2) && Holds(m, a3) && Holds(m, a4) && Holds(m, a5)
  {
    HoldsAppend(m, a1 + a2 + a3 + a4, a5);
    HoldsAppend(m, a1 + a2 + a3, a4);
    HoldsAppend(m, a1 + a2, a3);
    HoldsAppend(m, a1, a2);
  }

  /** A record matches a rule filter exactly when its match map holds
      every key/value pair that BuildTCArgs writes for that filter, and,
      when a destination is given, some action mirrors there. */
  lemma MatchesBuiltPairs(rec: FilterStats, rf: FilterBuilder.Filter, dstIntf: string)
    ensures Matches(rec, rf, dstIntf)
            <==> Holds(rec.matches, FilterBuilder.MatchArgs(rf)) && (dstIntf != "" ==> SendsTo(rec, dstIntf))
  {
    var m := rec.matches;
    var a1 := FilterBuilder.When(rf.srcIP != "", ["src_ip", rf.srcIP]);
    var a2 := FilterBuilder.When(rf.dstIP != "", ["dst_ip", rf.dstIP]);
    var a3 := FilterBuilder.When(rf.ipProto != "", ["ip_proto", rf.ipProto]);
    var a4 := FilterBuilder.When(rf.srcPort != 0, ["src_port", Itoa(rf.srcPort)]);
    var a5 := FilterBuilder.When(rf.dstPort != 0, ["dst_port", Itoa(rf.dstPort)]);
    assert FilterBuilder.MatchArgs(rf) == a1 + a2 + a3 + a4 + a5;
    HoldsFive(m, a1, a2, a3, a4, a5);
    HoldsPair(m, rf.srcIP != "", "src_ip", rf.srcIP);
    HoldsPair(m, rf.dstIP != "", "dst_ip", rf.dstIP);
    HoldsPair(m, rf.ipProto != "", "ip_proto", rf.ipProto);
    HoldsPair(m, rf.srcPort != 0, "src_port", Itoa(rf.srcPort));
    HoldsPair(m, rf.dstPort != 0, "dst_port", Itoa(rf.dstPort));
  }
}
