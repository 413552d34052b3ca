/** The configuration checks of pkg/config/validator.go: a configuration
    needs at least one rule, a rule needs a name, both interfaces, a valid
    rewrite when one is given, and at least one filter; a rewrite needs
    one field set, MAC addresses in the aa:bb:cc:dd:ee:ff shape and IP
    addresses that the address parser accepts.

    Go's net.ParseIP is not modelled: every check that uses it takes the
    predicate `isIP` as a parameter. The error values carry what the
    source's messages carry; `Message` renders them as the source does. */
module Config {
  import opened Wrappers
  import opened GoText
  import FilterBuilder

  /** config.RewriteOptions: "" means "not set". */
  datatype RewriteOptions = RewriteOptions(dstMAC: string, srcMAC: string, dstIP: string, srcIP: string)

  /** config.Rule; a nil Rewrite is None. */
  datatype Rule = Rule(name: string, srcIntf: string, dstIntf: string,
                       rewrite: Option<RewriteOptions>, filters: seq<FilterBuilder.Filter>)

  /** config.Config. */
  datatype Config = Config(rules: seq<Rule>)

  datatype RewriteError =
    | NoRewriteField
    | BadDstMAC(mac: string)
    | BadSrcMAC(mac: string)
    | BadDstIP(ip: string)
    | BadSrcIP(ip: string)

  datatype RuleError =
    | NameRequired
    | SrcIntfRequired
    | DstIntfRequired
    | InvalidRewrite(cause: RewriteError)
    | FilterRequired

  datatype ConfigError =
    | NoRules
    | InvalidRule(index: nat, cause: RuleError)

  // ---------------------------------------------------------------------
  // MAC addresses

  predicate IsHexDigit(c: char)
  {
    '0' <= c <= '9' || 'a' <= c <= 'f' || 'A' <= c <= 'F'
  }

  /** `([0-9A-Fa-f]{2}:){n}[0-9A-Fa-f]{2}` matching all of s, read group by
      group as the regular expression is written. */
  predicate HexGroups(s: string, n: nat)
    decreases n
  {
    if n == 0 then |s| == 2 && IsHexDigit(s[0]) && IsHexDigit(s[1])
    else |s| >= 3 && IsHexDigit(s[0]) && IsHexDigit(s[1]) && s[2] == ':' && HexGroups(s[3..], n - 1)
  }

  /** isValidMAC: the anchored pattern with five colon-terminated groups
      and a final group. */
  predicate IsValidMAC(mac: string)
  {
    HexGroups(mac, 5)
  }

  /** The shape of n + 1 groups position by position: every third
      character is a colon and all others are hex digits. */
  predicate GroupShape(s: string, n: nat)
  {
    |s| == 3 * n + 2 && forall i :: 0 <= i < |s| ==> if i % 3 == 2 then s[i] == ':' else IsHexDigit(s[i])
  }

  lemma {:induction false} HexGroupsShape(s: string, n: nat)
    ensures HexGroups(s, n) <==> GroupShape(s, n)
    decreases n
  {
    if n > 0 && |s| >= 3 {
      HexGroupsShape(s[3..], n - 1);
      ShapeStep(s, n);
    }
  }

  /** n + 1 groups are a leading group and colon followed by n groups. */
  lemma ShapeStep(s: string, n: nat)
    requires n > 0 && |s| >= 3
    ensures GroupShape(s, n) <==>
              IsHexDigit(s[0]) && IsHexDigit(s[1]) && s[2] == ':' && GroupShape(s[3..], n - 1)
  {
    if IsHexDigit(s[0]) && IsHexDigit(s[1]) && s[2] == ':' && GroupShape(s[3..], n - 1) {
      forall i | 3 <= i < |s|
        ensures if i % 3 == 2 then s[i] == ':' else IsHexDigit(s[i])
      {
        assert s[i] == s[3..][i - 3];
        assert (i - 3) % 3 == i % 3;
      }
    }
    if GroupShape(s, n) {
      forall j | 0 <= j < |s[3..]|
        ensures if j % 3 == 2 then s[3..][j] == ':' else IsHexDigit(s[3..][j])
      {
        assert s[3..][j] == s[j + 3];
        assert (j + 3) % 3 == j % 3;
      }
    }
  }

  /** A valid MAC address is 17 characters long, with a colon at every
      third position and hex digits everywhere else. */
  lemma ValidMACShape(mac: string)
    ensures IsValidMAC(mac) <==>
              |mac| == 17 && forall i :: 0 <= i < 17 ==> if i % 3 == 2 then mac[i] == ':' else IsHexDigit(mac[i])
  {
    HexGroupsShape(mac, 5);
  }

  // ---------------------------------------------------------------------
  // The checks

  /** RewriteOptions.Validate: the emptiness check, then the MACs, then
      the IPs, each only when set, in field order. */
  function ValidateRewrite(r: RewriteOptions, isIP: string -> bool): (err: Option<RewriteError>)
  {
    if r.dstMAC == "" && r.srcMAC == "" && r.dstIP == "" && r.srcIP == "" then Some(NoRewriteField)
    else if r.dstMAC != "" && !IsValidMAC(r.dstMAC) then Some(BadDstMAC(r.dstMAC))
    else if r.srcMAC != "" && !IsValidMAC(r.srcMAC) then Some(BadSrcMAC(r.srcMAC))
    else if r.dstIP != "" && !isIP(r.dstIP) then Some(BadDstIP(r.dstIP))
    else if r.srcIP != "" && !isIP(r.srcIP) then Some(BadSrcIP(r.srcIP))
    else None
  }

  /** Rule.Validate: the required fields in order, the rewrite when
      present, then the filter count. */
  function ValidateRule(r: Rule, isIP: string -> bool): (err: Option<RuleError>)
  {
    if r.name == "" then Some(NameRequired)
    else if r.srcIntf == "" then Some(SrcIntfRequired)
    else if r.dstIntf == "" then Some(DstIntfRequired)
    else if r.rewrite.Some? && ValidateRewrite(r.rewrite.value, isIP).Some? then
      Some(InvalidRewrite(ValidateRewrite(r.rewrite.value, isIP).value))
    else if |r.filters| == 0 then Some(FilterRequired)
    else None
  }

  /** The loop of Config.Validate from the rule at 0-based position k on:
      the first failing rule's error with its 1-based number. */
  function ValidateRulesFrom(rules: seq<Rule>, k: nat, isIP: string -> bool): (err: Option<ConfigError>)
    requires k <= |rules|
    decreases |rules| - k
  {
    if k == |rules| then None
    else match ValidateRule(rules[k], isIP)
      case Some(e) => Some(InvalidRule(k + 1, e))
      case None => ValidateRulesFrom(rules, k + 1, isIP)
  }

  /** Config.Validate. */
  function ValidateConfig(c: Config, isIP: string -> bool): (err: Option<ConfigError>)
  {
    if |c.rules| == 0 then Some(NoRules) else ValidateRulesFrom(c.rules, 0, isIP)
  }

  // ---------------------------------------------------------------------
  // Messages

  function RewriteMessage(e: RewriteError): string
  {
    match e
    case NoRewriteField => "at least one rewrite field (dst_mac, src_mac, dst_ip, src_ip) must be specified"
    case BadDstMAC(mac) => "invalid dst_mac '" + mac + "': must be a valid MAC address (e.g., aa:bb:cc:dd:ee:ff)"
    case BadSrcMAC(mac) => "invalid src_mac '" + mac + "': must be a valid MAC address"
    case BadDstIP(ip) => "invalid dst_ip '" + ip + "': must be a valid IP address"
    case BadSrcIP(ip) => "invalid src_ip '" + ip + "': must be a valid IP address"
  }

  function RuleMessage(e: RuleError): string
  {
    match e
    case NameRequired => "name is required"
    case SrcIntfRequired => "src_intf is required"
    case DstIntfRequired => "dst_intf is required"
    case InvalidRewrite(cause) => "invalid rewrite options: " + RewriteMessage(cause)
    case FilterRequired => "at least one filter is required"
  }

  function Message(e: ConfigError): string
  {
    match e
    case NoRules => "at least one rule is required"
    case InvalidRule(index, cause) => "invalid rule #" + Itoa(index) + ": " + RuleMessage(cause)
  }

  // ---------------------------------------------------------------------
  // What the checks promise

  /** A rewrite passes exactly when a field is set, every MAC that is set
      has the MAC shape and every IP that is set is an IP address. */
  lemma RewriteValidIff(r: RewriteOptions, isIP: string -> bool)
    ensures ValidateRewrite(r, isIP).None? <==>
              && (r.dstMAC != "" || r.srcMAC != "" || r.dstIP != "" || r.srcIP != "")
              && (r.dstMAC != "" ==> IsValidMAC(r.dstMAC))
              && (r.srcMAC != "" ==> IsValidMAC(r.srcMAC))
              && (r.dstIP != "" ==> isIP(r.dstIP))
              && (r.srcIP != "" ==> isIP(r.srcIP))
  {
  }

  /** The error a rule reports is the first of its checks that fails. */
  lemma RuleErrorOrder(r: Rule, isIP: string -> bool)
    ensures ValidateRule(r, isIP) == Some(NameRequired) <==> r.name == ""
    ensures ValidateRule(r, isIP) == Some(SrcIntfRequired) <==> r.name != "" && r.srcIntf == ""
    ensures ValidateRule(r, isIP) == Some(DstIntfRequired) <==> r.name != "" && r.srcIntf != "" && r.dstIntf == ""
    ensures (exists e :: ValidateRule(r, isIP) == Some(InvalidRewrite(e))) <==>
              r.name != "" && r.srcIntf != "" && r.dstIntf != ""
              && r.rewrite.Some? && ValidateRewrite(r.rewrite.value, isIP).Some?
    ensures ValidateRule(r, isIP) == Some(FilterRequired) <==>
              r.name != "" && r.srcIntf != "" && r.dstIntf != ""
              && (r.rewrite.Some? ==> ValidateRewrite(r.rewrite.value, isIP).None?)
              && |r.filters| == 0
  {
    if r.name != "" && r.srcIntf != "" && r.dstIntf != ""
       && r.rewrite.Some? && ValidateRewrite(r.rewrite.value, isIP).Some? {
      assert ValidateRule(r, isIP) == Some(InvalidRewrite(ValidateRewrite(r.rewrite.value, isIP).value));
    }
  }

  /** A rule passes exactly when all three names are set, its rewrite, if
      any, passes, and it has a filter. */
  lemma RuleValidIff(r: Rule, isIP: string -> bool)
    ensures ValidateRule(r, isIP).None? <==>
              r.name != "" && r.srcIntf != "" && r.dstIntf != ""
              && (r.rewrite.Some? ==> ValidateRewrite(r.rewrite.value, isIP).None?)
              && |r.filters| > 0
  {
  }

  /** From position k on, the rules pass exactly when each of them does;
      a failure names the first failing rule by its 1-based number. */
  lemma {:induction false} RulesFromSound(rules: seq<Rule>, k: nat, isIP: string -> bool)
    requires k <= |rules|
    ensures ValidateRulesFrom(rules, k, isIP).None? <==>
              forall j :: k <= j < |rules| ==> ValidateRule(rules[j], isIP).None?
    ensures ValidateRulesFrom(rules, k, isIP).Some? ==>
              var e := ValidateRulesFrom(rules, k, isIP).value;
              && e.InvalidRule? && k < e.index <= |rules|
              && ValidateRule(rules[e.index - 1], isIP) == Some(e.cause)
              && forall j :: k <= j < e.index - 1 ==> ValidateRule(rules[j], isIP).None?
    decreases |rules| - k
  {
    if k < |rules| && ValidateRule(rules[k], isIP).None? {
      RulesFromSound(rules, k + 1, isIP);
    }
  }

  /** Config.Validate: no rules is an error; otherwise the configuration
      is valid exactly when every rule is, and an invalid one reports the
      1-based number of its first invalid rule and that rule's error. */
  lemma ConfigValidIff(c: Config, isIP: string -> bool)
    ensures |c.rules| == 0 ==> ValidateConfig(c, isIP) == Some(NoRules)
    ensures ValidateConfig(c, isIP).None? <==>
              |c.rules| > 0 && forall j :: 0 <= j < |c.rules| ==> ValidateRule(c.rules[j], isIP).None?
    ensures |c.rules| > 0 && ValidateConfig(c, isIP).Some? ==>
              var e := ValidateConfig(c, isIP).value;
              && e.InvalidRule? && 1 <= e.index <= |c.rules|
              && ValidateRule(c.rules[e.index - 1], isIP) == Some(e.cause)
              && forall j :: 0 <= j < e.index - 1 ==> ValidateRule(c.rules[j], isIP).None?
  {
    if |c.rules| > 0 {
      RulesFromSound(c.rules, 0, isIP);
    }
  }

  /** The rewrite copied into the builder's options, as pkg/tc/filter.go
      copies it. */
  function ToFilterRewrite(r: RewriteOptions): (fr: FilterBuilder.RewriteOptions)
    ensures fr.dstMAC == r.dstMAC && fr.srcMAC == r.srcMAC && fr.dstIP == r.dstIP && fr.srcIP == r.srcIP
  {
    FilterBuilder.RewriteOptions(r.dstMAC, r.srcMAC, r.dstIP, r.srcIP)
  }

  /** The configuration's emptiness check and the builder's agree: the
      builder refuses a present rewrite exactly when validation reports
      that no field is set. */
  lemma EmptinessAgrees(r: RewriteOptions, isIP: string -> bool)
    ensures FilterBuilder.ValidateRewriteOptions(Some(ToFilterRewrite(r))).Some?
            <==> ValidateRewrite(r, isIP) == Some(NoRewriteField)
  {
  }

  /** The addresses of pkg/config/validator_test.go: the sample address
      passes and "invalid-mac" does not. */
  lemma MACExamples()
    ensures IsValidMAC("52:54:00:12:34:56")
    ensures !IsValidMAC("invalid-mac")
  {
    var mac := "52:54:00:12:34:56";
    assert mac[3..][3..][3..][3..][3..] == "56";
    assert !IsHexDigit('i');
  }
}
