/** The status parser of pkg/tc/parser.go: the text `tc -s filter show`
    prints becomes one record per installed filter, each with its actions
    and their counters.

    `ParseFilterStats` is the single pass over the lines that the source
    runs, with the open filter, the open action and the statistics flag as
    local state. Its specification is `ParseSpec`, a fold of `Step` over
    the lines followed by `Finish`; the facts about the parse are proved
    about that fold. */
module TcParser {
  import opened Wrappers
  import opened GoText
  import opened Patterns

  /** ActionStats: the counters are int64 in the source; every value the
      parser stores comes from ParseInt and so lies in that range. */
  datatype ActionStats = ActionStats(
    kind: string, operation: string, targetDev: string,
    packets: int, bytes: int, dropped: int, overlimits: int, requeues: int,
    backlogBytes: int, backlogPkts: int,
    installed: string, used: string)

  const FreshAction := ActionStats("", "", "", 0, 0, 0, 0, 0, 0, 0, "", "")

  /** FilterStats. */
  datatype FilterStats = FilterStats(
    protocol: string, priority: int, handle: string, chain: int, matchType: string,
    matches: map<string, string>, actions: seq<ActionStats>)

  const FreshFilter := FilterStats("", 0, "", 0, "", map[], [])

  // ---------------------------------------------------------------------
  // Filter header lines

  /** A line that opens a filter record. */
  predicate IsHeaderLine(line: string)
  {
    HasPrefix(line, "filter protocol") && Contains(line, "handle")
  }

  /** The word after the last occurrence of key among parts[..n] that has
      a successor. */
  function LastWordAfter(parts: seq<string>, key: string, n: nat): Option<string>
    requires n <= |parts|
  {
    if n == 0 then None
    else if parts[n - 1] == key && n < |parts| then Some(parts[n])
    else LastWordAfter(parts, key, n - 1)
  }

  /** The number after the last occurrence of key among parts[..n] whose
      successor reads as a number. */
  function LastNumberAfter(parts: seq<string>, key: string, n: nat): Option<int>
    requires n <= |parts|
  {
    if n == 0 then None
    else if parts[n - 1] == key && n < |parts| && ParseInt(parts[n]).Some? then ParseInt(parts[n])
    else LastNumberAfter(parts, key, n - 1)
  }

  predicate IsMatchKind(w: string)
  {
    w == "flower" || w == "u32" || w == "basic"
  }

  /** The last classifier name among parts[..n]. */
  function LastKind(parts: seq<string>, n: nat): Option<string>
    requires n <= |parts|
  {
    if n == 0 then None
    else if IsMatchKind(parts[n - 1]) then Some(parts[n - 1])
    else LastKind(parts, n - 1)
  }

  /** The header fields that the words parts[..n] determine. */
  function HeaderFromWords(parts: seq<string>, n: nat): FilterStats
    requires n <= |parts|
  {
    FreshFilter.(
      protocol := LastWordAfter(parts, "protocol", n).GetOr(""),
      priority := LastNumberAfter(parts, "pref", n).GetOr(0),
      handle := LastWordAfter(parts, "handle", n).GetOr(""),
      chain := LastNumberAfter(parts, "chain", n).GetOr(0),
      matchType := LastKind(parts, n).GetOr(""))
  }

  /** The record a header line opens: each field from the last occurrence
      of its keyword that carries a usable value. */
  function HeaderOf(line: string): FilterStats
  {
    var parts := Fields(line);
    HeaderFromWords(parts, |parts|)
  }

  lemma WordStep(parts: seq<string>, key: string, i: nat)
    requires i < |parts|
    ensures LastWordAfter(parts, key, i + 1)
            == if parts[i] == key && i + 1 < |parts| then Some(parts[i + 1]) else LastWordAfter(parts, key, i)
  {
  }

  lemma NumberStep(parts: seq<string>, key: string, i: nat)
    requires i < |parts|
    ensures LastNumberAfter(parts, key, i + 1)
            == if parts[i] == key && i + 1 < |parts| && ParseInt(parts[i + 1]).Some?
               then ParseInt(parts[i + 1]) else LastNumberAfter(parts, key, i)
  {
  }

  lemma KindStep(parts: seq<string>, i: nat)
    requires i < |parts|
    ensures LastKind(parts, i + 1) == if IsMatchKind(parts[i]) then Some(parts[i]) else LastKind(parts, i)
  {
  }

  lemma KeywordsDiffer()
    ensures "protocol" != "pref" && "protocol" != "handle" && "protocol" != "chain"
    ensures "pref" != "handle" && "pref" != "chain" && "handle" != "chain"
    ensures !IsMatchKind("protocol") && !IsMatchKind("pref") && !IsMatchKind("handle") && !IsMatchKind("chain")
  {
    assert "basic"[0] != "chain"[0];
  }

  /** The loop over the words of a header line. */
  method ParseHeader(line: string) returns (f: FilterStats)
    ensures f == HeaderOf(line)
  {
    var parts := Fields(line);
    f := FreshFilter;
    var i := 0;
    while i < |parts|
      invariant 0 <= i <= |parts|
      invariant f == HeaderFromWords(parts, i)
    {
      var word := parts[i];
      WordStep(parts, "protocol", i);
      NumberStep(parts, "pref", i);
      WordStep(parts, "handle", i);
      NumberStep(parts, "chain", i);
      KindStep(parts, i);
      KeywordsDiffer();
      if word == "protocol" {
        if i + 1 < |parts| {
          f := f.(protocol := parts[i + 1]);
        }
      } else if word == "pref" {
        if i + 1 < |parts| {
          var pref := ParseInt(parts[i + 1]);
          if pref.Some? {
            f := f.(priority := pref.value);
          }
        }
      } else if word == "handle" {
        if i + 1 < |parts| {
          f := f.(handle := parts[i + 1]);
        }
      } else if word == "chain" {
        if i + 1 < |parts| {
          var chain := ParseInt(parts[i + 1]);
          if chain.Some? {
            f := f.(chain := chain.value);
          }
        }
      } else if IsMatchKind(word) {
        f := f.(matchType := word);
      }
      i := i + 1;
    }
  }

  // ---------------------------------------------------------------------
  // Match lines

  /** An indented line outside the statistics block that does not mention
      an action. */
  predicate IsMatchLine(line: string, inActionStats: bool)
  {
    HasPrefix(line, "  ") && !Contains(line, "action") && !inActionStats
  }

  /** A match line: "key value..." stores the rest under the key, a bare
      word other than not_in_hw stores "true". */
  function AddMatch(f: FilterStats, line: string): FilterStats
  {
    var t := TrimSpace(line);
    if Contains(t, " ") then
      var parts := Fields(t);
      if |parts| >= 2 then f.(matches := f.matches[parts[0] := Join(parts[1..], " ")]) else f
    else if t != "" && t != "not_in_hw" then f.(matches := f.matches[t := "true"])
    else f
  }

  // ---------------------------------------------------------------------
  // Action lines

  const MirredPattern: seq<Piece> := [Lit("mirred ("), NotParen, Lit(")")]

  /** The action an "action order" line opens. */
  function NewAction(line: string): ActionStats
  {
    if Contains(line, "mirred") then
      var a := FreshAction.(kind := "mirred");
      match FindSubmatch(line, MirredPattern)
      case None => a
      case Some(caps) =>
        if |caps| < 1 then a
        else
          var op := Fields(caps[0]);
          var a' := if |op| >= 2 then a.(operation := op[0] + " " + op[1]) else a;
          if |op| >= 4 && op[2] == "to" && op[3] == "device" && |op| >= 5 then a'.(targetDev := op[4]) else a'
    else FreshAction
  }

  /** The two words after the last occurrence of key among parts[..n]
      that has two successors. */
  function LastPairAfter(parts: seq<string>, key: string, n: nat): Option<string>
    requires n <= |parts|
  {
    if n == 0 then None
    else if parts[n - 1] == key && n + 1 < |parts| then Some(parts[n] + " " + parts[n + 1])
    else LastPairAfter(parts, key, n - 1)
  }

  /** The times an "installed ... used ..." line reports. */
  function WithTimes(a: ActionStats, line: string): ActionStats
  {
    var parts := Fields(TrimSpace(line));
    a.(installed := LastPairAfter(parts, "installed", |parts|).GetOr(a.installed),
       used := LastPairAfter(parts, "used", |parts|).GetOr(a.used))
  }

  lemma PairStep(parts: seq<string>, key: string, i: nat)
    requires i < |parts|
    ensures LastPairAfter(parts, key, i + 1)
            == if parts[i] == key && i + 2 < |parts| then Some(parts[i + 1] + " " + parts[i + 2])
               else LastPairAfter(parts, key, i)
  {
  }

  /** The loop over the words of an "installed ... used ..." line. */
  method ParseTimes(a: ActionStats, line: string) returns (a': ActionStats)
    ensures a' == WithTimes(a, line)
  {
    var parts := Fields(TrimSpace(line));
    a' := a;
    var i := 0;
    while i < |parts|
      invariant 0 <= i <= |parts|
      invariant a' == a.(installed := LastPairAfter(parts, "installed", i).GetOr(a.installed),
                         used := LastPairAfter(parts, "used", i).GetOr(a.used))
    {
      PairStep(parts, "installed", i);
      PairStep(parts, "used", i);
      assert "installed" != "used";
      if parts[i] == "installed" && i + 2 < |parts| {
        a' := a'.(installed := parts[i + 1] + " " + parts[i + 2]);
      }
      if parts[i] == "used" && i + 2 < |parts| {
        a' := a'.(used := parts[i + 1] + " " + parts[i + 2]);
      }
      i := i + 1;
    }
  }

  // ---------------------------------------------------------------------
  // Statistics lines

  const SentPattern: seq<Piece> := [Lit("Sent "), Digits, Lit(" bytes "), Digits, Lit(" pkt")]
  const BacklogPattern: seq<Piece> := [Lit("backlog "), Digits, Lit("b "), Digits, Lit("p")]

  /** `<word> (\d+)`: the number after the leftmost "<word> " followed by a
      digit, when it fits in int64. */
  function CounterAfter(line: string, word: string): Option<int>
  {
    match FindSubmatch(line, [Lit(word + " "), Digits])
    case None => None
    case Some(caps) => if |caps| == 1 then ParseInt(caps[0]) else None
  }

  /** A "Sent" line: bytes and packets from one pattern, then dropped,
      overlimits and requeues each on its own. A number that does not fit
      leaves its counter as it was. */
  function WithSent(a: ActionStats, line: string): ActionStats
  {
    var t := TrimSpace(line);
    var a1 :=
      match FindSubmatch(t, SentPattern)
      case None => a
      case Some(caps) =>
        if |caps| == 2 then a.(bytes := ParseInt(caps[0]).GetOr(a.bytes), packets := ParseInt(caps[1]).GetOr(a.packets))
        else a;
    a1.(dropped := CounterAfter(t, "dropped").GetOr(a1.dropped),
        overlimits := CounterAfter(t, "overlimits").GetOr(a1.overlimits),
        requeues := CounterAfter(t, "requeues").GetOr(a1.requeues))
  }

  /** A "backlog" line: the queued bytes and packets. */
  function WithBacklog(a: ActionStats, line: string): ActionStats
  {
    var t := TrimSpace(line);
    match FindSubmatch(t, BacklogPattern)
    case None => a
    case Some(caps) =>
      if |caps| == 2 then a.(backlogBytes := ParseInt(caps[0]).GetOr(a.backlogBytes),
                             backlogPkts := ParseInt(caps[1]).GetOr(a.backlogPkts))
      else a
  }

  // ---------------------------------------------------------------------
  // The pass over the lines, as a fold

  /** The local state of the pass: the records finished so far, the open
      filter, the open action and whether the action's statistics block
      is being read. */
  datatype ParserState = ParserState(
    done: seq<FilterStats>, current: Option<FilterStats>, action: Option<ActionStats>, inActionStats: bool)

  const Start := ParserState([], None, None, false)

  /** The open filter with the open action, if any, appended. */
  function Closed(f: FilterStats, action: Option<ActionStats>): FilterStats
  {
    if action.Some? then f.(actions := f.actions + [action.value]) else f
  }

  /** The effect of one line, in the order the source tests its cases. */
  function Step(st: ParserState, raw: string): ParserState
  {
    var line := TrimRightCRLF(raw);
    if IsHeaderLine(line) then
      ParserState(
        if st.current.Some? then st.done + [Closed(st.current.value, st.action)] else st.done,
        Some(HeaderOf(line)),
        if st.current.Some? then None else st.action,
        st.inActionStats)
    else if st.current.None? then st
    else if IsMatchLine(line, st.inActionStats) then
      st.(current := Some(AddMatch(st.current.value, line)))
    else if Contains(line, "action order") then
      ParserState(st.done, Some(Closed(st.current.value, st.action)), Some(NewAction(line)), false)
    else if st.action.Some? && Contains(line, "installed") && Contains(line, "used") then
      st.(action := Some(WithTimes(st.action.value, line)))
    else if Contains(line, "Action statistics:") then
      st.(inActionStats := true)
    else if st.inActionStats && st.action.Some? && Contains(line, "Sent") then
      st.(action := Some(WithSent(st.action.value, line)))
    else if st.inActionStats && st.action.Some? && Contains(line, "backlog") then
      st.(action := Some(WithBacklog(st.action.value, line)), inActionStats := false)
    else st
  }

  /** The state after all of lines, from the start state. */
  function ScanAll(lines: seq<string>): ParserState
  {
    if lines == [] then Start else Step(ScanAll(lines[..|lines| - 1]), lines[|lines| - 1])
  }

  /** The records once the input ends: the open filter is flushed with
      its open action. */
  function Finish(st: ParserState): seq<FilterStats>
  {
    if st.current.Some? then st.done + [Closed(st.current.value, st.action)] else st.done
  }

  /** Scanning one more line is one more step. */
  lemma ScanOneMore(lines: seq<string>, i: nat)
    requires i < |lines|
    ensures ScanAll(lines[..i + 1]) == Step(ScanAll(lines[..i]), lines[i])
  {
    assert lines[..i + 1][..i] == lines[..i];
  }

  /** What ParseFilterStats returns. */
  function ParseSpec(output: string): seq<FilterStats>
  {
    if TrimSpace(output) == "" then [] else Finish(ScanAll(SplitLines(output)))
  }

  /** The body of the source's loop: one line applied to the local state. */
  method ParseLine(filters: seq<FilterStats>, current: Option<FilterStats>, action: Option<ActionStats>,
                   inActionStats: bool, raw: string)
    returns (filters': seq<FilterStats>, current': Option<FilterStats>, action': Option<ActionStats>,
             inActionStats': bool)
    ensures ParserState(filters', current', action', inActionStats')
            == Step(ParserState(filters, current, action, inActionStats), raw)
  {
    filters', current', action', inActionStats' := filters, current, action, inActionStats;
    var line := TrimRightCRLF(raw);
    if IsHeaderLine(line) {
      if current'.Some? && action'.Some? {
        current' := Some(current'.value.(actions := current'.value.actions + [action'.value]));
        action' := None;
      }
      if current'.Some? {
        filters' := filters' + [current'.value];
      }
      var header := ParseHeader(line);
      current' := Some(header);
    } else if current'.None? {
    } else if IsMatchLine(line, inActionStats') {
      current' := Some(AddMatch(current'.value, line));
    } else if Contains(line, "action order") {
      if action'.Some? {
        current' := Some(current'.value.(actions := current'.value.actions + [action'.value]));
      }
      action' := Some(NewAction(line));
      inActionStats' := false;
    } else if action'.Some? && Contains(line, "installed") && Contains(line, "used") {
      var timed := ParseTimes(action'.value, line);
      action' := Some(timed);
    } else if Contains(line, "Action statistics:") {
      inActionStats' := true;
    } else if inActionStats' && action'.Some? && Contains(line, "Sent") {
      action' := Some(WithSent(action'.value, line));
    } else if inActionStats' && action'.Some? && Contains(line, "backlog") {
      action' := Some(WithBacklog(action'.value, line));
      inActionStats' := false;
    }
  }

  /** ParseFilterStats: one pass over the lines. The error result is
      always None, as in the source. */
  method ParseFilterStats(output: string) returns (filters: seq<FilterStats>, err: Option<string>)
    ensures err.None?
    ensures filters == ParseSpec(output)
  {
    err := None;
    if TrimSpace(output) == "" {
      filters := [];
      return;
    }
    var lines := SplitLines(output);
    filters := [];
    var current: Option<FilterStats> := None;
    var action: Option<ActionStats> := None;
    var inActionStats := false;
    var i := 0;
    while i < |lines|
      invariant 0 <= i <= |lines|
      invariant ParserState(filters, current, action, inActionStats) == ScanAll(lines[..i])
    {
      ScanOneMore(lines, i);
      filters, current, action, inActionStats := ParseLine(filters, current, action, inActionStats, lines[i]);
      i := i + 1;
    }
    assert lines[..|lines|] == lines;
    if current.Some? {
      if action.Some? {
        current := Some(current.value.(actions := current.value.actions + [action.value]));
      }
      filters := filters + [current.value];
    }
  }

  // ---------------------------------------------------------------------
  // FormatBytes

  function Pow1024(e: nat): (p: nat)
    ensures p >= 1
  {
    if e == 0 then 1 else 1024 * Pow1024(e - 1)
  }

  /** How often n can be divided by 1024 before it drops below 1024. */
  function Log1024(n: nat): nat
  {
    if n < 1024 then 0 else 1 + Log1024(n / 1024)
  }

  /** num / den rounded to the nearest integer, ties to even. */
  function RoundHalfEven(num: nat, den: nat): nat
    requires den > 0
  {
    var q := num / den;
    var twice := 2 * (num % den);
    if twice > den then q + 1
    else if twice < den then q
    else if q % 2 == 0 then q else q + 1
  }

  /** "%.1f <unit>B" of bytes / div: bytes / div to one decimal. */
  function ScaledText(bytes: nat, div: nat, unit: char): string
    requires div > 0
  {
    var tenths := RoundHalfEven(bytes * 10, div);
    Itoa(tenths / 10) + "." + [('0' as int + tenths % 10) as char] + " " + [unit] + "B"
  }

  const UnitLetters := "KMGTPE"

  /** The index of the unit letter: the number of divisions by 1024 that
      the source's loop makes. */
  function UnitIndex(bytes: int): nat
    requires bytes >= 1024
  {
    Log1024(bytes / 1024)
  }

  /** Dividing the quotient by 1024 keeps bytes between consecutive
      multiples of the divisor, which grows by 1024. */
  lemma Rescale(bytes: int, n: nat, div: nat)
    requires div > 0 && n >= 1024
    requires n * div <= bytes < (n + 1) * div
    ensures (n / 1024) * (div * 1024) <= bytes < (n / 1024 + 1) * (div * 1024)
  {
    var m := n / 1024;
    assert m * 1024 <= n < m * 1024 + 1024;
    ScaleLe(m * 1024, n, div);
    ScaleLe(n + 1, m * 1024 + 1024, div);
    assert m * (div * 1024) == (m * 1024) * div;
    assert (m + 1) * (div * 1024) == (m * 1024 + 1024) * div;
  }

  lemma ScaleLe(a: int, b: int, c: nat)
    requires a <= b
    ensures a * c <= b * c
  {
  }

  lemma {:induction false} Pow1024Grows(e: nat, f: nat)
    requires e <= f
    ensures Pow1024(e) <= Pow1024(f)
    decreases f
  {
    if e < f {
      Pow1024Grows(e, f - 1);
    }
  }

  /** An int64 count is below 1024^7, so the unit letter exists. */
  lemma PowWithinInt64(e: nat)
    requires Pow1024(e) <= Int64Max
    ensures e <= 6
  {
    if e >= 7 {
      Pow1024Grows(7, e);
    }
  }

  lemma DivisorWithin(bytes: int, m: nat, d: nat)
    requires m >= 1 && d > 0 && m * d <= bytes
    ensures d <= bytes
  {
    assert d <= m * d;
  }

  /** Once the quotient is below 1024, the divisor brackets the count. */
  lemma Bracketed(bytes: int, n: nat, div: nat)
    requires div > 0 && 1 <= n < 1024
    requires n * div <= bytes < (n + 1) * div
    ensures div <= bytes < div * 1024
  {
    assert div <= n * div;
    assert (n + 1) * div <= 1024 * div;
  }

  /** FormatBytes: below 1024 the plain count, otherwise the count divided
      by the largest power 1024^(e+1) that does not exceed it, tagged with
      the e-th of the letters KMGTPE. */
  method FormatBytes(bytes: int) returns (r: string)
    requires Int64Min <= bytes <= Int64Max
    ensures bytes < 1024 ==> r == Itoa(bytes) + " B"
    ensures bytes >= 1024 ==>
              && UnitIndex(bytes) < |UnitLetters|
              && Pow1024(UnitIndex(bytes) + 1) <= bytes < Pow1024(UnitIndex(bytes) + 2)
              && r == ScaledText(bytes, Pow1024(UnitIndex(bytes) + 1), UnitLetters[UnitIndex(bytes)])
  {
    if bytes < 1024 {
      return Itoa(bytes) + " B";
    }
    var div := 1024;
    var exp := 0;
    var n := bytes / 1024;
    while n >= 1024
      invariant div == Pow1024(exp + 1) && div <= bytes
      invariant n >= 1 && n * div <= bytes < (n + 1) * div
      invariant exp + Log1024(n) == UnitIndex(bytes)
      invariant exp < |UnitLetters|
      decreases n
    {
      Rescale(bytes, n, div);
      DivisorWithin(bytes, n / 1024, div * 1024);
      PowWithinInt64(exp + 2);
      div := div * 1024;
      exp := exp + 1;
      n := n / 1024;
    }
    Bracketed(bytes, n, div);
    r := ScaledText(bytes, div, UnitLetters[exp]);
  }

  // ---------------------------------------------------------------------
  // GetMatchDescription

  /** The labelled value of a key, when the match has it. */
  function Labelled(m: map<string, string>, key: string, tag: string): seq<string>
  {
    if key in m then [tag + m[key]] else []
  }

  /** 1 when the key is present, 0 otherwise. */
  function Present(m: map<string, string>, key: string): nat
  {
    if key in m then 1 else 0
  }

  /** The words of the description, in the source's fixed order: one per
      key present, in the order protocol (upper-cased), src=, dst=, sport=,
      dport=. */
  function DescriptionParts(m: map<string, string>): (r: seq<string>)
    ensures var a, b, c, d, e := Present(m, "ip_proto"), Present(m, "src_ip"), Present(m, "dst_ip"),
                                 Present(m, "src_port"), Present(m, "dst_port");
            && |r| == a + b + c + d + e
            && ("ip_proto" in m ==> r[0] == ToUpper(m["ip_proto"]))
            && ("src_ip" in m ==> r[a] == "src=" + m["src_ip"])
            && ("dst_ip" in m ==> r[a + b] == "dst=" + m["dst_ip"])
            && ("src_port" in m ==> r[a + b + c] == "sport=" + m["src_port"])
            && ("dst_port" in m ==> r[a + b + c + d] == "dport=" + m["dst_port"])
    ensures r == [] <==>
              "ip_proto" !in m && "src_ip" !in m && "dst_ip" !in m && "src_port" !in m && "dst_port" !in m
  {
    var a, b, c, d := Present(m, "ip_proto"), Present(m, "src_ip"), Present(m, "dst_ip"), Present(m, "src_port");
    var s0 := if "ip_proto" in m then [ToUpper(m["ip_proto"])] else [];
    var s1 := s0 + Labelled(m, "src_ip", "src=");
    assert |s1| == a + b && ("src_ip" in m ==> s1[a] == "src=" + m["src_ip"]);
    var s2 := s1 + Labelled(m, "dst_ip", "dst=");
    assert |s2| == a + b + c && ("dst_ip" in m ==> s2[a + b] == "dst=" + m["dst_ip"]);
    var s3 := s2 + Labelled(m, "src_port", "sport=");
    assert |s3| == a + b + c + d && ("src_port" in m ==> s3[a + b + c] == "sport=" + m["src_port"]);
    s3 + Labelled(m, "dst_port", "dport=")
  }

  /** GetMatchDescription. */
  function GetMatchDescription(f: FilterStats): (r: string)
    ensures DescriptionParts(f.matches) == [] ==> r == "ALL"
  {
    var parts := DescriptionParts(f.matches);
    if |parts| == 0 then "ALL" else Join(parts, " ")
  }

  /** Upper-casing keeps a word a word. */
  lemma {:induction false} UpperWord(w: string)
    requires IsWord(w)
    ensures IsWord(ToUpper(w))
    decreases |w|
  {
    if |w| > 1 {
      assert IsWord(w[1..]) by {
        forall i | 0 <= i < |w[1..]|
          ensures !IsSpace(w[1..][i])
        {
          assert w[1..][i] == w[i + 1];
        }
      }
      UpperWord(w[1..]);
      var h := ToUpper(w)[0];
      assert !IsSpace(h);
      assert ToUpper(w) == [h] + ToUpper(w[1..]);
      forall i | 0 <= i < |ToUpper(w)|
        ensures !IsSpace(ToUpper(w)[i])
      {
        if i > 0 {
          assert ToUpper(w)[i] == ToUpper(w[1..])[i - 1];
        }
      }
    } else {
      assert ToUpper(w) == [ToUpper(w)[0]] + ToUpper(w[1..]);
      assert w[1..] == [];
    }
  }

  /** A tag without blanks before a word gives a word. */
  lemma TaggedWord(tag: string, w: string)
    requires forall i :: 0 <= i < |tag| ==> !IsSpace(tag[i])
    requires IsWord(w)
    ensures IsWord(tag + w)
  {
    forall i | 0 <= i < |tag + w|
      ensures !IsSpace((tag + w)[i])
    {
      if i >= |tag| {
        assert (tag + w)[i] == w[i - |tag|];
      }
    }
  }

  /** A labelled entry of single-word values is a single word. */
  lemma LabelledWord(m: map<string, string>, key: string, tag: string)
    requires forall k :: k in m ==> IsWord(m[k])
    requires forall i :: 0 <= i < |tag| ==> !IsSpace(tag[i])
    ensures forall i :: 0 <= i < |Labelled(m, key, tag)| ==> IsWord(Labelled(m, key, tag)[i])
  {
    if key in m {
      TaggedWord(tag, m[key]);
    }
  }

  /** Every entry of two lists of words is a word. */
  lemma AllWords(a: seq<string>, b: seq<string>)
    requires forall i :: 0 <= i < |a| ==> IsWord(a[i])
    requires forall i :: 0 <= i < |b| ==> IsWord(b[i])
    ensures forall i :: 0 <= i < |a + b| ==> IsWord((a + b)[i])
  {
  }

  /** With single-word values, every part of the description is a word. */
  lemma PartsAreWords(m: map<string, string>)
    requires forall k :: k in m ==> IsWord(m[k])
    ensures forall i :: 0 <= i < |DescriptionParts(m)| ==> IsWord(DescriptionParts(m)[i])
  {
    var p0: seq<string> := if "ip_proto" in m then [ToUpper(m["ip_proto"])] else [];
    if "ip_proto" in m {
      UpperWord(m["ip_proto"]);
    }
    var l1, l2, l3, l4 := Labelled(m, "src_ip", "src="), Labelled(m, "dst_ip", "dst="),
                          Labelled(m, "src_port", "sport="), Labelled(m, "dst_port", "dport=");
    LabelledWord(m, "src_ip", "src=");
    LabelledWord(m, "dst_ip", "dst=");
    LabelledWord(m, "src_port", "sport=");
    LabelledWord(m, "dst_port", "dport=");
    AllWords(p0, l1);
    AllWords(p0 + l1, l2);
    AllWords(p0 + l1 + l2, l3);
    AllWords(p0 + l1 + l2 + l3, l4);
  }

  /** When every matched value is a single word, splitting the description
      at blanks gives back its parts, or the one word ALL when the filter
      matches on none of the five keys. */
  lemma DescriptionWords(f: FilterStats)
    requires forall k :: k in f.matches ==> IsWord(f.matches[k])
    ensures Fields(GetMatchDescription(f))
            == if DescriptionParts(f.matches) == [] then ["ALL"] else DescriptionParts(f.matches)
  {
    if DescriptionParts(f.matches) == [] {
      FieldsOfWord("ALL", "");
      assert "ALL" + "" == "ALL";
    } else {
      PartsAreWords(f.matches);
      FieldsJoin(DescriptionParts(f.matches));
    }
  }

}
