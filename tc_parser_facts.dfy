/** What the status parser guarantees, proved about its specification
    `TcParser.ParseSpec`: one record per filter header line, in order,
    each holding one action per "action order" line of its block, in
    order; the header and match fields it stores; and the counters it
    reads from the statistics lines. */
module TcParserFacts {
  import opened Wrappers
  import opened GoText
  import opened SeqFacts
  import opened Patterns
  import opened TcParser

  // ---------------------------------------------------------------------
  // The outline of a parse: headers and the actions' identities

  /** What an action line alone decides about an action. */
  datatype ActionHead = ActionHead(kind: string, operation: string, targetDev: string)

  /** A record without its matches and counters. */
  datatype Outline = Outline(header: FilterStats, heads: seq<ActionHead>)

  function HeadOf(a: ActionStats): ActionHead
  {
    ActionHead(a.kind, a.operation, a.targetDev)
  }

  function Heads(actions: seq<ActionStats>): (r: seq<ActionHead>)
    ensures |r| == |actions|
  {
    if actions == [] then [] else Heads(actions[..|actions| - 1]) + [HeadOf(actions[|actions| - 1])]
  }

  function OutlineOf(f: FilterStats): Outline
  {
    Outline(f.(matches := map[], actions := []), Heads(f.actions))
  }

  function Outlines(records: seq<FilterStats>): (r: seq<Outline>)
    ensures |r| == |records|
  {
    if records == [] then [] else Outlines(records[..|records| - 1]) + [OutlineOf(records[|records| - 1])]
  }

  /** The reference: a record opens at each header line, and each
      "action order" line after the first header adds one action, read
      from that line alone, to the latest record. */
  function Skeleton(lines: seq<string>): seq<Outline>
  {
    if lines == [] then []
    else
      var o := Skeleton(lines[..|lines| - 1]);
      var line := TrimRightCRLF(lines[|lines| - 1]);
      if IsHeaderLine(line) then o + [Outline(HeaderOf(line), [])]
      else if o != [] && Contains(line, "action order") then
        o[..|o| - 1] + [Outline(o[|o| - 1].header, o[|o| - 1].heads + [HeadOf(NewAction(line))])]
      else o
  }

  /** The states the pass can reach: no open action without an open
      filter, and no finished record before the first header. */
  predicate Reachable(st: ParserState)
  {
    st.current.None? ==> st.done == [] && st.action.None?
  }

  lemma HeadsAppend(actions: seq<ActionStats>, a: ActionStats)
    ensures Heads(actions + [a]) == Heads(actions) + [HeadOf(a)]
  {
    assert (actions + [a])[..|actions|] == actions;
  }

  lemma OutlinesAppend(records: seq<FilterStats>, f: FilterStats)
    ensures Outlines(records + [f]) == Outlines(records) + [OutlineOf(f)]
  {
    assert (records + [f])[..|records|] == records;
  }

  /** The outline of the open record after its open action is closed. */
  lemma ClosedOutline(f: FilterStats, action: Option<ActionStats>)
    ensures OutlineOf(Closed(f, action)).header == OutlineOf(f).header
    ensures OutlineOf(Closed(f, action)).heads
            == Heads(f.actions) + (if action.Some? then [HeadOf(action.value)] else [])
  {
    if action.Some? {
      HeadsAppend(f.actions, action.value);
    }
  }

  /** A line that changes neither the records' headers nor the actions'
      identities leaves the outline alone. */
  lemma SameOutline(st: ParserState, st': ParserState)
    requires st.current.Some? && st'.current.Some? && st'.done == st.done
    requires OutlineOf(st'.current.value).header == OutlineOf(st.current.value).header
    requires st'.current.value.actions == st.current.value.actions
    requires st.action.Some? <==> st'.action.Some?
    requires st.action.Some? ==> HeadOf(st'.action.value) == HeadOf(st.action.value)
    ensures Outlines(Finish(st')) == Outlines(Finish(st))
  {
    ClosedOutline(st.current.value, st.action);
    ClosedOutline(st'.current.value, st'.action);
    OutlinesAppend(st.done, Closed(st.current.value, st.action));
    OutlinesAppend(st.done, Closed(st'.current.value, st'.action));
  }

  lemma StepHeaderOutline(st: ParserState, raw: string)
    requires Reachable(st)
    requires IsHeaderLine(TrimRightCRLF(raw))
    ensures Reachable(Step(st, raw))
    ensures Outlines(Finish(Step(st, raw))) == Outlines(Finish(st)) + [Outline(HeaderOf(TrimRightCRLF(raw)), [])]
  {
    var line := TrimRightCRLF(raw);
    var st' := Step(st, raw);
    assert Finish(st') == Finish(st) + [HeaderOf(line)];
    OutlinesAppend(Finish(st), HeaderOf(line));
  }

  lemma StepActionOutline(st: ParserState, raw: string)
    requires Reachable(st) && st.current.Some?
    requires !IsHeaderLine(TrimRightCRLF(raw)) && Contains(TrimRightCRLF(raw), "action order")
    requires !IsMatchLine(TrimRightCRLF(raw), st.inActionStats)
    ensures Reachable(Step(st, raw))
    ensures var o := Outlines(Finish(st));
            o != [] &&
            Outlines(Finish(Step(st, raw)))
            == o[..|o| - 1] + [Outline(o[|o| - 1].header, o[|o| - 1].heads + [HeadOf(NewAction(TrimRightCRLF(raw)))])]
  {
    var line := TrimRightCRLF(raw);
    var cur := st.current.value;
    var st' := Step(st, raw);
    assert st' == ParserState(st.done, Some(Closed(cur, st.action)), Some(NewAction(line)), false);
    OutlinesAppend(st.done, Closed(cur, st.action));
    OutlinesAppend(st.done, Closed(Closed(cur, st.action), Some(NewAction(line))));
    ClosedOutline(cur, st.action);
    ClosedOutline(Closed(cur, st.action), Some(NewAction(line)));
  }

  /** A line that does not mention "action" is no action line. */
  lemma ActionOrderMentionsAction(line: string)
    ensures Contains(line, "action order") ==> Contains(line, "action")
  {
    if Contains(line, "action order") {
      assert "action" + " order" == "action order";
      ContainsPrefix(line, "action", " order");
    }
  }

  /** Below the match lines, a line other than "action order" keeps the
      open filter and the identity of the open action. */
  lemma StepKeepsOpenFilter(st: ParserState, raw: string)
    requires st.current.Some?
    requires !IsHeaderLine(TrimRightCRLF(raw)) && !IsMatchLine(TrimRightCRLF(raw), st.inActionStats)
    requires !Contains(TrimRightCRLF(raw), "action order")
    ensures Step(st, raw).done == st.done && Step(st, raw).current == st.current
    ensures Step(st, raw).action.Some? <==> st.action.Some?
    ensures st.action.Some? ==> HeadOf(Step(st, raw).action.value) == HeadOf(st.action.value)
  {
    var line := TrimRightCRLF(raw);
    var st' := Step(st, raw);
    if st.action.Some? && Contains(line, "installed") && Contains(line, "used") {
      assert st' == st.(action := Some(WithTimes(st.action.value, line)));
      TimesKeepHead(st.action.value, line);
    } else if Contains(line, "Action statistics:") {
      assert st' == st.(inActionStats := true);
    } else if st.inActionStats && st.action.Some? && Contains(line, "Sent") {
      assert st' == st.(action := Some(WithSent(st.action.value, line)));
      SentKeepsHead(st.action.value, line);
    } else if st.inActionStats && st.action.Some? && Contains(line, "backlog") {
      assert st' == st.(action := Some(WithBacklog(st.action.value, line)), inActionStats := false);
      BacklogKeepsHead(st.action.value, line);
    } else {
      assert st' == st;
    }
  }

  /** The statistics an action accumulates leave its kind, operation and
      target device alone. */
  lemma TimesKeepHead(a: ActionStats, line: string)
    ensures HeadOf(WithTimes(a, line)) == HeadOf(a)
  {
  }

  lemma SentKeepsHead(a: ActionStats, line: string)
    ensures HeadOf(WithSent(a, line)) == HeadOf(a)
  {
  }

  lemma BacklogKeepsHead(a: ActionStats, line: string)
    ensures HeadOf(WithBacklog(a, line)) == HeadOf(a)
  {
  }


  lemma StepOtherOutline(st: ParserState, raw: string)
    requires Reachable(st)
    requires !IsHeaderLine(TrimRightCRLF(raw))
    requires st.current.None? || !Contains(TrimRightCRLF(raw), "action order")
    ensures Reachable(Step(st, raw))
    ensures Outlines(Finish(Step(st, raw))) == Outlines(Finish(st))
  {
    var line := TrimRightCRLF(raw);
    var st' := Step(st, raw);
    if st.current.Some? {
      if IsMatchLine(line, st.inActionStats) {
        assert st' == st.(current := Some(AddMatch(st.current.value, line)));
      } else {
        StepKeepsOpenFilter(st, raw);
      }
      SameOutline(st, st');
    } else {
      assert st' == st;
    }
  }

  lemma {:induction false} ScanOutline(lines: seq<string>)
    ensures Reachable(ScanAll(lines))
    ensures Outlines(Finish(ScanAll(lines))) == Skeleton(lines)
  {
    if lines != [] {
      var init := lines[..|lines| - 1];
      var raw := lines[|lines| - 1];
      var line := TrimRightCRLF(raw);
      var st := ScanAll(init);
      ScanOutline(init);
      assert ScanAll(lines) == Step(st, raw);
      assert Skeleton(init) == [] <==> st.current.None?;
      if IsHeaderLine(line) {
        StepHeaderOutline(st, raw);
      } else if st.current.Some? && Contains(line, "action order") {
        ActionOrderMentionsAction(line);
        StepActionOutline(st, raw);
      } else {
        StepOtherOutline(st, raw);
      }
    }
  }

  /** ParseFilterStats keeps the headers and the action lines in source
      order: its records, stripped of matches and counters, are exactly
      the skeleton of the lines. Blank input gives no record. */
  lemma ParseOutline(output: string)
    ensures TrimSpace(output) == "" ==> ParseSpec(output) == []
    ensures TrimSpace(output) != "" ==> Outlines(ParseSpec(output)) == Skeleton(SplitLines(output))
  {
    ScanOutline(SplitLines(output));
  }

  /** The lines that open a record, in order. */
  function HeaderLines(lines: seq<string>): seq<string>
  {
    if lines == [] then []
    else
      var line := TrimRightCRLF(lines[|lines| - 1]);
      HeaderLines(lines[..|lines| - 1]) + (if IsHeaderLine(line) then [line] else [])
  }

  /** One outline per header line, with that line's header. */
  /** Replacing the last outline by one with the same header keeps
      every header. */
  lemma SameHeaders(o: seq<Outline>, last: Outline)
    requires o != [] && last.header == o[|o| - 1].header
    ensures |o[..|o| - 1] + [last]| == |o|
    ensures forall k :: 0 <= k < |o| ==> (o[..|o| - 1] + [last])[k].header == o[k].header
  {
  }

  lemma {:induction false} SkeletonHeaders(lines: seq<string>)
    ensures |Skeleton(lines)| == |HeaderLines(lines)|
    ensures forall k :: 0 <= k < |Skeleton(lines)| ==> Skeleton(lines)[k].header == HeaderOf(HeaderLines(lines)[k])
  {
    if lines != [] {
      var init := lines[..|lines| - 1];
      var line := TrimRightCRLF(lines[|lines| - 1]);
      var o := Skeleton(init);
      var h := HeaderLines(init);
      SkeletonHeaders(init);
      if IsHeaderLine(line) {
        assert Skeleton(lines) == o + [Outline(HeaderOf(line), [])];
        assert HeaderLines(lines) == h + [line];
      } else {
        assert HeaderLines(lines) == h;
        if o != [] && Contains(line, "action order") {
          var last := Outline(o[|o| - 1].header, o[|o| - 1].heads + [HeadOf(NewAction(line))]);
          assert Skeleton(lines) == o[..|o| - 1] + [last];
          SameHeaders(o, last);
        } else {
          assert Skeleton(lines) == o;
        }
      }
    }
  }

  /** The record count: exactly one record per line that starts with
      "filter protocol" and mentions "handle", with that line's header
      fields, in source order. */
  lemma RecordPerHeaderLine(output: string)
    requires TrimSpace(output) != ""
    ensures |ParseSpec(output)| == |HeaderLines(SplitLines(output))|
    ensures forall k :: 0 <= k < |ParseSpec(output)| ==>
              ParseSpec(output)[k].(matches := map[], actions := []) == HeaderOf(HeaderLines(SplitLines(output))[k])
  {
    var records := ParseSpec(output);
    ParseOutline(output);
    SkeletonHeaders(SplitLines(output));
    forall k | 0 <= k < |records|
      ensures records[k].(matches := map[], actions := []) == HeaderOf(HeaderLines(SplitLines(output))[k])
    {
      OutlinesAt(records, k);
    }
  }

  lemma {:induction false} OutlinesAt(records: seq<FilterStats>, k: nat)
    requires k < |records|
    ensures Outlines(records)[k] == OutlineOf(records[k])
  {
    if k < |records| - 1 {
      OutlinesAt(records[..|records| - 1], k);
    }
  }

  // ---------------------------------------------------------------------
  // Header fields

  lemma {:induction false} LastWordAt(parts: seq<string>, key: string, n: nat, i: nat)
    requires i < n <= |parts| && i + 1 < |parts| && parts[i] == key
    requires forall j :: i < j < n && j + 1 < |parts| ==> parts[j] != key
    ensures LastWordAfter(parts, key, n) == Some(parts[i + 1])
    decreases n
  {
    if n - 1 > i {
      LastWordAt(parts, key, n - 1, i);
    }
  }

  lemma {:induction false} LastNumberAt(parts: seq<string>, key: string, n: nat, i: nat)
    requires i < n <= |parts| && i + 1 < |parts| && parts[i] == key && ParseInt(parts[i + 1]).Some?
    requires forall j :: i < j < n && j + 1 < |parts| ==> parts[j] != key
    ensures LastNumberAfter(parts, key, n) == ParseInt(parts[i + 1])
    decreases n
  {
    if n - 1 > i {
      LastNumberAt(parts, key, n - 1, i);
    }
  }

  lemma {:induction false} LastKindAt(parts: seq<string>, n: nat, i: nat)
    requires i < n <= |parts| && IsMatchKind(parts[i])
    requires forall j :: i < j < n ==> !IsMatchKind(parts[j])
    ensures LastKind(parts, n) == Some(parts[i])
    decreases n
  {
    if n - 1 > i {
      LastKindAt(parts, n - 1, i);
    }
  }

  /** A number whose text never follows key leaves the field unset. */
  lemma {:induction false} NoNumberAfter(parts: seq<string>, key: string, n: nat)
    requires n <= |parts|
    requires forall i :: 0 <= i < n && i + 1 < |parts| && parts[i] == key ==> ParseInt(parts[i + 1]).None?
    ensures LastNumberAfter(parts, key, n).None?
  {
    if n > 0 {
      NoNumberAfter(parts, key, n - 1);
    }
  }

  /** The header line tc prints for a flower filter. */
  function HeaderLine(proto: string, pref: int, chain: int, handle: string): string
  {
    Join(["filter", "protocol", proto, "pref", Itoa(pref), "flower", "chain", Itoa(chain), "handle", handle], " ")
  }

  function HeaderWords(proto: string, pref: int, chain: int, handle: string): seq<string>
  {
    ["filter", "protocol", proto, "pref", Itoa(pref), "flower", "chain", Itoa(chain), "handle", handle]
  }

  lemma HeaderLineWords(proto: string, pref: int, chain: int, handle: string)
    requires IsWord(proto) && IsWord(handle)
    ensures Fields(HeaderLine(proto, pref, chain, handle)) == HeaderWords(proto, pref, chain, handle)
  {
    var words := HeaderWords(proto, pref, chain, handle);
    ItoaText(pref);
    ItoaText(chain);
    assert forall i :: 0 <= i < |words| ==> IsWord(words[i]);
    FieldsJoin(words);
  }

  lemma HeaderLineOpensRecord(proto: string, pref: int, chain: int, handle: string)
    ensures IsHeaderLine(HeaderLine(proto, pref, chain, handle))
  {
    var words := HeaderWords(proto, pref, chain, handle);
    var line := HeaderLine(proto, pref, chain, handle);
    JoinStarts(words);
    assert words[0] + " " + words[1] == "filter protocol";
    JoinContains(words, 8);
    assert words[8] == "handle";
  }

  /** The text of a number is none of the header's keywords. */
  lemma NumberIsNoKeyword(n: int)
    ensures Itoa(n) != "protocol" && Itoa(n) != "pref" && Itoa(n) != "chain" && !IsMatchKind(Itoa(n))
  {
    ItoaText(n);
    assert Itoa(n)[0] == '-' || IsDigit(Itoa(n)[0]);
  }

  lemma HeaderTextFields(proto: string, pref: int, chain: int, handle: string)
    requires proto != "protocol" && !IsMatchKind(handle)
    ensures LastWordAfter(HeaderWords(proto, pref, chain, handle), "protocol", 10) == Some(proto)
    ensures LastWordAfter(HeaderWords(proto, pref, chain, handle), "handle", 10) == Some(handle)
    ensures LastKind(HeaderWords(proto, pref, chain, handle), 10) == Some("flower")
  {
    var words := HeaderWords(proto, pref, chain, handle);
    NumberIsNoKeyword(pref);
    NumberIsNoKeyword(chain);
    LastWordAt(words, "protocol", 10, 1);
    LastWordAt(words, "handle", 10, 8);
    LastKindAt(words, 10, 5);
  }

  lemma PrefField(proto: string, pref: int, chain: int, handle: string)
    requires Int64Min <= pref <= Int64Max
    ensures LastNumberAfter(HeaderWords(proto, pref, chain, handle), "pref", 10) == Some(pref)
  {
    NumberIsNoKeyword(pref);
    NumberIsNoKeyword(chain);
    ParseIntItoa(pref);
    LastNumberAt(HeaderWords(proto, pref, chain, handle), "pref", 10, 3);
  }

  lemma ChainField(proto: string, pref: int, chain: int, handle: string)
    requires Int64Min <= chain <= Int64Max
    ensures LastNumberAfter(HeaderWords(proto, pref, chain, handle), "chain", 10) == Some(chain)
  {
    NumberIsNoKeyword(pref);
    NumberIsNoKeyword(chain);
    ParseIntItoa(chain);
    LastNumberAt(HeaderWords(proto, pref, chain, handle), "chain", 10, 6);
  }

  /** A printed header reads back as the fields it was printed from:
      protocol and handle take the following word, pref and chain the
      following number, and "flower" names the classifier. */
  lemma HeaderRoundTrip(proto: string, pref: int, chain: int, handle: string)
    requires IsWord(proto) && IsWord(handle) && proto != "protocol" && !IsMatchKind(handle)
    requires Int64Min <= pref <= Int64Max && Int64Min <= chain <= Int64Max
    ensures IsHeaderLine(HeaderLine(proto, pref, chain, handle))
    ensures HeaderOf(HeaderLine(proto, pref, chain, handle))
            == FreshFilter.(protocol := proto, priority := pref, handle := handle, chain := chain, matchType := "flower")
  {
    HeaderLineWords(proto, pref, chain, handle);
    HeaderLineOpensRecord(proto, pref, chain, handle);
    HeaderTextFields(proto, pref, chain, handle);
    PrefField(proto, pref, chain, handle);
    ChainField(proto, pref, chain, handle);
  }

  /** pref and chain stay 0 when no occurrence is followed by a number. */
  lemma UnreadableNumbers(line: string)
    ensures (forall i :: 0 <= i < |Fields(line)| - 1 && Fields(line)[i] == "pref" ==> ParseInt(Fields(line)[i + 1]).None?)
            ==> HeaderOf(line).priority == 0
    ensures (forall i :: 0 <= i < |Fields(line)| - 1 && Fields(line)[i] == "chain" ==> ParseInt(Fields(line)[i + 1]).None?)
            ==> HeaderOf(line).chain == 0
  {
    var parts := Fields(line);
    if forall i :: 0 <= i < |parts| - 1 && parts[i] == "pref" ==> ParseInt(parts[i + 1]).None? {
      NoNumberAfter(parts, "pref", |parts|);
    }
    if forall i :: 0 <= i < |parts| - 1 && parts[i] == "chain" ==> ParseInt(parts[i + 1]).None? {
      NoNumberAfter(parts, "chain", |parts|);
    }
  }

  // ---------------------------------------------------------------------
  // Match lines

  /** An indented match line: a key and its value words. */
  function MatchLineText(key: string, values: seq<string>): string
  {
    "  " + Join([key] + values, " ")
  }

  /** A match line in an open filter only changes the filter's matches. */
  lemma StepMatchLine(st: ParserState, line: string)
    requires st.current.Some? && TrimRightCRLF(line) == line
    requires line != [] && line[0] == ' ' && IsMatchLine(line, st.inActionStats)
    ensures Step(st, line) == st.(current := Some(AddMatch(st.current.value, line)))
  {
    assert !IsHeaderLine(line) by {
      assert line[0] != "filter protocol"[0];
    }
  }

  /** AddMatch on a key with value words stores the joined values. */
  lemma PairWords(key: string, values: seq<string>)
    requires IsWord(key) && |values| >= 1 && forall i :: 0 <= i < |values| ==> IsWord(values[i])
    ensures |[key] + values| > 1 && ([key] + values)[0] == key && ([key] + values)[1..] == values
    ensures forall i :: 0 <= i < |[key] + values| ==> IsWord(([key] + values)[i])
  {
  }

  /** A key joined to its values has a blank right after the key. */
  lemma PairHasBlank(key: string, values: seq<string>)
    requires |values| >= 1
    ensures Join([key] + values, " ") == key + (" " + Join(values, " "))
    ensures Contains(Join([key] + values, " "), " ")
  {
    var words := [key] + values;
    JoinCons(words);
    assert words[1..] == values;
    assert " " <= " " + Join(values, " ");
    ContainsInSuffix(key, " " + Join(values, " "), " ");
  }

  /** The indented pair line trims to the joined words. */
  lemma PairTrimmed(key: string, values: seq<string>)
    requires IsWord(key) && |values| >= 1 && forall i :: 0 <= i < |values| ==> IsWord(values[i])
    ensures TrimSpace(MatchLineText(key, values)) == Join([key] + values, " ")
    ensures TrimRightCRLF(MatchLineText(key, values)) == MatchLineText(key, values)
  {
    PairWords(key, values);
    IndentedWords([key] + values);
  }

  lemma IndentedWords(words: seq<string>)
    requires |words| >= 1 && forall i :: 0 <= i < |words| ==> IsWord(words[i])
    ensures TrimSpace("  " + Join(words, " ")) == Join(words, " ")
    ensures TrimRightCRLF("  " + Join(words, " ")) == "  " + Join(words, " ")
  {
    JoinEdges(words);
    Indented(Join(words, " "));
  }

  /** Two leading blanks are what TrimSpace removes. */
  lemma Indented(j: string)
    requires j != [] && !IsSpace(j[0]) && !IsSpace(j[|j| - 1])
    ensures TrimSpace("  " + j) == j && TrimRightCRLF("  " + j) == "  " + j
  {
    TrimIndented("  ", j);
  }

  lemma AddMatchPair(f: FilterStats, key: string, values: seq<string>)
    requires IsWord(key) && |values| >= 1 && forall i :: 0 <= i < |values| ==> IsWord(values[i])
    ensures TrimRightCRLF(MatchLineText(key, values)) == MatchLineText(key, values)
    ensures AddMatch(f, MatchLineText(key, values)) == f.(matches := f.matches[key := Join(values, " ")])
  {
    PairTrimmed(key, values);
    PairHasBlank(key, values);
    PairWords(key, values);
    FieldsJoin([key] + values);
  }


  /** Inside a filter block and outside a statistics block, a match line
      stores its value words, joined by single spaces, under its key; the
      rest of the state is unchanged. */
  lemma MatchLineStored(st: ParserState, key: string, values: seq<string>)
    requires st.current.Some? && !st.inActionStats
    requires IsWord(key) && |values| >= 1 && forall i :: 0 <= i < |values| ==> IsWord(values[i])
    requires !Contains(MatchLineText(key, values), "action")
    ensures Step(st, MatchLineText(key, values))
            == st.(current := Some(st.current.value.(matches := st.current.value.matches[key := Join(values, " ")])))
  {
    AddMatchPair(st.current.value, key, values);
    StepMatchLine(st, MatchLineText(key, values));
  }

  /** AddMatch on a single word stores "true", except for not_in_hw. */
  lemma AddMatchFlag(f: FilterStats, word: string)
    requires IsWord(word)
    ensures TrimRightCRLF("  " + word) == "  " + word
    ensures AddMatch(f, "  " + word)
            == if word == "not_in_hw" then f else f.(matches := f.matches[word := "true"])
  {
    TrimIndented("  ", word);
    assert ' ' !in word;
    MissingChar(word, " ", ' ');
  }

  /** A single-word match line stores "true" under the word, except for
      not_in_hw. */
  lemma FlagLineStored(st: ParserState, word: string)
    requires st.current.Some? && !st.inActionStats
    requires IsWord(word) && !Contains("  " + word, "action")
    ensures Step(st, "  " + word)
            == if word == "not_in_hw" then st
               else st.(current := Some(st.current.value.(matches := st.current.value.matches[word := "true"])))
  {
    AddMatchFlag(st.current.value, word);
    StepMatchLine(st, "  " + word);
  }

  /** A match line of blanks only stores nothing. */
  lemma BlankLineIgnored(st: ParserState)
    requires st.current.Some? && !st.inActionStats
    ensures Step(st, "  ") == st
  {
    BlankText();
    BlankAddsNothing(st.current.value);
    StepMatchLine(st, "  ");
  }

  lemma BlankText()
    ensures TrimSpace("  ") == "" && TrimRightCRLF("  ") == "  " && !Contains("  ", "action")
  {
    BlankTrimmed();
    assert "  "[1] == ' ';
    MissingChar("  ", "action", 'a');
  }

  lemma BlankTrimmed()
    ensures TrimSpace("  ") == ""
  {
    var b := "  ";
    assert IsSpace(b[0]) && b[1..] == " ";
    assert IsSpace(b[1..][0]) && b[1..][1..] == "";
    assert TrimLeft(b) == "";
  }


  lemma BlankAddsNothing(f: FilterStats)
    ensures AddMatch(f, "  ") == f
  {
    BlankText();
  }


  // ---------------------------------------------------------------------
  // Action lines

  /** An "action order" line's mirred phrase, "mirred (" words ")", after
      a prefix u and before a suffix rest. */
  function MirredLine(u: string, words: seq<string>, rest: string): string
  {
    u + "mirred (" + Join(words, " ") + ")" + rest
  }

  /** The mirred pattern is well formed and prints a phrase in
      parentheses after the word mirred. */
  lemma MirredRendered(phrase: string)
    requires phrase != [] && ')' !in phrase
    ensures WellFormed(MirredPattern) && Fits(MirredPattern, [phrase])
    ensures Render(MirredPattern, [phrase]) == "mirred (" + phrase + ")"
  {
    var pat := MirredPattern;
    assert WellFormed(pat) by {
      assert !InClass(NotParen, ")"[0]);
    }
    assert pat[1..] == [NotParen, Lit(")")] && pat[1..][1..] == [Lit(")")] && pat[1..][1..][1..] == [];
    assert [phrase][1..] == [];
  }

  lemma MirredAtStart(phrase: string, rest: string)
    requires phrase != [] && ')' !in phrase
    ensures FindSubmatch("mirred (" + phrase + ")" + rest, MirredPattern) == Some([phrase])
  {
    MirredRendered(phrase);
    MatchRender(MirredPattern, [phrase], rest);
  }

  /** The mirred pattern captures the parenthesised phrase when the text
      before it holds no 'm'. */
  lemma MirredCaptured(u: string, phrase: string, rest: string)
    requires forall i :: 0 <= i < |u| ==> u[i] != 'm'
    requires phrase != [] && ')' !in phrase
    ensures FindSubmatch(u + "mirred (" + phrase + ")" + rest, MirredPattern) == Some([phrase])
  {
    var v := "mirred (" + phrase + ")" + rest;
    MirredAtStart(phrase, rest);
    assert MirredPattern[0].text[0] == 'm';
    FindSkip(u, v, MirredPattern);
    RegroupFour(u, "mirred (", phrase, ")", rest);
  }

  /** A line holding a mirred phrase mentions mirred. */
  lemma MirredMentioned(u: string, phrase: string, rest: string)
    ensures Contains(u + "mirred (" + phrase + ")" + rest, "mirred")
  {
    var line := u + "mirred (" + phrase + ")" + rest;
    var v := "mirred (" + phrase + ")" + rest;
    assert line == u + v;
    assert v[..6] == "mirred";
    assert line[|u|..|u| + 6] == v[..6];
    ContainsAt(line, "mirred", |u|);
  }

  /** What NewAction makes of a captured mirred phrase. */
  lemma NewActionOfPhrase(line: string, phrase: string)
    requires Contains(line, "mirred") && FindSubmatch(line, MirredPattern) == Some([phrase])
    ensures var op := Fields(phrase);
            NewAction(line)
            == FreshAction.(kind := "mirred",
                            operation := if |op| >= 2 then op[0] + " " + op[1] else "",
                            targetDev := if |op| >= 5 && op[2] == "to" && op[3] == "device" then op[4] else "")
  {
  }

  /** An action line with a mirred phrase opens a mirred action whose
      operation is the phrase's first two words and whose target device
      is the fifth word when the third and fourth are "to device"; its
      counters and times are empty. */
  lemma MirredAction(u: string, words: seq<string>, rest: string)
    requires forall i :: 0 <= i < |u| ==> u[i] != 'm'
    requires |words| >= 1 && forall i :: 0 <= i < |words| ==> IsWord(words[i])
    requires ')' !in Join(words, " ")
    ensures NewAction(MirredLine(u, words, rest))
            == FreshAction.(kind := "mirred",
                            operation := if |words| >= 2 then words[0] + " " + words[1] else "",
                            targetDev := if |words| >= 5 && words[2] == "to" && words[3] == "device" then words[4] else "")
  {
    var line := MirredLine(u, words, rest);
    var phrase := Join(words, " ");
    assert line == u + "mirred (" + phrase + ")" + rest;
    JoinEdges(words);
    MirredCaptured(u, phrase, rest);
    MirredMentioned(u, phrase, rest);
    FieldsJoin(words);
    NewActionOfPhrase(line, phrase);
  }

  /** An action line that does not mention mirred opens an action with no
      kind, operation or device. */
  lemma OtherAction(line: string)
    requires !Contains(line, "mirred")
    ensures NewAction(line).kind == "" && NewAction(line).targetDev == ""
  {
  }
}
