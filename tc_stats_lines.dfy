/** The statistics lines of an action, as tc prints them, and what the
    parser reads back from them: the "Sent" line's five counters, the
    "backlog" line's two, and the sub-state that gates both. */
module TcStatsLines {
  import opened Wrappers
  import opened GoText
  import opened SeqFacts
  import opened Patterns
  import opened TcParser

  /** A counter tc prints: a non-negative int64. */
  predicate Counter(n: int)
  {
    0 <= n <= Int64Max
  }

  /** No character of s is c. */
  predicate Lacks(s: string, c: char)
  {
    forall i :: 0 <= i < |s| ==> s[i] != c
  }

  /** The tail of a "Sent" line from "requeues" on. */
  function RequeuesTail(q: int): string
  {
    "requeues " + Itoa(q) + ")"
  }

  /** The tail of a "Sent" line from "overlimits" on. */
  function OverlimitsTail(o: int, q: int): string
  {
    "overlimits " + Itoa(o) + " " + RequeuesTail(q)
  }

  /** The tail of a "Sent" line from "dropped" on. */
  function DroppedTail(d: int, o: int, q: int): string
  {
    "dropped " + Itoa(d) + ", " + OverlimitsTail(o, q)
  }

  /** The "Sent" line of an action's statistics block. */
  function SentLine(b: int, p: int, d: int, o: int, q: int): string
  {
    "Sent " + Itoa(b) + " bytes " + Itoa(p) + " pkt" + " (" + DroppedTail(d, o, q)
  }

  /** The "backlog" line of an action's statistics block. */
  function BacklogLine(x: int, y: int, q: int): string
  {
    "backlog " + Itoa(x) + "b " + Itoa(y) + "p" + " requeues " + Itoa(q)
  }

  // ---------------------------------------------------------------------
  // Scanning helpers

  lemma LacksConcat(a: string, b: string, c: char)
    requires Lacks(a, c) && Lacks(b, c)
    ensures Lacks(a + b, c)
  {
    forall i | 0 <= i < |a + b|
      ensures (a + b)[i] != c
    {
      if i >= |a| {
        assert (a + b)[i] == b[i - |a|];
      }
    }
  }

  lemma NumberLacks(n: int, c: char)
    requires Counter(n) && !IsDigit(c)
    ensures Lacks(Itoa(n), c)
  {
    ItoaText(n);
  }

  /** The head of a "Sent" line, up to and including suffix, lacks c when
      the literal parts do. */
  lemma HeadLacks(b: int, p: int, suffix: string, c: char)
    requires Counter(b) && Counter(p) && !IsDigit(c)
    requires Lacks("Sent ", c) && Lacks(" bytes ", c) && Lacks(suffix, c)
    ensures Lacks("Sent " + Itoa(b) + " bytes " + Itoa(p) + suffix, c)
  {
    NumberLacks(b, c);
    NumberLacks(p, c);
    LacksConcat("Sent ", Itoa(b), c);
    LacksConcat("Sent " + Itoa(b), " bytes ", c);
    LacksConcat("Sent " + Itoa(b) + " bytes ", Itoa(p), c);
    LacksConcat("Sent " + Itoa(b) + " bytes " + Itoa(p), suffix, c);
  }

  /** `<word> (\d+)` finds the digits right after "<word> " when nothing
      before holds the word's first character. */
  lemma DigitsAfter(u: string, word: string, digits: string, rest: string)
    requires word != [] && Lacks(u, word[0])
    requires digits != [] && AllDigits(digits)
    requires rest == [] || !IsDigit(rest[0])
    ensures FindSubmatch(u + (word + " " + digits + rest), [Lit(word + " "), Digits]) == Some([digits])
  {
    var pat := [Lit(word + " "), Digits];
    var caps := [digits];
    assert pat[1..] == [Digits] && pat[1..][1..] == [];
    assert caps[1..] == [];
    assert Fits(pat, caps);
    assert Render(pat[1..], caps) == digits + Render(pat[1..][1..], caps[1..]);
    assert Render(pat, caps) == word + " " + digits;
    MatchRender(pat, caps, rest);
    assert (word + " ") != [] && (word + " ")[0] == word[0];
    FindSkip(u, word + " " + digits + rest, pat);
  }

  /** A leading character that starts the pattern's literal but is not
      followed by its second character is skipped. */
  lemma StepOver(c: char, v: string, pat: seq<Piece>)
    requires pat != [] && pat[0].Lit? && |pat[0].text| >= 2 && pat[0].text[0] == c
    requires v != [] && v[0] != pat[0].text[1]
    ensures FindSubmatch([c] + v, pat) == FindSubmatch(v, pat)
  {
    assert ([c] + v)[1] != pat[0].text[1];
    assert ([c] + v)[1..] == v;
  }

  /** A printed counter after "<word> " is what `<word> (\d+)` captures. */
  lemma WordCounter(word: string, n: int, sep: string, t: string)
    requires Counter(n) && word != [] && sep != [] && !IsDigit(sep[0])
    ensures FindSubmatch(word + " " + Itoa(n) + sep + t, [Lit(word + " "), Digits]) == Some([Itoa(n)])
  {
    ItoaText(n);
    DigitsAfter("", word, Itoa(n), sep + t);
    assert "" + (word + " " + Itoa(n) + (sep + t)) == word + " " + Itoa(n) + sep + t;
  }

  /** The counter `<word> (\d+)` reads, from the digits it captures. */
  lemma CounterOf(line: string, word: string, n: int)
    requires Counter(n) && FindSubmatch(line, [Lit(word + " "), Digits]) == Some([Itoa(n)])
    ensures CounterAfter(line, word) == Some(n)
  {
    ParseIntItoa(n);
  }

  // ---------------------------------------------------------------------
  // The "Sent" line

  /** "<text> <number><sep>" lacks c when text and sep do. */
  lemma PieceLacks(text: string, n: int, sep: string, c: char)
    requires Counter(n) && !IsDigit(c) && Lacks(text, c) && Lacks(sep, c)
    ensures Lacks(text + Itoa(n) + sep, c)
  {
    NumberLacks(n, c);
    LacksConcat(text, Itoa(n), c);
    LacksConcat(text + Itoa(n), sep, c);
  }

  /** A text cut as pre, c, post in front of t is skipped by a pattern
      whose literal starts with c but continues otherwise than post. */
  lemma SkipPast(pre: string, c: char, post: string, t: string, pat: seq<Piece>)
    requires pat != [] && pat[0].Lit? && |pat[0].text| >= 2 && pat[0].text[0] == c
    requires Lacks(pre, c) && Lacks(post, c)
    requires post != [] && post[0] != pat[0].text[1]
    ensures FindSubmatch(pre + ([c] + (post + t)), pat) == FindSubmatch(t, pat)
  {
    FindSkip(pre, [c] + (post + t), pat);
    StepOver(c, post + t, pat);
    FindSkip(post, t, pat);
  }

  /** "<w><number><sep>" in front of t is skipped by a pattern whose
      literal starts with w's k-th character, when that character occurs
      nowhere else in front of t and is not followed as in the literal. */
  lemma SkipWord(w: string, k: nat, n: int, sep: string, t: string, pat: seq<Piece>)
    requires Counter(n) && k + 1 < |w|
    requires pat != [] && pat[0].Lit? && |pat[0].text| >= 2 && pat[0].text[0] == w[k]
    requires !IsDigit(w[k]) && w[k + 1] != pat[0].text[1]
    requires Lacks(w[..k], w[k]) && Lacks(w[k + 1..], w[k]) && Lacks(sep, w[k])
    ensures FindSubmatch(w + Itoa(n) + sep + t, pat) == FindSubmatch(t, pat)
  {
    var c := w[k];
    var post := w[k + 1..] + Itoa(n) + sep;
    PieceLacks(w[k + 1..], n, sep, c);
    AroundIndex(w, k);
    Pivot(w[..k], c, w[k + 1..], Itoa(n), sep, t);
    SkipPast(w[..k], c, post, t, pat);
  }

  /** overlimits is looked for past "dropped D, ". */
  lemma OverlimitsPastDropped(d: int, o: int, q: int)
    requires Counter(d)
    ensures var pat := [Lit("overlimits" + " "), Digits];
            FindSubmatch(DroppedTail(d, o, q), pat) == FindSubmatch(OverlimitsTail(o, q), pat)
  {
    var pat := [Lit("overlimits" + " "), Digits];
    assert pat[0].text == "overlimits ";
    SkipWord("dropped ", 2, d, ", ", OverlimitsTail(o, q), pat);
  }

  /** requeues is looked for past "dropped D, ". */
  lemma RequeuesPastDropped(d: int, o: int, q: int)
    requires Counter(d)
    ensures var pat := [Lit("requeues" + " "), Digits];
            FindSubmatch(DroppedTail(d, o, q), pat) == FindSubmatch(OverlimitsTail(o, q), pat)
  {
    var pat := [Lit("requeues" + " "), Digits];
    assert pat[0].text == "requeues ";
    SkipWord("dropped ", 1, d, ", ", OverlimitsTail(o, q), pat);
  }

  /** requeues is looked for past "overlimits O ". */
  lemma RequeuesPastOverlimits(o: int, q: int)
    requires Counter(o)
    ensures var pat := [Lit("requeues" + " "), Digits];
            FindSubmatch(OverlimitsTail(o, q), pat) == FindSubmatch(RequeuesTail(q), pat)
  {
    var pat := [Lit("requeues" + " "), Digits];
    assert pat[0].text == "requeues ";
    SkipWord("overlimits ", 3, o, " ", RequeuesTail(q), pat);
  }

  /** The head of a "Sent" line, before "dropped", is skipped by a counter
      pattern whose word starts with c. */
  lemma PastHead(b: int, p: int, d: int, o: int, q: int, word: string)
    requires Counter(b) && Counter(p)
    requires word != [] && !IsDigit(word[0]) && Lacks("Sent ", word[0]) && Lacks(" bytes ", word[0])
    requires Lacks(" pkt" + " (", word[0])
    ensures var pat := [Lit(word + " "), Digits];
            FindSubmatch(SentLine(b, p, d, o, q), pat) == FindSubmatch(DroppedTail(d, o, q), pat)
  {
    HeadLacks(b, p, " pkt" + " (", word[0]);
    assert "Sent " + Itoa(b) + " bytes " + Itoa(p) + (" pkt" + " (") == "Sent " + Itoa(b) + " bytes " + Itoa(p) + " pkt" + " (";
    FindSkip("Sent " + Itoa(b) + " bytes " + Itoa(p) + " pkt" + " (", DroppedTail(d, o, q), [Lit(word + " "), Digits]);
  }

  /** dropped at the start of its tail. */
  lemma DroppedInTail(d: int, o: int, q: int)
    requires Counter(d)
    ensures FindSubmatch(DroppedTail(d, o, q), [Lit("dropped" + " "), Digits]) == Some([Itoa(d)])
  {
    WordCounter("dropped", d, ", ", OverlimitsTail(o, q));
    assert "dropped" + " " == "dropped ";
  }


  /** dropped: nothing before "dropped" holds a 'd'. */
  lemma DroppedFound(b: int, p: int, d: int, o: int, q: int)
    requires Counter(b) && Counter(p) && Counter(d)
    ensures CounterAfter(SentLine(b, p, d, o, q), "dropped") == Some(d)
  {
    PastHead(b, p, d, o, q, "dropped");
    DroppedInTail(d, o, q);
    CounterOf(SentLine(b, p, d, o, q), "dropped", d);
  }

  /** overlimits at the start of its tail. */
  lemma OverlimitsInTail(o: int, q: int)
    requires Counter(o)
    ensures FindSubmatch(OverlimitsTail(o, q), [Lit("overlimits" + " "), Digits]) == Some([Itoa(o)])
  {
    WordCounter("overlimits", o, " ", RequeuesTail(q));
    assert "overlimits" + " " == "overlimits ";
  }


  /** overlimits: the 'o' of "dropped" is stepped over. */
  lemma OverlimitsFound(b: int, p: int, d: int, o: int, q: int)
    requires Counter(b) && Counter(p) && Counter(d) && Counter(o)
    ensures CounterAfter(SentLine(b, p, d, o, q), "overlimits") == Some(o)
  {
    PastHead(b, p, d, o, q, "overlimits");
    OverlimitsPastDropped(d, o, q);
    OverlimitsInTail(o, q);
    CounterOf(SentLine(b, p, d, o, q), "overlimits", o);
  }

  /** requeues at the start of its tail. */
  lemma RequeuesInTail(q: int)
    requires Counter(q)
    ensures FindSubmatch(RequeuesTail(q), [Lit("requeues" + " "), Digits]) == Some([Itoa(q)])
  {
    WordCounter("requeues", q, ")", "");
    assert "requeues" + " " == "requeues ";
    assert RequeuesTail(q) + "" == RequeuesTail(q);
  }


  /** requeues: the 'r's of "dropped" and "overlimits" are stepped over. */
  lemma RequeuesFound(b: int, p: int, d: int, o: int, q: int)
    requires Counter(b) && Counter(p) && Counter(d) && Counter(o) && Counter(q)
    ensures CounterAfter(SentLine(b, p, d, o, q), "requeues") == Some(q)
  {
    PastHead(b, p, d, o, q, "requeues");
    RequeuesPastDropped(d, o, q);
    RequeuesPastOverlimits(o, q);
    RequeuesInTail(q);
    CounterOf(SentLine(b, p, d, o, q), "requeues", q);
  }


  /** Two printed counters between literals are what the pattern of
      those literals around two digit runs captures. */
  lemma TwoCounters(l0: string, l1: string, l2: string, x: int, y: int, rest: string)
    requires l1 != [] && !IsDigit(l1[0]) && l2 != [] && !IsDigit(l2[0])
    requires Counter(x) && Counter(y)
    ensures FindSubmatch(l0 + Itoa(x) + l1 + Itoa(y) + l2 + rest, [Lit(l0), Digits, Lit(l1), Digits, Lit(l2)])
            == Some([Itoa(x), Itoa(y)])
  {
    ItoaText(x);
    ItoaText(y);
    TwoNumbers(l0, l1, l2, Itoa(x), Itoa(y), rest);
  }

  /** A pattern of two numbers between three literals, the shape of both
      the "Sent" and the "backlog" pattern, reads both numbers back from
      the start of a line. */
  lemma TwoNumbers(l0: string, l1: string, l2: string, x: string, y: string, rest: string)
    requires l1 != [] && !IsDigit(l1[0]) && l2 != [] && !IsDigit(l2[0])
    requires x != [] && AllDigits(x) && y != [] && AllDigits(y)
    ensures FindSubmatch(l0 + x + l1 + y + l2 + rest, [Lit(l0), Digits, Lit(l1), Digits, Lit(l2)]) == Some([x, y])
  {
    var pat := [Lit(l0), Digits, Lit(l1), Digits, Lit(l2)];
    var caps := [x, y];
    assert pat[1..] == [Digits, Lit(l1), Digits, Lit(l2)];
    assert pat[1..][1..] == [Lit(l1), Digits, Lit(l2)];
    assert pat[1..][1..][1..] == [Digits, Lit(l2)];
    assert pat[1..][1..][1..][1..] == [Lit(l2)];
    assert pat[1..][1..][1..][1..][1..] == [];
    assert caps[1..] == [y] && caps[1..][1..] == [];
    assert WellFormed(pat);
    assert Fits(pat[1..][1..][1..], caps[1..]);
    assert Fits(pat[1..], caps);
    assert Fits(pat, caps);
    assert Render(pat[1..][1..][1..][1..], caps[1..][1..]) == l2 + "";
    assert Render(pat[1..][1..][1..], caps[1..]) == y + l2;
    assert Render(pat[1..], caps) == x + (l1 + (y + l2));
    assert Render(pat, caps) == l0 + x + l1 + y + l2;
    MatchRender(pat, caps, rest);
  }

  /** The first pattern of a "Sent" line reads the bytes and packets. */
  lemma SentFound(b: int, p: int, d: int, o: int, q: int)
    requires Counter(b) && Counter(p)
    ensures FindSubmatch(SentLine(b, p, d, o, q), SentPattern) == Some([Itoa(b), Itoa(p)])
  {
    TwoCounters("Sent ", " bytes ", " pkt", b, p, " (" + DroppedTail(d, o, q));
    Regroup(ShortSentLine(b, p), " (", DroppedTail(d, o, q));
  }


  /** A "Sent" line lacks any character that is no digit and appears in
      none of its literal parts. */
  lemma SentLacks(b: int, p: int, d: int, o: int, q: int, c: char)
    requires Counter(b) && Counter(p) && Counter(d) && Counter(o) && Counter(q) && !IsDigit(c)
    requires Lacks("Sent ", c) && Lacks(" bytes ", c) && Lacks(" pkt" + " (", c)
    requires Lacks("dropped ", c) && Lacks(", ", c) && Lacks("overlimits ", c) && Lacks(" ", c)
    requires Lacks("requeues ", c) && Lacks(")", c)
    ensures Lacks(SentLine(b, p, d, o, q), c)
  {
    TailLacks(d, o, q, c);
    HeadLacks(b, p, " pkt" + " (", c);
    LacksConcat("Sent " + Itoa(b) + " bytes " + Itoa(p) + (" pkt" + " ("), DroppedTail(d, o, q), c);
    Regroup("Sent " + Itoa(b) + " bytes " + Itoa(p), " pkt", " (");
  }

  lemma TailLacks(d: int, o: int, q: int, c: char)
    requires Counter(d) && Counter(o) && Counter(q) && !IsDigit(c)
    requires Lacks("dropped ", c) && Lacks(", ", c) && Lacks("overlimits ", c) && Lacks(" ", c)
    requires Lacks("requeues ", c) && Lacks(")", c)
    ensures Lacks(DroppedTail(d, o, q), c)
  {
    PieceLacks("requeues ", q, ")", c);
    PieceLacks("overlimits ", o, " ", c);
    LacksConcat("overlimits " + Itoa(o) + " ", RequeuesTail(q), c);
    PieceLacks("dropped ", d, ", ", c);
    LacksConcat("dropped " + Itoa(d) + ", ", OverlimitsTail(o, q), c);
  }


  lemma LastOfConcat(x: string, y: string)
    requires y != []
    ensures (x + y)[|x + y| - 1] == y[|y| - 1]
  {
  }

  /** A "Sent" line starts with 'S' and ends with ')'. */
  lemma SentEdges(b: int, p: int, d: int, o: int, q: int)
    ensures SentLine(b, p, d, o, q) != [] && SentLine(b, p, d, o, q)[0] == 'S'
    ensures SentLine(b, p, d, o, q)[|SentLine(b, p, d, o, q)| - 1] == ')'
  {
    SentStarts(b, p, d, o, q);
    assert "Sent "[0] == 'S';
    LastOfConcat("requeues " + Itoa(q), ")");
    LastOfConcat("overlimits " + Itoa(o) + " ", RequeuesTail(q));
    LastOfConcat("dropped " + Itoa(d) + ", ", OverlimitsTail(o, q));
    LastOfConcat("Sent " + Itoa(b) + " bytes " + Itoa(p) + " pkt" + " (", DroppedTail(d, o, q));
  }


  /** WithSent from what its four patterns read. */
  lemma WithSentReads(a: ActionStats, line: string, b: int, p: int, d: int, o: int, q: int)
    requires Counter(b) && Counter(p)
    requires FindSubmatch(TrimSpace(line), SentPattern) == Some([Itoa(b), Itoa(p)])
    requires CounterAfter(TrimSpace(line), "dropped") == Some(d)
    requires CounterAfter(TrimSpace(line), "overlimits") == Some(o)
    requires CounterAfter(TrimSpace(line), "requeues") == Some(q)
    ensures WithSent(a, line) == a.(bytes := b, packets := p, dropped := d, overlimits := o, requeues := q)
  {
    ParseIntItoa(b);
    ParseIntItoa(p);
  }

  /** The "Sent" line of an indented statistics block sets the action's
      bytes, packets, dropped, overlimits and requeues counters to the
      numbers it shows, and nothing else. */
  lemma SentRoundTrip(a: ActionStats, b: int, p: int, d: int, o: int, q: int)
    requires Counter(b) && Counter(p) && Counter(d) && Counter(o) && Counter(q)
    ensures WithSent(a, "\t" + SentLine(b, p, d, o, q))
            == a.(bytes := b, packets := p, dropped := d, overlimits := o, requeues := q)
  {
    var t := SentLine(b, p, d, o, q);
    SentEdges(b, p, d, o, q);
    TrimIndented("\t", t);
    SentFound(b, p, d, o, q);
    DroppedFound(b, p, d, o, q);
    OverlimitsFound(b, p, d, o, q);
    RequeuesFound(b, p, d, o, q);
    WithSentReads(a, "\t" + t, b, p, d, o, q);
  }

  /** A tab-indented line is no header and no match line, and has no line
      terminator to trim. */
  lemma TabbedLine(t: string)
    requires t != [] && !IsSpace(t[0]) && !IsSpace(t[|t| - 1])
    ensures TrimRightCRLF("\t" + t) == "\t" + t
    ensures !IsHeaderLine("\t" + t) && !HasPrefix("\t" + t, "  ")
  {
    TrimIndented("\t", t);
    assert ("\t" + t)[0] == '\t';
  }

  /** A line that lacks a character of "action order" and "installed", and
      one of "Action statistics:", mentions none of them. */
  lemma NoActionWords(line: string, c1: char, c2: char)
    requires c1 in "action order" && c1 in "installed" && c2 in "Action statistics:"
    requires Lacks(line, c1) && Lacks(line, c2)
    ensures !Contains(line, "action order") && !Contains(line, "installed")
    ensures !Contains(line, "Action statistics:")
  {
    MissingChar(line, "action order", c1);
    MissingChar(line, "installed", c1);
    MissingChar(line, "Action statistics:", c2);
  }

  /** The literal parts of a "Sent" line hold no 'a' and no 'A'. */
  lemma SentLiteralsLack(c: char)
    requires c == 'a' || c == 'A'
    ensures !IsDigit(c) && Lacks("Sent ", c) && Lacks(" bytes ", c) && Lacks(" pkt" + " (", c)
    ensures Lacks("dropped ", c) && Lacks(", ", c) && Lacks("overlimits ", c) && Lacks(" ", c)
    ensures Lacks("requeues ", c) && Lacks(")", c) && Lacks("\t", c)
  {
  }

  lemma PrefixGrows(w: string, x: string, y: string)
    requires w <= x
    ensures w <= x + y
  {
  }

  /** A "Sent" line mentions "Sent". */
  lemma SentMentioned(b: int, p: int, d: int, o: int, q: int)
    ensures Contains("\t" + SentLine(b, p, d, o, q), "Sent")
  {
    SentStarts(b, p, d, o, q);
    PrefixOfPrefix("Sent", "Sent ", SentLine(b, p, d, o, q));
    assert Contains(SentLine(b, p, d, o, q), "Sent");
    ContainsInSuffix("\t", SentLine(b, p, d, o, q), "Sent");
  }

  /** A "Sent" line starts with "Sent ". */
  lemma SentStarts(b: int, p: int, d: int, o: int, q: int)
    ensures "Sent " <= SentLine(b, p, d, o, q)
  {
    var x := "Sent ";
    PrefixGrows(x, x, Itoa(b));
    PrefixGrows(x, x + Itoa(b), " bytes ");
    PrefixGrows(x, x + Itoa(b) + " bytes ", Itoa(p));
    PrefixGrows(x, x + Itoa(b) + " bytes " + Itoa(p), " pkt");
    PrefixGrows(x, x + Itoa(b) + " bytes " + Itoa(p) + " pkt", " (");
    PrefixGrows(x, x + Itoa(b) + " bytes " + Itoa(p) + " pkt" + " (", DroppedTail(d, o, q));
  }

  lemma PrefixOfPrefix(u: string, v: string, w: string)
    requires u <= v && v <= w
    ensures u <= w
  {
    assert w[..|u|] == v[..|u|];
  }


  /** The indented "Sent" line is none of the lines the parser looks at
      before the statistics lines. */
  lemma SentLineKind(b: int, p: int, d: int, o: int, q: int)
    requires Counter(b) && Counter(p) && Counter(d) && Counter(o) && Counter(q)
    ensures var line := "\t" + SentLine(b, p, d, o, q);
            && TrimRightCRLF(line) == line && !IsHeaderLine(line) && !HasPrefix(line, "  ")
            && !Contains(line, "action order") && !Contains(line, "installed")
            && !Contains(line, "Action statistics:") && Contains(line, "Sent")
  {
    var t := SentLine(b, p, d, o, q);
    var line := "\t" + t;
    SentEdges(b, p, d, o, q);
    TabbedLine(t);
    SentLiteralsLack('a');
    SentLiteralsLack('A');
    SentLacks(b, p, d, o, q, 'a');
    SentLacks(b, p, d, o, q, 'A');
    LacksConcat("\t", t, 'a');
    LacksConcat("\t", t, 'A');
    NoActionWords(line, 'a', 'A');
    SentMentioned(b, p, d, o, q);
  }

  /** A "Sent" line sets the open action's five counters inside its
      statistics block and is ignored outside it. */
  lemma StepSent(st: ParserState, b: int, p: int, d: int, o: int, q: int)
    requires st.current.Some? && st.action.Some?
    requires Counter(b) && Counter(p) && Counter(d) && Counter(o) && Counter(q)
    ensures Step(st, "\t" + SentLine(b, p, d, o, q))
            == if st.inActionStats
               then st.(action := Some(st.action.value.(bytes := b, packets := p, dropped := d,
                                                         overlimits := o, requeues := q)))
               else st
  {
    SentLineKind(b, p, d, o, q);
    SentRoundTrip(st.action.value, b, p, d, o, q);
  }

  /** A "Sent" line without the parenthesised counters. */
  function ShortSentLine(b: int, p: int): string
  {
    "Sent " + Itoa(b) + " bytes " + Itoa(p) + " pkt"
  }

  /** A counter whose word, followed by a blank, does not occur reads nothing. */
  lemma CounterMissing(t: string, word: string)
    requires !Contains(t, word + " ")
    ensures CounterAfter(t, word).None?
  {
    FindAbsent(t, [Lit(word + " "), Digits]);
  }

  /** A "Sent" line without counters is read back bytes first. */
  lemma ShortSentTrimmed(b: int, p: int)
    requires Counter(b) && Counter(p)
    ensures TrimSpace("\t" + ShortSentLine(b, p)) == ShortSentLine(b, p)
  {
    var t := ShortSentLine(b, p);
    assert t[0] == 'S';
    LastOfConcat("Sent " + Itoa(b) + " bytes " + Itoa(p), " pkt");
    TrimIndented("\t", t);
  }

  lemma ShortSentFound(b: int, p: int)
    requires Counter(b) && Counter(p)
    ensures TrimSpace("\t" + ShortSentLine(b, p)) == ShortSentLine(b, p)
    ensures FindSubmatch(ShortSentLine(b, p), SentPattern) == Some([Itoa(b), Itoa(p)])
  {
    ShortSentTrimmed(b, p);
    TwoCounters("Sent ", " bytes ", " pkt", b, p, "");
    assert ShortSentLine(b, p) + "" == ShortSentLine(b, p);
  }


  /** A line without the first character of a counter's word reads nothing. */
  lemma InitialMissing(t: string, word: string)
    requires word != [] && Lacks(t, word[0])
    ensures CounterAfter(t, word).None?
  {
    MissingChar(t, word + " ", word[0]);
    CounterMissing(t, word);
  }

  /** A counter whose first character the short "Sent" line lacks is not read from it. */
  lemma ShortSentLacks(b: int, p: int, word: string)
    requires Counter(b) && Counter(p) && word != [] && !IsDigit(word[0])
    requires Lacks("Sent ", word[0]) && Lacks(" bytes ", word[0]) && Lacks(" pkt", word[0])
    ensures CounterAfter(ShortSentLine(b, p), word).None?
  {
    HeadLacks(b, p, " pkt", word[0]);
    InitialMissing(ShortSentLine(b, p), word);
  }

  /** A "Sent" line without counters has no dropped, overlimits or requeues. */
  lemma ShortSentMissing(b: int, p: int)
    requires Counter(b) && Counter(p)
    ensures CounterAfter(ShortSentLine(b, p), "dropped").None?
    ensures CounterAfter(ShortSentLine(b, p), "overlimits").None?
    ensures CounterAfter(ShortSentLine(b, p), "requeues").None?
  {
    ShortSentLacks(b, p, "dropped");
    ShortSentLacks(b, p, "overlimits");
    ShortSentLacks(b, p, "requeues");
  }

  /** A "Sent" line without dropped, overlimits and requeues sets the bytes
      and packets and leaves those three counters as they were. */
  lemma ShortSentRoundTrip(a: ActionStats, b: int, p: int)
    requires Counter(b) && Counter(p)
    ensures WithSent(a, "\t" + ShortSentLine(b, p)) == a.(bytes := b, packets := p)
  {
    ShortSentFound(b, p);
    ShortSentMissing(b, p);
    ParseIntItoa(b);
    ParseIntItoa(p);
  }

  // ---------------------------------------------------------------------
  // The "backlog" line

  /** A "backlog" line starts with 'b' and ends with a digit. */
  lemma BacklogEdges(x: int, y: int, q: int)
    requires Counter(q)
    ensures BacklogLine(x, y, q) != [] && BacklogLine(x, y, q)[0] == 'b'
    ensures IsDigit(BacklogLine(x, y, q)[|BacklogLine(x, y, q)| - 1])
  {
    ItoaText(q);
    BacklogStarts(x, y, q);
    assert "backlog "[0] == 'b';
    LastDigit(q);
    LastOfConcat("backlog " + Itoa(x) + "b " + Itoa(y) + "p" + " requeues ", Itoa(q));
  }

  lemma LastDigit(q: int)
    requires Counter(q)
    ensures Itoa(q) != [] && IsDigit(Itoa(q)[|Itoa(q)| - 1])
  {
    ItoaText(q);
  }


  /** WithBacklog from what its pattern reads. */
  lemma WithBacklogReads(a: ActionStats, line: string, x: int, y: int)
    requires Counter(x) && Counter(y)
    requires FindSubmatch(TrimSpace(line), BacklogPattern) == Some([Itoa(x), Itoa(y)])
    ensures WithBacklog(a, line) == a.(backlogBytes := x, backlogPkts := y)
  {
    ParseIntItoa(x);
    ParseIntItoa(y);
  }

  /** The backlog pattern reads both numbers of a "backlog" line. */
  lemma BacklogFound(x: int, y: int, q: int)
    requires Counter(x) && Counter(y)
    ensures FindSubmatch(BacklogLine(x, y, q), BacklogPattern) == Some([Itoa(x), Itoa(y)])
  {
    var head := "backlog " + Itoa(x) + "b " + Itoa(y) + "p";
    TwoCounters("backlog ", "b ", "p", x, y, " requeues " + Itoa(q));
    Regroup(head, " requeues ", Itoa(q));
  }


  /** The "backlog" line of an indented statistics block sets the action's
      backlog bytes and packets to the numbers it shows, and nothing else. */
  lemma BacklogRoundTrip(a: ActionStats, x: int, y: int, q: int)
    requires Counter(x) && Counter(y) && Counter(q)
    ensures WithBacklog(a, "\t" + BacklogLine(x, y, q)) == a.(backlogBytes := x, backlogPkts := y)
  {
    BacklogEdges(x, y, q);
    TrimIndented("\t", BacklogLine(x, y, q));
    BacklogFound(x, y, q);
    WithBacklogReads(a, "\t" + BacklogLine(x, y, q), x, y);
  }

  /** The literal parts of a "backlog" line hold no 't' and no 'S'. */
  lemma BacklogLiteralsLack(c: char)
    requires c == 't' || c == 'S'
    ensures !IsDigit(c) && Lacks("backlog ", c) && Lacks("b ", c) && Lacks("p" + " requeues ", c) && Lacks("\t", c)
  {
  }

  /** A "backlog" line lacks 't' and 'S'. */
  lemma BacklogLacks(x: int, y: int, q: int, c: char)
    requires Counter(x) && Counter(y) && Counter(q) && (c == 't' || c == 'S')
    ensures Lacks("\t" + BacklogLine(x, y, q), c)
  {
    BacklogLiteralsLack(c);
    PieceLacks("backlog ", x, "b ", c);
    PieceLacks("backlog " + Itoa(x) + "b ", y, "p" + " requeues ", c);
    NumberLacks(q, c);
    LacksConcat("backlog " + Itoa(x) + "b " + Itoa(y) + ("p" + " requeues "), Itoa(q), c);
    assert BacklogLine(x, y, q) == "backlog " + Itoa(x) + "b " + Itoa(y) + ("p" + " requeues ") + Itoa(q);
    LacksConcat("\t", BacklogLine(x, y, q), c);
  }

  /** A "backlog" line mentions "backlog". */
  lemma BacklogMentioned(x: int, y: int, q: int)
    ensures Contains("\t" + BacklogLine(x, y, q), "backlog")
  {
    BacklogStarts(x, y, q);
    PrefixOfPrefix("backlog", "backlog ", BacklogLine(x, y, q));
    assert Contains(BacklogLine(x, y, q), "backlog");
    ContainsInSuffix("\t", BacklogLine(x, y, q), "backlog");
  }

  /** A "backlog" line starts with "backlog ". */
  lemma BacklogStarts(x: int, y: int, q: int)
    ensures "backlog " <= BacklogLine(x, y, q)
  {
    var w := "backlog ";
    PrefixGrows(w, w, Itoa(x));
    PrefixGrows(w, w + Itoa(x), "b ");
    PrefixGrows(w, w + Itoa(x) + "b ", Itoa(y));
    PrefixGrows(w, w + Itoa(x) + "b " + Itoa(y), "p");
    PrefixGrows(w, w + Itoa(x) + "b " + Itoa(y) + "p", " requeues ");
    PrefixGrows(w, w + Itoa(x) + "b " + Itoa(y) + "p" + " requeues ", Itoa(q));
  }


  /** The indented "backlog" line is none of the lines the parser looks at
      before it, and no "Sent" line. */
  lemma BacklogLineKind(x: int, y: int, q: int)
    requires Counter(x) && Counter(y) && Counter(q)
    ensures var line := "\t" + BacklogLine(x, y, q);
            && TrimRightCRLF(line) == line && !IsHeaderLine(line) && !HasPrefix(line, "  ")
            && !Contains(line, "action order") && !Contains(line, "installed")
            && !Contains(line, "Action statistics:") && !Contains(line, "Sent")
            && Contains(line, "backlog")
  {
    var line := "\t" + BacklogLine(x, y, q);
    BacklogEdges(x, y, q);
    TabbedLine(BacklogLine(x, y, q));
    BacklogLacks(x, y, q, 't');
    BacklogLacks(x, y, q, 'S');
    NoActionWords(line, 't', 't');
    MissingChar(line, "Sent", 'S');
    BacklogMentioned(x, y, q);
  }

  /** A "backlog" line inside a statistics block sets the open action's
      backlog and ends the block; outside one it is ignored. */
  lemma StepBacklog(st: ParserState, x: int, y: int, q: int)
    requires st.current.Some? && st.action.Some?
    requires Counter(x) && Counter(y) && Counter(q)
    ensures Step(st, "\t" + BacklogLine(x, y, q))
            == if st.inActionStats
               then st.(action := Some(st.action.value.(backlogBytes := x, backlogPkts := y)), inActionStats := false)
               else st
  {
    BacklogLineKind(x, y, q);
    BacklogRoundTrip(st.action.value, x, y, q);
  }

  // ---------------------------------------------------------------------
  // The metadata line

  /** The words of a metadata line as tc prints it, with the seconds since
      the action was installed and since it was last used. */
  function MetadataWords(index: int, inst: int, last: int): seq<string>
  {
    ["index", Itoa(index), "ref", "1", "bind", "1",
     "installed", Itoa(inst), "sec", "used", Itoa(last), "sec"]
  }

  function MetadataLine(index: int, inst: int, last: int): string
  {
    Join(MetadataWords(index, inst, last), " ")
  }

  lemma MetadataLineWords(index: int, inst: int, last: int)
    ensures forall i :: 0 <= i < 12 ==> IsWord(MetadataWords(index, inst, last)[i])
    ensures Fields(MetadataLine(index, inst, last)) == MetadataWords(index, inst, last)
  {
    var words := MetadataWords(index, inst, last);
    ItoaText(index);
    ItoaText(inst);
    ItoaText(last);
    assert forall i :: 0 <= i < |words| ==> IsWord(words[i]);
    FieldsJoin(words);
  }

  /** TrimSpace and Fields give back the words of an indented metadata line. */
  lemma MetadataFields(index: int, inst: int, last: int)
    ensures Fields(TrimSpace("\t" + MetadataLine(index, inst, last))) == MetadataWords(index, inst, last)
  {
    MetadataLineWords(index, inst, last);
    JoinEdges(MetadataWords(index, inst, last));
    TrimIndented("\t", MetadataLine(index, inst, last));
  }

  /** The last "installed" and the last "used" with two words after them. */
  lemma MetadataPairs(index: int, inst: int, last: int)
    ensures LastPairAfter(MetadataWords(index, inst, last), "installed", 12) == Some(Itoa(inst) + " sec")
    ensures LastPairAfter(MetadataWords(index, inst, last), "used", 12) == Some(Itoa(last) + " sec")
  {
    var words := MetadataWords(index, inst, last);
    ItoaText(inst);
    ItoaText(last);
    assert Itoa(inst)[0] == '-' || IsDigit(Itoa(inst)[0]);
    assert Itoa(last)[0] == '-' || IsDigit(Itoa(last)[0]);
    assert words[7] != "installed" && words[10] != "installed" && words[10] != "used" by {
      assert words[7][0] != 'i' && words[10][0] != 'i' && words[10][0] != 'u';
    }
    PairStep(words, "used", 11);
    PairStep(words, "used", 10);
    PairStep(words, "used", 9);
    assert LastPairAfter(words, "used", 10) == Some(words[10] + " " + words[11]);
    assert words[10] + " " + words[11] == Itoa(last) + " sec";
    assert LastPairAfter(words, "used", 12) == LastPairAfter(words, "used", 10);
    PairStep(words, "installed", 11);
    PairStep(words, "installed", 10);
    PairStep(words, "installed", 9);
    PairStep(words, "installed", 8);
    PairStep(words, "installed", 7);
    PairStep(words, "installed", 6);
    assert LastPairAfter(words, "installed", 7) == Some(words[7] + " " + words[8]);
    assert words[7] + " " + words[8] == Itoa(inst) + " sec";
  }

  /** An indented metadata line sets the installed and used times to the
      number after each keyword with its unit, and nothing else. */
  lemma MetadataRoundTrip(a: ActionStats, index: int, inst: int, last: int)
    ensures WithTimes(a, "\t" + MetadataLine(index, inst, last))
            == a.(installed := Itoa(inst) + " sec", used := Itoa(last) + " sec")
  {
    MetadataFields(index, inst, last);
    MetadataPairs(index, inst, last);
  }
}
