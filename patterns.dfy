/** The regular expressions of the status parser, written out as explicit
    scans. Each is a sequence of literal text and captured one-or-more runs
    of a character class (`\d+` or `[^)]+`), and in each a run is followed
    by a literal that starts outside its class, or ends the pattern. For
    such patterns a greedy run can only stop at the end of its maximal
    run, so a match at a position is unique and `FindSubmatch`, which
    tries the positions from the left, returns what Go's
    `regexp.FindStringSubmatch` returns without its capture of the whole
    match. */
module Patterns {
  import opened Wrappers
  import opened GoText
  import opened SeqFacts

  datatype Piece = Lit(text: string) | Digits | NotParen

  /** The character class of a captured run; a literal has none. */
  predicate InClass(p: Piece, c: char)
  {
    match p
    case Lit(_) => false
    case Digits => IsDigit(c)
    case NotParen => c != ')'
  }

  /** The longest prefix of s inside the class of p. */
  function Run(s: string, p: Piece): (r: string)
    ensures r <= s
    ensures forall i :: 0 <= i < |r| ==> InClass(p, r[i])
    ensures |r| < |s| ==> !InClass(p, s[|r|])
  {
    if s != [] && InClass(p, s[0]) then [s[0]] + Run(s[1..], p) else []
  }

  /** The number of captured runs in a pattern. */
  function Captures(pat: seq<Piece>): nat
  {
    if pat == [] then 0 else (if pat[0].Lit? then 0 else 1) + Captures(pat[1..])
  }

  /** The captures of a match of pat at the very start of s. */
  function MatchAt(s: string, pat: seq<Piece>): (r: Option<seq<string>>)
    ensures r.Some? ==> |r.value| == Captures(pat)
    decreases |pat|
  {
    if pat == [] then Some([])
    else if pat[0].Lit? then
      if pat[0].text <= s then MatchAt(s[|pat[0].text|..], pat[1..]) else None
    else
      var r := Run(s, pat[0]);
      if r == [] then None
      else
        match MatchAt(s[|r|..], pat[1..])
        case None => None
        case Some(caps) => Some([r] + caps)
  }

  /** regexp.FindStringSubmatch: the captures of the leftmost match. */
  function FindSubmatch(s: string, pat: seq<Piece>): (r: Option<seq<string>>)
    ensures r.Some? ==> |r.value| == Captures(pat)
    decreases |s|
  {
    match MatchAt(s, pat)
    case Some(caps) => Some(caps)
    case None => if s == [] then None else FindSubmatch(s[1..], pat)
  }

  // ---------------------------------------------------------------------
  // The text a pattern matches, and the facts that tie the scan to it

  /** The text of a match: the literals with the captures in between. */
  function Render(pat: seq<Piece>, caps: seq<string>): string
    decreases |pat|
  {
    if pat == [] then ""
    else if pat[0].Lit? then pat[0].text + Render(pat[1..], caps)
    else if caps == [] then "" else caps[0] + Render(pat[1..], caps[1..])
  }

  /** caps are non-empty runs of the classes of pat, one per run. */
  predicate Fits(pat: seq<Piece>, caps: seq<string>)
    decreases |pat|
  {
    if pat == [] then caps == []
    else if pat[0].Lit? then Fits(pat[1..], caps)
    else
      && caps != [] && caps[0] != []
      && (forall i :: 0 <= i < |caps[0]| ==> InClass(pat[0], caps[0][i]))
      && Fits(pat[1..], caps[1..])
  }

  /** Every run is followed by a literal that starts outside its class. */
  predicate WellFormed(pat: seq<Piece>)
  {
    forall i :: 0 <= i < |pat| - 1 && !pat[i].Lit? ==>
      pat[i + 1].Lit? && pat[i + 1].text != [] && !InClass(pat[i], pat[i + 1].text[0])
  }

  /** What follows a match cannot extend a final run. */
  predicate EndsCleanly(pat: seq<Piece>, rest: string)
  {
    pat != [] && !pat[|pat| - 1].Lit? && rest != [] ==> !InClass(pat[|pat| - 1], rest[0])
  }

  lemma {:induction false} RunOfRender(run: string, p: Piece, tail: string)
    requires !p.Lit?
    requires forall i :: 0 <= i < |run| ==> InClass(p, run[i])
    requires tail == [] || !InClass(p, tail[0])
    ensures Run(run + tail, p) == run
  {
    if run != [] {
      assert (run + tail)[1..] == run[1..] + tail;
      RunOfRender(run[1..], p, tail);
    } else {
      assert run + tail == tail;
    }
  }

  lemma WellFormedTail(pat: seq<Piece>, rest: string)
    requires pat != [] && WellFormed(pat) && EndsCleanly(pat, rest)
    ensures WellFormed(pat[1..]) && EndsCleanly(pat[1..], rest)
  {
    forall i | 0 <= i < |pat[1..]| - 1 && !pat[1..][i].Lit?
      ensures pat[1..][i + 1].Lit? && pat[1..][i + 1].text != [] && !InClass(pat[1..][i], pat[1..][i + 1].text[0])
    {
      assert pat[1..][i] == pat[i + 1] && pat[1..][i + 1] == pat[i + 2];
    }
    if |pat| > 1 {
      assert pat[1..][|pat[1..]| - 1] == pat[|pat| - 1];
    }
  }

  /** What follows a rendered run cannot extend it. */
  lemma RunBoundary(pat: seq<Piece>, caps: seq<string>, rest: string)
    requires pat != [] && !pat[0].Lit? && WellFormed(pat) && EndsCleanly(pat, rest)
    ensures var tail := Render(pat[1..], caps) + rest;
            tail == [] || !InClass(pat[0], tail[0])
  {
    if |pat| > 1 {
      assert pat[1].Lit? && pat[1].text != [] && !InClass(pat[0], pat[1].text[0]);
      assert pat[1..][0] == pat[1];
      assert Render(pat[1..], caps) == pat[1].text + Render(pat[2..], caps) by {
        assert pat[1..][1..] == pat[2..];
      }
    } else {
      assert Render(pat[1..], caps) == "";
    }
  }

  /** One literal in front of a rendered match. */
  lemma MatchRenderLit(pat: seq<Piece>, caps: seq<string>, rest: string)
    requires pat != [] && pat[0].Lit?
    requires MatchAt(Render(pat[1..], caps) + rest, pat[1..]) == Some(caps)
    ensures MatchAt(Render(pat, caps) + rest, pat) == Some(caps)
  {
    var t := pat[0].text;
    var s := Render(pat, caps) + rest;
    assert s == t + (Render(pat[1..], caps) + rest);
    assert s[|t|..] == Render(pat[1..], caps) + rest;
  }

  /** A maximal run in front of a match of the rest of the pattern. */
  lemma MatchRun(pat: seq<Piece>, run: string, tail: string, caps: seq<string>)
    requires pat != [] && !pat[0].Lit? && run != []
    requires forall i :: 0 <= i < |run| ==> InClass(pat[0], run[i])
    requires tail == [] || !InClass(pat[0], tail[0])
    requires MatchAt(tail, pat[1..]) == Some(caps)
    ensures MatchAt(run + tail, pat) == Some([run] + caps)
  {
    RunOfRender(run, pat[0], tail);
    assert (run + tail)[|run|..] == tail;
  }

  lemma RenderRunHead(pat: seq<Piece>, caps: seq<string>, rest: string)
    requires pat != [] && !pat[0].Lit? && caps != []
    ensures Render(pat, caps) + rest == caps[0] + (Render(pat[1..], caps[1..]) + rest)
  {
  }

  /** A rendered run in front of a rendered match of the rest. */
  lemma MatchRenderRun(pat: seq<Piece>, caps: seq<string>, rest: string)
    requires pat != [] && !pat[0].Lit? && Fits(pat, caps)
    requires var tail := Render(pat[1..], caps[1..]) + rest;
             tail == [] || !InClass(pat[0], tail[0])
    requires MatchAt(Render(pat[1..], caps[1..]) + rest, pat[1..]) == Some(caps[1..])
    ensures MatchAt(Render(pat, caps) + rest, pat) == Some(caps)
  {
    RenderRunHead(pat, caps, rest);
    MatchRun(pat, caps[0], Render(pat[1..], caps[1..]) + rest, caps[1..]);
    HeadTail(caps);
  }

  /** A rendered match is found again, with the same captures, by the
      anchored scan. */
  lemma {:induction false} MatchRender(pat: seq<Piece>, caps: seq<string>, rest: string)
    requires WellFormed(pat) && Fits(pat, caps) && EndsCleanly(pat, rest)
    ensures MatchAt(Render(pat, caps) + rest, pat) == Some(caps)
    decreases |pat|
  {
    if pat != [] {
      WellFormedTail(pat, rest);
      if pat[0].Lit? {
        MatchRender(pat[1..], caps, rest);
        MatchRenderLit(pat, caps, rest);
      } else {
        MatchRender(pat[1..], caps[1..], rest);
        RunBoundary(pat, caps[1..], rest);
        MatchRenderRun(pat, caps, rest);
      }
    }
  }

  /** An anchored match lies at the start of the text, and its captures
      are runs of their classes. */
  lemma {:induction false} MatchSound(s: string, pat: seq<Piece>)
    requires MatchAt(s, pat).Some?
    ensures Fits(pat, MatchAt(s, pat).value)
    ensures Render(pat, MatchAt(s, pat).value) <= s
    decreases |pat|
  {
    if pat != [] {
      var caps := MatchAt(s, pat).value;
      if pat[0].Lit? {
        var t := pat[0].text;
        MatchSound(s[|t|..], pat[1..]);
        assert s == t + s[|t|..];
      } else {
        var r := Run(s, pat[0]);
        MatchSound(s[|r|..], pat[1..]);
        assert caps == [r] + caps[1..];
        assert s == r + s[|r|..];
      }
    }
  }

  /** A leftmost match: found at some position, and at no earlier one. */
  lemma {:induction false} FindLeftmost(s: string, pat: seq<Piece>)
    requires FindSubmatch(s, pat).Some?
    ensures exists p :: 0 <= p <= |s| && MatchAt(s[p..], pat) == FindSubmatch(s, pat)
                        && forall q :: 0 <= q < p ==> MatchAt(s[q..], pat).None?
    decreases |s|
  {
    if MatchAt(s, pat).Some? {
      assert s[0..] == s;
    } else {
      FindLeftmost(s[1..], pat);
      var p :| 0 <= p <= |s[1..]| && MatchAt(s[1..][p..], pat) == FindSubmatch(s[1..], pat)
                && forall q :: 0 <= q < p ==> MatchAt(s[1..][q..], pat).None?;
      assert s[1..][p..] == s[p + 1..];
      forall q | 0 <= q < p + 1
        ensures MatchAt(s[q..], pat).None?
      {
        if q == 0 {
          assert s[0..] == s;
        } else {
          assert s[1..][q - 1..] == s[q..];
        }
      }
    }
  }

  /** No match at any position means no match at all. */
  lemma {:induction false} FindNone(s: string, pat: seq<Piece>)
    requires forall q :: 0 <= q <= |s| ==> MatchAt(s[q..], pat).None?
    ensures FindSubmatch(s, pat).None?
    decreases |s|
  {
    assert s[0..] == s;
    if s != [] {
      forall q | 0 <= q <= |s[1..]|
        ensures MatchAt(s[1..][q..], pat).None?
      {
        assert s[1..][q..] == s[q + 1..];
      }
      FindNone(s[1..], pat);
    }
  }

  /** Text that holds no character a match could start with is skipped. */
  lemma {:induction false} FindSkip(u: string, v: string, pat: seq<Piece>)
    requires pat != [] && pat[0].Lit? && pat[0].text != []
    requires forall i :: 0 <= i < |u| ==> u[i] != pat[0].text[0]
    ensures FindSubmatch(u + v, pat) == FindSubmatch(v, pat)
  {
    if u != [] {
      assert (u + v)[0] == u[0];
      assert (u + v)[1..] == u[1..] + v;
      FindSkip(u[1..], v, pat);
    } else {
      assert u + v == v;
    }
  }

  /** A pattern whose first literal does not occur is not found. */
  lemma {:induction false} FindAbsent(s: string, pat: seq<Piece>)
    requires pat != [] && pat[0].Lit? && !Contains(s, pat[0].text)
    ensures FindSubmatch(s, pat).None?
    decreases |s|
  {
    if s != [] {
      FindAbsent(s[1..], pat);
    }
  }
}
