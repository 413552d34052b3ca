/** The parts of Go's `strings` and `strconv` packages that the core relies
    on, with Go's semantics written out: white space is Unicode white space
    as `unicode.IsSpace` defines it, `Fields` splits on runs of it, and
    `Atoi` accepts an optional sign and decimal digits within int64. */
module GoText {
  import opened Wrappers
  import opened SeqFacts

  const Int64Min: int := -0x8000_0000_0000_0000
  const Int64Max: int := 0x7FFF_FFFF_FFFF_FFFF

  /** Go's unicode.IsSpace. */
  predicate IsSpace(c: char)
  {
    || c == ' ' || c == '\t' || c == '\n' || c == '\r' || c == '\U{0B}' || c == '\U{0C}'
    || c == '\U{85}' || c == '\U{A0}' || c == '\U{1680}' || ('\U{2000}' <= c <= '\U{200A}')
    || c == '\U{2028}' || c == '\U{2029}' || c == '\U{202F}' || c == '\U{205F}' || c == '\U{3000}'
  }

  /** A non-empty string without white space: what `Fields` produces. */
  predicate IsWord(w: string)
  {
    w != [] && forall i :: 0 <= i < |w| ==> !IsSpace(w[i])
  }

  /** Leading white space removed. */
  function TrimLeft(s: string): (r: string)
    ensures |r| <= |s| && r == s[|s| - |r|..]
    ensures r != [] ==> !IsSpace(r[0])
    ensures forall i :: 0 <= i < |s| - |r| ==> IsSpace(s[i])
  {
    if s != [] && IsSpace(s[0]) then
      var r := TrimLeft(s[1..]);
      assert s[|s| - |r|..] == s[1..][|s| - 1 - |r|..];
      r
    else s
  }

  /** Trailing white space removed. */
  function TrimRight(s: string): (r: string)
    ensures r <= s
    ensures r != [] ==> !IsSpace(r[|r| - 1])
    ensures forall i :: |r| <= i < |s| ==> IsSpace(s[i])
  {
    if s != [] && IsSpace(s[|s| - 1]) then TrimRight(s[..|s| - 1]) else s
  }

  /** strings.TrimSpace. */
  function TrimSpace(s: string): (r: string)
  {
    TrimRight(TrimLeft(s))
  }

  /** strings.TrimRight(s, "\r\n"): trailing carriage returns and newlines removed. */
  function TrimRightCRLF(s: string): (r: string)
    ensures r <= s
    ensures r != [] ==> r[|r| - 1] != '\r' && r[|r| - 1] != '\n'
  {
    if s != [] && (s[|s| - 1] == '\r' || s[|s| - 1] == '\n') then TrimRightCRLF(s[..|s| - 1]) else s
  }

  /** The longest prefix of s that holds no white space. */
  function WordPrefix(s: string): (w: string)
    ensures w <= s
    ensures forall i :: 0 <= i < |w| ==> !IsSpace(w[i])
    ensures |w| < |s| ==> IsSpace(s[|w|])
  {
    if s == [] || IsSpace(s[0]) then [] else [s[0]] + WordPrefix(s[1..])
  }

  /** strings.Fields: the maximal runs of non-space characters, in order. */
  function Fields(s: string): (r: seq<string>)
    ensures forall i :: 0 <= i < |r| ==> IsWord(r[i])
    decreases |s|
  {
    var t := TrimLeft(s);
    if t == [] then []
    else
      var w := WordPrefix(t);
      [w] + Fields(t[|w|..])
  }

  /** strings.Join. */
  function Join(parts: seq<string>, sep: string): (r: string)
  {
    if |parts| == 0 then ""
    else if |parts| == 1 then parts[0]
    else parts[0] + sep + Join(parts[1..], sep)
  }

  /** strings.Split(s, "\n"): one piece more than there are newlines. */
  function SplitLines(s: string): (r: seq<string>)
    ensures |r| >= 1
  {
    if s == [] then [""]
    else if s[0] == '\n' then [""] + SplitLines(s[1..])
    else
      var rest := SplitLines(s[1..]);
      [[s[0]] + rest[0]] + rest[1..]
  }

  /** strings.HasPrefix. */
  predicate HasPrefix(s: string, prefix: string)
  {
    prefix <= s
  }

  /** strings.Contains. */
  predicate Contains(s: string, sub: string)
  {
    sub <= s || (s != [] && Contains(s[1..], sub))
  }

  predicate IsDigit(c: char)
  {
    '0' <= c <= '9'
  }

  predicate AllDigits(s: string)
  {
    forall i :: 0 <= i < |s| ==> IsDigit(s[i])
  }

  /** The number a string of decimal digits denotes. */
  function DecimalValue(s: string): (n: nat)
    requires AllDigits(s)
  {
    if s == [] then 0 else DecimalValue(s[..|s| - 1]) * 10 + (s[|s| - 1] as int - '0' as int)
  }

  /** The canonical decimal digits of a natural number. */
  function NatToDecimal(n: nat): (s: string)
    ensures s != [] && AllDigits(s)
  {
    if n < 10 then [('0' as int + n) as char]
    else NatToDecimal(n / 10) + [('0' as int + n % 10) as char]
  }

  /** strconv.Itoa. */
  function Itoa(n: int): (s: string)
    ensures s != []
  {
    if n < 0 then "-" + NatToDecimal(-n) else NatToDecimal(n)
  }

  /** strconv.ParseInt(s, 10, 64), which is also strconv.Atoi on a 64-bit
      platform: an optional sign, at least one decimal digit and nothing
      else, within the int64 range; None is Go's non-nil error. */
  function ParseInt(s: string): (r: Option<int>)
    ensures r.Some? ==> Int64Min <= r.value <= Int64Max
  {
    if s == [] then None
    else
      var body := if s[0] == '-' || s[0] == '+' then s[1..] else s;
      if body == [] || !AllDigits(body) then None
      else
        var v: int := if s[0] == '-' then 0 - DecimalValue(body) else DecimalValue(body);
        if Int64Min <= v <= Int64Max then Some(v) else None
  }

  /** strings.ToUpper restricted to ASCII letters. */
  function ToUpper(s: string): (r: string)
    ensures |r| == |s|
  {
    if s == [] then ""
    else [if 'a' <= s[0] <= 'z' then (s[0] as int - 32) as char else s[0]] + ToUpper(s[1..])
  }

  // ---------------------------------------------------------------------
  // Facts about the library functions

  lemma {:induction false} DecimalRoundTrip(n: nat)
    ensures DecimalValue(NatToDecimal(n)) == n
  {
    var s := NatToDecimal(n);
    if n >= 10 {
      DecimalRoundTrip(n / 10);
      assert s[..|s| - 1] == NatToDecimal(n / 10);
    }
  }

  /** Itoa and ParseInt are inverse on the int64 range: the decimal text of
      a port or counter reads back as the same number. */
  lemma ParseIntItoa(n: int)
    requires Int64Min <= n <= Int64Max
    ensures ParseInt(Itoa(n)) == Some(n)
  {
    var s := Itoa(n);
    if n < 0 {
      var d := NatToDecimal(-n);
      DecimalRoundTrip(-n);
      assert s == "-" + d && s[0] == '-' && s[1..] == d;
    } else {
      var d := NatToDecimal(n);
      DecimalRoundTrip(n);
      assert s == d && IsDigit(d[0]);
    }
  }

  /** Different numbers have different decimal text. */
  lemma ItoaInjective(a: int, b: int)
    requires Int64Min <= a <= Int64Max && Int64Min <= b <= Int64Max
    requires Itoa(a) == Itoa(b)
    ensures a == b
  {
    ParseIntItoa(a);
    ParseIntItoa(b);
  }

  lemma {:induction false} ContainsPrefix(s: string, a: string, b: string)
    requires Contains(s, a + b)
    ensures Contains(s, a)
  {
    if a + b <= s {
      assert a <= s;
    } else {
      ContainsPrefix(s[1..], a, b);
    }
  }

  lemma {:induction false} ContainsSuffix(s: string, a: string, b: string)
    requires Contains(s, a + b)
    ensures Contains(s, b)
  {
    if a + b <= s {
      assert s[|a|..|a| + |b|] == (a + b)[|a|..];
      ContainsAt(s, b, |a|);
    } else {
      ContainsSuffix(s[1..], a, b);
      ContainsInSuffix(s[..1], s[1..], b);
      assert s[..1] + s[1..] == s;
    }
  }

  /** Contains is the existence of an occurrence. */
  lemma {:induction false} ContainsAt(s: string, sub: string, i: nat)
    requires i + |sub| <= |s| && s[i..i + |sub|] == sub
    ensures Contains(s, sub)
  {
    if i > 0 {
      assert s[1..][i - 1..i - 1 + |sub|] == sub;
      ContainsAt(s[1..], sub, i - 1);
    }
  }

  lemma {:induction false} FieldsOfWordPrefix(w: string, rest: string)
    requires IsWord(w)
    requires rest == [] || IsSpace(rest[0])
    ensures WordPrefix(w + rest) == w
  {
    if |w| > 1 {
      assert (w + rest)[1..] == w[1..] + rest;
      FieldsOfWordPrefix(w[1..], rest);
    } else {
      assert (w + rest)[1..] == rest;
    }
  }

  lemma FieldsSkipsSpace(x: string)
    ensures Fields(" " + x) == Fields(x)
  {
    assert (" " + x)[1..] == x;
    assert TrimLeft(" " + x) == TrimLeft(x);
  }

  /** Fields undoes a join with single spaces. */
  /** A word followed by white space or nothing is the first field. */
  lemma FieldsOfWord(w: string, rest: string)
    requires IsWord(w)
    requires rest == [] || IsSpace(rest[0])
    ensures Fields(w + rest) == [w] + Fields(rest)
  {
    var s := w + rest;
    FieldsOfWordPrefix(w, rest);
    assert TrimLeft(s) == s;
    assert s[|w|..] == rest;
  }




  lemma JoinCons(words: seq<string>)
    requires |words| > 1
    ensures Join(words, " ") == words[0] + (" " + Join(words[1..], " "))
  {
  }

  /** The fields of a word, a blank and more words. */
  lemma FieldsJoinCons(words: seq<string>)
    requires |words| > 1 && IsWord(words[0])
    requires Fields(Join(words[1..], " ")) == words[1..]
    ensures Fields(Join(words, " ")) == words
  {
    var tail := Join(words[1..], " ");
    JoinCons(words);
    FieldsOfWord(words[0], " " + tail);
    FieldsSkipsSpace(tail);
    HeadTail(words);
  }

  lemma WordsTail(words: seq<string>)
    requires words != [] && forall i :: 0 <= i < |words| ==> IsWord(words[i])
    ensures forall i :: 0 <= i < |words[1..]| ==> IsWord(words[1..][i])
  {
  }

  lemma {:induction false} FieldsJoin(words: seq<string>)
    requires forall i :: 0 <= i < |words| ==> IsWord(words[i])
    ensures Fields(Join(words, " ")) == words
  {
    if |words| == 1 {
      FieldsOfWord(words[0], "");
      assert words[0] + "" == words[0];
    } else if |words| > 1 {
      WordsTail(words);
      FieldsJoin(words[1..]);
      FieldsJoinCons(words);
    }
  }

  /** A string that lacks a character of sub does not contain sub. */
  lemma {:induction false} MissingChar(s: string, sub: string, c: char)
    requires c in sub && c !in s
    ensures !Contains(s, sub)
  {
    if s != [] {
      MissingChar(s[1..], sub, c);
    }
  }

  /** Leading white space before text that starts with a non-space. */
  lemma {:induction false} TrimLeftSpaces(sp: string, s: string)
    requires forall i :: 0 <= i < |sp| ==> IsSpace(sp[i])
    requires s == [] || !IsSpace(s[0])
    ensures TrimLeft(sp + s) == s
  {
    if sp == [] {
      assert sp + s == s;
    } else {
      assert (sp + s)[1..] == sp[1..] + s;
      TrimLeftSpaces(sp[1..], s);
    }
  }

  /** Text indented by white space, with no white space at its ends,
      is what TrimSpace leaves, and TrimRightCRLF leaves it alone. */
  lemma TrimIndented(sp: string, s: string)
    requires forall i :: 0 <= i < |sp| ==> IsSpace(sp[i])
    requires s != [] && !IsSpace(s[0]) && !IsSpace(s[|s| - 1])
    ensures TrimSpace(sp + s) == s
    ensures TrimRightCRLF(sp + s) == sp + s
  {
    TrimLeftSpaces(sp, s);
    assert (sp + s)[|sp + s| - 1] == s[|s| - 1];
  }

  /** Words joined by single spaces begin and end with a non-space. */
  lemma {:induction false} JoinEdges(words: seq<string>)
    requires |words| >= 1 && forall i :: 0 <= i < |words| ==> IsWord(words[i])
    ensures Join(words, " ") != [] && !IsSpace(Join(words, " ")[0])
    ensures !IsSpace(Join(words, " ")[|Join(words, " ")| - 1])
  {
    if |words| > 1 {
      JoinEdges(words[1..]);
      var tail := Join(words[1..], " ");
      assert Join(words, " ") == words[0] + " " + tail;
    }
  }

  /** The decimal text of a number is a word of digits and at most a
      leading minus sign. */
  lemma ItoaText(n: int)
    ensures IsWord(Itoa(n))
    ensures forall i :: 0 <= i < |Itoa(n)| ==> Itoa(n)[i] == '-' || IsDigit(Itoa(n)[i])
    ensures n >= 0 ==> Itoa(n) == NatToDecimal(n) && AllDigits(Itoa(n))
  {
  }

  lemma {:induction false} ContainsInSuffix(x: string, t: string, sub: string)
    requires Contains(t, sub)
    ensures Contains(x + t, sub)
  {
    if x != [] {
      assert (x + t)[1..] == x[1..] + t;
      ContainsInSuffix(x[1..], t, sub);
    } else {
      assert x + t == t;
    }
  }

  /** Every word occurs in the words joined. */
  lemma {:induction false} JoinContains(words: seq<string>, k: nat)
    requires k < |words|
    ensures Contains(Join(words, " "), words[k])
  {
    if k == 0 {
      assert words[0] <= Join(words, " ");
    } else {
      JoinContains(words[1..], k - 1);
      ContainsInSuffix(words[0] + " ", Join(words[1..], " "), words[k]);
      assert Join(words, " ") == (words[0] + " ") + Join(words[1..], " ");
    }
  }

  /** The first two words joined start the joined text. */
  lemma JoinStarts(words: seq<string>)
    requires |words| >= 2
    ensures words[0] + " " + words[1] <= Join(words, " ")
  {
    assert Join(words, " ") == words[0] + " " + Join(words[1..], " ");
    assert words[1] <= Join(words[1..], " ");
  }
}
