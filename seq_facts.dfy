/** Regroupings of sequence concatenation, stated once for any element
    type so that the proofs about argument lists and printed lines need
    not rediscover them. */
module SeqFacts {
  /** A non-empty sequence is its head followed by its tail. */
  lemma HeadTail<T>(s: seq<T>)
    requires s != []
    ensures s == [s[0]] + s[1..]
  {
  }

  lemma Regroup<T>(a: seq<T>, b: seq<T>, c: seq<T>)
    ensures a + b + c == a + (b + c)
  {
  }

  /** A prefix in front of four pieces. */
  lemma RegroupFour<T>(u: seq<T>, a: seq<T>, b: seq<T>, c: seq<T>, d: seq<T>)
    ensures u + a + b + c + d == u + (a + b + c + d)
  {
  }

  /** Five pieces nested to the right. */
  lemma Nest5<T>(a: seq<T>, b: seq<T>, c: seq<T>, d: seq<T>, e: seq<T>)
    ensures a + b + c + d + e == a + (b + (c + (d + e)))
  {
    Regroup(a + b + c, d, e);
    Regroup(a + b, c, d + e);
    Regroup(a, b, c + (d + e));
  }

  /** Six pieces nested to the right. */
  lemma Nest6<T>(a: seq<T>, b: seq<T>, c: seq<T>, d: seq<T>, e: seq<T>, g: seq<T>)
    ensures a + b + c + d + e + g == a + (b + (c + (d + (e + g))))
  {
    Regroup(a + b + c + d, e, g);
    Nest5(a, b, c, d, e + g);
  }

  /** A pair of pieces in the middle of three, nested to the right. */
  lemma NestMiddle<T>(a: seq<T>, b: seq<T>, c: seq<T>, d: seq<T>, e: seq<T>)
    ensures ((a + b) + (c + d)) + e == a + (b + (c + (d + e)))
  {
    Regroup(a + b, c + d, e);
    Regroup(c, d, e);
    Regroup(a, b, c + (d + e));
  }

  lemma PairThen<T>(x: T, y: T, s: seq<T>)
    ensures [x] + ([y] + s) == [x, y] + s
  {
  }

  lemma AppendNext<T>(done: seq<T>, s: seq<T>, i: nat)
    requires i < |s|
    ensures done + s[..i] + [s[i]] == done + s[..i + 1]
  {
    assert s[..i + 1] == s[..i] + [s[i]];
  }

  lemma AroundIndex<T>(s: seq<T>, k: nat)
    requires k < |s|
    ensures s == s[..k] + [s[k]] + s[k + 1..]
  {
  }

  lemma Pivot<T>(a: seq<T>, c: T, b: seq<T>, x: seq<T>, y: seq<T>, t: seq<T>)
    ensures a + [c] + b + x + y + t == a + ([c] + ((b + x + y) + t))
  {
  }
}
