/** Ranking the candidates: `sorted(scores, key=lambda x: (x[3], x[2]),
    reverse=True)` and the slice `[:max_suggestions]` (app.py lines 49-50). */
module Ranking {
  import opened Scoring

  /** The key `(first_two_words_match, score)` of `a` is at least that of `b`
      in Python's tuple order, where `False < True`. */
  predicate RanksAtLeast(a: Candidate, b: Candidate) {
    || (a.firstTwo && !b.firstTwo)
    || (a.firstTwo == b.firstTwo && a.score >= b.score)
  }

  predicate SameKey(a: Candidate, b: Candidate) {
    a.firstTwo == b.firstTwo && a.score == b.score
  }

  /** Non-increasing in the key. */
  predicate SortedDesc(s: seq<Candidate>) {
    forall i, j :: 0 <= i < j < |s| ==> RanksAtLeast(s[i], s[j])
  }

  /** Places `c` before the first element whose key does not exceed its own,
      so that `c` stays ahead of every element with the same key. */
  function Insert(c: Candidate, s: seq<Candidate>): (r: seq<Candidate>)
    ensures multiset(r) == multiset(s) + multiset{c}
    ensures |r| == |s| + 1
    ensures forall i :: 0 <= i < |r| ==> r[i] == c || r[i] in s
  {
    if s == [] || RanksAtLeast(c, s[0]) then [c] + s
    else
      var r' := Insert(c, s[1..]);
      assert s == [s[0]] + s[1..];
      assert forall i :: 0 <= i < |r'| ==> r'[i] == c || r'[i] in s[1..];
      [s[0]] + r'
  }

  /** A stable sort in descending key order: Python's `sorted(..., reverse=True)`
      keeps elements with equal keys in their original order. */
  function SortDescending(cs: seq<Candidate>): (r: seq<Candidate>)
    ensures multiset(r) == multiset(cs)
    ensures |r| == |cs|
    ensures SortedDesc(r)
  {
    if cs == [] then []
    else
      assert cs == [cs[0]] + cs[1..];
      InsertSorted(cs[0], SortDescending(cs[1..]));
      Insert(cs[0], SortDescending(cs[1..]))
  }

  /** Inserting into a sorted sequence keeps it sorted. */
  lemma {:induction false} InsertSorted(c: Candidate, s: seq<Candidate>)
    requires SortedDesc(s)
    ensures SortedDesc(Insert(c, s))
  {
    if s == [] || RanksAtLeast(c, s[0]) {
    } else {
      var r' := Insert(c, s[1..]);
      InsertSorted(c, s[1..]);
      var r := [s[0]] + r';
      forall i, j | 0 <= i < j < |r| ensures RanksAtLeast(r[i], r[j]) {
        if i == 0 {
          if r[j] != c {
            var m :| 1 <= m < |s| && s[m] == r[j];
          }
        }
      }
    }
  }

  /** The elements of `s` with the same key as `k`, in their order in `s`. */
  function KeyClass(s: seq<Candidate>, k: Candidate): seq<Candidate> {
    if s == [] then []
    else (if SameKey(s[0], k) then [s[0]] else []) + KeyClass(s[1..], k)
  }

  /** `s[:n]` */
  function Take(s: seq<Candidate>, n: nat): (r: seq<Candidate>)
    ensures |r| == (if n < |s| then n else |s|)
    ensures r == s[..|r|]
  {
    if n >= |s| then s else s[..n]
  }

  // ---------------------------------------------------------------------------
  // Stability

  lemma {:induction false} InsertKeyClass(c: Candidate, s: seq<Candidate>, k: Candidate)
    ensures KeyClass(Insert(c, s), k)
         == (if SameKey(c, k) then [c] else []) + KeyClass(s, k)
  {
    if s == [] || RanksAtLeast(c, s[0]) {
      assert ([c] + s)[1..] == s;
    } else {
      var r' := Insert(c, s[1..]);
      assert ([s[0]] + r')[1..] == r';
      InsertKeyClass(c, s[1..], k);
      assert SameKey(c, k) ==> !SameKey(s[0], k);
    }
  }

  /** For every key, the sorted sequence lists the elements with that key in
      the order of the input: the sort is stable. */
  lemma {:induction false} SortIsStable(cs: seq<Candidate>, k: Candidate)
    ensures KeyClass(SortDescending(cs), k) == KeyClass(cs, k)
  {
    if cs != [] {
      SortIsStable(cs[1..], k);
      InsertKeyClass(cs[0], SortDescending(cs[1..]), k);
    }
  }

  /** The elements with a given key in a prefix are the first of those in
      the whole sequence. */
  lemma {:induction false} KeyClassOfPrefix(s: seq<Candidate>, n: nat, k: Candidate)
    requires n <= |s|
    ensures KeyClass(s[..n], k) <= KeyClass(s, k)
  {
    if n > 0 {
      assert s[..n][1..] == s[1..][..n - 1];
      KeyClassOfPrefix(s[1..], n - 1, k);
    }
  }

  /** A prefix of a sorted sequence holds elements ranking at least as high as
      every element left out of it. */
  lemma TakeOutranksRest(s: seq<Candidate>, n: nat)
    requires SortedDesc(s)
    ensures var t := Take(s, n);
      && multiset(t) <= multiset(s)
      && forall i, c :: 0 <= i < |t| && c in multiset(s) - multiset(t) ==> RanksAtLeast(t[i], c)
  {
    var t := Take(s, n);
    var rest := s[|t|..];
    assert s == t + rest;
    assert multiset(s) - multiset(t) == multiset(rest);
    forall i, c | 0 <= i < |t| && c in multiset(s) - multiset(t)
      ensures RanksAtLeast(t[i], c)
    {
      var j :| 0 <= j < |rest| && rest[j] == c;
      assert s[|t| + j] == c;
    }
  }
}
