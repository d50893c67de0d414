/** `match_account` (app.py lines 32-55): assign a recipient to an account
    number or to the sentinel "Cash". */
module Matcher {
  import opened Sheet
  import opened Text
  import opened Normalize
  import opened Personal
  import opened Scoring
  import opened Ranking

  /** The sentinel for a shipment assigned to no account. */
  const Cash: string := "Cash"

  /** `max_suggestions` (line 12). */
  const MaxSuggestions: nat := 3

  /** `similarity_threshold` (line 11): a slider over whole percentages from
      70 to 100, 90 by default. */
  type Threshold = t: int | 70 <= t <= 100 witness 90

  /** The list `scores` that the loop of lines 37-46 builds: one candidate per
      account, in account order. */
  function Candidates(normRecipient: string, accounts: seq<Account>, ratio: Ratio): (cs: seq<Candidate>)
    ensures |cs| == |accounts|
    ensures forall i :: 0 <= i < |accounts| ==> cs[i] == ScoreAccount(normRecipient, accounts[i], ratio)
  {
    seq(|accounts|, i requires 0 <= i < |accounts| => ScoreAccount(normRecipient, accounts[i], ratio))
  }

  predicate HasNumber(accounts: seq<Account>, n: string) {
    exists i :: 0 <= i < |accounts| && accounts[i].number == n
  }

  /** The result `(matched_account, top_matches)` of `match_account`. A personal
      recipient gets `("Cash", [])`; otherwise the suggestions are the best
      `maxSuggestions` candidates in non-increasing key order, and the matched
      account is the first suggestion's number when that suggestion reaches
      the threshold, and "Cash" otherwise. */
  function Match(recipient: Cell, accounts: seq<Account>, threshold: Threshold,
                 maxSuggestions: nat, ratio: Ratio): (r: (string, seq<Candidate>))
    ensures IsPersonalName(recipient) ==> r == (Cash, [])
    ensures !IsPersonalName(recipient) ==>
      |r.1| == (if maxSuggestions < |accounts| then maxSuggestions else |accounts|)
    ensures SortedDesc(r.1)
    ensures forall i :: 0 <= i < |r.1| ==> 0.0 <= r.1[i].score <= 100.0
    ensures r.0 == Cash || HasNumber(accounts, r.0)
    ensures r.0 != Cash ==> r.1 != [] && r.1[0].number == r.0 && r.1[0].score >= threshold as real
    ensures r.1 != [] && r.1[0].score >= threshold as real ==> r.0 == r.1[0].number
  {
    if IsPersonalName(recipient) then (Cash, [])
    else
      var cs := Candidates(NormalizeName(recipient), accounts, ratio);
      var top := Take(SortDescending(cs), maxSuggestions);
      SuggestionFacts(NormalizeName(recipient), accounts, ratio, maxSuggestions);
      if top == [] || top[0].score < threshold as real then (Cash, top)
      else (top[0].number, top)
  }

  /** Every suggestion is a sorted, in-range candidate of some account. */
  lemma SuggestionFacts(normRecipient: string, accounts: seq<Account>, ratio: Ratio, n: nat)
    ensures var top := Take(SortDescending(Candidates(normRecipient, accounts, ratio)), n);
      && SortedDesc(top)
      && forall i :: 0 <= i < |top| ==> 0.0 <= top[i].score <= 100.0 && HasNumber(accounts, top[i].number)
  {
    var cs := Candidates(normRecipient, accounts, ratio);
    var sorted := SortDescending(cs);
    var top := Take(sorted, n);
    forall i | 0 <= i < |top|
      ensures 0.0 <= top[i].score <= 100.0 && HasNumber(accounts, top[i].number)
    {
      assert top[i] == sorted[i];
      assert sorted[i] in multiset(sorted);
      CandidateFacts(normRecipient, accounts, ratio, top[i]);
    }
  }

  /** A candidate of some account has an in-range score and that account's number. */
  lemma CandidateFacts(normRecipient: string, accounts: seq<Account>, ratio: Ratio, c: Candidate)
    requires c in multiset(Candidates(normRecipient, accounts, ratio))
    ensures 0.0 <= c.score <= 100.0 && HasNumber(accounts, c.number)
  {
    var cs := Candidates(normRecipient, accounts, ratio);
    assert c in cs;
    var m :| 0 <= m < |cs| && cs[m] == c;
    ScoreAccountFacts(normRecipient, accounts[m], ratio);
  }

  /** `match_account` as the source runs it: score every account, sort, keep
      the first `maxSuggestions` and apply the threshold. */
  method MatchAccount(recipient: Cell, accounts: seq<Account>, threshold: Threshold,
                      maxSuggestions: nat, ratio: Ratio)
    returns (matched: string, suggestions: seq<Candidate>)
    ensures (matched, suggestions) == Match(recipient, accounts, threshold, maxSuggestions, ratio)
  {
    if IsPersonalName(recipient) {
      return Cash, [];
    }
    var normRecipient := NormalizeName(recipient);
    var scores := ScoreAccounts(normRecipient, accounts, ratio);
    scores := SortDescending(scores);
    var topMatches := Take(scores, maxSuggestions);
    if topMatches == [] || topMatches[0].score < threshold as real {
      return Cash, topMatches;
    }
    return topMatches[0].number, topMatches;
  }

  /** The loop of lines 37-46: append one candidate per account to `scores`. */
  method ScoreAccounts(normRecipient: string, accounts: seq<Account>, ratio: Ratio)
    returns (scores: seq<Candidate>)
    ensures scores == Candidates(normRecipient, accounts, ratio)
  {
    scores := [];
    var i := 0;
    while i < |accounts|
      invariant 0 <= i <= |accounts|
      invariant scores == Candidates(normRecipient, accounts, ratio)[..i]
    {
      scores := AppendScore(normRecipient, accounts, i, ratio, scores);
      i := i + 1;
    }
    WholePrefix(Candidates(normRecipient, accounts, ratio));
  }

  /** The body of that loop (lines 39-46): score account `i` and append its
      candidate. */
  method AppendScore(normRecipient: string, accounts: seq<Account>, i: nat, ratio: Ratio,
                     scores: seq<Candidate>)
    returns (scores': seq<Candidate>)
    requires i < |accounts| && scores == Candidates(normRecipient, accounts, ratio)[..i]
    ensures scores' == Candidates(normRecipient, accounts, ratio)[..i + 1]
  {
    var candidate := ScoreAccount(normRecipient, accounts[i], ratio);
    PrefixStep(Candidates(normRecipient, accounts, ratio), i);
    scores' := scores + [candidate];
  }

  lemma PrefixStep(s: seq<Candidate>, i: nat)
    requires i < |s|
    ensures s[..i + 1] == s[..i] + [s[i]]
  {
  }

  lemma WholePrefix(s: seq<Candidate>)
    ensures s[..|s|] == s
  {
  }

  // ---------------------------------------------------------------------------
  // Lemmas

  /** For a recipient that is not personal, the suggestions are a prefix of a
      reordering of the per-account candidates, and each of them ranks at
      least as high as every candidate left out; the first ranks at least as
      high as every candidate. */
  lemma MatchSuggestionsAreBest(recipient: Cell, accounts: seq<Account>, threshold: Threshold,
                                maxSuggestions: nat, ratio: Ratio)
    requires !IsPersonalName(recipient)
    ensures var cs := Candidates(NormalizeName(recipient), accounts, ratio);
      var s := Match(recipient, accounts, threshold, maxSuggestions, ratio).1;
      && multiset(SortDescending(cs)) == multiset(cs)
      && s == SortDescending(cs)[..|s|]
      && (forall i, c :: 0 <= i < |s| && c in multiset(cs) - multiset(s) ==> RanksAtLeast(s[i], c))
      && (s != [] ==> forall j :: 0 <= j < |cs| ==> RanksAtLeast(s[0], cs[j]))
  {
    var cs := Candidates(NormalizeName(recipient), accounts, ratio);
    var sorted := SortDescending(cs);
    TakeOutranksRest(sorted, maxSuggestions);
    var s := Match(recipient, accounts, threshold, maxSuggestions, ratio).1;
    if s != [] {
      forall j | 0 <= j < |cs| ensures RanksAtLeast(s[0], cs[j]) {
        assert cs[j] in multiset(sorted);
        var m :| 0 <= m < |sorted| && sorted[m] == cs[j];
        assert s[0] == sorted[0];
      }
    }
  }

  /** Suggestions with equal keys keep the order of the account list: for
      every key, those suggestions are the first candidates with that key,
      in account order. */
  lemma MatchKeepsAccountOrder(recipient: Cell, accounts: seq<Account>, threshold: Threshold,
                               maxSuggestions: nat, ratio: Ratio, k: Candidate)
    requires !IsPersonalName(recipient)
    ensures var cs := Candidates(NormalizeName(recipient), accounts, ratio);
      KeyClass(Match(recipient, accounts, threshold, maxSuggestions, ratio).1, k) <= KeyClass(cs, k)
  {
    var cs := Candidates(NormalizeName(recipient), accounts, ratio);
    var sorted := SortDescending(cs);
    var s := Match(recipient, accounts, threshold, maxSuggestions, ratio).1;
    KeyClassOfPrefix(sorted, |s|, k);
    SortIsStable(cs, k);
  }

  /** A candidate with the first-two-word bonus outranks every candidate
      without it, whatever the scores: if any account earns the bonus, the
      first suggestion has it. */
  lemma MatchBonusFirst(recipient: Cell, accounts: seq<Account>, threshold: Threshold,
                        maxSuggestions: nat, ratio: Ratio, j: nat)
    requires !IsPersonalName(recipient) && maxSuggestions > 0
    requires j < |accounts|
    requires Candidates(NormalizeName(recipient), accounts, ratio)[j].firstTwo
    ensures var s := Match(recipient, accounts, threshold, maxSuggestions, ratio).1;
      s != [] && s[0].firstTwo
  {
    MatchSuggestionsAreBest(recipient, accounts, threshold, maxSuggestions, ratio);
  }

  /** Candidate `j` is the only one with the first-two-word bonus. */
  predicate SoleBonus(cs: seq<Candidate>, j: nat) {
    j < |cs| && cs[j].firstTwo && forall k :: 0 <= k < |cs| && k != j ==> !cs[k].firstTwo
  }

  /** When exactly one account earns the first-two-word bonus, it is the
      first suggestion, whatever the scores. */
  lemma MatchSoleBonusFirst(recipient: Cell, accounts: seq<Account>, threshold: Threshold,
                            maxSuggestions: nat, ratio: Ratio, j: nat)
    requires !IsPersonalName(recipient) && maxSuggestions > 0
    requires j < |accounts|
    requires SoleBonus(Candidates(NormalizeName(recipient), accounts, ratio), j)
    ensures var s := Match(recipient, accounts, threshold, maxSuggestions, ratio).1;
      s != [] && s[0].number == accounts[j].number
  {
    var cs := Candidates(NormalizeName(recipient), accounts, ratio);
    var s := Match(recipient, accounts, threshold, maxSuggestions, ratio).1;
    MatchBonusFirst(recipient, accounts, threshold, maxSuggestions, ratio, j);
    MatchSuggestionsAreBest(recipient, accounts, threshold, maxSuggestions, ratio);
    assert s[0] in multiset(cs) by {
      assert s[0] == SortDescending(cs)[0];
      assert s[0] in SortDescending(cs);
    }
    var k :| 0 <= k < |cs| && cs[k] == s[0];
    assert k == j;
  }

  /** When no account is numbered "Cash", the result is "Cash" exactly when
      there is no suggestion or the first one scores below the threshold;
      otherwise it is the first suggestion's account number. */
  lemma MatchCashIff(recipient: Cell, accounts: seq<Account>, threshold: Threshold,
                     maxSuggestions: nat, ratio: Ratio)
    requires !HasNumber(accounts, Cash)
    ensures var r := Match(recipient, accounts, threshold, maxSuggestions, ratio);
      && (r.0 == Cash <==> r.1 == [] || r.1[0].score < threshold as real)
      && (r.0 != Cash ==> r.0 == r.1[0].number)
  {
    var r := Match(recipient, accounts, threshold, maxSuggestions, ratio);
    if !IsPersonalName(recipient) && r.1 != [] && r.1[0].score >= threshold as real {
      var cs := Candidates(NormalizeName(recipient), accounts, ratio);
      assert r.0 == r.1[0].number;
      SuggestionFacts(NormalizeName(recipient), accounts, ratio, maxSuggestions);
      assert HasNumber(accounts, r.1[0].number);
    }
  }
}
