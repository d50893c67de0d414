/** Scoring one account against a recipient: the body of the loop in
    `match_account` (app.py lines 39-46). */
module Scoring {
  import opened Sheet
  import opened Text
  import opened Normalize

  /** A similarity percentage. */
  type Percent = r: real | 0.0 <= r <= 100.0

  /** `rapidfuzz.fuzz.partial_ratio` (line 42): a foreign function, left
      abstract; it returns a float between 0 and 100. */
  type Ratio = (string, string) -> Percent

  /** One row of the account list: `Account Number` and `Customer Name`. */
  datatype Account = Account(number: string, name: Cell)

  /** The tuple `(acct_number, acct_name, score, first_two_words_match)` of line 46. */
  datatype Candidate = Candidate(number: string, name: Cell, score: real, firstTwo: bool)

  /** The first-two-word bonus of line 45 and the cap of line 46. */
  const Bonus: real := 5.0
  const Cap: real := 100.0

  function Min(a: real, b: real): real {
    if a <= b then a else b
  }

  /** The slice `ws[:2]`. */
  function FirstTwo(ws: seq<string>): (r: seq<string>)
    ensures |r| == (if |ws| < 2 then |ws| else 2)
    ensures r == ws[..|r|]
  {
    if |ws| <= 2 then ws else ws[..2]
  }

  /** `a.split()[:2] == b.split()[:2]` (line 43). */
  predicate FirstTwoWordsMatch(a: string, b: string) {
    FirstTwo(Words(a)) == FirstTwo(Words(b))
  }

  /** The candidate built for one account (lines 39-46). */
  function ScoreAccount(normRecipient: string, account: Account, ratio: Ratio): Candidate {
    var normAccount := NormalizeName(account.name);
    var base := ratio(normRecipient, normAccount);
    var firstTwo := FirstTwoWordsMatch(normRecipient, normAccount);
    var score := if firstTwo then base + Bonus else base;
    Candidate(account.number, account.name, Min(score, Cap), firstTwo)
  }

  /** What a candidate records: the account's number and name, whether the
      first two tokens agree, and a score that is a percentage, never below
      the base and raised by the bonus exactly when the tokens agree (unless
      the base is already 100). */
  lemma ScoreAccountFacts(normRecipient: string, account: Account, ratio: Ratio)
    ensures var c := ScoreAccount(normRecipient, account, ratio);
      var base := ratio(normRecipient, NormalizeName(account.name));
      && c.number == account.number && c.name == account.name
      && (c.firstTwo <==> FirstTwoWordsMatch(normRecipient, NormalizeName(account.name)))
      && 0.0 <= c.score <= 100.0
      && base <= c.score <= base + Bonus
      && (c.score == base <==> !c.firstTwo || base == 100.0)
      && (c.firstTwo ==> c.score == base + Bonus || c.score == 100.0)
  {
  }

  /** A missing recipient normalises to the empty name, whose token slice is
      empty: it earns the bonus against exactly the accounts whose names
      normalise to the empty string. */
  lemma MissingRecipientBonus(account: Account, ratio: Ratio)
    ensures ScoreAccount(NormalizeName(None), account, ratio).firstTwo
        <==> NormalizeName(account.name) == ""
  {
    var n := NormalizeName(account.name);
    assert Words("") == [];
    if n != "" {
      assert n[0] != ' ';
      assert Words(n) != [] by { NoWordsAllSpaces(n); }
    }
  }
}
