# UPS Australia recipient matching — a Dafny model

`app.py` is a small tool that takes a shipment sheet, with a tracking number
and a free-text recipient company per row, and an account list, with an
account number and a customer name per row. It assigns each shipment either
to a customer account number or to the sentinel `"Cash"`. This project
models the matching core of that file and proves its properties:

- `normalize_name`. Lower-case the name, blank every character outside
  `[a-z0-9 ]`, delete legal-entity stopwords as whole words, then squeeze
  whitespace. Modelled step by step in `Normalize`, on top of Python's
  `split`, `strip`, `' '.join` and `re.sub(r'\s+', ' ', …)` in `Text`.
- `is_personal_name`. A recipient with at most two tokens counts as a
  person (`Personal`).
- `match_account`. Score every account: a fuzzy base score, a bonus of 5
  when the first two normalised tokens agree, and a cap at 100 (`Scoring`).
  Sort stably in descending `(bonus flag, score)` order and keep the first
  `max_suggestions` (`Ranking`). The result is the top account when its
  score reaches the threshold, and `"Cash"` otherwise (`Matcher`). The loop
  that builds `scores` is the method `Matcher.ScoreAccounts`. The whole
  function is the method `Matcher.MatchAccount`, proved equal to the
  specification function `Matcher.Match`.
- The per-shipment loop (lines 73-83). It appends one result row per
  shipment (`Batch.RunBatch`), proved equal to the row list `Batch.BatchRows`.

`Scenarios` works through concrete recipients and account lists. Files:
`sheet.dfy` (spreadsheet cells), `text.dfy`, `normalize.dfy`,
`personal.dfy`, `scoring.dfy`, `ranking.dfy`, `matcher.dfy`, `batch.dfy`
and `scenarios.dfy`.

Modelling choices:

- A spreadsheet cell is `Option<string>`. `None` stands for a value that
  `pd.isna` recognises as missing.
- `fuzz.partial_ratio` is a parameter `ratio` of type
  `(string, string) -> Percent`, where a `Percent` is a real number from 0
  to 100.
- The slider value `similarity_threshold` is a parameter of type
  `Threshold`: a whole number from 70 to 100.
- `max_suggestions` is a parameter of `Match`. The batch passes the
  source's constant 3.
- Whitespace is the set of characters for which Python's `str.isspace()`
  holds. `split()`, `strip()` and `\s` all use that set.

Two consequences of the code that are easy to miss:

- The score is a real number, not a whole percentage: `partial_ratio`
  returns a float, and lines 45-46 add 5 and take the minimum with 100 on
  that float.
- A two-token company name such as "Acme Corp" counts as personal under
  lines 28-29, so the shipment goes to "Cash" whatever the accounts are.
  `Scenarios.TwoWordCompanyGoesToCash` proves this against an account named
  "Acme Corporation Pty Ltd".

## Model

| member | source | states |
|---|---|---|
| Text.WordsOfStrip | app.py:28 | `strip()` before `split()` changes no token |
| Text.SqueezeIsJoinWords | app.py:21 | `re.sub(r'\s+', ' ', s).strip()` equals `' '.join(s.split())` for every string |
| Text.WordsOfJoin | app.py:21 | splitting tokens that were joined with single spaces gives those tokens back |
| Normalize.Lower | app.py:18 | lower-casing leaves no ASCII capital letter |
| Normalize.LowerOfBlanked | app.py:18 | lower-casing leaves text over `[a-z0-9 ]` unchanged |
| Normalize.LowerOfAscii | app.py:18 | on ASCII text, lower-casing maps each character on its own |
| Normalize.LowerAppend | app.py:18 | lower-casing a concatenation lower-cases each part |
| Normalize.LowerJoin | app.py:18 | lower-casing a line of words lower-cases each word |
| Normalize.LowerOfLine | app.py:18 | lower-casing two words joined by a space lower-cases each of them |
| Normalize.Blank | app.py:19 | the substitution keeps the length, leaves only `[a-z0-9 ]`, keeps every alphanumeric character, turns every other character into a space, and changes nothing in text already over that alphabet |
| Normalize.RemoveStopwords | app.py:20 | no surviving token is a stopword, every surviving token was in the input, every token that is not a stopword survives, and a list without stopwords is kept whole |
| Normalize.RemoveStopwordsCounts | app.py:20 | every token that is not a stopword is kept exactly as often as it occurs, and no stopword is kept |
| Normalize.RemoveStopwordsAppend | app.py:20 | the deletion works token by token: the kept tokens of a concatenation are those of each part, in order |
| Normalize.DeleteStopwordsWords | app.py:19-20 | deleting the `\b`-delimited stopword matches from blanked text gives the tokens of the text minus its stopword tokens |
| Normalize.NormalizeAsTokens | app.py:18-21 | lines 19-21 equal "split the blanked text, drop stopword tokens, join with single spaces" |
| Normalize.NormalizedTokens | app.py:18-20 | every token that survives normalisation is alphanumeric and not a stopword |
| Normalize.JoinCanonical | app.py:21 | alphanumeric words joined with single spaces give a string over `[a-z0-9 ]` with no leading, trailing or doubled space |
| Normalize.NormalizedShape | app.py:21 | such a line is canonical and splits back into its words |
| Normalize.NormalizeName | app.py:15-22 | a missing value gives `""`; otherwise the result has only `a-z`, `0-9` and single spaces, no leading or trailing space, and no stopword token |
| Normalize.NormalizeIdempotent | app.py:15-22 | normalising a normalised name gives it back |
| Personal.IsPersonalName | app.py:25-29 | false for a missing value; otherwise true exactly when the text has at most two whitespace-separated tokens |
| Scoring.ScoreAccountFacts | app.py:39-46 | a candidate carries the account's number and name; its flag holds exactly when the first two tokens agree; its score is in [0, 100], at least the base and at most the base plus 5; the score equals the base exactly when there is no bonus or the base is 100; with the bonus it is the base plus 5 or the cap 100 |
| Scoring.MissingRecipientBonus | app.py:15-22 | a missing recipient normalises to `""` and earns the bonus exactly against accounts whose names normalise to `""` |
| Ranking.Insert | app.py:49 | inserting adds exactly one element and keeps every other one |
| Ranking.SortDescending | app.py:49 | the sort is a permutation of its input and is non-increasing in the key `(flag, score)` |
| Ranking.InsertSorted | app.py:49 | inserting into a non-increasing sequence keeps it non-increasing |
| Ranking.SortIsStable | app.py:49 | for every key, the sorted list holds the elements with that key in input order |
| Ranking.KeyClassOfPrefix | app.py:50 | the elements with a key in a prefix are the first elements with that key |
| Ranking.TakeOutranksRest | app.py:50 | the first `n` elements of a sorted list form a sub-multiset that outranks every element left out |
| Matcher.Candidates | app.py:37-46 | one candidate per account, in account order, each scored against its own account |
| Matcher.Match | app.py:32-55 | a personal recipient gives `("Cash", [])`; otherwise there are `min(max_suggestions, accounts)` suggestions; suggestions are non-increasing in `(flag, score)` and their scores lie in [0, 100]; the result is "Cash" or an account number present in the input; a result other than "Cash" is the first suggestion's number with a score at least the threshold; a first suggestion scoring at least the threshold gives its number, for every account list |
| Matcher.SuggestionFacts | app.py:49-50 | the kept suggestions are sorted, their scores lie in [0, 100], and each carries the number of an input account |
| Matcher.CandidateFacts | app.py:37-46 | every candidate has a score in [0, 100] and the number of an input account |
| Matcher.MatchAccount | app.py:32-55 | the method returns exactly what `Match` specifies |
| Matcher.ScoreAccounts | app.py:37-46 | the loop appends one candidate per account, in order, giving `Candidates` |
| Matcher.AppendScore | app.py:39-46 | scoring account i extends the candidates of the first i accounts to those of the first i + 1, so the loop builds exactly one candidate per account in order |
| Matcher.MatchSuggestionsAreBest | app.py:49-50 | the suggestions are a prefix of a permutation of the candidates; each outranks every candidate left out; the first outranks every candidate |
| Matcher.MatchKeepsAccountOrder | app.py:49-50 | among suggestions with equal keys, the order is that of the account list |
| Matcher.MatchBonusFirst | app.py:49 | if any account earns the first-two-word bonus, the first suggestion has it, whatever the scores |
| Matcher.MatchSoleBonusFirst | app.py:49 | when exactly one account earns the bonus, it is the first suggestion |
| Matcher.MatchCashIff | app.py:52-55 | when no account is numbered "Cash", the result is "Cash" exactly when there is no suggestion or the first scores below the threshold, and otherwise the first suggestion's number |
| Batch.RunBatch | app.py:73-83 | the loop appends one row per shipment, in order, giving `BatchRows` |
| Batch.MatchShipment | app.py:75-83 | one shipment's row is its tracking number and recipient with the result of matching that recipient |
| Batch.RowsOfAt | app.py:73-83 | row `i` of the batch is built from shipment `i` |
| Batch.BatchRowFacts | app.py:75-83 | a row keeps its shipment's tracking number and recipient and holds that recipient's match, which is "Cash" or an input account number, with at most three suggestions |
| Batch.BatchRowsFacts | app.py:73-83 | there is one row per shipment, and row `i` keeps shipment `i`'s tracking number and recipient and holds the match of shipment `i`'s recipient |
| Scenarios.EmptyIsPersonal | app.py:25-29 | the empty recipient counts as personal |
| Scenarios.TwoWordNameIsPersonal | app.py:25-29 | "John Smith" counts as personal |
| Scenarios.TwoWordNameGoesToCash | app.py:33-34 | "John Smith" goes to "Cash" with no suggestion, whatever the accounts and scores |
| Scenarios.LongCompanyNameNotPersonal | app.py:25-29 | "Acme Global Logistics Pty Ltd" does not count as personal |
| Scenarios.TwoWordCompanyGoesToCash | app.py:33-34 | "Acme Corp" goes to "Cash" even against "Acme Corporation Pty Ltd" at threshold 70 |
| Scenarios.NormalizeRecipient | app.py:15-22 | "Acme Corp Pty Ltd" normalises to "acme" |
| Scenarios.NormalizeShortName | app.py:15-22 | "Acme Corp" normalises to "acme" |
| Scenarios.NormalizeOtherName | app.py:15-22 | "Acme International" normalises to the single-space join of "acme" and "international" |
| Scenarios.BonusOfCandidates | app.py:43-45 | against "acme", "Acme Corp" earns the bonus and "Acme International" does not |
| Scenarios.BonusDecidesRanking | app.py:43-50 | for "Acme Corp Pty Ltd", the account "Acme Corp" is the first of two suggestions, whatever the scores and the threshold |

## Left out

- The Streamlit page, slider, file uploaders, messages, result display and download button (app.py:7-11, 57-99). These are user interface. The threshold and the suggestion count are parameters instead.
- Reading and writing Excel files (app.py:64-65, 85-95). This is I/O. Shipments and accounts are sequences of rows instead.
- The column-presence checks and the catch-all `except` (app.py:67-70, 96-97). They belong to the I/O layer.
- The internals of `fuzz.partial_ratio` (app.py:42). It is a foreign library function. It is the parameter `ratio`, and every property holds for any such function with results in [0, 100].
- `pd.isna` and the `str(...)` conversion of non-string cells (app.py:16, 18, 26, 28). A cell is `Option<string>`, so a number in a name cell is not modelled.
- Normalize.Lower: full Unicode `str.lower()` is not modelled. The model lower-cases `A`-`Z` and the two other characters whose lower case contains an ASCII letter (U+0130 and U+212A). It keeps every other character as it is. That makes no difference after line 19, which blanks every character outside `[a-z0-9 ]` anyway.
- Normalize.DeleteStopwords: deletion is modelled on the text that line 19 leaves, where `\b` falls exactly at the ends of alphanumeric runs. Unicode word characters other than `[a-z0-9]` never reach line 20, so `\b` around them is not modelled.
- The rendering of suggestions as `"name (score%)"` joined by `"; "` (app.py:82). This is display formatting. A result row keeps the suggestions as candidates.
- Scoring.ScoreAccountFacts: the score is a real number in [0, 100] rather than a whole number, because `partial_ratio` returns a float. No property relies on whole numbers.
- Scoring.ScoreAccountFacts: `score += 5` on a float (app.py:45) becomes exact addition on real numbers. No threshold decision changes, but a float rounding tie between two bonus candidates whose base scores lie in [0, 8), [11, 16), [27, 32) or [59, 64), where base and base + 5 fall on opposite sides of a power of two, can become a strict order here, which changes their places in the sort.
- The `Account Number` cell (app.py:40) is a `string`, so a missing or numeric account-number cell is not modelled.
