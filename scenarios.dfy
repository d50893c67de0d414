/** Worked scenarios: the matcher on concrete names. Each scenario takes its
    names as parameters fixed by its preconditions. */
module Scenarios {
  import opened Sheet
  import opened Text
  import opened Normalize
  import opened Personal
  import opened Scoring
  import opened Ranking
  import opened Matcher

  /** Joining four and five words. */
  lemma JoinFour(a: string, b: string, c: string, d: string)
    ensures Join([a, b, c, d]) == a + (" " + (b + (" " + (c + (" " + d)))))
  {
    JoinTwo(c, d);
    JoinCons(b, [c, d]);
    assert [b] + [c, d] == [b, c, d];
    JoinCons(a, [b, c, d]);
    assert [a] + [b, c, d] == [a, b, c, d];
  }

  lemma JoinFive(a: string, b: string, c: string, d: string, e: string)
    ensures Join([a, b, c, d, e]) == a + (" " + (b + (" " + (c + (" " + (d + (" " + e)))))))
  {
    JoinFour(b, c, d, e);
    JoinCons(a, [b, c, d, e]);
    assert [a] + [b, c, d, e] == [a, b, c, d, e];
  }

  /** The names below, spelled out word by word. Each literal is compared in a
      lemma of its own, so that no other proof has to take it apart. */
  lemma SpellPerson()
    ensures "John" + (" " + "Smith") == "John Smith"
  {
  }

  lemma SpellShortName()
    ensures "Acme" + (" " + "Corp") == "Acme Corp"
  {
  }

  lemma SpellOtherName()
    ensures "Acme" + (" " + "International") == "Acme International"
  {
  }

  lemma SpellFour()
    ensures "Acme" + (" " + ("Corp" + (" " + ("Pty" + (" " + "Ltd"))))) == "Acme Corp Pty Ltd"
  {
  }

  lemma SpellFive()
    ensures "Acme" + (" " + ("Global" + (" " + ("Logistics" + (" " + ("Pty" + (" " + "Ltd")))))))
         == "Acme Global Logistics Pty Ltd"
  {
  }

  /** An empty recipient has no token, so it counts as personal. */
  lemma EmptyIsPersonal()
    ensures IsPersonalName(Some(""))
  {
    assert Words("") == [];
  }

  /** A two-word name is personal. */
  lemma TwoWordNameIsPersonal(name: string)
    requires name == "John Smith"
    ensures IsPersonalName(Some(name))
  {
    assert Words(name) == ["John", "Smith"] by {
      JoinTwo("John", "Smith");
      SpellPerson();
      WordsOfJoin(["John", "Smith"]);
    }
  }

  /** A personal name goes to "Cash" with no suggestion, whatever the
      accounts and the similarity function. */
  lemma TwoWordNameGoesToCash(name: string, accounts: seq<Account>, ratio: Ratio)
    requires name == "John Smith"
    ensures Match(Some(name), accounts, 90, MaxSuggestions, ratio) == (Cash, [])
  {
    TwoWordNameIsPersonal(name);
  }

  /** A five-word company name is not personal. */
  lemma LongCompanyNameNotPersonal(name: string)
    requires name == "Acme Global Logistics Pty Ltd"
    ensures !IsPersonalName(Some(name))
  {
    JoinFive("Acme", "Global", "Logistics", "Pty", "Ltd");
    SpellFive();
    WordsOfJoin(["Acme", "Global", "Logistics", "Pty", "Ltd"]);
  }

  /** "Acme Corp" has two tokens, so it is classed as personal and goes to
      "Cash" even against an account named "Acme Corporation Pty Ltd" at the
      lowest threshold. */
  lemma TwoWordCompanyGoesToCash(name: string, accounts: seq<Account>, ratio: Ratio)
    requires name == "Acme Corp"
    requires accounts == [Account("A1", Some("Acme Corporation Pty Ltd"))]
    ensures Match(Some(name), accounts, 70, MaxSuggestions, ratio) == (Cash, [])
  {
    JoinTwo("Acme", "Corp");
    SpellShortName();
    WordsOfJoin(["Acme", "Corp"]);
  }

  /** Lower-casing one ASCII word. */
  lemma LowerWord(w: string, l: string)
    requires |w| == |l|
    requires forall i :: 0 <= i < |w| ==> w[i] < '\U{80}' && AsciiLower(w[i]) == l[i]
    ensures Lower(w) == l
  {
    LowerOfAscii(w);
  }

  /** Normalising a name whose lower-cased text is a line of alphanumeric words. */
  lemma NormalizeJoined(s: string, ls: seq<string>)
    requires forall j :: 0 <= j < |ls| ==> AlnumWord(ls[j])
    requires Lower(s) == Join(ls)
    ensures NormalizeName(Some(s)) == Join(RemoveStopwords(ls))
  {
    JoinCanonical(ls);
    WordsOfJoin(ls);
    LowerOfBlanked(Join(ls));
    NormalizeAsTokens(s);
  }

  /** "corp", "pty" and "ltd" are stopwords. */
  lemma StopwordsOfRecipient(ls: seq<string>)
    requires ls == ["acme", "corp", "pty", "ltd"]
    ensures Join(RemoveStopwords(ls)) == "acme"
  {
    assert ls[1..] == ["corp", "pty", "ltd"];
    assert ls[2..] == ["pty", "ltd"];
    assert ls[3..] == ["ltd"];
  }

  /** Lower-casing "Acme Corp Pty Ltd". */
  lemma LowerOfRecipient(s: string, ls: seq<string>)
    requires s == "Acme Corp Pty Ltd" && ls == ["acme", "corp", "pty", "ltd"]
    ensures Lower(s) == Join(ls)
  {
    SpellFour();
    LowerOfRecipientWords("Acme", "Corp", "Pty", "Ltd", ls);
  }

  lemma LowerOfRecipientWords(a: string, b: string, c: string, d: string, ls: seq<string>)
    requires a == "Acme" && b == "Corp" && c == "Pty" && d == "Ltd"
    requires ls == ["acme", "corp", "pty", "ltd"]
    ensures Lower(a + (" " + (b + (" " + (c + (" " + d)))))) == Join(ls)
  {
    LowerWord(a, ls[0]);
    LowerWord(b, ls[1]);
    LowerWord(c, ls[2]);
    LowerWord(d, ls[3]);
    JoinFour(a, b, c, d);
    LowerJoin([a, b, c, d], ls);
  }

  /** "Acme Corp Pty Ltd" normalises to "acme": the suffixes are stopwords. */
  lemma NormalizeRecipient(s: string)
    requires s == "Acme Corp Pty Ltd"
    ensures NormalizeName(Some(s)) == "acme"
  {
    var ls := ["acme", "corp", "pty", "ltd"];
    LowerOfRecipient(s, ls);
    NormalizeJoined(s, ls);
    StopwordsOfRecipient(ls);
  }

  /** Lower-casing "Acme Corp". */
  lemma LowerOfShortName(s: string, ls: seq<string>)
    requires s == "Acme Corp" && ls == ["acme", "corp"]
    ensures Lower(s) == Join(ls)
  {
    SpellShortName();
    LowerWord("Acme", "acme");
    LowerWord("Corp", "corp");
    LowerOfLine("Acme", "Corp", "acme", "corp");
  }

  /** "corp" is a stopword. */
  lemma StopwordsOfShortName(ls: seq<string>)
    requires ls == ["acme", "corp"]
    ensures Join(RemoveStopwords(ls)) == "acme"
  {
    assert ls[1..] == ["corp"];
  }

  /** "Acme Corp" normalises to "acme". */
  lemma NormalizeShortName(s: string)
    requires s == "Acme Corp"
    ensures NormalizeName(Some(s)) == "acme"
  {
    var ls := ["acme", "corp"];
    LowerOfShortName(s, ls);
    NormalizeJoined(s, ls);
    StopwordsOfShortName(ls);
  }

  /** Lower-casing "International". */
  lemma LowerOfLongWord(w: string)
    requires w == "International"
    ensures Lower(w) == "international"
  {
    LowerOfAscii(w);
  }

  /** Lower-casing "Acme International". */
  lemma LowerOfOtherName(s: string, ls: seq<string>)
    requires s == "Acme International" && ls == ["acme", "international"]
    ensures Lower(s) == Join(ls)
  {
    SpellOtherName();
    LowerWord("Acme", "acme");
    LowerOfLongWord("International");
    LowerOfLine("Acme", "International", "acme", "international");
  }

  /** Neither "acme" nor "international" is a stopword. */
  lemma StopwordsOfOtherName(ls: seq<string>)
    requires ls == ["acme", "international"]
    ensures RemoveStopwords(ls) == ls
  {
    assert ls[1..] == ["international"];
  }

  /** "Acme International" normalises to "acme international". */
  lemma NormalizeOtherName(s: string)
    requires s == "Acme International"
    ensures NormalizeName(Some(s)) == Join(["acme", "international"])
  {
    var ls := ["acme", "international"];
    LowerOfOtherName(s, ls);
    NormalizeJoined(s, ls);
    StopwordsOfOtherName(ls);
  }

  /** The normalised recipient "acme" is one token. */
  lemma RecipientTokens(r: string)
    requires r == "acme"
    ensures FirstTwo(Words(r)) == [r]
  {
    WordsOfJoin([r]);
  }

  /** The normalised account name "acme international" is two tokens. */
  lemma OtherNameTokens(ls: seq<string>)
    requires ls == ["acme", "international"]
    ensures Words(Join(ls)) == ls
  {
    WordsOfJoin(ls);
  }

  /** Against the normalised recipient "acme", the account "Acme Corp" (also
      "acme") earns the first-two-word bonus. */
  lemma BonusOfShortName(account: Account, ratio: Ratio)
    requires account == Account("A1", Some("Acme Corp"))
    ensures ScoreAccount("acme", account, ratio).firstTwo
  {
    NormalizeShortName(account.name.value);
  }

  /** Against the normalised recipient "acme", the account "Acme International"
      does not earn the bonus: its first two tokens are two, the recipient's one. */
  lemma NoBonusOfOtherName(account: Account, ratio: Ratio)
    requires account == Account("A2", Some("Acme International"))
    ensures !ScoreAccount("acme", account, ratio).firstTwo
  {
    var ls := ["acme", "international"];
    assert NormalizeName(account.name) == Join(ls) by {
      NormalizeOtherName(account.name.value);
    }
    OtherNameTokens(ls);
    RecipientTokens("acme");
    assert !FirstTwoWordsMatch("acme", NormalizeName(account.name));
  }

  /** Of the two accounts, only "Acme Corp" earns the bonus. */
  lemma BonusOfCandidates(accounts: seq<Account>, ratio: Ratio)
    requires accounts == [Account("A1", Some("Acme Corp")), Account("A2", Some("Acme International"))]
    ensures var cs := Candidates("acme", accounts, ratio);
      |cs| == 2 && SoleBonus(cs, 0)
  {
    var cs := Candidates("acme", accounts, ratio);
    assert cs[0].firstTwo by { BonusOfShortName(accounts[0], ratio); }
    assert !cs[1].firstTwo by { NoBonusOfOtherName(accounts[1], ratio); }
  }

  /** The first-two-word bonus decides the ranking: against the recipient
      "Acme Corp Pty Ltd" (normalised "acme"), "Acme Corp" is the first
      suggestion whatever the similarity scores and the threshold. */
  lemma BonusDecidesRanking(recipient: Cell, accounts: seq<Account>, threshold: Threshold, ratio: Ratio)
    requires recipient == Some("Acme Corp Pty Ltd")
    requires accounts == [Account("A1", Some("Acme Corp")), Account("A2", Some("Acme International"))]
    ensures var s := Match(recipient, accounts, threshold, MaxSuggestions, ratio).1;
      |s| == 2 && s[0].number == "A1"
  {
    RecipientNotPersonal(recipient.value);
    NormalizeRecipient(recipient.value);
    BonusOfCandidates(accounts, ratio);
    MatchSoleBonusFirst(recipient, accounts, threshold, MaxSuggestions, ratio, 0);
  }

  /** "Acme Corp Pty Ltd" has four tokens, so it is not personal. */
  lemma RecipientNotPersonal(s: string)
    requires s == "Acme Corp Pty Ltd"
    ensures !IsPersonalName(Some(s))
  {
    assert Words(s) == ["Acme", "Corp", "Pty", "Ltd"] by {
      JoinFour("Acme", "Corp", "Pty", "Ltd");
      SpellFour();
      WordsOfJoin(["Acme", "Corp", "Pty", "Ltd"]);
    }
  }
}
