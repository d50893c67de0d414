/** The name normaliser `normalize_name` (app.py lines 15-22): lower-case,
    blank everything outside `[a-z0-9 ]`, delete legal-entity stopwords as
    whole words, squeeze whitespace. */
module Normalize {
  import opened Sheet
  import opened Text

  predicate IsAlnum(c: char) {
    'a' <= c <= 'z' || '0' <= c <= '9'
  }

  /** The alphabet that the substitution of line 19 leaves: `[a-z0-9 ]`. */
  predicate Blanked(s: string) {
    forall i :: 0 <= i < |s| ==> IsAlnum(s[i]) || s[i] == ' '
  }

  predicate AlnumWord(w: string) {
    |w| > 0 && forall i :: 0 <= i < |w| ==> IsAlnum(w[i])
  }

  /** The alternatives of the regular expression on line 20. The last one,
      `&`, can never match: line 19 has already turned every `&` into a space. */
  const Stopwords: set<string> :=
    {"pty", "ltd", "limited", "aust", "australia", "co", "corp", "inc", "the", "and", "&"}

  /** A normalised name: only `[a-z0-9 ]`, no leading or trailing space and no
      two spaces in a row. */
  predicate Canonical(r: string) {
    && Blanked(r)
    && (r != [] ==> r[0] != ' ' && r[|r| - 1] != ' ')
    && (forall i :: 0 <= i < |r| - 1 && r[i] == ' ' ==> r[i + 1] != ' ')
  }

  /** `str.lower()` of one character. Besides `A`-`Z`, exactly two characters
      lower-case to something containing an ASCII letter: U+0130 (to `i`
      followed by a combining dot) and the Kelvin sign U+212A (to `k`). Every
      other character is kept as it is: whatever it lower-cases to lies outside
      `[a-z0-9 ]` and is blanked by the next step all the same. */
  function LowerChar(c: char): (r: string)
    ensures forall i :: 0 <= i < |r| ==> !('A' <= r[i] <= 'Z')
    ensures IsAlnum(c) || c == ' ' ==> r == [c]
  {
    if 'A' <= c <= 'Z' then [AsciiLower(c)]
    else if c == '\U{130}' then "i\U{307}"
    else if c == '\U{212A}' then "k"
    else [c]
  }

  /** Lower-casing within ASCII. */
  function AsciiLower(c: char): char {
    if 'A' <= c <= 'Z' then (c as int - 'A' as int + 'a' as int) as char else c
  }

  /** `str.lower()` (line 18). */
  function Lower(s: string): (r: string)
    ensures forall i :: 0 <= i < |r| ==> !('A' <= r[i] <= 'Z')
  {
    if s == [] then [] else LowerChar(s[0]) + Lower(s[1..])
  }

  /** Text already made of `[a-z0-9 ]` is left unchanged by lower-casing. */
  lemma {:induction false} LowerOfBlanked(s: string)
    requires Blanked(s)
    ensures Lower(s) == s
  {
    if s != [] {
      LowerOfBlanked(s[1..]);
    }
  }

  /** `re.sub(r'[^a-z0-9 ]', ' ', s)` (line 19). */
  function Blank(s: string): (r: string)
    ensures |r| == |s| && Blanked(r)
    ensures forall i :: 0 <= i < |s| && r[i] != ' ' ==> r[i] == s[i]
    ensures forall i :: 0 <= i < |s| && IsAlnum(s[i]) ==> r[i] == s[i]
    ensures Blanked(s) ==> r == s
  {
    seq(|s|, i requires 0 <= i < |s| => if IsAlnum(s[i]) || s[i] == ' ' then s[i] else ' ')
  }

  /** The length of the run of characters `[a-z0-9]` that starts `s`. */
  function AlnumRun(s: string): (k: nat)
    ensures k <= |s|
    ensures forall i :: 0 <= i < k ==> IsAlnum(s[i])
    ensures k == |s| || !IsAlnum(s[k])
  {
    if s == [] || !IsAlnum(s[0]) then 0 else 1 + AlnumRun(s[1..])
  }

  /** `re.sub(r'\b(pty|ltd|...|and|&)\b', '', s)` (line 20) on the text line 19
      leaves: a match must start and end at a word boundary, so it is exactly a
      maximal run of `[a-z0-9]` that equals a stopword; every such run is
      deleted and everything else is kept. */
  function DeleteStopwords(s: string): string
    decreases |s|
  {
    if s == [] then []
    else if !IsAlnum(s[0]) then [s[0]] + DeleteStopwords(s[1..])
    else
      var k := AlnumRun(s);
      (if s[..k] in Stopwords then [] else s[..k]) + DeleteStopwords(s[k..])
  }

  /** The same deletion on tokens: keep the tokens that are not stopwords. */
  function RemoveStopwords(ws: seq<string>): (r: seq<string>)
    ensures forall j :: 0 <= j < |r| ==> r[j] !in Stopwords
    ensures forall j :: 0 <= j < |r| ==> r[j] in ws
    ensures (forall j :: 0 <= j < |ws| ==> ws[j] !in Stopwords) ==> r == ws
    ensures forall j :: 0 <= j < |ws| && ws[j] !in Stopwords ==> ws[j] in r
  {
    if ws == [] then []
    else (if ws[0] in Stopwords then [] else [ws[0]]) + RemoveStopwords(ws[1..])
  }

  /** Dropping stopwords keeps every other token as often as it occurs and
      keeps no stopword at all. */
  lemma {:induction false} RemoveStopwordsCounts(ws: seq<string>)
    ensures forall w :: multiset(RemoveStopwords(ws))[w]
                     == if w in Stopwords then 0 else multiset(ws)[w]
  {
    if ws != [] {
      RemoveStopwordsCounts(ws[1..]);
      assert ws == [ws[0]] + ws[1..];
    }
  }

  /** Dropping stopwords works token by token, so the kept tokens stay in
      their order: the tokens of a concatenation are those of each part. */
  lemma {:induction false} RemoveStopwordsAppend(a: seq<string>, b: seq<string>)
    ensures RemoveStopwords(a + b) == RemoveStopwords(a) + RemoveStopwords(b)
  {
    if a == [] {
      assert a + b == b;
    } else {
      assert (a + b)[1..] == a[1..] + b;
      RemoveStopwordsAppend(a[1..], b);
    }
  }

  /** `normalize_name` (lines 15-22). A missing cell gives the empty string;
      otherwise the result is canonical and holds no stopword token. */
  function NormalizeName(name: Cell): (r: string)
    ensures name.None? ==> r == ""
    ensures Canonical(r)
    ensures forall j :: 0 <= j < |Words(r)| ==> Words(r)[j] !in Stopwords
  {
    match name
    case None => ""
    case Some(s) =>
      NormalizeAsTokens(s);
      NormalizedTokens(s);
      NormalizedShape(RemoveStopwords(Words(Blank(Lower(s)))));
      Squeeze(DeleteStopwords(Blank(Lower(s))))
  }

  // ---------------------------------------------------------------------------
  // Lemmas

  /** The tokens of a string over `[a-z0-9 ]` consist of `[a-z0-9]` only. */
  lemma {:induction false} BlankedWords(s: string)
    requires Blanked(s)
    ensures forall j :: 0 <= j < |Words(s)| ==> AlnumWord(Words(s)[j])
    decreases |s|
  {
    if s != [] {
      if IsSpace(s[0]) {
        BlankedWords(s[1..]);
      } else {
        var k := WordLength(s);
        BlankedWords(s[k..]);
        assert Words(s) == [s[..k]] + Words(s[k..]);
      }
    }
  }

  /** On text over `[a-z0-9 ]` the maximal alphanumeric runs are the tokens. */
  lemma AlnumRunIsWordLength(s: string)
    requires Blanked(s)
    ensures AlnumRun(s) == WordLength(s)
  {
    WordLengthUnique(s, AlnumRun(s));
  }

  /** Deleting stopword runs from the text and splitting gives the same tokens
      as splitting the text and dropping the stopword tokens. */
  lemma {:induction false} DeleteStopwordsWords(s: string)
    requires Blanked(s)
    ensures Words(DeleteStopwords(s)) == RemoveStopwords(Words(s))
    decreases |s|
  {
    if s == [] {
      assert DeleteStopwords(s) == [] && Words(s) == [];
    } else if !IsAlnum(s[0]) {
      DeleteStopwordsWords(s[1..]);
      assert Words(DeleteStopwords(s)) == Words(DeleteStopwords(s[1..])) by {
        assert s[0] == ' ';
        WordsAfterSpace(' ', DeleteStopwords(s[1..]));
      }
      assert Words(s) == Words(s[1..]);
    } else {
      var k := AlnumRun(s);
      var w, r := s[..k], s[k..];
      var keep := if w in Stopwords then [] else [w];
      assert Words(s) == [w] + Words(r) by {
        AlnumRunIsWordLength(s);
      }
      assert RemoveStopwords([w] + Words(r)) == keep + RemoveStopwords(Words(r)) by {
        assert ([w] + Words(r))[1..] == Words(r);
      }
      DeleteStopwordsWords(r);
      assert Words(DeleteStopwords(s)) == keep + Words(DeleteStopwords(r)) by {
        DeleteStopwordsWordStep(s, k);
      }
    }
  }

  lemma DeleteStopwordsWordStep(s: string, k: nat)
    requires Blanked(s) && s != [] && IsAlnum(s[0]) && k == AlnumRun(s)
    ensures Words(DeleteStopwords(s))
         == (if s[..k] in Stopwords then [] else [s[..k]]) + Words(DeleteStopwords(s[k..]))
  {
    var w, r := s[..k], s[k..];
    var d := DeleteStopwords(r);
    assert DeleteStopwords(s) == (if w in Stopwords then [] else w) + d;
    if w in Stopwords {
      assert [] + d == d;
    } else {
      assert r == [] || r[0] == ' ';
      assert d == [] || d[0] == ' ';
      WordsAfterWord(w, d);
    }
  }

  /** Lines 19-21 amount to: split the blanked text into tokens, drop the
      stopword tokens and join the rest with single spaces. */
  lemma {:induction false} NormalizeAsTokens(s: string)
    ensures Squeeze(DeleteStopwords(Blank(Lower(s))))
         == Join(RemoveStopwords(Words(Blank(Lower(s)))))
  {
    var b := Blank(Lower(s));
    SqueezeIsJoinWords(DeleteStopwords(b));
    DeleteStopwordsWords(b);
  }

  /** The tokens that survive normalisation are alphanumeric and not stopwords. */
  lemma NormalizedTokens(s: string)
    ensures var ws := RemoveStopwords(Words(Blank(Lower(s))));
      forall j :: 0 <= j < |ws| ==> AlnumWord(ws[j]) && ws[j] !in Stopwords
  {
    var vs := Words(Blank(Lower(s)));
    BlankedWords(Blank(Lower(s)));
    var ws := RemoveStopwords(vs);
    forall j | 0 <= j < |ws| ensures AlnumWord(ws[j]) {
      var m :| 0 <= m < |vs| && vs[m] == ws[j];
    }
  }

  /** Joining alphanumeric words with single spaces gives a canonical string. */
  lemma {:induction false} JoinCanonical(ws: seq<string>)
    requires forall j :: 0 <= j < |ws| ==> AlnumWord(ws[j])
    ensures Canonical(Join(ws))
  {
    if |ws| > 1 {
      var w, rest := ws[0], Join(ws[1..]);
      JoinCanonical(ws[1..]);
      JoinEnds(ws[1..]);
      var r := w + " " + rest;
      assert Join(ws) == r;
      assert forall i :: 0 <= i < |w| ==> r[i] == w[i];
      assert r[|w|] == ' ';
      assert forall i :: |w| < i < |r| ==> r[i] == rest[i - |w| - 1];
    }
  }

  /** What normalisation produces from a list of tokens that survived it. */
  lemma NormalizedShape(ws: seq<string>)
    requires forall j :: 0 <= j < |ws| ==> AlnumWord(ws[j]) && ws[j] !in Stopwords
    ensures Canonical(Join(ws))
    ensures Words(Join(ws)) == ws
  {
    JoinCanonical(ws);
    AlnumWordsOfJoin(ws);
  }

  /** Splitting alphanumeric words joined with single spaces gives them back. */
  lemma AlnumWordsOfJoin(ws: seq<string>)
    requires forall j :: 0 <= j < |ws| ==> AlnumWord(ws[j])
    ensures Words(Join(ws)) == ws
  {
    forall j | 0 <= j < |ws| ensures IsWord(ws[j]) {
      assert AlnumWord(ws[j]);
    }
    WordsOfJoin(ws);
  }

  /** Normalising a normalised name changes nothing. */
  lemma {:induction false} NormalizeIdempotent(name: Cell)
    ensures NormalizeName(Some(NormalizeName(name))) == NormalizeName(name)
  {
    var r := NormalizeName(name);
    var ws: seq<string> := [];
    if name.Some? {
      ws := RemoveStopwords(Words(Blank(Lower(name.value))));
      NormalizeAsTokens(name.value);
      NormalizedTokens(name.value);
      NormalizedShape(ws);
    } else {
      assert Words(r) == [];
    }
    assert r == Join(ws) && Words(r) == ws;
    LowerOfBlanked(r);
    NormalizeAsTokens(r);
    assert RemoveStopwords(ws) == ws;
  }

  /** On ASCII text, lower-casing works character by character. */
  lemma {:induction false} LowerOfAscii(s: string)
    requires forall i :: 0 <= i < |s| ==> s[i] < '\U{80}'
    ensures Lower(s) == seq(|s|, i requires 0 <= i < |s| => AsciiLower(s[i]))
  {
    if s != [] {
      LowerOfAscii(s[1..]);
    }
  }

  lemma {:induction false} LowerAppend(a: string, b: string)
    ensures Lower(a + b) == Lower(a) + Lower(b)
  {
    if a != [] {
      assert (a + b)[1..] == a[1..] + b;
      LowerAppend(a[1..], b);
    } else {
      assert a + b == b;
    }
  }

  /** Lower-casing a line of words lower-cases each word. */
  lemma {:induction false} LowerJoin(ws: seq<string>, ls: seq<string>)
    requires |ws| == |ls|
    requires forall j :: 0 <= j < |ws| ==> Lower(ws[j]) == ls[j]
    ensures Lower(Join(ws)) == Join(ls)
  {
    if |ws| > 1 {
      LowerJoin(ws[1..], ls[1..]);
      LowerAppend(ws[0] + " ", Join(ws[1..]));
      LowerAppend(ws[0], " ");
      assert Lower(" ") == " " by { assert " "[1..] == []; }
    }
  }

  /** Lower-casing a line of two words lower-cases each of them. */
  lemma LowerOfLine(a: string, b: string, la: string, lb: string)
    requires Lower(a) == la && Lower(b) == lb
    ensures Lower(a + (" " + b)) == Join([la, lb])
  {
    JoinTwo(a, b);
    LowerJoin([a, b], [la, lb]);
  }
}
