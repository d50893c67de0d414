/** The Python string primitives the matcher is built from: `str.isspace`,
    `str.split()` (no argument), `str.strip()`, `' '.join` and the regular
    expression substitution `re.sub(r'\s+', ' ', s)`. */
module Text {

  /** The characters for which Python's `str.isspace()` holds; `split()`,
      `strip()` and the regular expression class `\s` use this set. */
  predicate IsSpace(c: char) {
    || c == ' '
    || '\t' <= c <= '\r'
    || '\U{1C}' <= c <= '\U{1F}'
    || c == '\U{85}'
    || c == '\U{A0}'
    || c == '\U{1680}'
    || '\U{2000}' <= c <= '\U{200A}'
    || c == '\U{2028}'
    || c == '\U{2029}'
    || c == '\U{202F}'
    || c == '\U{205F}'
    || c == '\U{3000}'
  }

  predicate AllSpaces(s: string) {
    forall i :: 0 <= i < |s| ==> IsSpace(s[i])
  }

  /** A token as `split()` yields it: non-empty, no whitespace inside. */
  predicate IsWord(w: string) {
    |w| > 0 && forall i :: 0 <= i < |w| ==> !IsSpace(w[i])
  }

  /** `s.lstrip()`: the suffix of `s` left after its leading whitespace. */
  function DropSpaces(s: string): (r: string)
    ensures |r| <= |s| && r == s[|s| - |r|..]
    ensures forall i :: 0 <= i < |s| - |r| ==> IsSpace(s[i])
    ensures r == [] || !IsSpace(r[0])
  {
    if s != [] && IsSpace(s[0]) then
      var r := DropSpaces(s[1..]);
      r
    else s
  }

  /** `s.rstrip()`: the prefix of `s` left after its trailing whitespace. */
  function DropTrailingSpaces(s: string): (r: string)
    ensures |r| <= |s| && r == s[..|r|]
    ensures forall i :: |r| <= i < |s| ==> IsSpace(s[i])
    ensures r == [] || !IsSpace(r[|r| - 1])
  {
    if s != [] && IsSpace(s[|s| - 1]) then
      var r := DropTrailingSpaces(s[..|s| - 1]);
      r
    else s
  }

  /** `s.strip()` */
  function Strip(s: string): string {
    DropTrailingSpaces(DropSpaces(s))
  }

  /** The length of the run of non-whitespace characters that starts `s`. */
  function WordLength(s: string): (k: nat)
    ensures k <= |s|
    ensures forall i :: 0 <= i < k ==> !IsSpace(s[i])
    ensures k == |s| || IsSpace(s[k])
  {
    if s == [] || IsSpace(s[0]) then 0 else 1 + WordLength(s[1..])
  }

  /** `s.split()`: the maximal runs of non-whitespace characters, in order. */
  function Words(s: string): (ws: seq<string>)
    ensures forall j :: 0 <= j < |ws| ==> IsWord(ws[j])
    decreases |s|
  {
    if s == [] then []
    else if IsSpace(s[0]) then Words(s[1..])
    else
      var k := WordLength(s);
      [s[..k]] + Words(s[k..])
  }

  /** `' '.join(ws)` */
  function Join(ws: seq<string>): string {
    if ws == [] then []
    else if |ws| == 1 then ws[0]
    else ws[0] + " " + Join(ws[1..])
  }

  /** Joining one more token in front of a line. */
  lemma JoinCons(w: string, ws: seq<string>)
    requires ws != []
    ensures Join([w] + ws) == w + (" " + Join(ws))
  {
    assert ([w] + ws)[1..] == ws;
  }

  /** A line of two tokens. */
  lemma JoinTwo(a: string, b: string)
    ensures Join([a, b]) == a + (" " + b)
  {
    JoinCons(a, [b]);
    assert [a] + [b] == [a, b];
  }

  /** `re.sub(r'\s+', ' ', s)`: every maximal run of whitespace becomes one space. */
  function Collapse(s: string): string
    decreases |s|
  {
    if s == [] then []
    else if IsSpace(s[0]) then " " + Collapse(DropSpaces(s[1..]))
    else [s[0]] + Collapse(s[1..])
  }

  /** `re.sub(r'\s+', ' ', s).strip()` */
  function Squeeze(s: string): string {
    Strip(Collapse(s))
  }

  // ---------------------------------------------------------------------------
  // Facts about split()

  /** Any run length meeting WordLength's characterisation is WordLength. */
  lemma WordLengthUnique(s: string, k: nat)
    requires k <= |s|
    requires forall i :: 0 <= i < k ==> !IsSpace(s[i])
    requires k == |s| || IsSpace(s[k])
    ensures WordLength(s) == k
  {
  }

  /** A word followed by whitespace or by nothing splits off as the first token. */
  lemma WordsAfterWord(w: string, r: string)
    requires IsWord(w)
    requires r == [] || IsSpace(r[0])
    ensures Words(w + r) == [w] + Words(r)
  {
    var s := w + r;
    WordLengthUnique(s, |w|);
    assert s[..|w|] == w && s[|w|..] == r;
  }

  /** Leading whitespace does not change the tokens. */
  lemma WordsAfterSpace(c: char, r: string)
    requires IsSpace(c)
    ensures Words([c] + r) == Words(r)
  {
    assert ([c] + r)[1..] == r;
  }

  lemma {:induction false} WordsOfDropSpaces(s: string)
    ensures Words(DropSpaces(s)) == Words(s)
  {
    if s != [] && IsSpace(s[0]) {
      WordsOfDropSpaces(s[1..]);
    }
  }

  /** A string with no token is all whitespace. */
  lemma {:induction false} NoWordsAllSpaces(s: string)
    ensures Words(s) == [] <==> AllSpaces(s)
  {
    if s != [] && IsSpace(s[0]) {
      NoWordsAllSpaces(s[1..]);
      assert AllSpaces(s) <==> AllSpaces(s[1..]);
    }
  }

  lemma DropSpacesAllSpaces(s: string)
    requires AllSpaces(s)
    ensures DropSpaces(s) == []
  {
  }

  /** Trailing whitespace does not change the tokens. */
  lemma {:induction false} WordsBeforeSpace(s: string, c: char)
    requires IsSpace(c)
    ensures Words(s + [c]) == Words(s)
    decreases |s|
  {
    if s == [] {
      assert Words([c]) == Words([]) by { WordsAfterSpace(c, []); }
    } else if IsSpace(s[0]) {
      assert (s + [c])[1..] == s[1..] + [c];
      WordsBeforeSpace(s[1..], c);
    } else {
      var k := WordLength(s);
      WordLengthUnique(s + [c], k);
      assert (s + [c])[..k] == s[..k];
      assert (s + [c])[k..] == s[k..] + [c];
      WordsBeforeSpace(s[k..], c);
    }
  }

  lemma WordsOfDropTrailingSpaces(s: string)
    ensures Words(DropTrailingSpaces(s)) == Words(s)
    decreases |s|
  {
    if s != [] && IsSpace(s[|s| - 1]) {
      assert s == s[..|s| - 1] + [s[|s| - 1]];
      WordsBeforeSpace(s[..|s| - 1], s[|s| - 1]);
      WordsOfDropTrailingSpaces(s[..|s| - 1]);
    }
  }

  /** `s.strip().split() == s.split()`: stripping before splitting changes nothing. */
  lemma {:induction false} WordsOfStrip(s: string)
    ensures Words(Strip(s)) == Words(s)
  {
    WordsOfDropTrailingSpaces(DropSpaces(s));
    WordsOfDropSpaces(s);
  }

  /** Round trip: joining tokens with single spaces and splitting again gives the tokens back. */
  lemma {:induction false} WordsOfJoin(ws: seq<string>)
    requires forall j :: 0 <= j < |ws| ==> IsWord(ws[j])
    ensures Words(Join(ws)) == ws
  {
    if ws == [] {
      assert Join(ws) == [];
      assert Words([]) == [];
    } else if |ws| == 1 {
      assert Join(ws) == ws[0] + [];
      WordsAfterWord(ws[0], []);
      assert Words([]) == [];
      assert [ws[0]] == ws;
    } else {
      WordsOfJoin(ws[1..]);
      WordsOfJoinCons(ws[0], ws[1..]);
      assert [ws[0]] + ws[1..] == ws;
    }
  }

  /** One more token in front of a line splits off as the first token. */
  lemma WordsOfJoinCons(w: string, ws: seq<string>)
    requires IsWord(w) && ws != []
    requires Words(Join(ws)) == ws
    ensures Words(Join([w] + ws)) == [w] + ws
  {
    var rest := Join(ws);
    JoinCons(w, ws);
    WordsAfterSpace(' ', rest);
    WordsAfterWord(w, " " + rest);
  }

  /** Joined tokens neither start nor end with whitespace. */
  lemma {:induction false} JoinEnds(ws: seq<string>)
    requires forall j :: 0 <= j < |ws| ==> IsWord(ws[j])
    ensures Join(ws) == [] <==> ws == []
    ensures Join(ws) != [] ==> !IsSpace(Join(ws)[0]) && !IsSpace(Join(ws)[|Join(ws)| - 1])
  {
    if |ws| > 1 {
      JoinEnds(ws[1..]);
    }
  }

  // ---------------------------------------------------------------------------
  // re.sub(r'\s+', ' ', s).strip() is ' '.join(s.split())

  lemma {:induction false} CollapseAfterWord(w: string, r: string)
    requires forall i :: 0 <= i < |w| ==> !IsSpace(w[i])
    ensures Collapse(w + r) == w + Collapse(r)
    decreases |w|
  {
    if w != [] {
      assert (w + r)[1..] == w[1..] + r;
      CollapseAfterWord(w[1..], r);
      assert w == [w[0]] + w[1..];
    } else {
      assert w + r == r;
    }
  }

  /** On a string that does not start with whitespace, collapsing whitespace
      yields the single-space join of its tokens, followed by at most one space. */
  lemma {:induction false} CollapseIsJoin(u: string)
    requires u == [] || !IsSpace(u[0])
    ensures Collapse(u) == Join(Words(u)) || Collapse(u) == Join(Words(u)) + " "
    decreases |u|
  {
    if u == [] {
      assert Words(u) == [] && Collapse(u) == [];
    } else {
      var k := WordLength(u);
      var w, r := u[..k], u[k..];
      assert Words(u) == [w] + Words(r) && Collapse(u) == w + Collapse(r) by {
        assert u == w + r;
        WordsAfterWord(w, r);
        CollapseAfterWord(w, r);
      }
      if r == [] {
        assert Words(r) == [] && Collapse(r) == [];
      } else {
        var r' := DropSpaces(r[1..]);
        CollapseSpaceRun(r);
        CollapseIsJoin(r');
        CollapseWordAndRest(w, r');
      }
    }
  }

  /** A run of whitespace collapses to one space and contributes no token. */
  lemma CollapseSpaceRun(r: string)
    requires r != [] && IsSpace(r[0])
    ensures Collapse(r) == " " + Collapse(DropSpaces(r[1..]))
    ensures Words(r) == Words(DropSpaces(r[1..]))
  {
    WordsAfterSpace(r[0], r[1..]);
    assert r == [r[0]] + r[1..];
    WordsOfDropSpaces(r[1..]);
  }

  lemma {:induction false} CollapseWordAndRest(w: string, r': string)
    requires r' == [] || !IsSpace(r'[0])
    requires Collapse(r') == Join(Words(r')) || Collapse(r') == Join(Words(r')) + " "
    ensures var c := w + (" " + Collapse(r')); var j := Join([w] + Words(r'));
      c == j || c == j + " "
  {
    var ws := Words(r');
    if r' == [] {
      assert ws == [] && Collapse(r') == [];
      assert [w] + ws == [w];
      assert Join([w]) == w;
      assert w + (" " + Collapse(r')) == w + " ";
    } else {
      assert ws != [] by { NoWordsAllSpaces(r'); }
      JoinCons(w, ws);
      if Collapse(r') != Join(ws) {
        var j := Join(ws);
        assert w + (" " + (j + " ")) == (w + (" " + j)) + " ";
      }
    }
  }

  lemma {:induction false} DropSpacesOfPadded(p: string, x: string)
    requires AllSpaces(p)
    ensures DropSpaces(p + x) == DropSpaces(x)
    decreases |p|
  {
    if p != [] {
      assert (p + x)[1..] == p[1..] + x;
      DropSpacesOfPadded(p[1..], x);
    } else {
      assert p + x == x;
    }
  }

  lemma {:induction false} DropTrailingSpacesOfPadded(x: string, q: string)
    requires AllSpaces(q)
    ensures DropTrailingSpaces(x + q) == DropTrailingSpaces(x)
    decreases |q|
  {
    if q != [] {
      assert (x + q)[..|x + q| - 1] == x + q[..|q| - 1];
      DropTrailingSpacesOfPadded(x, q[..|q| - 1]);
    } else {
      assert x + q == x;
    }
  }

  /** Stripping whitespace padding from a string that neither starts nor ends
      with whitespace gives that string back. */
  lemma StripPadded(p: string, x: string, q: string)
    requires AllSpaces(p) && AllSpaces(q)
    requires x != [] ==> !IsSpace(x[0]) && !IsSpace(x[|x| - 1])
    ensures Strip(p + x + q) == x
  {
    assert p + x + q == p + (x + q);
    DropSpacesOfPadded(p, x + q);
    if x == [] {
      assert x + q == q;
      DropSpacesAllSpaces(q);
    } else {
      assert DropSpaces(x + q) == x + q;
      DropTrailingSpacesOfPadded(x, q);
    }
  }

  /** Line-level whitespace normalisation `re.sub(r'\s+', ' ', s).strip()`
      equals `' '.join(s.split())`. */
  lemma {:induction false} SqueezeIsJoinWords(s: string)
    ensures Squeeze(s) == Join(Words(s))
  {
    var u := if s != [] && IsSpace(s[0]) then DropSpaces(s[1..]) else s;
    var p := if s != [] && IsSpace(s[0]) then " " else "";
    if s != [] && IsSpace(s[0]) {
      LeadingSpaces(s);
    } else {
      assert Collapse(s) == "" + Collapse(s);
    }
    SqueezeOfCollapsed(s, p, u);
  }

  /** When `s` collapses to whitespace `p` followed by the collapse of a text
      `u` that has the same tokens and no leading whitespace, squeezing `s`
      joins its tokens. */
  lemma SqueezeOfCollapsed(s: string, p: string, u: string)
    requires AllSpaces(p) && (u == [] || !IsSpace(u[0]))
    requires Collapse(s) == p + Collapse(u) && Words(u) == Words(s)
    ensures Squeeze(s) == Join(Words(s))
  {
    CollapseIsJoin(u);
    JoinEnds(Words(s));
    StripOfCollapsed(p, Collapse(u), Join(Words(s)));
  }

  /** Leading whitespace collapses to one space and splits to nothing. */
  lemma LeadingSpaces(s: string)
    requires s != [] && IsSpace(s[0])
    ensures var u := DropSpaces(s[1..]);
      && Collapse(s) == " " + Collapse(u)
      && Words(u) == Words(s)
      && (u == [] || !IsSpace(u[0]))
  {
    assert s == [s[0]] + s[1..];
    WordsAfterSpace(s[0], s[1..]);
    WordsOfDropSpaces(s[1..]);
  }

  lemma StripOfCollapsed(p: string, c: string, j: string)
    requires AllSpaces(p)
    requires j != [] ==> !IsSpace(j[0]) && !IsSpace(j[|j| - 1])
    requires c == j || c == j + " "
    ensures Strip(p + c) == j
  {
    if c == j {
      assert p + c == p + j + "";
      StripPadded(p, j, "");
    } else {
      assert p + c == p + j + " ";
      StripPadded(p, j, " ");
    }
  }
}
