/** The few Python string operations the SP3 reader relies on:
    `str.strip()` emptiness, `str.split()` and `str.startswith`. */
module PyStrings {

  /** The characters for which Python's `str.isspace()` holds; `split()`
      and `strip()` without arguments separate and trim on exactly these. */
  predicate IsSpace(c: char) {
    || ('\t' <= c <= '\r')
    || ('\U{1C}' <= c <= '\U{1F}')
    || c == ' ' || c == '\U{85}' || c == '\U{A0}' || c == '\U{1680}'
    || ('\U{2000}' <= c <= '\U{200A}')
    || c == '\U{2028}' || c == '\U{2029}' || c == '\U{202F}' || c == '\U{205F}' || c == '\U{3000}'
  }

  predicate NoSpace(s: string) {
    forall i :: 0 <= i < |s| ==> !IsSpace(s[i])
  }

  /** `not s.strip()`: the line holds nothing but white space. */
  predicate IsBlank(s: string) {
    forall i :: 0 <= i < |s| ==> IsSpace(s[i])
  }

  predicate StartsWith(s: string, prefix: string) {
    |prefix| <= |s| && s[..|prefix|] == prefix
  }

  /** Length of the run of non-space characters that starts s. */
  function WordLength(s: string): (n: nat)
    ensures n <= |s| && NoSpace(s[..n])
    ensures n < |s| ==> IsSpace(s[n])
  {
    if s == [] || IsSpace(s[0]) then 0
    else
      var n := 1 + WordLength(s[1..]);
      assert s[..n] == [s[0]] + s[1..][..n - 1];
      n
  }

  /** `s.split()`: the maximal runs of non-space characters, in order. */
  function Tokens(s: string): (ts: seq<string>)
    ensures forall i :: 0 <= i < |ts| ==> |ts[i]| > 0 && NoSpace(ts[i])
    ensures ts == [] <==> IsBlank(s)
    decreases |s|
  {
    if s == [] then []
    else if IsSpace(s[0]) then
      var ts := Tokens(s[1..]);
      assert IsBlank(s[1..]) ==> IsBlank(s) by {
        if IsBlank(s[1..]) {
          forall i | 0 <= i < |s| ensures IsSpace(s[i]) {
            if i > 0 { assert s[i] == s[1..][i - 1]; }
          }
        }
      }
      ts
    else
      var n := WordLength(s);
      [s[..n]] + Tokens(s[n..])
  }

  /** The words joined with single spaces: what splitting undoes. */
  function JoinWords(ws: seq<string>): string
    decreases |ws|
  {
    if ws == [] then "" else if |ws| == 1 then ws[0] else ws[0] + " " + JoinWords(ws[1..])
  }

  lemma {:induction false} TokensOfWordThenRest(w: string, rest: string)
    requires |w| > 0 && NoSpace(w)
    requires rest == [] || IsSpace(rest[0])
    ensures Tokens(w + rest) == [w] + Tokens(rest)
  {
    var s := w + rest;
    WordLengthOfWord(w, rest);
    assert s[..|w|] == w && s[|w|..] == rest;
  }

  lemma {:induction false} WordLengthOfWord(w: string, rest: string)
    requires NoSpace(w)
    requires rest == [] || IsSpace(rest[0])
    ensures WordLength(w + rest) == |w|
    decreases |w|
  {
    if w != [] {
      assert (w + rest)[1..] == w[1..] + rest;
      WordLengthOfWord(w[1..], rest);
    }
  }

  /** Splitting undoes joining with single spaces, for words that are
      non-empty and hold no white space. */
  lemma {:induction false} TokensOfJoinWords(ws: seq<string>)
    requires forall i :: 0 <= i < |ws| ==> |ws[i]| > 0 && NoSpace(ws[i])
    ensures Tokens(JoinWords(ws)) == ws
    decreases |ws|
  {
    if |ws| == 1 {
      TokensOfWordThenRest(ws[0], "");
      assert ws[0] + "" == ws[0];
    } else if |ws| > 1 {
      TokensOfJoinStep(ws[0], ws[1..]);
      TokensOfJoinWords(ws[1..]);
      assert [ws[0]] + ws[1..] == ws;
    }
  }

  /** Leading white space of any kind and length is dropped by splitting. */
  lemma {:induction false} TokensOfBlankPrefix(sp: string, s: string)
    requires IsBlank(sp)
    ensures Tokens(sp + s) == Tokens(s)
    decreases |sp|
  {
    if sp != [] {
      var t := sp + s;
      assert t[0] == sp[0];
      assert t[1..] == sp[1..] + s;
      assert IsSpace(t[0]);
      TokensOfBlankPrefix(sp[1..], s);
    } else {
      assert sp + s == s;
    }
  }

  /** The words with the gaps around and between them: gaps[0] before the
      first word, gaps[i] between word i - 1 and word i, the last gap after
      the last word. */
  function Spaced(ws: seq<string>, gaps: seq<string>): string
    requires |gaps| == |ws| + 1
    decreases |ws|
  {
    if ws == [] then gaps[0] else gaps[0] + ws[0] + Spaced(ws[1..], gaps[1..])
  }

  lemma SpacedStart(ws: seq<string>, gaps: seq<string>)
    requires |gaps| == |ws| + 1 && |gaps[0]| > 0
    ensures |Spaced(ws, gaps)| > 0 && Spaced(ws, gaps)[0] == gaps[0][0]
  {
  }

  /** Splitting recovers the words from any line that separates them by
      non-empty runs of white space, with any white space at either end. */
  lemma {:induction false} TokensOfSpaced(ws: seq<string>, gaps: seq<string>)
    requires |gaps| == |ws| + 1
    requires forall i :: 0 <= i < |ws| ==> |ws[i]| > 0 && NoSpace(ws[i])
    requires forall i :: 0 <= i < |gaps| ==> IsBlank(gaps[i])
    requires forall i :: 0 < i < |ws| ==> |gaps[i]| > 0
    ensures Tokens(Spaced(ws, gaps)) == ws
    decreases |ws|
  {
    if ws != [] {
      var rest := Spaced(ws[1..], gaps[1..]);
      assert gaps[0] + ws[0] + rest == gaps[0] + (ws[0] + rest);
      TokensOfBlankPrefix(gaps[0], ws[0] + rest);
      if |gaps[1]| > 0 {
        SpacedStart(ws[1..], gaps[1..]);
        assert IsSpace(rest[0]);
      } else {
        assert |ws| == 1 && rest == gaps[1];
      }
      TokensOfWordThenRest(ws[0], rest);
      TokensOfSpaced(ws[1..], gaps[1..]);
      assert [ws[0]] + ws[1..] == ws;
    }
  }

  /** Splitting a word, a space and the rest gives the word and then the
      tokens of the rest. */
  lemma TokensOfJoinStep(w: string, ws: seq<string>)
    requires |w| > 0 && NoSpace(w) && ws != []
    ensures JoinWords([w] + ws) == w + " " + JoinWords(ws)
    ensures Tokens(JoinWords([w] + ws)) == [w] + Tokens(JoinWords(ws))
  {
    var rest := JoinWords(ws);
    assert ([w] + ws)[1..] == ws;
    TokensOfWordThenRest(w, " " + rest);
    assert w + " " + rest == w + (" " + rest);
    assert (" " + rest)[1..] == rest;
  }
}
