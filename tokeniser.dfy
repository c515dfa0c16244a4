/** The tokenising comprehensions of `predict`: the raw symptom text is split on commas, each
    piece is stripped of whitespace, and then of leading and trailing square brackets. */
module Tokeniser {

  /** Python's `str.isspace()` on one character: the characters `str.strip()` removes when
      called without an argument. */
  predicate IsSpace(c: char)
  {
    || '\t' <= c <= '\r'
    || '\U{1C}' <= c <= ' '
    || c == '\U{85}' || c == '\U{A0}' || c == '\U{1680}'
    || '\U{2000}' <= c <= '\U{200A}'
    || c == '\U{2028}' || c == '\U{2029}' || c == '\U{202F}' || c == '\U{205F}' || c == '\U{3000}'
  }

  /** The characters `s.strip()` removes. */
  const Whitespace: set<char> := set c: char | '\t' <= c <= '\U{3000}' && IsSpace(c)

  /** The characters stripped from both ends of each token in the second pass. */
  const Brackets: set<char> := {'[', ']'}

  /** The number of occurrences of `c` in `s`. */
  function Occurrences(s: string, c: char): (n: nat)
    ensures n <= |s|
  {
    if s == [] then 0 else (if s[0] == c then 1 else 0) + Occurrences(s[1..], c)
  }

  /** Python's `s.split(sep)` with a one-character separator: the pieces between separators,
      empty pieces included. */
  function Split(s: string, sep: char): (pieces: seq<string>)
    ensures |pieces| == Occurrences(s, sep) + 1
    ensures forall i | 0 <= i < |pieces| :: sep !in pieces[i]
  {
    if s == [] then [[]]
    else
      var rest := Split(s[1..], sep);
      if s[0] == sep then [[]] + rest else [[s[0]] + rest[0]] + rest[1..]
  }

  /** Python's `sep.join(pieces)`. */
  function Join(pieces: seq<string>, sep: char): (s: string)
    requires pieces != []
  {
    if |pieces| == 1 then pieces[0] else pieces[0] + [sep] + Join(pieces[1..], sep)
  }

  /** Joining the pieces of a split gives back the text. */
  lemma {:induction false} JoinSplit(s: string, sep: char)
    ensures Join(Split(s, sep), sep) == s
  {
    if s != [] {
      JoinSplit(s[1..], sep);
      var rest := Split(s[1..], sep);
      if s[0] != sep {
        var pieces := Split(s, sep);
        if |rest| == 1 {
          assert pieces == [[s[0]] + rest[0]];
        } else {
          assert pieces[1..] == rest[1..];
          assert Join(rest, sep) == rest[0] + [sep] + Join(rest[1..], sep);
        }
      } else {
        assert Split(s, sep)[1..] == rest;
      }
    }
  }

  /** Splitting a join of separator-free pieces gives back the pieces. */
  lemma {:induction false} SplitJoin(pieces: seq<string>, sep: char)
    requires pieces != []
    requires forall i | 0 <= i < |pieces| :: sep !in pieces[i]
    ensures Split(Join(pieces, sep), sep) == pieces
  {
    if |pieces| == 1 {
      SplitPiece(pieces[0], [], sep);
      assert pieces[0] + [] == pieces[0];
    } else {
      SplitJoin(pieces[1..], sep);
      var tail := [sep] + Join(pieces[1..], sep);
      assert Split(tail, sep) == [[]] + pieces[1..];
      SplitPiece(pieces[0], tail, sep);
      assert pieces[0] + [sep] + Join(pieces[1..], sep) == pieces[0] + tail;
      assert pieces[0] + [] == pieces[0];
      assert [pieces[0]] + pieces[1..] == pieces;
    }
  }

  /** A separator-free prefix sticks to the first piece of what follows it. */
  lemma {:induction false} SplitPiece(w: string, t: string, sep: char)
    requires sep !in w
    ensures Split(w + t, sep) == [w + Split(t, sep)[0]] + Split(t, sep)[1..]
  {
    var ts := Split(t, sep);
    if w == [] {
      assert w + t == t;
      assert [] + ts[0] == ts[0];
      assert [ts[0]] + ts[1..] == ts;
    } else {
      var wt := w + t;
      assert wt[0] == w[0] && wt[1..] == w[1..] + t;
      SplitPiece(w[1..], t, sep);
      var rest := Split(w[1..] + t, sep);
      assert Split(wt, sep) == [[w[0]] + rest[0]] + rest[1..];
      assert [w[0]] + (w[1..] + ts[0]) == w + ts[0];
    }
  }

  /** Python's `s.lstrip(chars)`: drops the longest prefix made of characters of `chars`. */
  function TrimLeft(s: string, chars: set<char>): (r: string)
    ensures |r| <= |s|
  {
    if s != [] && s[0] in chars then TrimLeft(s[1..], chars) else s
  }

  /** `TrimLeft` keeps a suffix of `s`, drops only characters of `chars`, and stops at the first
      character outside `chars`. */
  lemma {:induction false} TrimLeftKeepsSuffix(s: string, chars: set<char>)
    ensures var r := TrimLeft(s, chars);
      && r == s[|s| - |r|..]
      && (r == [] || r[0] !in chars)
      && (forall k | 0 <= k < |s| - |r| :: s[k] in chars)
  {
    if s != [] && s[0] in chars {
      TrimLeftKeepsSuffix(s[1..], chars);
    }
  }

  /** Python's `s.rstrip(chars)`: drops the longest suffix made of characters of `chars`. */
  function TrimRight(s: string, chars: set<char>): (r: string)
    ensures |r| <= |s|
  {
    if s != [] && s[|s| - 1] in chars then TrimRight(s[..|s| - 1], chars) else s
  }

  /** `TrimRight` keeps a prefix of `s`, drops only characters of `chars`, and stops at the last
      character outside `chars`. */
  lemma {:induction false} TrimRightKeepsPrefix(s: string, chars: set<char>)
    ensures var r := TrimRight(s, chars);
      && r == s[..|r|]
      && (r == [] || r[|r| - 1] !in chars)
      && (forall k | |r| <= k < |s| :: s[k] in chars)
  {
    if s != [] && s[|s| - 1] in chars {
      TrimRightKeepsPrefix(s[..|s| - 1], chars);
    }
  }

  /** Python's `s.strip(chars)`: the result neither starts nor ends with a character of
      `chars`. */
  function Strip(s: string, chars: set<char>): (r: string)
    ensures |r| <= |s|
    ensures r == [] || (r[0] !in chars && r[|r| - 1] !in chars)
  {
    var l := TrimLeft(s, chars);
    TrimLeftKeepsSuffix(s, chars);
    TrimRightKeepsPrefix(l, chars);
    var r := TrimRight(l, chars);
    assert r == [] || r[0] == l[0];
    r
  }

  /** `s[i..j]` is what remains once everything outside it, all characters of `chars`, is
      removed, and it neither starts nor ends with a character of `chars`. */
  ghost predicate StrippedAt(s: string, chars: set<char>, i: nat, j: nat)
  {
    && i <= j <= |s|
    && (forall k | 0 <= k < i :: s[k] in chars)
    && (forall k | j <= k < |s| :: s[k] in chars)
    && (i == j || (s[i] !in chars && s[j - 1] !in chars))
  }

  /** `Strip` removes exactly the leading and trailing run of characters of `chars`: its result
      is the one slice of `s` that satisfies `StrippedAt`. */
  lemma StripIsStrippedSlice(s: string, chars: set<char>, i: nat, j: nat)
    ensures exists i': nat, j': nat :: StrippedAt(s, chars, i', j') && Strip(s, chars) == s[i'..j']
    ensures StrippedAt(s, chars, i, j) ==> Strip(s, chars) == s[i..j]
  {
    var i0 := |s| - |TrimLeft(s, chars)|;
    var j0 := i0 + |Strip(s, chars)|;
    StripStrippedAt(s, chars);
    if StrippedAt(s, chars, i, j) {
      StrippedAtUnique(s, chars, i, j, i0, j0);
    }
  }

  /** The slice `Strip` keeps, located: it starts where `TrimLeft` stopped. */
  lemma StripStrippedAt(s: string, chars: set<char>)
    ensures var i0 := |s| - |TrimLeft(s, chars)|; var j0 := i0 + |Strip(s, chars)|;
      StrippedAt(s, chars, i0, j0) && Strip(s, chars) == s[i0..j0]
  {
    TrimLeftKeepsSuffix(s, chars);
    StripIsSlice(s, chars);
    StripDropsOnlyChars(s, chars);
    var r := Strip(s, chars);
    var i0 := |s| - |TrimLeft(s, chars)|;
    if r != [] {
      assert s[i0] == r[0] && s[i0 + |r| - 1] == r[|r| - 1];
    }
  }

  /** What `Strip` keeps is a slice of `s` starting where `TrimLeft` stopped. */
  lemma StripIsSlice(s: string, chars: set<char>)
    ensures var i0 := |s| - |TrimLeft(s, chars)|; Strip(s, chars) == s[i0..i0 + |Strip(s, chars)|]
  {
    var l := TrimLeft(s, chars);
    TrimLeftKeepsSuffix(s, chars);
    TrimRightKeepsPrefix(l, chars);
  }

  /** Everything before and after the slice `Strip` keeps is a character of `chars`. */
  lemma StripDropsOnlyChars(s: string, chars: set<char>)
    ensures var i0 := |s| - |TrimLeft(s, chars)|; var j0 := i0 + |Strip(s, chars)|;
      forall k | 0 <= k < i0 || j0 <= k < |s| :: s[k] in chars
  {
    var l := TrimLeft(s, chars);
    TrimLeftKeepsSuffix(s, chars);
    TrimRightKeepsPrefix(l, chars);
    var r := TrimRight(l, chars);
    var i0 := |s| - |l|;
    forall k | i0 + |r| <= k < |s| ensures s[k] in chars {
      assert s[k] == l[k - i0];
    }
  }

  /** At most one slice satisfies `StrippedAt`. */
  lemma StrippedAtUnique(s: string, chars: set<char>, i: nat, j: nat, i': nat, j': nat)
    requires StrippedAt(s, chars, i, j) && StrippedAt(s, chars, i', j')
    ensures s[i..j] == s[i'..j']
  {
    if i < j && i' < j' {
      assert s[i] !in chars && s[i'] !in chars;
      assert s[j - 1] !in chars && s[j' - 1] !in chars;
    }
  }

  /** Stripping only removes characters: one absent from `s` is absent from the result. */
  lemma StripKeepsOut(s: string, chars: set<char>, c: char)
    requires c !in s
    ensures c !in Strip(s, chars)
  {
    StripStrippedAt(s, chars);
  }

  /** Each piece stripped of `chars` at both ends, as the two comprehensions of `predict` do. */
  function StripEach(pieces: seq<string>, chars: set<char>): (r: seq<string>)
    ensures |r| == |pieces|
    ensures forall k | 0 <= k < |r| :: r[k] == Strip(pieces[k], chars)
  {
    seq(|pieces|, k requires 0 <= k < |pieces| => Strip(pieces[k], chars))
  }

  /** The tokens `predict` corrects, one per comma-separated piece of the raw input. */
  function Tokenise(raw: string): (tokens: seq<string>)
    ensures |tokens| == Occurrences(raw, ',') + 1
  {
    StripEach(StripEach(Split(raw, ','), Whitespace), Brackets)
  }

  /** There is one token per comma-separated piece, empty pieces included. No token contains a
      comma, starts with a bracket or ends with one. */
  lemma TokeniseShape(raw: string)
    ensures |Tokenise(raw)| == Occurrences(raw, ',') + 1
    ensures forall k | 0 <= k < |Tokenise(raw)| :: ',' !in Tokenise(raw)[k]
    ensures forall k | 0 <= k < |Tokenise(raw)| :: var t := Tokenise(raw)[k];
      t == [] || (t[0] !in Brackets && t[|t| - 1] !in Brackets)
  {
    StripTwiceKeepsOut(Split(raw, ','), Whitespace, Brackets, ',');
  }

  /** Stripping twice keeps out a character none of the pieces holds. */
  lemma StripTwiceKeepsOut(pieces: seq<string>, first: set<char>, second: set<char>, c: char)
    requires forall k | 0 <= k < |pieces| :: c !in pieces[k]
    ensures forall k | 0 <= k < |pieces| :: c !in StripEach(StripEach(pieces, first), second)[k]
  {
    var trimmed := StripEach(pieces, first);
    forall k | 0 <= k < |pieces|
      ensures c !in StripEach(trimmed, second)[k]
    {
      StripKeepsOut(pieces[k], first, c);
      StripKeepsOut(trimmed[k], second, c);
    }
  }

  /** Input made only of commas, the empty input included, yields only empty tokens, one more
      than there are commas. */
  lemma TokeniseOnlyCommas(raw: string)
    requires forall k | 0 <= k < |raw| :: raw[k] == ','
    ensures |Tokenise(raw)| == |raw| + 1
    ensures forall k | 0 <= k < |Tokenise(raw)| :: Tokenise(raw)[k] == ""
  {
    SplitOnlySeparators(raw, ',');
  }

  /** A text made only of separators splits into empty pieces, one more than its length. */
  lemma {:induction false} SplitOnlySeparators(s: string, sep: char)
    requires forall k | 0 <= k < |s| :: s[k] == sep
    ensures Split(s, sep) == seq(|s| + 1, _ => "")
  {
    if s != [] {
      SplitOnlySeparators(s[1..], sep);
      assert [""] + seq(|s|, _ => "") == seq(|s| + 1, _ => "");
    }
  }

  /** Whitespace is stripped before brackets, so a bracketed symptom keeps the spaces inside
      the brackets: `"[ cough ]"` yields the token `" cough "`. */
  lemma TokeniseKeepsSpacesInsideBrackets(w: string)
    requires ',' !in w
    requires w == [] || (w[0] !in Brackets && w[|w| - 1] !in Brackets)
    ensures Tokenise("[" + w + "]") == [w]
  {
    var raw := "[" + w + "]";
    assert ',' !in raw by {
      assert raw == ['['] + w + [']'];
    }
    SplitJoin([raw], ',');
    BracketedIsSpaceFree(w);
    BracketedStripsToInside(w);
    var once := StripEach([raw], Whitespace);
    assert once == [raw];
    assert StripEach(once, Brackets) == [w];
  }

  /** A bracketed text has no surrounding whitespace to strip. */
  lemma BracketedIsSpaceFree(w: string)
    ensures Strip("[" + w + "]", Whitespace) == "[" + w + "]"
  {
    var raw := "[" + w + "]";
    assert raw[0] == '[' && raw[|raw| - 1] == ']';
    assert StrippedAt(raw, Whitespace, 0, |raw|);
    StripIsStrippedSlice(raw, Whitespace, 0, |raw|);
    assert raw[0..|raw|] == raw;
  }

  /** Stripping brackets from a bracketed text leaves what was inside, provided that neither
      starts nor ends with a bracket. */
  lemma BracketedStripsToInside(w: string)
    requires w == [] || (w[0] !in Brackets && w[|w| - 1] !in Brackets)
    ensures Strip("[" + w + "]", Brackets) == w
  {
    var raw := "[" + w + "]";
    assert raw[0] == '[' && raw[|raw| - 1] == ']';
    assert w != [] ==> raw[1] == w[0] && raw[|raw| - 2] == w[|w| - 1];
    assert StrippedAt(raw, Brackets, 1, |raw| - 1);
    StripIsStrippedSlice(raw, Brackets, 1, |raw| - 1);
    assert raw[1..|raw| - 1] == w;
  }
}
