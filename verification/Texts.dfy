/** Joining and stripping text. */
module Texts {

  predicate IsBlank(c: char) { c == ' ' || '\t' <= c <= '\r' }

  function Strip(s: string): (r: string)
    ensures r == "" || (!IsBlank(r[0]) && !IsBlank(r[|r| - 1]))
    ensures s != "" && !IsBlank(s[0]) && !IsBlank(s[|s| - 1]) ==> r == s
  {
    if s != "" && IsBlank(s[0]) then Strip(s[1..])
    else if s != "" && IsBlank(s[|s| - 1]) then Strip(s[..|s| - 1])
    else s
  }

  /** The texts with a blank between each two. */
  function Joined(texts: seq<string>): string
  {
    if texts == [] then ""
    else if |texts| == 1 then texts[0]
    else Joined(texts[..|texts| - 1]) + " " + texts[|texts| - 1]
  }

  // ---- What a text says ----------------------------------------------------

  predicate InWord(s: string) { s != "" && !IsBlank(s[|s| - 1]) }

  function Grown(words: seq<string>, c: char): seq<string>
    requires words != []
  {
    words[..|words| - 1] + [words[|words| - 1] + [c]]
  }

  /** The words of a text: its stretches without blanks. */
  function Split(s: string): (r: seq<string>)
    ensures InWord(s) ==> r != []
    ensures forall k :: 0 <= k < |r| ==> r[k] != "" && forall c :: c in r[k] ==> !IsBlank(c)
  {
    if s == "" then []
    else
      var init, c := s[..|s| - 1], s[|s| - 1];
      var r := Split(init);
      if IsBlank(c) then r
      else if InWord(init) then Grown(r, c)
      else r + [[c]]
  }

  function SplitAll(texts: seq<string>): seq<string>
  {
    if texts == [] then [] else SplitAll(texts[..|texts| - 1]) + Split(texts[|texts| - 1])
  }

  lemma SplitSnoc(s: string, c: char)
    ensures Split(s + [c]) == if IsBlank(c) then Split(s) else if InWord(s) then Grown(Split(s), c) else Split(s) + [[c]]
  {
    assert (s + [c])[..|s|] == s;
  }

  lemma GrownBehind(x: seq<string>, words: seq<string>, c: char)
    requires words != []
    ensures Grown(x + words, c) == x + Grown(words, c)
  {
  }

  lemma {:induction false} SplitAtBlank(s: string, b: char, t: string)
    requires IsBlank(b)
    ensures Split(s + [b] + t) == Split(s) + Split(t)
  {
    hide Split, Grown, IsBlank;
    if t == "" {
      assert s + [b] + t == s + [b];
      SplitSnoc(s, b);
      NoWords();
    } else {
      var init, c := t[..|t| - 1], t[|t| - 1];
      var before := s + [b] + init;
      assert t == init + [c] && s + [b] + t == before + [c];
      SplitAtBlank(s, b, init);
      SplitSnoc(init, c);
      SplitSnoc(before, c);
      assert before[|before| - 1] == if init == "" then b else init[|init| - 1];
      assert InWord(before) == InWord(init);
      if InWord(init) { GrownBehind(Split(s), Split(init), c); }
    }
  }

  lemma NoWords()
    ensures Split("") == []
  {
  }

  lemma {:induction false} StripKeepsWords(s: string)
    ensures Split(Strip(s)) == Split(s)
  {
    if s != "" && IsBlank(s[0]) {
      SplitAtBlank("", s[0], s[1..]);
      assert s == "" + [s[0]] + s[1..];
      StripKeepsWords(s[1..]);
    } else if s != "" && IsBlank(s[|s| - 1]) {
      StripKeepsWords(s[..|s| - 1]);
    }
  }

  /** Joining and stripping neither lose, split, merge nor reorder a word. */
  lemma {:induction false} JoinedKeepsWords(texts: seq<string>)
    ensures Split(Joined(texts)) == SplitAll(texts) && Split(Strip(Joined(texts))) == SplitAll(texts)
  {
    StripKeepsWords(Joined(texts));
    if |texts| == 1 {
      assert SplitAll(texts[..0]) == [];
    } else if |texts| > 1 {
      JoinedKeepsWords(texts[..|texts| - 1]);
      SplitAtBlank(Joined(texts[..|texts| - 1]), ' ', texts[|texts| - 1]);
    }
  }
}
