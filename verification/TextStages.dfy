/** What the three coroutines do to a text, each seen as a function on whole texts. */
module TextStages {

  const EOF := -1
  const NOTHING := -2
  const SPACE := 32

  /* The character classes of the C locale, for ASCII codes. */
  predicate IsSpace(c: int) { c == SPACE || 9 <= c <= 13 }
  predicate IsUpper(c: int) { 65 <= c <= 90 }
  predicate IsLower(c: int) { 97 <= c <= 122 }
  predicate IsAlpha(c: int) { IsUpper(c) || IsLower(c) }

  function SwapCase(c: int): (d: int) {
    if IsLower(c) then c - 32 else if IsUpper(c) then c + 32 else c
  }

  /* An ASCII text without NUL. */
  predicate IsText(s: seq<int>) {
    forall i :: 0 <= i < |s| ==> 1 <= s[i] < 128
  }

  function LastOr(s: seq<int>, c: int): (d: int) {
    if s == [] then c else s[|s| - 1]
  }

  /* The first stage: a space after a space is dropped, and so are leading spaces. */
  function Squeezed(s: seq<int>): (t: seq<int>) {
    if s == [] then [] else
      var t, c := Squeezed(s[..|s| - 1]), s[|s| - 1];
      if IsSpace(c) && IsSpace(LastOr(t, SPACE)) then t else t + [c]
  }

  /* The second stage: what is not a letter becomes NOTHING. */
  function Marked(s: seq<int>): (t: seq<int>)
    ensures |t| == |s|
  {
    if s == [] then [] else Marked(s[..|s| - 1]) + [if IsAlpha(s[|s| - 1]) then s[|s| - 1] else NOTHING]
  }

  /* The third stage: everything but NOTHING is printed with its case swapped. */
  function Printed(s: seq<int>): (t: seq<int>) {
    if s == [] then [] else
      Printed(s[..|s| - 1]) + if s[|s| - 1] == NOTHING then [] else [SwapCase(s[|s| - 1])]
  }

  /* What the program is for: the letters of the text, in order, with their case swapped. */
  function SwappedLetters(s: seq<int>): (t: seq<int>) {
    if s == [] then [] else
      SwappedLetters(s[..|s| - 1]) + if IsAlpha(s[|s| - 1]) then [SwapCase(s[|s| - 1])] else []
  }

  /* Position `i` is where a word starts: a maximal run of characters that are no spaces. */
  predicate WordStart(s: seq<int>, i: nat)
    requires i < |s|
  {
    !IsSpace(s[i]) && (i == 0 || IsSpace(s[i - 1]))
  }

  ghost function WordStarts(s: seq<int>): (w: set<nat>) {
    set i: nat | i < |s| && WordStart(s, i)
  }

  lemma WordStartsAppend(s: seq<int>, c: int)
    ensures |WordStarts(s + [c])| == |WordStarts(s)| + (if !IsSpace(c) && IsSpace(LastOr(s, SPACE)) then 1 else 0)
  {
    var t := s + [c];
    assert forall i: nat :: i < |s| ==> (WordStart(t, i) <==> WordStart(s, i));
    if WordStart(t, |s|) {
      assert WordStarts(t) == WordStarts(s) + {|s|};
    } else {
      assert WordStarts(t) == WordStarts(s);
    }
  }

  /* The three stages, one after the other, print exactly the letters. */
  lemma {:induction false} StagesCompose(s: seq<int>)
    requires IsText(s)
    ensures Printed(Marked(Squeezed(s))) == SwappedLetters(s)
  {
    if s == [] {
    } else {
      var front, c := s[..|s| - 1], s[|s| - 1];
      StagesCompose(front);
      var t := Squeezed(front);
      if !(IsSpace(c) && IsSpace(LastOr(t, SPACE))) {
        assert (t + [c])[..|t|] == t;
        var m := Marked(t + [c]);
        assert m[..|m| - 1] == Marked(t);
      }
    }
  }

  lemma SqueezedAppend(s: seq<int>, c: int)
    ensures Squeezed(s + [c]) ==
      if IsSpace(c) && IsSpace(LastOr(Squeezed(s), SPACE)) then Squeezed(s) else Squeezed(s) + [c]
  {
  }

  /* The last character kept is a space exactly when the last character is. */
  lemma {:induction false} SqueezedLast(s: seq<int>)
    ensures IsSpace(LastOr(Squeezed(s), SPACE)) <==> IsSpace(LastOr(s, SPACE))
  {
  }

  lemma {:induction false} SqueezingKeepsLetters(s: seq<int>)
    ensures SwappedLetters(Squeezed(s)) == SwappedLetters(s)
  {
    if s == [] {
    } else {
      var front, c := s[..|s| - 1], s[|s| - 1];
      SqueezingKeepsLetters(front);
      var t := Squeezed(front);
      assert (t + [c])[..|t|] == t;
    }
  }

  // ----- what the stages mean, character by character

  /* Swapping the case exchanges the two cases letter by letter and undoes itself. */
  lemma SwapCaseIsInvolution(c: int)
    ensures 97 <= c <= 122 <==> 65 <= SwapCase(c) <= 90
    ensures 65 <= c <= 90 <==> 97 <= SwapCase(c) <= 122
    ensures SwapCase(SwapCase(c)) == c && (IsAlpha(c) <==> IsAlpha(SwapCase(c))) && (!IsAlpha(c) ==> SwapCase(c) == c)
  {
  }

  /* Within one case it keeps the order, so `a` becomes `A` and `Z` becomes `z`. */
  lemma SwapCaseKeepsOrder(c: int, d: int)
    requires (97 <= c <= 122 && 97 <= d <= 122) || (65 <= c <= 90 && 65 <= d <= 90)
    ensures c < d <==> SwapCase(c) < SwapCase(d)
    ensures SwapCase(c) - SwapCase(d) == c - d
  {
  }

  /* The letters of a text. */
  function Letters(s: seq<int>): (t: seq<int>) {
    if s == [] then [] else Letters(s[..|s| - 1]) + if IsAlpha(s[|s| - 1]) then [s[|s| - 1]] else []
  }

  /* What is printed, from left to right and for each character by its code. */
  lemma {:induction false} SwappedConcat(s: seq<int>, t: seq<int>)
    ensures SwappedLetters(s + t) == SwappedLetters(s) + SwappedLetters(t)
  {
    if t == [] {
      assert s + t == s;
    } else {
      var front := t[..|t| - 1];
      SwappedConcat(s, front);
      assert (s + t)[..|s + t| - 1] == s + front;
    }
  }

  lemma SwappedOne(c: int)
    ensures SwappedLetters([c]) ==
      if 97 <= c <= 122 then [c - 32] else if 65 <= c <= 90 then [c + 32] else []
  {
  }

  lemma SwappedIsText(s: seq<int>)
    ensures IsText(SwappedLetters(s))
  {
    SwappedPointwise(s);
  }

  /* Printing what was printed gives back the letters of the text. */
  lemma {:induction false} SwappedTwice(s: seq<int>)
    ensures SwappedLetters(SwappedLetters(s)) == Letters(s)
  {
    if s == [] {
    } else {
      var front, c := s[..|s| - 1], s[|s| - 1];
      SwappedTwice(front);
      var t := SwappedLetters(front);
      if IsAlpha(c) {
        SwappedConcat(t, [SwapCase(c)]);
        SwappedOne(SwapCase(c));
        assert SwappedLetters(s) == t + [SwapCase(c)];
      } else {
        assert SwappedLetters(s) == t + [] == t;
      }
    }
  }

  /* As many letters are printed as the text has, each at its place. */
  lemma {:induction false} SwappedPointwise(s: seq<int>)
    ensures |SwappedLetters(s)| == |Letters(s)|
    ensures forall i :: 0 <= i < |Letters(s)| ==>
      SwappedLetters(s)[i] == SwapCase(Letters(s)[i]) && IsAlpha(Letters(s)[i])
  {
    if s == [] {
    } else {
      SwappedPointwise(s[..|s| - 1]);
    }
  }

  /* The first stage keeps a character unless it is a space at the start or after a space. */
  lemma SqueezedKeeps(s: seq<int>, c: int)
    ensures var space, after := c == 32 || 9 <= c <= 13, s == [] || s[|s| - 1] == 32 || 9 <= s[|s| - 1] <= 13;
      Squeezed(s + [c]) == Squeezed(s) + if space && after then [] else [c]
  {
    SqueezedAppend(s, c);
    SqueezedLast(s);
  }

  /* A word starts where a character that is no space stands at the start or after a space. */
  lemma WordStartsMeans(s: seq<int>, i: nat)
    ensures i in WordStarts(s) <==>
      && i < |s| && s[i] != 32 && !(9 <= s[i] <= 13)
      && (i == 0 || s[i - 1] == 32 || 9 <= s[i - 1] <= 13)
  {
  }
}
