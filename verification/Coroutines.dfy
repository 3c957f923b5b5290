/** Three coroutines under a round-robin scheduler: a reader, a filter and a printer. What
    is passed to coro_yield by one is returned from coro_yield in the next. */
module Coroutines {
  import opened TextStages

  /* The coroutine after `x` in the queue; 0 if there is none. */
  function Successor(q: seq<nat>, x: nat): (y: nat) {
    if |q| < 2 then 0 else if q[0] == x then q[1] else Successor(q[1..], x)
  }

  function Without(q: seq<nat>, x: nat): (r: seq<nat>) {
    if q == [] then [] else (if q[0] == x then [] else [q[0]]) + Without(q[1..], x)
  }

  class Program {
    const input: seq<int>
    var pos: nat
    var output: seq<int>

    // the scheduler
    var runqueue: seq<nat>
    var running: nat
    var stopped: bool

    // func_1
    var entered: bool
    var words: int
    var prevCh: int
    var ch: int

    // func_2 and func_3
    var removed: int
    var printed: int

    /* coro_switch: who runs next. A finished coroutine leaves the queue, but its link to
       the next one is still followed. */
    method Switch(v: int)
      modifies this`runqueue, this`running, this`stopped
      ensures v != EOF ==> runqueue == old(runqueue) && stopped == old(stopped)
      ensures v == EOF ==> runqueue == Without(old(runqueue), old(running))
      ensures v == EOF && runqueue == [] ==> stopped && running == old(running)
      ensures runqueue != [] ==>
        && stopped == old(stopped)
        && var next := Successor(old(runqueue), old(running));
           running == if next != 0 then next else runqueue[0]
    {
      var next := Successor(runqueue, running);
      if v == EOF {
        runqueue := Without(runqueue, running);
        if runqueue == [] {
          stopped := true;
          return;
        }
      }
      if next != 0 {
        running := next;
      } else if runqueue != [] {
        running := runqueue[0];
      }
    }

    // ----- the coroutines, each up to its next coro_yield or its return

    /* func_1: read up to the next character to pass on. */
    method Reader() returns (v: int)
      requires IsText(input) && pos <= |input|
      requires ReaderOk()
      modifies this`pos, this`entered, this`words, this`prevCh, this`ch
      ensures old(pos) <= pos <= |input|
      ensures v != EOF ==> old(pos) < pos && v == input[pos - 1] && entered && ReaderOk()
      ensures v != EOF ==> Squeezed(input[..pos]) == Squeezed(input[..old(pos)]) + [v]
      ensures v == EOF ==> pos == |input| && Squeezed(input[..pos]) == Squeezed(input[..old(pos)])
      ensures v == EOF ==> words == |WordStarts(input)| + (if input == [] then 1 else 0)
    {
      if !entered {
        words, prevCh, ch := 0, SPACE, 0;
        entered := true;
      } else {
        prevCh := ch;
      }
      ghost var p0 := pos;
      assert WordsOk() by { SqueezedLast(input[..pos]); }
      while pos < |input|
        invariant entered && p0 <= pos <= |input| && WordsOk()
        invariant Squeezed(input[..pos]) == Squeezed(input[..p0])
        invariant prevCh == LastOr(Squeezed(input[..pos]), SPACE)
        invariant ch == LastOr(input[..pos], 0)
      {
        var skip := ReadChar();
        if !skip {
          return ch;
        }
      }
      assert input[..pos] == input;
      if !IsSpace(ch) {
        words := words + 1;
      }
      v := EOF;
    }

    /* Read a character, count the word it ends, and say whether it is dropped. */
    method ReadChar() returns (skip: bool)
      requires pos < |input| && WordsOk() && prevCh == LastOr(Squeezed(input[..pos]), SPACE)
      modifies this`pos, this`words, this`ch
      ensures pos == old(pos) + 1 && ch == input[old(pos)] && WordsOk()
      ensures Squeezed(input[..pos]) == Squeezed(input[..old(pos)]) + if skip then [] else [ch]
    {
      Appended(input, pos);
      ch := input[pos];
      pos := pos + 1;
      skip := false;
      if IsSpace(ch) {
        if IsSpace(prevCh) {
          return true;
        }
        words := words + 1;
      }
    }

    /* Before the reader goes on, its locals reflect what it has read. */
    ghost predicate ReaderOk()
      reads this
      requires pos <= |input|
    {
      if entered then
        && pos > 0 && ch == input[pos - 1] == LastOr(Squeezed(input[..pos]), SPACE)
        && WordsOk()
      else pos == 0
    }

    /* A word is counted when the space after it is read. */
    ghost predicate WordsOk()
      reads this
      requires pos <= |input|
    {
      words == |WordStarts(input[..pos])| - (if IsSpace(LastOr(input[..pos], SPACE)) then 0 else 1)
    }

    /* func_2 */
    method Filter(c: int) returns (v: int)
      modifies this`removed
      ensures c == EOF ==> v == EOF && removed == old(removed)
      ensures c != EOF ==> v == (if IsAlpha(c) then c else NOTHING)
      ensures c != EOF ==> removed == old(removed) + (if IsAlpha(c) then 0 else 1)
    {
      if c == EOF {
        return EOF;
      }
      v := c;
      if !IsAlpha(c) {
        removed := removed + 1;
        v := NOTHING;
      }
    }

    /* func_3 */
    method Printer(c: int) returns (v: int)
      modifies this`printed, this`output
      ensures c == EOF ==> v == EOF && printed == old(printed) && output == old(output)
      ensures c != EOF ==> v == NOTHING
      ensures c != EOF ==> output == old(output) + (if c == NOTHING then [] else [SwapCase(c)])
      ensures c != EOF ==> printed == old(printed) + (if c == NOTHING then 0 else 1)
    {
      if c == EOF {
        return EOF;
      }
      if c != NOTHING {
        printed := printed + 1;
        var d := c;
        if IsLower(d) {
          d := d - 32;
        } else if IsUpper(d) {
          d := d + 32;
        }
        output := output + [d];
      }
      v := NOTHING;
    }

    // ----- the whole program

    constructor (input: seq<int>)
      ensures this.input == input && Started()
    {
      this.input := input;
      pos, output, runqueue, running, stopped := 0, [], [1, 2, 3], 0, false;
      entered, words, prevCh, ch, removed, printed := false, 0, SPACE, 0, 0, 0;
    }

    ghost predicate Started()
      reads this
    {
      && pos == 0 && output == [] && runqueue == [1, 2, 3] && !stopped && !entered
      && removed == 0 && printed == 0
    }

    /* The characters `y` have gone through all stages. */
    ghost predicate Through(y: seq<int>)
      reads this
    {
      output == SwappedLetters(y) && printed == |output| && printed + removed == |y|
    }

    /* What the value `v` on its way to the running coroutine is. */
    ghost predicate Passing(v: int)
      reads this
    {
      && pos <= |input| && (stopped <==> runqueue == [])
      && var y := Squeezed(input[..pos]);
         if v != EOF && runqueue == [1, 2, 3] then
           && ReaderOk()
           && match running
              case 1 => Through(y)
              case 2 => y != [] && v == y[|y| - 1] && v != NOTHING && Through(y[..|y| - 1])
              case 3 =>
                && y != [] && v == (if IsAlpha(y[|y| - 1]) then y[|y| - 1] else NOTHING)
                && output == SwappedLetters(y[..|y| - 1]) && printed == |output|
                && printed + removed == |y| - 1 + (if v == NOTHING then 1 else 0)
              case _ => false
         else
           && v == EOF && pos == |input| && Through(y)
           && words == |WordStarts(input)| + (if input == [] then 1 else 0)
           && (runqueue == [] || (running == 2 && runqueue == [2, 3]) || (running == 3 && runqueue == [3]))
    }

    ghost function TurnsLeft(v: int): (n: int)
      reads this
    {
      if stopped then 0
      else if v == EOF then (if running == 2 then 2 else 1)
      else 4 * (|input| - pos) + (if running == 1 then 3 else if running == 2 then 6 else 5)
    }

    method ReaderTurn(v: int) returns (w: int)
      requires IsText(input) && Passing(v) && !stopped && running == 1
      modifies this
      ensures Passing(w) && 0 <= TurnsLeft(w) < old(TurnsLeft(v))
    {
      QueueFacts();
      ghost var y := Squeezed(input[..pos]);
      w := Reader();
      assert w != EOF ==> Squeezed(input[..pos])[..|y|] == y;
      Switch(w);
    }

    method FilterTurn(v: int) returns (w: int)
      requires IsText(input) && Passing(v) && !stopped && running == 2
      modifies this
      ensures Passing(w) && 0 <= TurnsLeft(w) < old(TurnsLeft(v))
    {
      QueueFacts();
      w := Filter(v);
      Switch(w);
    }

    method PrinterTurn(v: int) returns (w: int)
      requires IsText(input) && Passing(v) && !stopped && running == 3
      modifies this
      ensures Passing(w) && 0 <= TurnsLeft(w) < old(TurnsLeft(v))
    {
      QueueFacts();
      w := Printer(v);
      Switch(w);
    }

    /* Run the current coroutine up to its next switch. */
    method Turn(v: int) returns (w: int)
      requires IsText(input) && Passing(v) && !stopped
      modifies this
      ensures Passing(w) && 0 <= TurnsLeft(w) < old(TurnsLeft(v))
    {
      if running == 1 {
        w := ReaderTurn(v);
      } else if running == 2 {
        w := FilterTurn(v);
      } else {
        w := PrinterTurn(v);
      }
    }

    /* coro_run and all that follows: the program stops with an empty queue and has
       printed exactly the letters of its input in order, with their case swapped. */
    method Run()
      requires IsText(input) && Started()
      modifies this
      ensures stopped && runqueue == []
      ensures output == SwappedLetters(input) == Printed(Marked(Squeezed(input)))
      // letter by letter: a small one comes out capital and a capital one small
      ensures |output| == |Letters(input)|
      ensures forall i :: 0 <= i < |output| ==>
        output[i] == if 97 <= Letters(input)[i] <= 122 then Letters(input)[i] - 32 else Letters(input)[i] + 32
      // a run on its own output prints the letters of the input
      ensures IsText(output) && SwappedLetters(output) == Letters(input)
      ensures printed == |output| && printed + removed == |Squeezed(input)|
      ensures words == |WordStarts(input)| + (if input == [] then 1 else 0)
    {
      running := runqueue[0];
      var v := NOTHING;
      assert input[..0] == [];
      while !stopped
        invariant Passing(v) && 0 <= TurnsLeft(v)
        decreases TurnsLeft(v)
      {
        v := Turn(v);
      }
      assert input[..pos] == input;
      SqueezingKeepsLetters(input);
      StagesCompose(input);
      SwappedPointwise(input);
      SwappedIsText(input);
      SwappedTwice(input);
    }
  }

  lemma {:induction false} WithoutAbsent(q: seq<nat>, x: nat)
    requires x !in q
    ensures Without(q, x) == q
  {
    if q == [] {
    } else {
      WithoutAbsent(q[1..], x);
    }
  }

  /* One that has ended drops out of the queue and the others keep their order. */
  lemma {:induction false} WithoutOne(p: seq<nat>, x: nat, q: seq<nat>)
    requires x !in p && x !in q
    ensures Without(p + [x] + q, x) == p + q
  {
    var s := p + [x] + q;
    if p == [] {
      assert s[1..] == q;
      WithoutAbsent(q, x);
    } else {
      assert s[1..] == p[1..] + [x] + q;
      WithoutOne(p[1..], x, q);
    }
  }

  /* The next in the queue runs, if there is one. */
  lemma {:induction false} SuccessorOf(p: seq<nat>, x: nat, q: seq<nat>)
    requires x !in p
    ensures Successor(p + [x] + q, x) == if q == [] then 0 else q[0]
  {
    var s := p + [x] + q;
    if p == [] {
    } else {
      assert s[1..] == p[1..] + [x] + q;
      SuccessorOf(p[1..], x, q);
    }
  }

  lemma QueueFacts()
    ensures Successor([1, 2, 3], 1) == 2 && Successor([1, 2, 3], 2) == 3 && Successor([1, 2, 3], 3) == 0
    ensures Successor([2, 3], 2) == 3 && Successor([3], 3) == 0
    ensures Without([1, 2, 3], 1) == [2, 3] && Without([2, 3], 2) == [3] && Without([3], 3) == []
  {
  }

  /* One more character: what it adds to the squeezed text and to the words. */
  lemma Appended(input: seq<int>, p: nat)
    requires p < |input|
    ensures LastOr(input[..p + 1], SPACE) == LastOr(input[..p + 1], 0) == input[p]
    ensures Squeezed(input[..p + 1]) ==
      if IsSpace(input[p]) && IsSpace(LastOr(input[..p], SPACE)) then Squeezed(input[..p])
      else Squeezed(input[..p]) + [input[p]]
    ensures IsSpace(LastOr(Squeezed(input[..p]), SPACE)) <==> IsSpace(LastOr(input[..p], SPACE))
    ensures |WordStarts(input[..p + 1])| == |WordStarts(input[..p])| +
      (if !IsSpace(input[p]) && IsSpace(LastOr(input[..p], SPACE)) then 1 else 0)
  {
    assert input[..p + 1] == input[..p] + [input[p]];
    SqueezedAppend(input[..p], input[p]);
    SqueezedLast(input[..p]);
    WordStartsAppend(input[..p], input[p]);
  }
}
