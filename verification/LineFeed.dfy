/** Feeding the database from a text buffer, one line at a time. */
module LineFeed {
  import opened CStrings
  import opened HashTable
  import opened HashDb

  const LF: Byte := 10
  const CR: Byte := 13

  /* The string functions find a NUL. */
  ghost predicate Terminated(s: seq<Byte>) {
    exists i :: 0 <= i < |s| && s[i] == 0
  }

  /* Where the first line is cut: its line feed, or the NUL if there is none. */
  function LineEnd(s: seq<Byte>): (e: nat)
    requires Terminated(s)
    ensures e < |s| && (s[e] == LF || s[e] == 0)
    ensures forall i :: 0 <= i < e ==> s[i] != LF && s[i] != 0
    ensures s[e] == LF ==> Terminated(s[e + 1..])
  {
    var e := EndFrom(s, 0);
    assert s[e] == LF ==> Terminated(s[e + 1..]) by {
      var i :| 0 <= i < |s| && s[i] == 0;
      if i > e { assert s[e + 1..][i - (e + 1)] == 0; }
    }
    e
  }

  /* The search for it, from byte `i` on. */
  function EndFrom(s: seq<Byte>, i: nat): (e: nat)
    requires exists j :: i <= j < |s| && s[j] == 0
    ensures i <= e < |s| && (s[e] == LF || s[e] == 0)
    ensures forall j :: i <= j < e ==> s[j] != LF && s[j] != 0
    decreases |s| - i
  {
    if s[i] == LF || s[i] == 0 then i else EndFrom(s, i + 1)
  }

  /* Where its text ends: before the line feed, and before a carriage return in front of it. */
  function TextEnd(s: seq<Byte>): (e: nat)
    requires Terminated(s)
    ensures e <= LineEnd(s)
  {
    var e := LineEnd(s);
    if s[e] == LF && 0 < e && s[e - 1] == CR then e - 1 else e
  }

  /* The text of the first line. */
  function LineAt(s: seq<Byte>): (l: seq<Byte>)
    requires Terminated(s)
  {
    s[..TextEnd(s)]
  }

  /* What follows the first line, if it ends in a line feed. */
  function Rest(s: seq<Byte>): (r: seq<Byte>)
    requires Terminated(s)
  {
    s[LineEnd(s) + 1..]
  }

  function Lines(s: seq<Byte>): (ls: seq<seq<Byte>>)
    requires Terminated(s)
  {
    [LineAt(s)] + if s[LineEnd(s)] == LF then Lines(Rest(s)) else []
  }

  /* The keys a file of lines stands for: blank lines stand for none. */
  ghost function KeysOf(ls: seq<seq<Byte>>): (ks: set<seq<Byte>>) {
    set l | l in ls && l != [] :: Key(l)
  }

  /* The answers to a file of queries, in order. */
  ghost function Answers(ls: seq<seq<Byte>>, db: set<seq<Byte>>): (a: seq<bool>) {
    if ls == [] then [] else (if ls[0] == [] then [] else [Key(ls[0]) in db]) + Answers(ls[1..], db)
  }

  /* What a file has done so far: the keys in the database and the answers printed. */
  datatype Progress = Progress(keys: set<seq<Byte>>, output: seq<bool>)

  /* The effect of some lines. */
  ghost function Fed(ls: seq<seq<Byte>>, mode: Op, p: Progress): (q: Progress) {
    match mode
    case Insert => Progress(p.keys + KeysOf(ls), p.output)
    case Query => Progress(p.keys, p.output + Answers(ls, p.keys))
  }

  /* A line that was cut out of the buffer by writing NULs has its key. */
  lemma KeyOfCutLine(t: seq<Byte>, pos: nat, n: nat)
    requires pos + n < |t| && t[pos + n] == 0 && forall i :: pos <= i < pos + n ==> t[i] != 0
    ensures Readable(t[pos..]) && Key(t[pos..]) == Key(t[pos..pos + n])
  {
  }

  lemma KeyEmpty(l: seq<Byte>)
    requires forall i :: 0 <= i < |l| ==> l[i] != 0
    ensures Key(l) == [] <==> l == []
  {
  }

  /* The buffer once its first line has been cut: a NUL instead of the line feed, and one
     instead of a carriage return before it. */
  function Cut(s: seq<Byte>): (t: seq<Byte>)
    requires Terminated(s)
  {
    var e := LineEnd(s);
    if s[e] == 0 then s else if 0 < e && s[e - 1] == CR then s[e - 1 := 0][e := 0] else s[e := 0]
  }

  /* Cutting makes the line readable in place and leaves what follows. */
  lemma CutText(s: seq<Byte>)
    requires Terminated(s)
    ensures var t := Cut(s);
      && t[LineEnd(s) + 1..] == Rest(s) && Readable(t) && Key(t) == Key(LineAt(s))
      && (Key(LineAt(s)) == [] <==> LineAt(s) == []) && (t[0] == 0 <==> LineAt(s) == [])
  {
    var t := Cut(s);
    assert t[..TextEnd(s)] == LineAt(s) && t[0..] == t && t[TextEnd(s)] == 0;
    KeyOfCutLine(t, 0, TextEnd(s));
    KeyEmpty(LineAt(s));
  }

  /* Terminate the line that starts at `pos` by NULs, and say where the next one starts. */
  method CutLine(buf: array<Byte>, pos: nat) returns (more: bool, next: nat)
    requires pos < buf.Length && Terminated(buf[pos..])
    modifies buf
    ensures var s := old(buf[pos..]);
      && (more <==> s[LineEnd(s)] == LF) && next == pos + LineEnd(s) + 1 <= buf.Length && buf[next..] == Rest(s)
      && Readable(buf[pos..]) && Key(buf[pos..]) == Key(LineAt(s))
      && (Key(LineAt(s)) == [] <==> LineAt(s) == [])
      && (buf[pos] == 0 <==> LineAt(s) == [])
  {
    ghost var s := buf[pos..];
    var end := pos + LineEnd(buf[pos..]);
    more, next := buf[end] == LF, end + 1;
    if more {
      EndLine(buf, pos, end);
    }
    CutText(s);
    assert buf[next..] == buf[pos..][next - pos..];
  }

  /* Write the NULs at the end of a line. */
  method EndLine(buf: array<Byte>, pos: nat, end: nat)
    requires pos <= end < buf.Length
    modifies buf
    ensures var s, e := old(buf[pos..]), end - pos;
      buf[pos..] == if 0 < e && s[e - 1] == CR then s[e - 1 := 0][e := 0] else s[e := 0]
  {
    if pos < end && buf[end - 1] == CR {
      buf[end - 1] := 0;
    }
    buf[end] := 0;
  }

  /* consume_line: cut the line that starts at `pos` and process it. What follows the line
     stays as it was. */
  method ConsumeLine(buf: array<Byte>, pos: nat, db: Db, mode: Op) returns (more: bool, next: nat, output: seq<bool>)
    requires pos < buf.Length && Terminated(buf[pos..]) && db.Valid() && buf as object != db.entry
    modifies buf, db, db.entry
    ensures db.Valid() && (db.entry == old(db.entry) || fresh(db.entry))
    ensures var s := old(buf[pos..]);
      && (more <==> s[LineEnd(s)] == LF) && next == pos + LineEnd(s) + 1 <= buf.Length && buf[next..] == Rest(s)
      && Progress(db.Contents(), output) == Fed([LineAt(s)], mode, Progress(old(db.Contents()), []))
  {
    OneLine(LineAt(buf[pos..]), mode, db.Contents());
    more, next := CutLine(buf, pos);
    output := [];
    if buf[pos] != 0 {
      if mode == Insert {
        db.Add(buf[pos..]);
      } else {
        var yes := db.Action(buf[pos..], Query);
        output := [yes];
      }
    }
  }

  lemma OneLine(l: seq<Byte>, mode: Op, ks: set<seq<Byte>>)
    ensures Fed([l], mode, Progress(ks, [])) ==
      if l == [] then Progress(ks, [])
      else if mode == Insert then Progress(ks + {Key(l)}, [])
      else Progress(ks, [Key(l) in ks])
  {
    assert KeysOf([l]) == if l == [] then {} else {Key(l)};
    assert Answers([l], ks) == if l == [] then [] else [Key(l) in ks];
    assert [] + Answers([l], ks) == Answers([l], ks);
  }

  lemma FirstLine(l: seq<Byte>, ls: seq<seq<Byte>>, db: set<seq<Byte>>)
    ensures KeysOf([l] + ls) == KeysOf([l]) + KeysOf(ls)
    ensures Answers([l] + ls, db) == Answers([l], db) + Answers(ls, db)
  {
  }

  /* Lines can be fed one at a time. */
  lemma FedOne(l: seq<Byte>, rest: seq<seq<Byte>>, mode: Op, p: Progress)
    ensures var one := Fed([l], mode, Progress(p.keys, []));
      Fed(rest, mode, Progress(one.keys, p.output + one.output)) == Fed([l] + rest, mode, p)
  {
    FirstLine(l, rest, p.keys);
    var a := Answers([l], p.keys);
    assert p.output + (a + Answers(rest, p.keys)) == p.output + ([] + a) + Answers(rest, p.keys);
    assert p.output + [] == p.output;
  }

  /* The lines that are still to come. */
  ghost function Coming(s: seq<Byte>, more: bool): (ls: seq<seq<Byte>>)
    requires more ==> Terminated(s)
  {
    if more then Lines(s) else []
  }

  /* One turn of the loop of doit: what the rest of the input will have done in the end
     stays the same. */
  method FeedLine(buf: array<Byte>, pos: nat, db: Db, mode: Op, output: seq<bool>)
    returns (more: bool, next: nat, output': seq<bool>)
    requires pos < buf.Length && Terminated(buf[pos..]) && db.Valid() && buf as object != db.entry
    modifies buf, db, db.entry
    ensures db.Valid() && (db.entry == old(db.entry) || fresh(db.entry))
    ensures pos < next <= buf.Length && (more ==> Terminated(buf[next..]))
    ensures Fed(Coming(buf[next..], more), mode, Progress(db.Contents(), output'))
         == Fed(Lines(old(buf[pos..])), mode, Progress(old(db.Contents()), output))
  {
    ghost var s := buf[pos..];
    FedOne(LineAt(s), Coming(Rest(s), s[LineEnd(s)] == LF), mode, Progress(db.Contents(), output));
    var out;
    more, next, out := ConsumeLine(buf, pos, db, mode);
    output' := output + out;
  }

  /* doit, on a buffer that holds the whole input. Inserting adds exactly the keys of the
     lines; querying answers, line by line, whether the key is in the set. */
  method Process(buf: array<Byte>, db: Db, mode: Op) returns (output: seq<bool>)
    requires Terminated(buf[..]) && db.Valid() && buf as object != db.entry
    modifies buf, db, db.entry
    ensures db.Valid()
    ensures mode == Insert ==>
      output == [] && db.Contents() == old(db.Contents()) + KeysOf(Lines(old(buf[..])))
    ensures mode == Query ==>
      db.Contents() == old(db.Contents()) && output == Answers(Lines(old(buf[..])), db.Contents())
  {
    ghost var s, whole := buf[..], Fed(Lines(buf[..]), mode, Progress(db.Contents(), []));
    var more := true;
    var pos: nat := 0;
    output := [];
    assert buf[0..] == buf[..] && [] + Answers(Lines(s), db.Contents()) == Answers(Lines(s), db.Contents());
    while more
      invariant db.Valid() && buf as object != db.entry && (db.entry == old(db.entry) || fresh(db.entry))
      invariant pos <= buf.Length && (more ==> Terminated(buf[pos..]))
      invariant Fed(Coming(buf[pos..], more), mode, Progress(db.Contents(), output)) == whole
      decreases if more then 1 + buf.Length - pos else 0
    {
      more, pos, output := FeedLine(buf, pos, db, mode, output);
    }
    assert output + [] == output;
  }

  // ----- what files mean, from the texts they were made of

  /* A text that can be a line. */
  predicate IsLine(k: seq<Byte>) {
    forall i :: 0 <= i < |k| ==> k[i] != LF && k[i] != 0
  }

  /* The first line ends where a text that can be a line does. */
  lemma EndOfLine(k: seq<Byte>, c: Byte, rest: seq<Byte>)
    requires IsLine(k) && (c == LF || c == 0) && (c == 0 || Terminated(rest))
    ensures var s := k + [c] + rest;
      Terminated(s) && LineEnd(s) == |k| && s[|k|] == c && Rest(s) == rest
  {
    var s := k + [c] + rest;
    if c == 0 {
      assert s[|k|] == 0;
    } else {
      var i :| 0 <= i < |rest| && rest[i] == 0;
      assert s[|k| + 1 + i] == 0;
    }
    assert s[|k|] == c && forall i :: 0 <= i < |k| ==> s[i] == k[i];
  }

  /* A line that ends in a carriage return and a line feed has the text before both. */
  lemma CrLfLine(k: seq<Byte>, rest: seq<Byte>)
    requires IsLine(k) && Terminated(rest)
    ensures Terminated(k + [13, 10] + rest) && Lines(k + [13, 10] + rest) == [k] + Lines(rest)
  {
    var s := k + [13, 10] + rest;
    assert s == (k + [CR]) + [LF] + rest;
    EndOfLine(k + [CR], LF, rest);
    assert s[|k|] == CR && LineAt(s) == k;
  }

  /* One that ends in a line feed alone has the text before that. */
  lemma LfLine(k: seq<Byte>, rest: seq<Byte>)
    requires IsLine(k) && (k == [] || k[|k| - 1] != 13) && Terminated(rest)
    ensures Terminated(k + [10] + rest) && Lines(k + [10] + rest) == [k] + Lines(rest)
  {
    var s := k + [LF] + rest;
    EndOfLine(k, LF, rest);
    assert k != [] ==> s[|k| - 1] == k[|k| - 1];
    assert LineAt(s) == k;
  }

  /* The last line may lack its line feed; what follows the NUL does not matter. */
  lemma LastLine(k: seq<Byte>, rest: seq<Byte>)
    requires IsLine(k)
    ensures Terminated(k + [0] + rest) && Lines(k + [0] + rest) == [k]
  {
    var s := k + [0] + rest;
    EndOfLine(k, 0, rest);
    assert LineAt(s) == k;
  }

  /* The file that holds the lines `ls`, with either kind of line end. */
  function File(ls: seq<seq<Byte>>, crlf: bool): (s: seq<Byte>) {
    if ls == [] then [0] else ls[0] + (if crlf then [CR, LF] else [LF]) + File(ls[1..], crlf)
  }

  lemma FileLine(k: seq<Byte>, rest: seq<Byte>, crlf: bool)
    requires IsLine(k) && (k == [] || crlf || k[|k| - 1] != CR) && Terminated(rest)
    ensures var s := k + (if crlf then [CR, LF] else [LF]) + rest;
      Terminated(s) && Lines(s) == [k] + Lines(rest)
  {
    if crlf {
      CrLfLine(k, rest);
    } else {
      LfLine(k, rest);
    }
  }

  /* Round trip: reading it gives the lines back, and an empty line after the last line feed. */
  lemma {:induction false} LinesOfFile(ls: seq<seq<Byte>>, crlf: bool)
    requires forall i :: 0 <= i < |ls| ==> IsLine(ls[i]) && (ls[i] == [] || crlf || ls[i][|ls[i]| - 1] != CR)
    ensures Terminated(File(ls, crlf)) && Lines(File(ls, crlf)) == ls + [[]]
  {
    if ls == [] {
      LastLine([], []);
      assert [] + [0] + [] == File(ls, crlf);
    } else {
      LinesOfFile(ls[1..], crlf);
      FileLine(ls[0], File(ls[1..], crlf), crlf);
      FirstAndRest(ls, [[]]);
    }
  }

  lemma FirstAndRest<T>(s: seq<T>, t: seq<T>)
    requires s != []
    ensures s + t == [s[0]] + (s[1..] + t)
  {
  }

  lemma {:induction false} BlankLineLast(ls: seq<seq<Byte>>, db: set<seq<Byte>>)
    ensures KeysOf(ls + [[]]) == KeysOf(ls) && Answers(ls + [[]], db) == Answers(ls, db)
  {
    if ls == [] {
      OneLine([], Query, db);
      assert ls + [[]] == [[]];
    } else {
      BlankLineLast(ls[1..], db);
      FirstAndRest(ls, [[]]);
      FirstLine(ls[0], ls[1..] + [[]], db);
      FirstLine(ls[0], ls[1..], db);
      assert ls == [ls[0]] + ls[1..];
    }
  }

  /* So a file stands for the keys of the lines it was made of, with either line end. */
  lemma FileMeans(ls: seq<seq<Byte>>, crlf: bool, db: set<seq<Byte>>)
    requires forall i :: 0 <= i < |ls| ==> IsLine(ls[i]) && (ls[i] == [] || crlf || ls[i][|ls[i]| - 1] != CR)
    ensures Terminated(File(ls, crlf)) && KeysOf(Lines(File(ls, crlf))) == KeysOf(ls)
    ensures Answers(Lines(File(ls, crlf)), db) == Answers(ls, db)
  {
    LinesOfFile(ls, crlf);
    BlankLineLast(ls, db);
  }

  /* A file queried in the database it was inserted into is answered YES line by line, one
     answer for each line that is not blank. */
  lemma {:induction false} InsertedIsFound(ls: seq<seq<Byte>>, db: set<seq<Byte>>)
    requires KeysOf(ls) <= db
    ensures forall i :: 0 <= i < |Answers(ls, db)| ==> Answers(ls, db)[i]
    ensures |Answers(ls, db)| + multiset(ls)[[]] == |ls|
  {
    if ls == [] {
    } else {
      assert ls == [ls[0]] + ls[1..];
      FirstLine(ls[0], ls[1..], db);
      assert KeysOf([ls[0]]) == if ls[0] == [] then {} else {Key(ls[0])} by {
        OneLine(ls[0], Insert, {});
      }
      InsertedIsFound(ls[1..], db);
    }
  }

  /* And one whose keys are not in it is answered NO throughout. */
  lemma {:induction false} AbsentIsNotFound(ls: seq<seq<Byte>>, db: set<seq<Byte>>)
    requires KeysOf(ls) !! db
    ensures forall i :: 0 <= i < |Answers(ls, db)| ==> !Answers(ls, db)[i]
  {
    if ls == [] {
    } else {
      assert ls == [ls[0]] + ls[1..];
      FirstLine(ls[0], ls[1..], db);
      assert ls[0] != [] ==> Key(ls[0]) in KeysOf(ls);
      AbsentIsNotFound(ls[1..], db);
    }
  }
}
