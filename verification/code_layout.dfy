/** How code lies in the words of the code buffer. */
module CodeLayout {
  import opened Words
  import opened HostMachine

  /** Words of an immediate move: the assembler takes from one to four. */
  type MoveWords = n: nat | 1 <= n <= 4 witness 1

  /** How many it takes for which values; for those not listed four. */
  type Widths = map<Word, MoveWords>

  /** Every instruction takes a word, but for moves of an immediate; a label takes none. */
  function Size(w: Widths, i: HInstr): nat {
    match i
    case MovImm(_, v) => if v in w then w[v] else 4
    case Bind(_) => 0
    case _ => 1
  }

  function SizeOf(w: Widths, code: Code): nat {
    if code == [] then 0 else Size(w, code[0]) + SizeOf(w, code[1..])
  }

  /** A word of the buffer: the labels bound at it and the instruction that starts there, or nothing for a
      further word of a long one. */
  type Cell = seq<HInstr>

  /** Code in words. A label that nothing follows has a word to itself. */
  function WordsOf(w: Widths, code: Code): seq<Cell> {
    if code == [] then []
    else
      var rest := WordsOf(w, code[1..]);
      if !code[0].Bind? then [[code[0]]] + seq(Size(w, code[0]) - 1, _ => []) + rest
      else if rest == [] then [[code[0]]]
      else [[code[0]] + rest[0]] + rest[1..]
  }

  /** The code in some words, from the first of them on. */
  function Flatten(cells: seq<Cell>): Code {
    if cells == [] then [] else cells[0] + Flatten(cells[1..])
  }

  lemma {:induction false} FlattenAppend(a: seq<Cell>, b: seq<Cell>)
    ensures Flatten(a + b) == Flatten(a) + Flatten(b)
  {
    if a == [] {
      assert a + b == b;
    } else {
      assert (a + b)[0] == a[0] && (a + b)[1..] == a[1..] + b;
      FlattenAppend(a[1..], b);
    }
  }

  lemma {:induction false} FlattenEmpty(n: nat)
    ensures Flatten(seq(n, _ => [])) == []
  {
    if n > 0 {
      var s: seq<Cell> := seq(n, _ => []);
      assert s[1..] == seq(n - 1, _ => []);
      FlattenEmpty(n - 1);
    }
  }

  lemma FlattenOne(c: Cell)
    ensures Flatten([c]) == c
  {
    assert [c][1..] == [];
  }

  lemma FlattenLong(i: HInstr, n: nat)
    ensures Flatten([[i]] + seq(n, _ => [])) == [i]
  {
    var more: seq<Cell> := seq(n, _ => []);
    FlattenAppend([[i]], more);
    FlattenOne([i]);
    FlattenEmpty(n);
  }

  /** The words of code hold just that code. */
  lemma {:induction false} FlattenWords(w: Widths, code: Code)
    ensures Flatten(WordsOf(w, code)) == code
  {
    if code != [] {
      hide Flatten;
      var i, rest := code[0], WordsOf(w, code[1..]);
      FlattenWords(w, code[1..]);
      assert code == [i] + code[1..];
      if !i.Bind? {
        FlattenLong(i, Size(w, i) - 1);
        FlattenAppend([[i]] + seq(Size(w, i) - 1, _ => []), rest);
      } else if rest == [] {
        FlattenOne([i]);
        assert code[1..] == [] by { FlattenNone(); }
      } else {
        assert rest == [rest[0]] + rest[1..];
        FlattenAppend([rest[0]], rest[1..]);
        FlattenOne(rest[0]);
        FlattenAppend([[i] + rest[0]], rest[1..]);
        FlattenOne([i] + rest[0]);
      }
    }
  }

  lemma FlattenNone()
    ensures Flatten([]) == []
  {
  }

  /** They are as many as its instructions take, but for a label at the very end. */
  lemma {:induction false} WordsLength(w: Widths, code: Code)
    ensures SizeOf(w, code) <= |WordsOf(w, code)| <= SizeOf(w, code) + 1
    ensures code != [] ==> WordsOf(w, code) != []
    ensures code != [] && !code[|code| - 1].Bind? ==> |WordsOf(w, code)| == SizeOf(w, code)
  {
    if code != [] {
      WordsLength(w, code[1..]);
      if |code| > 1 {
        assert code[1..][|code| - 2] == code[|code| - 1];
      }
    }
  }

  // ----- sizes -----

  /** A move takes the words listed for its value, or four, and anything else one. */
  lemma WordsTaken(w: Widths, i: HInstr)
    requires !i.Bind?
    ensures |WordsOf(w, [i])| == if i.MovImm? then (if i.value in w then w[i.value] else 4) else 1
  {
    assert [i][1..] == [];
  }

  lemma {:induction false} SizeAppend(w: Widths, a: Code, b: Code)
    ensures SizeOf(w, a + b) == SizeOf(w, a) + SizeOf(w, b)
  {
    if a == [] {
      assert a + b == b;
    } else {
      assert (a + b)[0] == a[0] && (a + b)[1..] == a[1..] + b;
      SizeAppend(w, a[1..], b);
    }
  }

  lemma SizesAdd(w: Widths)
    ensures forall a: Code, b: Code :: SizeOf(w, a + b) == SizeOf(w, a) + SizeOf(w, b)
  {
    forall a: Code, b: Code
      ensures SizeOf(w, a + b) == SizeOf(w, a) + SizeOf(w, b)
    {
      SizeAppend(w, a, b);
    }
  }

  /** Code without moves of immediates. */
  predicate Plain(code: Code) {
    forall k :: 0 <= k < |code| ==> !code[k].MovImm?
  }

  lemma {:induction false} SizePlain(w: Widths, code: Code)
    requires Plain(code)
    ensures SizeOf(w, code) <= |code|
  {
    if code != [] {
      SizePlain(w, code[1..]);
    }
  }

  lemma SizeOne(w: Widths, i: HInstr)
    ensures SizeOf(w, [i]) == Size(w, i)
  {
    assert [i][1..] == [];
  }
}
