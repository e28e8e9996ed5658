/** Translations of some blocks of one instruction, word by word. */
module SampleBlocks {
  import opened Words
  import opened Instructions
  import opened Memories
  import opened Interpreter
  import opened HostMachine
  import opened RegisterCaches
  import opened Translator
  import opened CodeLayout
  import CodeLengths
  import FirstRun

  // ----- blocks of one instruction -----

  /** Sixteen bytes with one instruction at address four, and only that executable. */
  const SECOND_FLAGS: seq<Byte> := [0, 0, 0, 0, 5, 5, 5, 5, 0, 0, 0, 0, 0, 0, 0, 0]

  function SecondInstruction(w: Word32): Mem { Mem(16, StoreLE(FirstRun.ZEROS, 4, 4, w), SECOND_FLAGS) }

  lemma OnlySecond(w: Word32)
    ensures var m := SecondInstruction(w); ValidMem(m) && Fetch(m, 4) == Some(Decoded(w))
  {
    hide HasFlag, Flag, StoreLE, LoadLE, Decoded;
    var m := SecondInstruction(w);
    FirstRun.Flags();
    LoadOfStore(FirstRun.ZEROS, 4, 4, w);
    Pow2Of64();
    assert w % Pow2(32) == w && Low32(w) == w;
    assert Permitted(m, 4, 4, ExecuteAccess);
  }

  /** Every move of an immediate takes four words, and no immediate is accepted elsewhere. */
  function ConfigOf(block: nat, blocks: nat): Config
    requires block < 2
  {
    Config(4 * block, blocks, false, false, {}, {}, {})
  }

  function TextOf(block: nat, blocks: nat, m: Mem): seq<Cell>
    requires block < 2 && ValidMem(m)
  {
    WordsOf(map[], Translate(ConfigOf(block, blocks), m))
  }

  lemma TextFits(block: nat, blocks: nat, m: Mem)
    requires block < 2 && ValidMem(m) && m.size == 16
    ensures |TextOf(block, blocks, m)| < 640
  {
    hide Translate, WordsOf, Padded;
    CodeLengths.TranslateLength(map[], ConfigOf(block, blocks), m);
  }

  // ----- a block that reads the table -----

  lemma {:induction false} NoSnapshot(i: nat)
    requires i <= CACHE_SIZE
    ensures FlushFrom(TakeSnapshot(NewCache()), i) == []
    decreases CACHE_SIZE - i
  {
    if i < CACHE_SIZE {
      NoSnapshot(i + 1);
    }
  }

  /** A jump to itself, at address four. */
  function JumpWord(): Word32 { Encode(Jal, 0, 0, 0, 0) }

  lemma JumpReads(blocks: nat)
    requires blocks >= 2
    ensures ValidMem(SecondInstruction(JumpWord()))
    ensures LdrBlock(A_REG, BLOCK_BASE, A_REG) in Translate(ConfigOf(1, blocks), SecondInstruction(JumpWord()))
  {
    hide Encode, Decoded, Fetch, SecondInstruction, FlushFrom, Padded, ExitPiece, NoneLocked, Stubs;
    var m, cfg, c := SecondInstruction(JumpWord()), ConfigOf(1, blocks), NewCache();
    OnlySecond(JumpWord());
    DecodeEncode(Jal, 0, 0, 0, 0);
    NewCacheValid();
    NoSnapshot(0);
    var i := Decoded(JumpWord());
    var p := JalPiece(cfg, c, 0, 4, i);
    assert p.code == LoadImmediate(cfg, A_REG, 4) + ValidatedBranch(cfg, A_REG, 0);
    assert ValidatedBranch(cfg, A_REG, 0)[0] == LdrBlock(A_REG, BLOCK_BASE, A_REG);
    assert BlockFrom(cfg, m, c, 0, 4) == p;
  }

  lemma {:induction false} InSomeWord(text: seq<Cell>, i: HInstr) returns (k: nat)
    requires i in Flatten(text)
    ensures k < |text| && i in text[k]
  {
    if i in text[0] {
      k := 0;
    } else {
      var j := InSomeWord(text[1..], i);
      k := j + 1;
    }
  }

  lemma JumpText(blocks: nat) returns (k: nat)
    requires blocks >= 2
    ensures var m := SecondInstruction(JumpWord());
            ValidMem(m) && k < |TextOf(1, blocks, m)| && LdrBlock(A_REG, BLOCK_BASE, A_REG) in TextOf(1, blocks, m)[k]
  {
    hide Translate, WordsOf, SecondInstruction, Padded;
    JumpReads(blocks);
    var m := SecondInstruction(JumpWord());
    FlattenWords(map[], Translate(ConfigOf(1, blocks), m));
    k := InSomeWord(TextOf(1, blocks, m), LdrBlock(A_REG, BLOCK_BASE, A_REG));
  }

  // ----- two blocks whose code differs in one word -----

  lemma MoveInWords(d: HReg, v: Word, rest: Code)
    ensures WordsOf(map[], [MovImm(d, v)] + rest) == [[MovImm(d, v)], [], [], []] + WordsOf(map[], rest)
  {
    var code := [MovImm(d, v)] + rest;
    assert code[0] == MovImm(d, v) && code[1..] == rest;
    var more: seq<Cell> := seq(3, _ => []);
    assert more == [[], [], []];
  }

  /** The block of an environment call or a breakpoint. */
  lemma CallText(blocks: nat, breakpoint: bool)
    ensures var m := FirstRun.OneInstruction(Encode(if breakpoint then Ebreak else Ecall, 0, 0, 0, 0));
            ValidMem(m) && |TextOf(0, blocks, m)| == 13
            && TextOf(0, blocks, m)[8] == [MovImm(EXIT_REASON, if breakpoint then 10 else 9)]
  {
    hide Encode, Decoded, Fetch, FirstRun.OneInstruction, FlushFrom, Padded, NoneLocked, WordsOf;
    var op := if breakpoint then Ebreak else Ecall;
    var w := Encode(op, 0, 0, 0, 0);
    var m, cfg, c := FirstRun.OneInstruction(w), ConfigOf(0, blocks), NewCache();
    FirstRun.OnlyFirst(w);
    DecodeEncode(op, 0, 0, 0, 0);
    NewCacheValid();
    NoSnapshot(0);
    var reason := if breakpoint then ArchEbreak else ArchEcall;
    var p := ExitPiece(cfg, c, 0, reason, 0);
    assert BlockFrom(cfg, m, c, 0, 0) == p;
    var pc, why := MovImm(EXIT_PC, 0), MovImm(EXIT_REASON, ArchCode(reason));
    assert Translate(cfg, m) == [MovImm(BASE_PC, 0)] + ([pc] + ([why] + [Ret]));
    MoveInWords(BASE_PC, 0, [pc] + ([why] + [Ret]));
    MoveInWords(EXIT_PC, 0, [why] + [Ret]);
    MoveInWords(EXIT_REASON, ArchCode(reason), [Ret]);
    assert WordsOf(map[], [Ret]) == [[Ret]] by { ReturnInWords(); }
  }

  lemma ReturnInWords()
    ensures WordsOf(map[], [Ret]) == [[Ret]]
  {
    assert [Ret][1..] == [];
  }
}
