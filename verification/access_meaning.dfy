/** What the permission check in front of a guest access decides when it runs. */
module AccessMeaning {
  import opened Words
  import opened Memories
  import opened HostMachine
  import opened Translator
  import CodeMeaning

  /** Only the two registers the check computes in, and the flags, changed. */
  ghost predicate OnlyCheck(h: Host, g: Host) {
    && g.table == h.table && g.mem == h.mem
    && forall n: HReg :: n != B_REG && n != C_REG ==> g.r[n] == h.r[n]
  }

  // ----- the permission word and the mask, as numbers -----

  lemma MaskValues(f: Byte)
    ensures Mask(f, 1) == f && Mask(f, 2) == f * 0x101 && Mask(f, 4) == f * 0x101_0101
    ensures Mask(f, 8) == f * 0x101_0101_0101_0101
  {
    assert Mask(f, 1) == f;
    assert Mask(f, 2) == f + 256 * Mask(f, 1);
    assert Mask(f, 3) == f + 256 * Mask(f, 2);
    assert Mask(f, 4) == f + 256 * Mask(f, 3);
    assert Mask(f, 5) == f + 256 * Mask(f, 4);
    assert Mask(f, 6) == f + 256 * Mask(f, 5);
    assert Mask(f, 7) == f + 256 * Mask(f, 6);
    assert Mask(f, 8) == f + 256 * Mask(f, 7);
  }

  lemma MaskImmediateIs(f: Byte, w: nat)
    requires Width(w) && f <= 4
    ensures w != 4 ==> MaskImmediate(f, w) == Mask(f, w)
    ensures w == 4 ==> MaskImmediate(f, w) == Mask(f, 4) * TWO32 + Mask(f, 4)
    ensures Mask(f, w) < TWO32 || w == 8
  {
    hide Mask;
    MaskValues(f);
  }

  lemma PermissionWordFits(v: nat, w: nat)
    requires Width(w) && v < Pow2(8 * w)
    ensures v < TWO64 && (w == 4 ==> v < TWO32) && Pow2(8 * w) <= TWO64
  {
    Pow2Of64();
  }

  /** and_ then cmp, at 32 bits for a 4-byte access and 64 otherwise, compare the masked word with the
      mask of exactly the bytes accessed. */
  lemma MaskedCompare(v: Word, f: Byte, w: nat)
    requires Width(w) && v < Pow2(8 * w) && f <= 4
    ensures var mask := MaskImmediate(f, w);
            w != 4 ==> (Bits(AndOp, v, mask) == mask <==> Bitwise(AndOp, v, Mask(f, w), 8 * w) == Mask(f, w))
    ensures var mask := MaskImmediate(f, w);
            w == 4 ==> (Low32(Bits(AndOp, v, mask)) == Low32(mask) <==> Bitwise(AndOp, v, Mask(f, 4), 32) == Mask(f, 4))
  {
    hide Bitwise, Mask, MaskImmediate, Pow2;
    PermissionWordFits(v, w);
    MaskImmediateIs(f, w);
    MaskFits(f, w);
    if w == 4 {
      NarrowCompare(v, Mask(f, 4), MaskImmediate(f, 4));
    } else {
      UpperBitsIgnored(8 * w, 0, v, Mask(f, w));
    }
  }

  lemma NarrowCompare(v: Word, narrow: nat, mask: Word)
    requires v < TWO32 && narrow < TWO32 && mask == narrow * TWO32 + narrow
    ensures Low32(Bits(AndOp, v, mask)) == Bitwise(AndOp, v, narrow, 32) && Low32(mask) == narrow
  {
    hide Bitwise;
    Pow2Of64();
    BitwiseSplit(AndOp, 32, 64, 0, v, narrow, narrow);
    AndZero(narrow, 32);
  }

  // ----- the three parts of the check -----

  lemma AlignmentMeaning(env: Env, address: HReg, fault: Label, w: nat, rest: Code, h: Host) returns (g: Host)
    requires Width(w) && address != XZR
    ensures OnlyCheck(h, g)
    ensures var code := if w > 1 then [TstImm(address, w - 1), BCond(NotEqual, fault)] else [];
            Run(env, code + rest, h) == if h.r[address] % w == 0 then Run(env, rest, g)
              else Run(env, After(rest, fault), g)
  {
    hide Run, After;
    g := h;
    if w > 1 {
      var tst, b := TstImm(address, w - 1), BCond(NotEqual, fault);
      LowMaskOf(h.r[address], w);
      g := h.(flags := (h.r[address] % w, 0));
      assert [tst, b] + rest == [tst] + ([b] + rest);
      RunOne(env, tst, [b] + rest, h);
      RunOne(env, b, rest, g);
    } else {
      assert [] + rest == rest;
    }
  }

  lemma LowMaskOf(a: Word, w: nat)
    requires w == 2 || w == 4 || w == 8
    ensures Bits(AndOp, a, Wrap(w - 1)) == a % w
  {
    hide Bits;
    assert Pow2(1) == 2 && Pow2(2) == 4 && Pow2(3) == 8;
    LowMask(a, if w == 2 then 1 else if w == 4 then 2 else 3);
  }

  lemma BoundsMeaning(env: Env, address: HReg, fault: Label, rest: Code, h: Host, size: Word) returns (g: Host)
    requires address != XZR && h.r[MEMORY_SIZE] == size
    ensures OnlyCheck(h, g)
    ensures Run(env, [CmpReg(true, address, MEMORY_SIZE), BCond(UnsignedGreaterEqual, fault)] + rest, h)
         == if h.r[address] < size then Run(env, rest, g) else Run(env, After(rest, fault), g)
  {
    hide Run, After;
    var cmp, b := CmpReg(true, address, MEMORY_SIZE), BCond(UnsignedGreaterEqual, fault);
    g := h.(flags := (h.r[address], size));
    assert [cmp, b] + rest == [cmp] + ([b] + rest);
    RunOne(env, cmp, [b] + rest, h);
    RunOne(env, b, rest, g);
  }

  lemma LoadWord(env: Env, address: HReg, w: nat, h: Host)
    requires Width(w) && address != XZR
    requires h.r[PERMISSIONS_BASE] == env.permBase && h.r[address] + w <= |h.mem.perms|
    ensures var v := LoadLE(h.mem.perms, h.r[address], w);
            v < TWO64 && Exec(env, LdrPerms(w, B_REG, PERMISSIONS_BASE, address), h) == Some(Put(h, B_REG, v))
  {
    hide LoadLE, Pow2, Bits, SignExtend, SignExtend32, AluValue, StoreLE, BlockEntry, Holds;
    PermissionWordFits(LoadLE(h.mem.perms, h.r[address], w), w);
  }

  lemma LoadWordAndMask(env: Env, address: HReg, w: nat, mask: Word, h: Host)
    requires Width(w) && address != XZR
    requires h.r[PERMISSIONS_BASE] == env.permBase && h.r[address] + w <= |h.mem.perms|
    ensures var v := LoadLE(h.mem.perms, h.r[address], w);
            v < TWO64 && ExecAll(env, [LdrPerms(w, B_REG, PERMISSIONS_BASE, address), MovImm(C_REG, mask)], h)
                         == Some(Put(Put(h, B_REG, v), C_REG, mask))
  {
    hide LoadLE, Exec, ExecAll, Put;
    LoadWord(env, address, w, h);
    MoveMask(env, mask, Put(h, B_REG, LoadLE(h.mem.perms, h.r[address], w)));
    ExecTwo(env, LdrPerms(w, B_REG, PERMISSIONS_BASE, address), MovImm(C_REG, mask), h);
  }

  lemma MoveMask(env: Env, mask: Word, h: Host)
    ensures Exec(env, MovImm(C_REG, mask), h) == Some(Put(h, C_REG, mask))
  {
  }

  lemma MaskAndCompare(env: Env, narrow: bool, v: Word, mask: Word, h: Host) returns (g: Host)
    requires h.r[B_REG] == v && h.r[C_REG] == mask
    ensures OnlyCheck(h, g)
    ensures ExecAll(env, [Alu(if narrow then AndW else AndX, B_REG, B_REG, C_REG), CmpReg(!narrow, B_REG, C_REG)], h)
            == Some(g)
    ensures g.flags.0 == g.flags.1
       <==> if narrow then Low32(Bits(AndOp, v, mask)) == Low32(mask) else Bits(AndOp, v, mask) == mask
  {
    hide Bits, LoadLE, SignExtend, SignExtend32, StoreLE, BlockEntry, Holds, ExecAll;
    var and, cmp := Alu(if narrow then AndW else AndX, B_REG, B_REG, C_REG), CmpReg(!narrow, B_REG, C_REG);
    ExecTwo(env, and, cmp, h);
    g := ExecAll(env, [and, cmp], h).value;
  }

  lemma PermissionsMeaning(env: Env, address: HReg, fault: Label, w: nat, a: Access, rest: Code, h: Host)
    returns (g: Host)
    requires Width(w) && address != XZR && address != B_REG && address != C_REG
    requires h.r[PERMISSIONS_BASE] == env.permBase && h.r[address] + w <= |h.mem.perms|
    ensures OnlyCheck(h, g)
    ensures Run(env, PermissionCheck(address, fault, w, a) + rest, h)
         == if Bitwise(AndOp, LoadLE(h.mem.perms, h.r[address], w), Mask(Flag(a), w), 8 * w) == Mask(Flag(a), w)
            then Run(env, rest, g) else Run(env, After(rest, fault), g)
  {
    hide Run, After, Bits, Bitwise, LoadLE, MaskImmediate, Mask, Flag, Pow2, Exec, ExecAll;
    var v := LoadLE(h.mem.perms, h.r[address], w);
    var mask := MaskImmediate(Flag(a), w);
    var b := BCond(NotEqual, fault);
    FlagSmall(a);
    LoadWordAndMask(env, address, w, mask, h);
    MaskedCompare(v, Flag(a), w);
    var load := [LdrPerms(w, B_REG, PERMISSIONS_BASE, address), MovImm(C_REG, mask)];
    var test := [Alu(if w == 4 then AndW else AndX, B_REG, B_REG, C_REG), CmpReg(w != 4, B_REG, C_REG)];
    var h1 := Put(Put(h, B_REG, v), C_REG, mask);
    g := MaskAndCompare(env, w == 4, v, mask, h1);
    assert PermissionCheck(address, fault, w, a) + rest == load + (test + ([b] + rest));
    RunAll(env, load, test + ([b] + rest), h);
    RunAll(env, test, [b] + rest, h1);
    RunOne(env, b, rest, g);
  }

  lemma FlagSmall(a: Access)
    ensures Flag(a) <= 4
  {
  }

  /** The whole check lets the access through exactly when it is aligned and the byte loop would, and
      goes to the fault label otherwise. */
  lemma ValidateMeaning(env: Env, cfg: Config, address: HReg, fault: Label, w: nat, a: Access, rest: Code, h: Host)
    returns (g: Host)
    requires Width(w) && address != XZR && address != B_REG && address != C_REG
    requires !cfg.skipPermissionChecks && ValidMem(h.mem) && CodeMeaning.FixedRegisters(env, cfg, h.mem.size, h)
    ensures OnlyCheck(h, g)
    ensures Run(env, ValidateAccess(cfg, address, fault, w, a) + rest, h)
         == if h.r[address] % w == 0 && Permitted(h.mem, h.r[address], w, a)
            then Run(env, rest, g) else Run(env, After(rest, fault), g)
  {
    hide Run, After, Bitwise, LoadLE, Mask, Flag, PermissionCheck, Permitted, Padded;
    var align := if w > 1 then [TstImm(address, w - 1), BCond(NotEqual, fault)] else [];
    var bounds := [CmpReg(true, address, MEMORY_SIZE), BCond(UnsignedGreaterEqual, fault)];
    var perms := PermissionCheck(address, fault, w, a);
    FastIsSlow(h.mem, h.r[address], w, a);
    assert ValidateAccess(cfg, address, fault, w, a) + rest == align + (bounds + (perms + rest));
    g := AlignmentMeaning(env, address, fault, w, bounds + (perms + rest), h);
    NoBinds(address, fault, w, a);
    if h.r[address] % w == 0 {
      var g1 := BoundsMeaning(env, address, fault, perms + rest, g, h.mem.size);
      AfterSkips(perms, rest, fault);
      g := g1;
      if h.r[address] < h.mem.size {
        g := PermissionsMeaning(env, address, fault, w, a, rest, g1);
      }
    } else {
      assert bounds + (perms + rest) == (bounds + perms) + rest;
      AfterSkips(bounds + perms, rest, fault);
    }
  }

  /** With permission checks switched off: the access is let through exactly when it is aligned and starts in
      bounds, and then it is within what is allocated. */
  lemma UncheckedMeaning(env: Env, cfg: Config, address: HReg, fault: Label, w: nat, a: Access, rest: Code, h: Host)
    returns (g: Host)
    requires Width(w) && address != XZR && address != B_REG && address != C_REG
    requires cfg.skipPermissionChecks && ValidMem(h.mem) && CodeMeaning.FixedRegisters(env, cfg, h.mem.size, h)
    ensures OnlyCheck(h, g)
    ensures Run(env, ValidateAccess(cfg, address, fault, w, a) + rest, h)
         == if h.r[address] % w == 0 && h.r[address] < h.mem.size then Run(env, rest, g)
            else Run(env, After(rest, fault), g)
    ensures h.r[address] % w == 0 && h.r[address] < h.mem.size ==> h.r[address] + w <= |h.mem.bytes|
  {
    hide Run, After, PermissionCheck, Padded, LoadLE, Mask, Bitwise, HasFlag;
    var align := if w > 1 then [TstImm(address, w - 1), BCond(NotEqual, fault)] else [];
    var bounds := [CmpReg(true, address, MEMORY_SIZE), BCond(UnsignedGreaterEqual, fault)];
    FastIsSlow(h.mem, h.r[address], w, a);
    assert ValidateAccess(cfg, address, fault, w, a) + rest == align + (bounds + rest);
    g := AlignmentMeaning(env, address, fault, w, bounds + rest, h);
    if h.r[address] % w == 0 {
      g := BoundsMeaning(env, address, fault, rest, g, h.mem.size);
    } else {
      AfterSkips(bounds, rest, fault);
    }
  }

  lemma NoBinds(address: HReg, fault: Label, w: nat, a: Access)
    ensures !Binds(PermissionCheck(address, fault, w, a), fault)
    ensures !Binds([CmpReg(true, address, MEMORY_SIZE), BCond(UnsignedGreaterEqual, fault)]
            + PermissionCheck(address, fault, w, a), fault)
  {
  }
}
