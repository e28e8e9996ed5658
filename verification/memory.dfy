/** Guest memory: bytes, one permission byte each, and the two forms of the permission check. */
module Memories {
  import opened Words

  datatype Access = ReadAccess | WriteAccess | ExecuteAccess

  /** The MemoryFlags bit an access needs. */
  function Flag(a: Access): Byte {
    match a case ReadAccess => 1 case WriteAccess => 2 case ExecuteAccess => 4
  }

  /** The contents of a Memory object. Both arrays are allocated in 8-byte blocks, so they may be
      longer than size. */
  datatype Mem = Mem(size: nat, bytes: seq<Byte>, perms: seq<Byte>)

  /** Bytes allocated for a memory of this size. */
  function Padded(size: nat): (p: nat)
    ensures size <= p
  {
    (size + 7) / 8 * 8
  }

  lemma PaddedIs(size: nat)
    ensures Padded(size) % 8 == 0 && size <= Padded(size) < size + 8
  {
  }

  /** What the constructor establishes and every operation keeps: whole blocks, and permission bytes
      past the end that are still zero. */
  ghost predicate ValidMem(m: Mem) {
    && m.size + 8 < TWO64
    && |m.bytes| == |m.perms| == Padded(m.size)
    && forall i :: m.size <= i < |m.perms| ==> m.perms[i] == 0
  }

  function And8(p: Byte, f: Byte): Byte {
    Pow2Of64();
    Bitwise(AndOp, p, f, 8)
  }

  predicate HasFlag(p: Byte, f: Byte) {
    And8(p, f) == f
  }

  predicate InBounds(m: Mem, address: nat, n: nat) {
    address <= m.size && address + n <= m.size
  }

  /** Memory::verify_permissions, what its byte loop decides. */
  predicate Permitted(m: Mem, address: nat, n: nat, a: Access)
    requires |m.perms| >= m.size
  {
    InBounds(m, address, n) && forall i :: address <= i < address + n ==> HasFlag(m.perms[i], Flag(a))
  }

  // ----- little-endian values -----

  function LoadLE(s: seq<Byte>, address: nat, n: nat): (v: nat)
    requires address + n <= |s|
    ensures v < Pow2(8 * n)
    decreases n
  {
    if n == 0 then 0
    else
      assert Pow2(8 * n) == 256 * Pow2(8 * n - 8) by { Pow2Step(8 * n - 8); }
      s[address] + 256 * LoadLE(s, address + 1, n - 1)
  }

  function StoreLE(s: seq<Byte>, address: nat, n: nat, v: nat): (r: seq<Byte>)
    requires address + n <= |s|
    ensures |r| == |s|
    ensures forall i :: 0 <= i < |s| && !(address <= i < address + n) ==> r[i] == s[i]
    decreases n
  {
    if n == 0 then s else StoreLE(s[address := v % 256], address + 1, n - 1, v / 256)
  }

  lemma Pow2Step(n: nat)
    ensures Pow2(n + 8) == 256 * Pow2(n)
  {
    assert Pow2(n + 2) == 4 * Pow2(n);
    assert Pow2(n + 4) == 4 * Pow2(n + 2);
    assert Pow2(n + 6) == 4 * Pow2(n + 4);
  }

  /** A value stored and loaded back is the value cut to the width of the access. */
  lemma {:induction false} LoadOfStore(s: seq<Byte>, address: nat, n: nat, v: nat)
    requires address + n <= |s|
    ensures LoadLE(StoreLE(s, address, n, v), address, n) == v % Pow2(8 * n)
    decreases n
  {
    if n > 0 {
      LoadOfStore(s[address := v % 256], address + 1, n - 1, v / 256);
      Pow2Step(8 * n - 8);
      ModSplit(v, 256, Pow2(8 * n - 8));
    }
  }

  // ----- the slow path of a guest access -----

  datatype Option<T> = None | Some(value: T)

  function ReadMem(m: Mem, address: Word, n: nat, a: Access): Option<nat>
    requires |m.perms| >= m.size && |m.bytes| >= m.size
  {
    if Permitted(m, address, n, a) then Some(LoadLE(m.bytes, address, n)) else None
  }

  function WriteMem(m: Mem, address: Word, n: nat, v: Word): Option<Mem>
    requires |m.perms| >= m.size && |m.bytes| >= m.size
  {
    if Permitted(m, address, n, WriteAccess) then Some(m.(bytes := StoreLE(m.bytes, address, n, v))) else None
  }

  // ----- the fast path: alignment, bounds, and one mask over a permission word -----

  /** The mask load_memory_permission_mask leaves for an access of 1, 2, 4 or 8 bytes: the flag
      in every byte (the 4-byte mask is the 8-byte one cut to 32 bits). */
  function Mask(f: Byte, n: nat): nat
    decreases n
  {
    if n == 0 then 0 else f + 256 * Mask(f, n - 1)
  }

  lemma MaskFits(f: Byte, n: nat)
    ensures Mask(f, n) < Pow2(8 * n)
  {
    if n > 0 {
      MaskFits(f, n - 1);
      Pow2Step(8 * n - 8);
    }
  }

  predicate Width(n: nat) { n == 1 || n == 2 || n == 4 || n == 8 }

  predicate FastPermitted(m: Mem, address: Word, n: nat, a: Access)
    requires Width(n)
  {
    && address % n == 0
    && address < m.size
    && address + n <= |m.perms|
    && Bitwise(AndOp, LoadLE(m.perms, address, n), Mask(Flag(a), n), 8 * n) == Mask(Flag(a), n)
  }

  /** One mask over a word of permission bytes holds exactly when each byte has the flag. */
  lemma {:induction false} MaskedWord(s: seq<Byte>, address: nat, n: nat, f: Byte)
    requires address + n <= |s|
    ensures Bitwise(AndOp, LoadLE(s, address, n), Mask(f, n), 8 * n) == Mask(f, n)
       <==> forall i :: address <= i < address + n ==> HasFlag(s[i], f)
    decreases n
  {
    if n > 0 {
      hide Bitwise, HasFlag, LoadLE, Mask, Pow2;
      MaskedWord(s, address + 1, n - 1, f);
      MaskedFirst(s, address, n, f);
      FirstHas(s, address, n, f);
    }
  }

  lemma MaskedFirst(s: seq<Byte>, address: nat, n: nat, f: Byte)
    requires 0 < n && address + n <= |s|
    ensures Bitwise(AndOp, LoadLE(s, address, n), Mask(f, n), 8 * n) == Mask(f, n)
       <==> HasFlag(s[address], f)
            && Bitwise(AndOp, LoadLE(s, address + 1, n - 1), Mask(f, n - 1), 8 * (n - 1)) == Mask(f, n - 1)
  {
    hide Bitwise, HasFlag, LoadLE, Mask, Pow2;
    FirstByte(s, address, n, f);
    MaskedByte(s[address], f, LoadLE(s, address + 1, n - 1), Mask(f, n - 1), 8 * n);
  }

  lemma FirstHas(s: seq<Byte>, address: nat, n: nat, f: Byte)
    requires 0 < n && address + n <= |s|
    ensures (forall i :: address <= i < address + n ==> HasFlag(s[i], f))
       <==> HasFlag(s[address], f) && forall i :: address + 1 <= i < (address + 1) + (n - 1) ==> HasFlag(s[i], f)
  {
    hide HasFlag;
  }

  lemma FirstByte(s: seq<Byte>, address: nat, n: nat, f: Byte)
    requires 0 < n && address + n <= |s|
    ensures LoadLE(s, address, n) == s[address] + 256 * LoadLE(s, address + 1, n - 1)
    ensures Mask(f, n) == f + 256 * Mask(f, n - 1)
  {
  }

  lemma MaskedByte(p: Byte, f: Byte, word: nat, mask: nat, bits: nat)
    requires bits >= 8
    ensures Bitwise(AndOp, p + 256 * word, f + 256 * mask, bits) == f + 256 * mask
       <==> HasFlag(p, f) && Bitwise(AndOp, word, mask, bits - 8) == mask
  {
    hide Bitwise, Pow2;
    Pow2Of64();
    BitwiseSplit(AndOp, 8, bits, word, p, mask, f);
    var q, r := Bitwise(AndOp, word, mask, bits - 8), Bitwise(AndOp, p, f, 8);
    assert q * 256 + r == 256 * mask + f <==> q == mask && r == f;
  }

  /** The fast check passes exactly when the access is aligned and the byte loop passes: for every
      memory size, because the padding grants nothing. */
  lemma FastIsSlow(m: Mem, address: Word, n: nat, a: Access)
    requires ValidMem(m) && Width(n)
    ensures FastPermitted(m, address, n, a) <==> address % n == 0 && Permitted(m, address, n, a)
    ensures address % n == 0 && address < m.size ==> address + n <= |m.perms|
  {
    hide Bitwise, LoadLE, Mask, Padded, HasFlag;
    if address % n == 0 && address < m.size {
      AlignedFits(address, n, m.size);
      MaskedWord(m.perms, address, n, Flag(a));
      if address + n > m.size {
        ZeroGrantsNothing(Flag(a));
        assert !HasFlag(m.perms[m.size], Flag(a));
      }
    }
  }

  lemma AlignedFits(address: nat, n: nat, size: nat)
    requires Width(n) && address % n == 0 && address < size
    ensures address + n <= Padded(size)
  {
    var blocks := (size + 7) / 8;
    MultiplesApart(address / n, n, if n == 8 then blocks else if n == 4 then 2 * blocks else if n == 2 then 4 * blocks
      else 8 * blocks);
  }

  lemma MultiplesApart(q: int, n: int, r: int)
    requires n > 0 && q * n < r * n
    ensures q * n + n <= r * n
  {
    if r <= q {
      Monotone(n, r, q);
      assert false;
    }
    Monotone(n, q + 1, r);
    Distribute(n, 1, q, 1);
  }

  lemma ZeroGrantsNothing(f: Byte)
    requires f != 0
    ensures !HasFlag(0, f)
  {
    AndZero(f, 8);
  }

  // ----- the same check as the x64 back end writes it -----

  /** A partial register write: an 8- or 16-bit load leaves the upper bits of the old value, a 32-bit
      load clears them. */
  function X64Load(old64: Word, v: nat, n: nat): nat
    requires Width(n)
  {
    NonNegative(X64Upper(old64, n), Pow2(8 * n));
    v + X64Upper(old64, n) * Pow2(8 * n)
  }

  function X64Upper(old64: Word, n: nat): nat
    requires Width(n)
  {
    if n == 4 || n == 8 then 0 else old64 / Pow2(8 * n)
  }

  /** In numbers: one and two bytes replace the lowest of the old value, four and eight all of it. */
  lemma X64LoadIs(old64: Word, v: nat, n: nat)
    requires Width(n) && v < Pow2(8 * n)
    ensures var x := X64Load(old64, v, n);
            && (n == 1 ==> x % 0x100 == v && x / 0x100 == old64 / 0x100)
            && (n == 2 ==> x % 0x1_0000 == v && x / 0x1_0000 == old64 / 0x1_0000)
            && (n == 4 || n == 8 ==> x == v)
  {
    Pow2Of64();
    if n == 1 {
      DivUnique(X64Load(old64, v, n), 0x100, old64 / 0x100, v);
    } else if n == 2 {
      DivUnique(X64Load(old64, v, n), 0x1_0000, old64 / 0x1_0000, v);
    }
  }

  /** Whatever was in the upper bits, the 64-bit and-and-compare with an n-byte mask sees only the
      bytes loaded. */
  lemma X64CheckIsFastCheck(m: Mem, address: Word, n: nat, a: Access, old64: Word)
    requires ValidMem(m) && Width(n) && address % n == 0 && address < m.size && address + n <= |m.perms|
    ensures var perms := X64Load(old64, LoadLE(m.perms, address, n), n);
            Bitwise(AndOp, perms, Mask(Flag(a), n), 64) == Mask(Flag(a), n)
            <==> Permitted(m, address, n, a)
  {
    hide Bitwise, LoadLE, Mask, Padded, HasFlag, Pow2, X64Upper, Flag;
    MaskFits(Flag(a), n);
    UpperBitsIgnored(8 * n, X64Upper(old64, n), LoadLE(m.perms, address, n), Mask(Flag(a), n));
    FastIsSlow(m, address, n, a);
  }

  lemma UpperBitsIgnored(k: nat, high: nat, v: nat, mask: nat)
    requires k <= 64 && v < Pow2(k) && mask < Pow2(k)
    ensures v + high * Pow2(k) >= 0
    ensures Bitwise(AndOp, v + high * Pow2(k), mask, 64) == Bitwise(AndOp, v, mask, k)
  {
    hide Bitwise, Pow2;
    NonNegative(high, Pow2(k));
    BitwiseSplit(AndOp, k, 64, high, v, 0, mask);
    AndZero(high, 64 - k);
  }

  // ----- the Memory object -----

  class Memory {
    const size: nat
    const contents: array<Byte>
    const permissions: array<Byte>

    ghost function View(): Mem
      reads contents, permissions
    {
      Mem(size, contents[..], permissions[..])
    }

    ghost predicate Valid()
      reads contents, permissions
    {
      contents != permissions && ValidMem(View())
    }

    constructor (size: nat)
      requires size + 8 < TWO64
      ensures Valid() && fresh(contents) && fresh(permissions) && this.size == size
      ensures contents.Length == permissions.Length && contents.Length % 8 == 0 && size <= contents.Length < size + 8
      ensures forall i :: 0 <= i < contents.Length ==> contents[i] == 0 && permissions[i] == 0
    {
      PaddedIs(size);
      this.size := size;
      contents := new Byte[Padded(size)](_ => 0);
      permissions := new Byte[Padded(size)](_ => 0);
    }

    method VerifyPermissions(address: Word, n: nat, a: Access) returns (ok: bool)
      requires Valid()
      ensures ok == Permitted(View(), address, n, a)
    {
      if address > size || address + n > size {
        return false;
      }
      for i := 0 to n
        invariant forall k :: address <= k < address + i ==> HasFlag(permissions[k], Flag(a))
      {
        if !HasFlag(permissions[address + i], Flag(a)) {
          return false;
        }
      }
      return true;
    }

    method Read(address: Word, n: nat, a: Access) returns (r: Option<nat>)
      requires Valid()
      ensures r == ReadMem(View(), address, n, a)
    {
      var ok := VerifyPermissions(address, n, a);
      if ok {
        r := Some(LoadLE(contents[..], address, n));
      } else {
        r := None;
      }
    }

    /** Nothing but the n bytes written changes, and those only when every one of them may be written. */
    method Write(address: Word, n: nat, v: Word) returns (ok: bool)
      requires Valid()
      modifies contents
      ensures Valid()
      ensures ok == WriteMem(old(View()), address, n, v).Some?
      ensures View() == if ok then WriteMem(old(View()), address, n, v).value else old(View())
    {
      ok := VerifyPermissions(address, n, WriteAccess);
      if !ok {
        return;
      }
      var rest: nat := v;
      for i := 0 to n
        invariant StoreLE(contents[..], address + i, n - i, rest) == StoreLE(old(contents[..]), address, n, v)
      {
        contents[address + i] := rest % 256;
        rest := rest / 256;
      }
    }

    /** The permission bytes of the range become the flags given; the padding stays zero. */
    method SetPermissions(address: Word, n: nat, flags: Byte) returns (ok: bool)
      requires Valid()
      modifies permissions
      ensures Valid() && contents[..] == old(contents[..])
      ensures ok == InBounds(old(View()), address, n)
      ensures forall i :: 0 <= i < permissions.Length ==>
                permissions[i] == if ok && address <= i < address + n then flags else old(permissions[i])
    {
      if address > size || address + n > size {
        return false;
      }
      for i := 0 to n
        invariant forall k :: 0 <= k < permissions.Length ==>
                    permissions[k] == if address <= k < address + i then flags else old(permissions[k])
      {
        permissions[address + i] := flags;
      }
      return true;
    }
  }
}
