/** The code buffer: a bump allocator for translated code and the table from guest blocks to offsets. */
module CodeBuffers {
  import opened Words
  import opened Memories
  import opened HostMachine
  import opened CodeLayout

  const BLOCK_SIZE: nat := 4
  const CODE_ALIGNMENT: nat := 16

  /** size is in bytes, four to a word of code. An offset of zero means no code. */
  datatype Buffer = Buffer(size: nat, cells: seq<Cell>, offsets: seq<Word>, nextFree: nat, widths: Widths)

  datatype Region = Region(offset: Word, code: Code)

  datatype Lookup = Absent | Found(offset: Word) | PastTable

  /** Why insert did not come back: a failed verify. */
  datatype Inserted = At(offset: Word, buffer: Buffer) | Misaligned | OutOfMemory | NoEntry

  function AlignUp(x: nat): nat {
    x + CODE_ALIGNMENT - 1 - (x + CODE_ALIGNMENT - 1) % CODE_ALIGNMENT
  }

  /** What the constructor establishes and every operation keeps; below four gigabytes, so that
      offsets fit the table's 32-bit entries. */
  ghost predicate ValidBuffer(b: Buffer) {
    b.size < TWO32 && |b.cells| == b.size / 4 && CODE_ALIGNMENT <= b.nextFree && b.nextFree % 4 == 0
  }

  function WriteCode(cells: seq<Cell>, start: nat, code: seq<Cell>): (r: seq<Cell>)
    requires start + |code| <= |cells|
    ensures |r| == |cells|
  {
    cells[..start] + code + cells[start + |code|..]
  }

  /** Bytes a piece of code takes. */
  function Bytes(w: Widths, code: Code): nat { 4 * |WordsOf(w, code)| }

  /** allocate_executable_memory. The offset is returned as 32 bits. */
  function Allocate(b: Buffer, code: Code): Inserted
    requires ValidBuffer(b)
  {
    var start := AlignUp(b.nextFree);
    var end := start + Bytes(b.widths, code);
    if end > b.size then OutOfMemory
    else
      assert start % 4 == 0;
      At(start % TWO32, b.(cells := WriteCode(b.cells, start / 4, WordsOf(b.widths, code)), nextFree := end))
  }

  function Find(b: Buffer, address: Word): Lookup {
    if address % BLOCK_SIZE != 0 then Absent
    else if address / BLOCK_SIZE >= |b.offsets| then PastTable
    else if b.offsets[address / BLOCK_SIZE] == 0 then Absent
    else Found(b.offsets[address / BLOCK_SIZE])
  }

  function Publish(b: Buffer, address: Word, offset: Word): Buffer
    requires address / BLOCK_SIZE < |b.offsets|
  {
    b.(offsets := b.offsets[address / BLOCK_SIZE := offset])
  }

  function InsertCode(b: Buffer, address: Word, code: Code): Inserted
    requires ValidBuffer(b)
  {
    if address % BLOCK_SIZE != 0 then Misaligned
    else
      match Find(b, address)
      case PastTable => NoEntry
      case Found(offset) => At(offset, b)
      case Absent =>
        match Allocate(b, code)
        case At(offset, after) => At(offset, Publish(after, address, offset))
        case other => other
  }

  // ----- the allocator -----

  /** The code of a region is where it was put. */
  predicate Contains(b: Buffer, r: Region) {
    r.offset % 4 == 0 && r.offset / 4 <= |b.cells| && WordsOf(b.widths, r.code) <= b.cells[r.offset / 4..]
  }

  /** The code from an offset on. */
  function CodeFrom(b: Buffer, offset: Word): Code
    requires offset / 4 <= |b.cells|
  {
    Flatten(b.cells[offset / 4..])
  }

  lemma ContainsCode(b: Buffer, r: Region) returns (tail: Code)
    requires Contains(b, r)
    ensures CodeFrom(b, r.offset) == r.code + tail
  {
    hide WordsOf;
    var words, rest := WordsOf(b.widths, r.code), b.cells[r.offset / 4..];
    FlattenWords(b.widths, r.code);
    assert rest == words + rest[|words|..];
    FlattenAppend(words, rest[|words|..]);
    tail := Flatten(rest[|words|..]);
  }

  function EndOf(w: Widths, r: Region): nat { r.offset + Bytes(w, r.code) }

  predicate Before(w: Widths, q: Region, r: Region) {
    EndOf(w, q) <= r.offset
  }

  /** Regions handed out so far, in the order in which they were. */
  ghost predicate Laid(b: Buffer, regions: seq<Region>) {
    && (forall k :: 0 <= k < |regions| ==>
          && regions[k].offset % CODE_ALIGNMENT == 0 && regions[k].offset > 0
          && EndOf(b.widths, regions[k]) <= b.nextFree && Contains(b, regions[k]))
    && (forall j, k :: 0 <= j < k < |regions| ==> Before(b.widths, regions[j], regions[k]))
  }

  lemma AlignUpIs(x: nat)
    ensures x <= AlignUp(x) && AlignUp(x) % 16 == 0 && AlignUp(x) % 4 == 0 && AlignUp(x) < x + 16
  {
    var q := (x + 15) / 16;
    assert AlignUp(x) == 16 * q;
    DivUnique(AlignUp(x), 16, q, 0);
    DivUnique(AlignUp(x), 4, 4 * q, 0);
  }

  lemma WriteCodeIs(cells: seq<Cell>, start: nat, code: seq<Cell>)
    requires start + |code| <= |cells|
    ensures code <= WriteCode(cells, start, code)[start..]
    ensures forall i, n :: 0 <= i && 0 <= n && i + n <= start ==>
            WriteCode(cells, start, code)[i..][..n] == cells[i..][..n]
  {
    var w := WriteCode(cells, start, code);
    assert w[start..] == code + cells[start + |code|..];
    forall i, n | 0 <= i && 0 <= n && i + n <= start
      ensures w[i..][..n] == cells[i..][..n]
    {
      forall k | 0 <= k < n
        ensures w[i..][..n][k] == cells[i..][..n][k]
      {
        assert w[i + k] == cells[..start][i + k] == cells[i + k];
      }
    }
  }

  lemma PrefixIs<T>(code: seq<T>, s: seq<T>)
    requires |code| <= |s|
    ensures code <= s <==> s[..|code|] == code
  {
    if s[..|code|] == code {
      assert forall k :: 0 <= k < |code| ==> s[k] == s[..|code|][k];
    }
  }

  /** Allocation leaves the contents of everything below the free offset. */
  lemma AllocateKeeps(b: Buffer, code: Code, r: Region)
    requires ValidBuffer(b) && Allocate(b, code).At? && Contains(b, r) && EndOf(b.widths, r) <= b.nextFree
    ensures Contains(Allocate(b, code).buffer, r)
  {
    hide WriteCode, WordsOf;
    var start, words := AlignUp(b.nextFree), WordsOf(b.widths, code);
    AlignUpIs(b.nextFree);
    WriteCodeIs(b.cells, start / 4, words);
    var i, n := r.offset / 4, |WordsOf(b.widths, r.code)|;
    var w := WriteCode(b.cells, start / 4, words);
    assert i + n <= start / 4;
    assert w[i..][..n] == b.cells[i..][..n];
    PrefixIs(WordsOf(b.widths, r.code), b.cells[i..]);
    PrefixIs(WordsOf(b.widths, r.code), w[i..]);
  }

  lemma AllocateIs(b: Buffer, code: Code)
    requires ValidBuffer(b) && Allocate(b, code).At?
    ensures var a := Allocate(b, code);
            ValidBuffer(a.buffer) && a.buffer.offsets == b.offsets && a.buffer.size == b.size
              && a.buffer.widths == b.widths
            && Contains(a.buffer, Region(a.offset, code)) && CODE_ALIGNMENT <= b.nextFree <= a.offset
            && a.offset % CODE_ALIGNMENT == 0 && a.buffer.nextFree == EndOf(b.widths, Region(a.offset, code)) <= b.size
            && b.nextFree <= a.buffer.nextFree
  {
    hide WriteCode, AlignUp, WordsOf;
    AlignUpIs(b.nextFree);
    WriteCodeIs(b.cells, AlignUp(b.nextFree) / 4, WordsOf(b.widths, code));
  }

  /** Every region ever returned, for blocks and standalone code alike, is aligned, nonzero, in bounds
      and apart from every other, and its contents stay. */
  lemma AllocateLays(b: Buffer, code: Code, regions: seq<Region>)
    requires ValidBuffer(b) && Laid(b, regions) && Allocate(b, code).At?
    ensures var a := Allocate(b, code);
            Laid(a.buffer, regions + [Region(a.offset, code)]) && a.buffer.nextFree <= a.buffer.size
  {
    hide Allocate, Contains, ValidBuffer, EndOf;
    var a := Allocate(b, code);
    AllocateIs(b, code);
    var all := regions + [Region(a.offset, code)];
    forall k | 0 <= k < |all|
      ensures all[k].offset % CODE_ALIGNMENT == 0 && all[k].offset > 0
      ensures EndOf(b.widths, all[k]) <= a.buffer.nextFree && Contains(a.buffer, all[k])
    {
      if k < |regions| {
        AllocateKeeps(b, code, regions[k]);
      }
    }
  }

  // ----- the table -----

  /** insert: the address of the code already there, or a new region published for the address. */
  lemma InsertIs(b: Buffer, address: Word, code: Code, regions: seq<Region>)
    requires ValidBuffer(b) && Laid(b, regions)
    ensures var i := InsertCode(b, address, code);
            && (Find(b, address).Found? ==> i == At(Find(b, address).offset, b))
            && (i.At? ==>
                 && address % BLOCK_SIZE == 0 && Find(i.buffer, address) == Found(i.offset) && ValidBuffer(i.buffer)
                 && |i.buffer.offsets| == |b.offsets|
                 && (forall k :: 0 <= k < |b.offsets| && k != address / BLOCK_SIZE ==>
                    i.buffer.offsets[k] == b.offsets[k])
                 && (Find(b, address) == Absent ==> Laid(i.buffer, regions + [Region(i.offset, code)])))
  {
    hide Allocate, Contains;
    if Find(b, address) == Absent && address % BLOCK_SIZE == 0 && Allocate(b, code).At? {
      AllocateIs(b, code);
      AllocateLays(b, code, regions);
      PublishKeeps(Allocate(b, code).buffer, address, Allocate(b, code).offset, regions
        + [Region(Allocate(b, code).offset, code)]);
    }
  }

  lemma PublishKeeps(b: Buffer, address: Word, offset: Word, regions: seq<Region>)
    requires address / BLOCK_SIZE < |b.offsets| && Laid(b, regions)
    ensures Laid(Publish(b, address, offset), regions)
  {
    assert forall r :: Contains(Publish(b, address, offset), r) <==> Contains(b, r);
  }

  /** Once set, an entry never changes: inserting again gives the same address back. */
  lemma EntriesStay(b: Buffer, address: Word, code: Code, other: Word)
    requires ValidBuffer(b) && InsertCode(b, address, code).At? && Find(b, other).Found?
    ensures Find(InsertCode(b, address, code).buffer, other) == Find(b, other)
  {
    hide WriteCode;
  }

  // ----- every sequence of insertions -----

  datatype CodeRequest = ForBlock(address: Word, code: Code) | Standalone(code: Code)

  datatype Served = Served(buffer: Buffer, regions: seq<Region>)

  function Answer(b: Buffer, r: CodeRequest): Inserted
    requires ValidBuffer(b)
  {
    match r case ForBlock(address, code) => InsertCode(b, address, code) case Standalone(code) => Allocate(b, code)
  }

  /** The buffer and the new regions after a sequence of insert and insert_standalone calls; a call that
      fails a verify changes nothing. */
  ghost function ServeAll(b: Buffer, requests: seq<CodeRequest>): (s: Served)
    requires ValidBuffer(b)
    ensures ValidBuffer(s.buffer)
    decreases |requests|
  {
    if requests == [] then Served(b, [])
    else
      var last := |requests| - 1;
      var s := ServeAll(b, requests[..last]);
      var r := requests[last];
      var a := Answer(s.buffer, r);
      if !a.At? then s
      else if r.ForBlock? && Find(s.buffer, r.address).Found? then s
      else
        AnswerValid(s.buffer, r);
        Served(a.buffer, s.regions + [Region(a.offset, r.code)])
  }

  lemma AnswerValid(b: Buffer, r: CodeRequest)
    requires ValidBuffer(b) && Answer(b, r).At?
    ensures ValidBuffer(Answer(b, r).buffer)
  {
    hide Allocate;
    if Allocate(b, r.code).At? {
      AllocateIs(b, r.code);
    }
  }

  /** All regions returned over any sequence of calls are aligned, nonzero, in bounds, pairwise disjoint,
      and hold at the end what was put there at first. */
  lemma {:induction false} AllocatorSafe(b: Buffer, requests: seq<CodeRequest>)
    requires ValidBuffer(b)
    ensures var s := ServeAll(b, requests);
            && Laid(s.buffer, s.regions) && (b.nextFree <= b.size ==> s.buffer.nextFree <= s.buffer.size)
            && forall j, k :: 0 <= j < |s.regions| && 0 <= k < |s.regions| && j != k ==>
                 Before(s.buffer.widths, s.regions[j], s.regions[k])
                   || Before(s.buffer.widths, s.regions[k], s.regions[j])
    decreases |requests|
  {
    if requests != [] {
      hide Allocate, InsertCode, Laid, ValidBuffer;
      var last := |requests| - 1;
      var s := ServeAll(b, requests[..last]);
      var r := requests[last];
      AllocatorSafe(b, requests[..last]);
      if Answer(s.buffer, r).At? && !(r.ForBlock? && Find(s.buffer, r.address).Found?) {
        AnswerLays(s.buffer, r, s.regions);
      }
    }
  }

  lemma AnswerLays(b: Buffer, r: CodeRequest, regions: seq<Region>)
    requires ValidBuffer(b) && Laid(b, regions) && Answer(b, r).At?
    requires r.ForBlock? ==> !Find(b, r.address).Found?
    ensures var a := Answer(b, r);
            Laid(a.buffer, regions + [Region(a.offset, r.code)]) && a.buffer.nextFree <= a.buffer.size
  {
    hide Laid, ValidBuffer, Contains, Allocate;
    match r
    case Standalone(code) => AllocateLays(b, code, regions);
    case ForBlock(address, code) =>
      InsertIs(b, address, code, regions);
      AllocateLays(b, code, regions);
  }

  // ----- the CodeBuffer object -----

  class CodeBuffer {
    const size: nat
    const widths: Widths
    const cells: array<Cell>
    const blockToOffset: array<Word>
    const maxBlocks: nat
    var nextFreeOffset: nat

    ghost function View(): Buffer
      reads this, cells, blockToOffset
    {
      Buffer(size, cells[..], blockToOffset[..], nextFreeOffset, widths)
    }

    ghost predicate Valid()
      reads this, cells, blockToOffset
    {
      ValidBuffer(View()) && maxBlocks == blockToOffset.Length
    }

    constructor (size: nat, maxExecutableGuestAddress: nat, widths: Widths)
      requires size < TWO32
      ensures Valid() && fresh(cells) && fresh(blockToOffset) && this.size == size && this.widths == widths
      ensures maxBlocks == (maxExecutableGuestAddress + BLOCK_SIZE - 1) / BLOCK_SIZE
      ensures View().offsets == seq(maxBlocks, _ => 0) && nextFreeOffset == CODE_ALIGNMENT
    {
      this.size, this.widths := size, widths;
      maxBlocks := (maxExecutableGuestAddress + BLOCK_SIZE - 1) / BLOCK_SIZE;
      cells := new Cell[size / 4](_ => [Ret]);
      blockToOffset := new Word[(maxExecutableGuestAddress + BLOCK_SIZE - 1) / BLOCK_SIZE](_ => 0);
      nextFreeOffset := CODE_ALIGNMENT;
    }

    method Get(guestAddress: Word) returns (r: Lookup)
      requires Valid()
      ensures r == Find(View(), guestAddress)
    {
      if guestAddress % BLOCK_SIZE != 0 {
        return Absent;
      }
      var block := guestAddress / BLOCK_SIZE;
      if block >= maxBlocks {
        return PastTable;
      }
      var offset := blockToOffset[block];
      if offset == 0 {
        return Absent;
      }
      return Found(offset);
    }

    /** ExecutableBuffer::write */
    method WriteCells(start: nat, code: seq<Cell>)
      requires start + |code| <= cells.Length
      modifies cells
      ensures cells[..] == WriteCode(old(cells[..]), start, code)
    {
      for i := 0 to |code|
        invariant forall k :: 0 <= k < cells.Length ==>
                    cells[k] == if start <= k < start + i then code[k - start] else old(cells[k])
      {
        cells[start + i] := code[i];
      }
    }

    /** None when the buffer is full; then nothing has changed. */
    method AllocateExecutableMemory(code: Code) returns (r: Option<Word>)
      requires Valid()
      modifies this`nextFreeOffset, cells
      ensures Valid()
      ensures match Allocate(old(View()), code)
              case At(offset, after) => r == Some(offset) && View() == after
              case _ => r == None && View() == old(View())
    {
      var startOffset := AlignUp(nextFreeOffset);
      var words := WordsOf(widths, code);
      var endOffset := startOffset + 4 * |words|;
      AlignUpIs(nextFreeOffset);
      if endOffset > size {
        return None;
      }
      WriteCells(startOffset / 4, words);
      nextFreeOffset := endOffset;
      return Some(startOffset % TWO32);
    }

    method Insert(guestAddress: Word, code: Code) returns (r: Option<Word>)
      requires Valid()
      modifies this`nextFreeOffset, cells, blockToOffset
      ensures Valid()
      ensures match InsertCode(old(View()), guestAddress, code)
              case At(offset, after) => r == Some(offset) && View() == after
              case _ => r == None && View() == old(View())
    {
      if guestAddress % BLOCK_SIZE != 0 {
        return None;
      }
      var p := Get(guestAddress);
      match p
      case Found(offset) => return Some(offset);
      case PastTable => return None;
      case Absent =>
        r := AllocateExecutableMemory(code);
        if r.Some? {
          blockToOffset[guestAddress / BLOCK_SIZE] := r.value;
        }
    }

    method InsertStandalone(code: Code) returns (r: Option<Word>)
      requires Valid()
      modifies this`nextFreeOffset, cells
      ensures Valid()
      ensures match Allocate(old(View()), code)
              case At(offset, after) => r == Some(offset) && View() == after
              case _ => r == None && View() == old(View())
    {
      r := AllocateExecutableMemory(code);
    }
  }
}
