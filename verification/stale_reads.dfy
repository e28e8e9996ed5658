/** Why translated code that several threads share must read the block table with acquire: with plain reads a
    thread can enter a block and read something else than its code. */
module StaleReads {
  import opened Words
  import opened Memories
  import Instructions
  import HostMachine
  import Translator
  import opened CodeLayout
  import opened CodeBuffers
  import FirstRun
  import opened SampleBlocks
  import opened Publication

  // ----- texts the translator gives -----

  lemma TextIsTranslation(block: nat, blocks: nat, m: Mem)
    requires block < 2 && ValidMem(m)
    ensures TranslationFor(false, blocks, block, TextOf(block, blocks, m))
  {
    hide Translator.Translate, WordsOf, ValidMem;
    assert Generates(map[], ConfigOf(block, blocks), m, TextOf(block, blocks, m));
  }

  /** Whatever a word of memory holds, some translation of the first block differs from it there. */
  lemma OtherText(blocks: nat, was: Cell) returns (text: Text)
    ensures TranslationFor(false, blocks, 0, text) && |text| == 13 && text[8] != was
  {
    hide TextOf, Instructions.Encode, FirstRun.OneInstruction, Padded, TranslationFor;
    var breakpoint := was == [HostMachine.MovImm(HostMachine.EXIT_REASON, 9)];
    var op := if breakpoint then Instructions.Ebreak else Instructions.Ecall;
    var m := FirstRun.OneInstruction(Instructions.Encode(op, 0, 0, 0, 0));
    CallText(blocks, breakpoint);
    TextIsTranslation(0, blocks, m);
    text := TextOf(0, blocks, m);
  }

  // ----- an insertion, step by step -----

  lemma {:induction false} LeadsMore(s: State, events: seq<Event>, r: State, i: ThreadId, a: Action)
    requires Shaped(s) && Leads(s, events, r) && Shaped(r) && Enabled(r, i, a)
    ensures Shaped(Step(r, i, a)) && Leads(s, events + [Event(i, a)], Step(r, i, a))
    decreases |events|
  {
    hide Enabled, Step, Shaped;
    StepShaped(r, i, a);
    var all := events + [Event(i, a)];
    if events == [] {
      assert all[1..] == [];
    } else {
      var j, b := events[0].thread, events[0].action;
      StepShaped(s, j, b);
      assert all[0] == events[0] && all[1..] == events[1..] + [Event(i, a)];
      LeadsMore(Step(s, j, b), events[1..], r, i, a);
    }
  }

  lemma Looks(s: State, i: ThreadId, block: nat)
    requires Shaped(s) && i < |s.threads| && s.threads[i].Idle? && block < |s.entries| && s.entries[block] == None
    ensures Enabled(s, i, Look(block)) && Step(s, i, Look(block)) == Move(s, i, Missed(block))
  {
    hide Shaped;
  }

  lemma GivesText(s: State, i: ThreadId, block: nat, text: Text)
    requires Shaped(s) && i < |s.threads| && s.threads[i] == Missed(block)
    requires TranslationFor(s.multithreaded, |s.entries|, block, text)
    ensures Enabled(s, i, Generate(text)) && Step(s, i, Generate(text)) == Move(s, i, Wanting(block, text))
  {
    hide Shaped, TranslationFor;
  }

  lemma TakesMutex(s: State, i: ThreadId, block: nat, text: Text)
    requires Shaped(s) && i < |s.threads| && s.threads[i] == Wanting(block, text) && s.holder == None
    ensures Enabled(s, i, Acquire)
    ensures var r := Step(s, i, Acquire);
            |r.views| == |s.views| && r == s.(threads := s.threads[i := Rechecking(block, text)],
                                              views := s.views[i := r.views[i]], holder := Some(i))
  {
    hide Fits, Join, JoinCells;
  }

  lemma TakesRoom(s: State, i: ThreadId, block: nat, text: Text)
    requires Shaped(s) && i < |s.threads| && s.threads[i] == Rechecking(block, text)
    requires block < |s.entries| && s.entries[block] == None && AlignUp(s.nextFree) + 4 * |text| <= s.size
    ensures var at := AlignUp(s.nextFree);
            && Enabled(s, i, Recheck)
            && Step(s, i, Recheck)
               == s.(threads := s.threads[i := Writing(block, text, at, 0)], nextFree := at + 4 * |text|)
  {
    hide Fits, AlignUp;
  }

  /** A thread looks up a block that has no code, and is given some. */
  lemma Arrival(start: State, before: seq<Event>, s: State, i: ThreadId, block: nat, text: Text)
    returns (events: seq<Event>, r: State)
    requires Shaped(start) && Leads(start, before, s) && Shaped(s) && i < |s.threads| && s.threads[i].Idle?
    requires block < |s.entries| && s.entries[block] == None
    requires TranslationFor(s.multithreaded, |s.entries|, block, text)
    ensures Leads(start, events, r) && Shaped(r) && r == Move(s, i, Wanting(block, text))
  {
    hide Leads, Shaped, Step, Enabled, TranslationFor;
    Looks(s, i, block);
    LeadsMore(start, before, s, i, Look(block));
    var s1, e1 := Step(s, i, Look(block)), before + [Event(i, Look(block))];
    GivesText(s1, i, block, text);
    LeadsMore(start, e1, s1, i, Generate(text));
    events, r := e1 + [Event(i, Generate(text))], Step(s1, i, Generate(text));
  }

  /** It takes the mutex, and room for the code. */
  lemma Preparation(start: State, before: seq<Event>, s: State, i: ThreadId, block: nat, text: Text)
    returns (events: seq<Event>, r: State)
    requires Shaped(start) && Leads(start, before, s) && Shaped(s)
    requires i < |s.threads| && s.threads[i] == Wanting(block, text) && s.holder == None
    requires block < |s.entries| && s.entries[block] == None && AlignUp(s.nextFree) + 4 * |text| <= s.size
    ensures Leads(start, events, r) && Shaped(r) && |r.views| == |s.views|
    ensures var at := AlignUp(s.nextFree);
            i < |s.views|
            && r == s.(threads := s.threads[i := Writing(block, text, at, 0)], views := s.views[i := r.views[i]],
                       holder := Some(i), nextFree := at + 4 * |text|)
  {
    assert |s.views| == |s.threads|;
    hide Leads, Shaped, AlignUp, Step, Enabled;
    TakesMutex(s, i, block, text);
    LeadsMore(start, before, s, i, Acquire);
    var s1, e1 := Step(s, i, Acquire), before + [Event(i, Acquire)];
    TakesRoom(s1, i, block, text);
    LeadsMore(start, e1, s1, i, Recheck);
    events, r := e1 + [Event(i, Recheck)], Step(s1, i, Recheck);
  }

  /** Words of memory after some have been stored, from the word first on. */
  ghost predicate Stored(cells: seq<History>, after: seq<History>, first: nat, text: Text, issued: nat) {
    |after| == |cells|
    && forall c :: 0 <= c < |cells| ==>
         after[c] == if first + issued <= c < first + |text| then cells[c] + [text[c - first]] else cells[c]
  }

  /** The thread that has stored them has seen them stored. */
  ghost predicate SeenStored(cells: seq<History>, v: View, first: nat, text: Text, issued: nat) {
    |v.cells| == |cells| && forall c :: first + issued <= c < first + |text| && c < |cells| ==> v.cells[c] == |cells[c]|
  }

  /** As much has been seen of the words below. */
  ghost predicate SameBelow(v: View, w: View, first: nat) {
    |w.cells| == |v.cells| && forall c :: 0 <= c < |v.cells| && c < first ==> w.cells[c] == v.cells[c]
  }

  /** Room for all of the code a thread is writing. */
  predicate Fitting(s: State, i: ThreadId) {
    i < |s.threads| && s.threads[i].Writing?
    && var t := s.threads[i]; t.issued <= |t.text| && t.start % 4 == 0 && t.start + 4 * |t.text| <= s.size
  }

  lemma Stores(s: State, i: ThreadId)
    requires Shaped(s) && Fitting(s, i) && s.threads[i].issued < |s.threads[i].text|
    ensures Enabled(s, i, Store) && Fitting(Step(s, i, Store), i)
    ensures var t, r := s.threads[i], Step(s, i, Store);
            var cell := t.start / 4 + t.issued;
            && i < |s.views| && cell < |s.cells| == |s.views[i].cells| && |r.views| == |s.views|
            && r == s.(threads := s.threads[i := Writing(t.block, t.text, t.start, t.issued + 1)],
                       views := s.views[i := r.views[i]], cells := r.cells)
            && r.cells == s.cells[cell := s.cells[cell] + [t.text[t.issued]]]
            && r.views[i].cells == s.views[i].cells[cell := |s.cells[cell]|]
  {
  }

  /** r is s after what was left of the code has been stored. */
  ghost predicate Wrote(s: State, r: State, i: ThreadId) {
    Fitting(s, i) && i < |s.views| == |r.views|
    && var t := s.threads[i];
       && Stored(s.cells, r.cells, t.start / 4, t.text, t.issued)
       && SeenStored(s.cells, r.views[i], t.start / 4, t.text, t.issued)
       && SameBelow(s.views[i], r.views[i], t.start / 4 + t.issued)
       && r == s.(threads := s.threads[i := Writing(t.block, t.text, t.start, |t.text|)],
                  views := s.views[i := r.views[i]], cells := r.cells)
  }

  lemma WroteMore(s: State, r: State, i: ThreadId)
    requires Shaped(s) && Fitting(s, i) && s.threads[i].issued < |s.threads[i].text| && Enabled(s, i, Store)
    requires Wrote(Step(s, i, Store), r, i)
    ensures Wrote(s, r, i)
  {
    Stores(s, i);
    hide Shaped, Step, Enabled, Stored, SeenStored, SameBelow;
    var t, u := s.threads[i], Step(s, i, Store);
    StoredMore(s.cells, s.views[i], u.cells, u.views[i], r.cells, r.views[i], t.start / 4, t.text, t.issued);
  }

  lemma WroteNothing(s: State, i: ThreadId)
    requires Shaped(s) && Fitting(s, i) && s.threads[i].issued == |s.threads[i].text|
    ensures Wrote(s, s, i)
  {
    assert Fits(s.cells, s.views[i]);
    var t := s.threads[i];
    StoredAll(s.cells, s.views[i], t.start / 4, t.text);
  }

  /** Then it stores what is left of the code. */
  lemma {:induction false} Storing(start: State, before: seq<Event>, s: State, i: ThreadId)
    returns (events: seq<Event>, r: State)
    requires Shaped(start) && Leads(start, before, s) && Shaped(s) && Fitting(s, i)
    ensures Leads(start, events, r) && Shaped(r) && Wrote(s, r, i)
    decreases |s.threads[i].text| - s.threads[i].issued
  {
    hide Leads, Shaped, Step, Enabled, Wrote;
    events, r := before, s;
    if s.threads[i].issued < |s.threads[i].text| {
      Stores(s, i);
      LeadsMore(start, before, s, i, Store);
      events, r := Storing(start, before + [Event(i, Store)], Step(s, i, Store), i);
      WroteMore(s, r, i);
    } else {
      WroteNothing(s, i);
    }
  }

  lemma StoredAll(cells: seq<History>, v: View, first: nat, text: Text)
    requires |v.cells| == |cells|
    ensures Stored(cells, cells, first, text, |text|) && SeenStored(cells, v, first, text, |text|)
    ensures SameBelow(v, v, first + |text|)
  {
  }

  lemma StoredMore(cells: seq<History>, was: View, mid: seq<History>, seen: View, after: seq<History>, v: View,
                   first: nat, text: Text, issued: nat)
    requires issued < |text| && first + issued < |cells| == |was.cells|
    requires mid == cells[first + issued := cells[first + issued] + [text[issued]]]
    requires seen.cells == was.cells[first + issued := |cells[first + issued]|]
             && SameBelow(seen, v, first + issued + 1)
    requires Stored(mid, after, first, text, issued + 1) && SeenStored(mid, v, first, text, issued + 1)
    ensures Stored(cells, after, first, text, issued) && SeenStored(cells, v, first, text, issued)
    ensures SameBelow(was, v, first + issued)
  {
  }

  lemma Publishes(s: State, i: ThreadId)
    requires Shaped(s) && i < |s.threads| && s.threads[i].Writing? && s.threads[i].issued == |s.threads[i].text|
    requires s.threads[i].block < |s.entries| && s.threads[i].start < TWO32
    ensures Enabled(s, i, Action.Publish)
    ensures var t, r := s.threads[i], Step(s, i, Action.Publish);
            && |r.views| == |s.views| && |r.entries| == |s.entries| && i < |s.views|
            && r == s.(threads := s.threads[i := Returning(t.block, t.start)], views := s.views[i := r.views[i]],
                       entries := s.entries[t.block := r.entries[t.block]])
            && r.views[i].cells == s.views[i].cells && r.entries[t.block].Some?
            && r.entries[t.block].value.offset == t.start && r.entries[t.block].value.text == t.text
  {
    hide Fits;
  }

  lemma Releases(s: State, i: ThreadId)
    requires Shaped(s) && i < |s.threads| && s.threads[i].Returning?
    ensures Enabled(s, i, Release)
    ensures var t, r := s.threads[i], Step(s, i, Release);
            r == s.(threads := s.threads[i := Entered(t.block, t.offset)], holder := None, released := r.released)
  {
    hide Fits;
  }

  /** In all, it inserts the code for the block. */
  lemma Insertion(start: State, before: seq<Event>, s: State, i: ThreadId, block: nat, text: Text)
    returns (events: seq<Event>, r: State)
    requires Shaped(start) && Leads(start, before, s) && Shaped(s) && i < |s.threads| && s.threads[i].Idle?
    requires s.holder == None && block < |s.entries| && s.entries[block] == None
    requires TranslationFor(s.multithreaded, |s.entries|, block, text)
    requires AlignUp(s.nextFree) + 4 * |text| <= s.size < TWO32
    ensures Leads(start, events, r) && Shaped(r)
    ensures var at := AlignUp(s.nextFree);
            && at % 4 == 0 && |r.views| == |s.views| && i < |s.views| && |r.entries| == |s.entries|
            && Stored(s.cells, r.cells, at / 4, text, 0) && SeenStored(s.cells, r.views[i], at / 4, text, 0)
            && r == s.(threads := s.threads[i := Entered(block, at)], views := s.views[i := r.views[i]],
                       released := r.released, nextFree := at + 4 * |text|, cells := r.cells,
                       entries := s.entries[block := r.entries[block]])
            && r.entries[block].Some? && r.entries[block].value.offset == at && r.entries[block].value.text == text
  {
    hide Leads, Shaped, AlignUp, TranslationFor, Stored, Step, Enabled;
    AlignUpIs(s.nextFree);
    events, r := Arrival(start, before, s, i, block, text);
    events, r := Preparation(start, events, r, i, block, text);
    events, r := Storing(start, events, r, i);
    Publishes(r, i);
    LeadsMore(start, events, r, i, Action.Publish);
    events, r := events + [Event(i, Action.Publish)], Step(r, i, Action.Publish);
    Releases(r, i);
    LeadsMore(start, events, r, i, Release);
    events, r := events + [Event(i, Release)], Step(r, i, Release);
  }

  lemma LeadsNowhere(s: State)
    requires Shaped(s)
    ensures Leads(s, [], s)
  {
  }

  /** Of a word that has had one value only, every thread reads that. */
  lemma SeesFirst(s: State, i: ThreadId, cell: nat)
    requires Shaped(s) && i < |s.threads| && cell < |s.cells| && |s.cells[cell]| == 1
    ensures i < |s.views| && |s.views[i].cells| == |s.cells| && s.views[i].cells[cell] == 0
  {
  }

  /** The code of a block lies where the thread that inserted it has stored it. */
  lemma MeetsOwn(cells: seq<History>, r: State, i: ThreadId, block: nat, text: Text, at: Word, word: nat,
                 load: HostMachine.HInstr)
    requires i < |r.threads| == |r.views| && r.threads[i] == Entered(block, at)
    requires block < |r.entries| && r.entries[block].Some? && r.entries[block].value.text == text
    requires |r.cells| == |cells| && at % 4 == 0 && at / 4 + |text| <= |cells|
    requires SeenStored(cells, r.views[i], at / 4, text, 0)
    requires forall c :: at / 4 <= c < at / 4 + |text| && c < |cells| ==> r.cells[c] == cells[c] + [text[c - at / 4]]
    requires word < |text| && load in text[word]
    ensures Meets(r, i, word, load)
  {
    var c := at / 4 + word;
    assert r.cells[c] == cells[c] + [text[c - at / 4]] && r.views[i].cells[c] == |cells[c]|;
  }

  lemma SeesEntry(s: State, i: ThreadId, block: nat)
    requires Shaped(s) && i < |s.threads| && block < |s.entries| && s.entries[block].Some?
    ensures Enabled(s, i, SeeEntry(block))
    ensures var r := Step(s, i, SeeEntry(block));
            && i < |s.views| == |r.views| && r == s.(views := s.views[i := r.views[i]])
            && r.views[i].cells == s.views[i].cells && block in r.views[i].entries
  {
    hide Fits;
  }

  lemma BranchesPlainly(s: State, i: ThreadId, block: nat, word: nat, load: HostMachine.HInstr)
    requires Shaped(s) && i < |s.threads| == |s.views| && s.threads[i].Entered? && block < |s.entries|
    requires s.entries[block].Some? && block in s.views[i].entries && load.LdrBlock? && Meets(s, i, word, load)
    ensures Enabled(s, i, Branch(block, word, load))
    ensures Step(s, i, Branch(block, word, load)) == Move(s, i, Entered(block, s.entries[block].value.offset))
  {
    hide Fits, Meets;
  }

  /** Two threads: the second has inserted a block of its own that reads the table, the first one whose code
      is not what memory held before in the ninth of its words. */
  lemma TwoBlocks(threads: nat, size: nat, cells: Text, blocks: nat)
    returns (events: seq<Event>, s: State, at: nat, word: nat)
    requires 4096 <= size < TWO32 && |cells| == size / 4 && threads >= 2 && blocks >= 2
    ensures var start := Start(threads, size, cells, blocks, false);
            Shaped(start) && Leads(start, events, s) && Shaped(s)
    ensures 1 < |s.threads| == |s.views| && s.threads[1].Entered? && |s.entries| == blocks
    ensures Meets(s, 1, word, HostMachine.LdrBlock(HostMachine.A_REG, HostMachine.BLOCK_BASE, HostMachine.A_REG))
    ensures s.entries[0].Some? && s.entries[0].value.offset == at && |s.entries[0].value.text| == 13
    ensures !ReadsAt(s, 1, at / 4 + 8, s.entries[0].value.text[8])
  {
    hide Leads, Fits, Shaped, TranslationFor, TextOf, Padded, Meets, Stored, SeenStored, SecondInstruction, JumpWord,
      AlignUp;
    var start := Start(threads, size, cells, blocks, false);
    StartShaped(threads, size, cells, blocks, false);
    assert Leads(start, [], start) by { LeadsNowhere(start); }
    var m := SecondInstruction(JumpWord());
    word := JumpText(blocks);
    var own := TextOf(1, blocks, m);
    TextIsTranslation(1, blocks, m);
    assert m.size == 16 by { SixteenBytes(JumpWord()); }
    TextFits(1, blocks, m);
    assert AlignUp(16) == 16 by { FirstOffset(); }
    var u: State;
    events, u := Insertion(start, [], start, 1, 1, own);
    at := AlignUp(u.nextFree);
    AlignUpIs(u.nextFree);
    var cell := at / 4 + 8;
    StoredElsewhere(start.cells, u.cells, 4, own, cell);
    SeesFirst(u, 1, cell);
    var text := OtherText(blocks, cells[cell]);
    events, s := Insertion(start, events, u, 0, 0, text);
    StoredThere(u.cells, s.cells, at / 4, text, cell);
    LaterStored(start.cells, u.cells, s.cells, 4, own, at / 4, text);
    MeetsOwn(start.cells, s, 1, 1, own, 16, word,
             HostMachine.LdrBlock(HostMachine.A_REG, HostMachine.BLOCK_BASE, HostMachine.A_REG));
  }

  /** With plain loads and a second thread: it branches, from code it has inserted itself, to a block it has
      seen the entry of, and what it reads there is not what was published. */
  lemma PlainLoadsFail(threads: nat, size: nat, cells: Text, blocks: nat) returns (events: seq<Event>, s: State)
    requires 4096 <= size < TWO32 && |cells| == size / 4 && threads >= 2 && blocks >= 2
    ensures var start := Start(threads, size, cells, blocks, false);
            Shaped(start) && Leads(start, events, s) && Shaped(s)
    ensures 1 < |s.threads| == |s.views| && s.threads[1].Entered? && s.threads[1].block < |s.entries|
    ensures var e := s.entries[s.threads[1].block]; e.Some? && !ReadsText(s, 1, s.threads[1].offset, e.value.text)
  {
    hide Leads, Shaped, Step, Enabled, Start, ReadsAt, Meets;
    var start := Start(threads, size, cells, blocks, false);
    var load := HostMachine.LdrBlock(HostMachine.A_REG, HostMachine.BLOCK_BASE, HostMachine.A_REG);
    var u, at, word;
    events, u, at, word := TwoBlocks(threads, size, cells, blocks);
    SeesEntry(u, 1, 0);
    LeadsMore(start, events, u, 1, SeeEntry(0));
    var v := Step(u, 1, SeeEntry(0));
    events := events + [Event(1, SeeEntry(0))];
    SameMeeting(u, v, word, load);
    BranchesPlainly(v, 1, 0, word, load);
    LeadsMore(start, events, v, 1, Branch(0, word, load));
    events, s := events + [Event(1, Branch(0, word, load))], Step(v, 1, Branch(0, word, load));
    StaleStill(u, s, at, u.entries[0].value.text);
  }

  /** Seeing an entry does not change what is read elsewhere. */
  lemma SameMeeting(s: State, r: State, word: nat, load: HostMachine.HInstr)
    requires 1 < |s.threads| == |s.views| == |r.views| && s.threads[1].Entered? && Meets(s, 1, word, load)
    requires r == s.(views := s.views[1 := r.views[1]]) && r.views[1].cells == s.views[1].cells
    ensures Meets(r, 1, word, load)
  {
  }

  lemma StaleStill(u: State, s: State, at: nat, text: Text)
    requires 1 < |u.views| == |s.views| && s.cells == u.cells && s.views[1].cells == u.views[1].cells
    requires |text| == 13 && !ReadsAt(u, 1, at / 4 + 8, text[8])
    ensures !ReadsText(s, 1, at, text)
  {
    assert !ReadsAt(s, 1, at / 4 + 8, text[8]);
  }

  lemma SixteenBytes(w: Instructions.Word32)
    ensures SecondInstruction(w).size == 16
  {
  }

  lemma FirstOffset()
    ensures AlignUp(16) == 16
  {
  }

  lemma StoredElsewhere(cells: seq<History>, after: seq<History>, first: nat, text: Text, c: nat)
    requires Stored(cells, after, first, text, 0) && c < |cells| && c >= first + |text|
    ensures c < |after| && after[c] == cells[c]
  {
  }

  lemma StoredThere(cells: seq<History>, after: seq<History>, first: nat, text: Text, c: nat)
    requires Stored(cells, after, first, text, 0) && first <= c < first + |text| && c < |cells|
    ensures c < |after| && after[c] == cells[c] + [text[c - first]]
  {
  }

  /** What was stored stays when something else is stored behind it. */
  lemma LaterStored(cells: seq<History>, after: seq<History>, later: seq<History>, first: nat, text: Text, next: nat,
                    more: Text)
    requires Stored(cells, after, first, text, 0) && Stored(after, later, next, more, 0) && first + |text| <= next
    ensures |later| == |cells| && forall c :: first <= c < first + |text| && c < |cells| ==>
              later[c] == cells[c] + [text[c - first]]
  {
  }

  /** Whatever happens, a thread that has an address reads the code its entry was published with. */
  ghost predicate Guaranteed(threads: nat, size: nat, cells: Text, blocks: nat, multithreaded: bool)
    requires size < TWO32 && |cells| == size / 4
  {
    var start := Start(threads, size, cells, blocks, multithreaded);
    Shaped(start) && forall events: seq<Event>, s: State, i: ThreadId ::
      Leads(start, events, s) && Shaped(s) && i < |s.threads| && s.threads[i].Entered? ==>
        s.threads[i].block < |s.entries|
        && var e := s.entries[s.threads[i].block]; e.Some? && ReadsText(s, i, s.threads[i].offset, e.value.text)
  }

  /** That holds exactly if there is one thread at most or the buffer is multithreaded, so that translated
      code loads entries with acquire. */
  lemma AcquireIsNeeded(threads: nat, size: nat, cells: Text, blocks: nat, multithreaded: bool)
    requires 4096 <= size < TWO32 && |cells| == size / 4 && blocks >= 2
    ensures Guaranteed(threads, size, cells, blocks, multithreaded) <==> multithreaded || threads <= 1
  {
    hide Leads, ReadsText, Fits;
    var start := Start(threads, size, cells, blocks, multithreaded);
    StartShaped(threads, size, cells, blocks, multithreaded);
    if multithreaded || threads <= 1 {
      forall events: seq<Event>, s: State, i: ThreadId |
        Leads(start, events, s) && Shaped(s) && i < |s.threads| && s.threads[i].Entered?
        ensures s.threads[i].block < |s.entries|
        ensures var e := s.entries[s.threads[i].block]; e.Some? && ReadsText(s, i, s.threads[i].offset, e.value.text)
      {
        LeadsKeeps(start, events, s);
        EnteredReads(s, i);
      }
    } else {
      var events, s := PlainLoadsFail(threads, size, cells, blocks);
      assert Leads(start, events, s) && s.threads[1].Entered?;
    }
  }
}
