/** Threads that share one code buffer: lookups and branches through the table without a lock, insertions of
    blocks and of standalone code under one. What a thread has stored, others see late and in any order,
    unless a release and an acquire order it. */
module Publication {
  import opened Words
  import opened Memories
  import opened HostMachine
  import opened Translator
  import opened CodeLayout
  import opened CodeBuffers
  import opened TableReads

  type ThreadId = nat

  /** Code in words. */
  type Text = seq<Cell>

  /** The values a word of memory has had, oldest first. */
  type History = h: seq<Cell> | h != [] witness [[]]

  /** How far a thread has seen the history of each word, and which entries it has seen set. */
  datatype View = View(cells: seq<nat>, entries: set<nat>)

  /** A release store of an entry: an acquire load that reads it takes the writer's view over. */
  datatype Published = Published(offset: Word, text: Text, view: View)

  /** A region that insert_standalone has returned, and to whom. */
  datatype Placed = Placed(who: ThreadId, offset: Word, text: Text)

  /** Where a thread is between get and the end of insert, or in insert_standalone. */
  datatype Thread =
    | Idle
    | Missed(block: nat)                                    // get found no code
    | Wanting(block: nat, text: Text)                       // translated, about to take the mutex
    | Rechecking(block: nat, text: Text)                    // mutex taken
    | Writing(block: nat, text: Text, start: nat, issued: nat)
    | Returning(block: nat, offset: Word)                   // mutex still held
    | Entered(block: nat, offset: Word)                     // has an address to run
    | Asking(text: Text)                                    // has standalone code, about to take the mutex
    | Allocating(text: Text)                                // mutex taken
    | Filling(text: Text, start: nat, issued: nat)          // writing it
    | Failed                                                // a verify failed

  /** released is the view of the thread that last gave the mutex back; whoever takes it next takes that
      over. multithreaded is the flag of the code buffer, which the translator reads. */
  datatype State = State(threads: seq<Thread>, views: seq<View>, holder: Option<ThreadId>, released: View,
                         nextFree: nat, size: nat, multithreaded: bool, cells: seq<History>,
                         entries: seq<Option<Published>>, placed: seq<Placed>)

  datatype Action =
    | Look(block: nat)       // get
    | Generate(text: Text)
    | Ask(text: Text)
    | Acquire
    | Recheck
    | Reserve
    | Store
    | Publish
    | Release
    | Leave
    | Branch(block: nat, word: nat, load: HInstr)   // translated code goes on through the table
    | SeeCell(cell: nat)     // a store of some thread reaches this one
    | SeeEntry(block: nat)

  /** The latest value. */
  function Last(h: History): Cell { h[|h| - 1] }

  predicate Fits(cells: seq<History>, v: View) {
    |v.cells| == |cells| && forall c :: 0 <= c < |cells| ==> v.cells[c] < |cells[c]|
  }

  ghost predicate Shaped(s: State) {
    && |s.views| == |s.threads| && s.size < TWO32 && |s.cells| == s.size / 4 && Fits(s.cells, s.released)
    && (forall i :: 0 <= i < |s.views| ==> Fits(s.cells, s.views[i]))
    && (forall block :: 0 <= block < |s.entries| && s.entries[block].Some? ==>
       Fits(s.cells, s.entries[block].value.view))
  }

  predicate Writes(t: Thread) { t.Writing? || t.Filling? }

  function JoinCells(a: seq<nat>, b: seq<nat>): (r: seq<nat>)
    requires |a| == |b|
    ensures |r| == |a| && forall c :: 0 <= c < |a| ==> r[c] == if a[c] <= b[c] then b[c] else a[c]
  {
    if a == [] then [] else [if a[0] <= b[0] then b[0] else a[0]] + JoinCells(a[1..], b[1..])
  }

  function Join(a: View, b: View): View
    requires |a.cells| == |b.cells|
  {
    View(JoinCells(a.cells, b.cells), a.entries + b.entries)
  }

  /** What a load of an entry gives a thread. */
  function Entry(s: State, i: ThreadId, block: nat): Option<Published>
    requires i < |s.views| && block < |s.entries|
  {
    if block in s.views[i].entries then s.entries[block] else None
  }

  function Move(s: State, i: ThreadId, t: Thread): State
    requires i < |s.threads|
  {
    s.(threads := s.threads[i := t])
  }

  function See(s: State, i: ThreadId, v: View): State
    requires i < |s.views|
  {
    s.(views := s.views[i := v])
  }

  ghost predicate Generates(w: Widths, cfg: Config, m: Mem, text: Text) {
    ValidMem(m) && text == WordsOf(w, Translate(cfg, m))
  }

  /** The text is what the translator gives for the block, of whatever memory, in a buffer with this flag. */
  ghost predicate TranslationFor(multithreaded: bool, blocks: nat, block: nat, text: Text) {
    exists w: Widths, cfg: Config, m: Mem ::
      Generates(w, cfg, m, text) && cfg.basePc == 4 * block && cfg.maxBlocks == blocks
        && cfg.multithreaded == multithreaded
  }

  /** Among what the thread reads in a word of the code it is in is this instruction. */
  predicate Meets(s: State, i: ThreadId, word: nat, load: HInstr)
    requires i < |s.threads| == |s.views| && s.threads[i].Entered?
  {
    var t := s.threads[i];
    var cell := t.offset / 4 + word;
    && t.block < |s.entries| && s.entries[t.block].Some? && word < |s.entries[t.block].value.text|
    && cell < |s.cells| == |s.views[i].cells| && s.views[i].cells[cell] < |s.cells[cell]|
    && load in s.cells[cell][s.views[i].cells[cell]]
  }

  ghost predicate Enabled(s: State, i: ThreadId, a: Action)
    requires Shaped(s)
  {
    i < |s.threads|
    && var t := s.threads[i];
       match a
       case Look(block) => t.Idle? && block < |s.entries|
       case Generate(text) => t.Missed? && TranslationFor(s.multithreaded, |s.entries|, t.block, text)
       case Ask(text) => t.Idle?
       case Acquire => (t.Wanting? || t.Asking?) && s.holder == None
       case Recheck => t.Rechecking? && t.block < |s.entries|
       case Reserve => t.Allocating?
       case Store => Writes(t) && t.issued < |t.text| && t.start / 4 + t.issued < |s.cells|
       case Publish => t.Writing? && t.issued == |t.text| && t.block < |s.entries| && t.start < TWO32
       case Release => t.Returning? || (t.Filling? && t.issued == |t.text| && t.start < TWO32)
       case Leave => t.Entered?
       case Branch(block, word, load) => t.Entered? && block < |s.entries| && ReadsTable(load)
         && Meets(s, i, word, load)
       case SeeCell(cell) => cell < |s.cells| && s.views[i].cells[cell] + 1 < |s.cells[cell]|
       case SeeEntry(block) => block < |s.entries| && s.entries[block].Some?
  }

  /** Taking room for code. */
  function Take(s: State, i: ThreadId, text: Text): State
    requires i < |s.threads| && (s.threads[i].Rechecking? || s.threads[i].Allocating?)
  {
    var start, t := AlignUp(s.nextFree), s.threads[i];
    var end := start + 4 * |text|;
    if end > s.size then Move(s, i, Failed)
    else Move(s, i, if t.Rechecking? then Writing(t.block, text, start, 0)
      else Filling(text, start, 0)).(nextFree := end)
  }

  /** A relaxed store: the storing thread has seen it at once. */
  function Put(s: State, i: ThreadId, cell: nat, value: Cell): State
    requires i < |s.views| && cell < |s.cells| == |s.views[i].cells|
  {
    See(s, i, s.views[i].(cells := s.views[i].cells[cell := |s.cells[cell]|]))
      .(cells := s.cells[cell := s.cells[cell] + [value]])
  }

  /** Entering the code an entry leads to; an acquire load has taken over the view it was published with. */
  function Enter(s: State, i: ThreadId, t: Thread, p: Published, acquire: bool): State
    requires i < |s.threads| == |s.views| && |s.views[i].cells| == |p.view.cells|
  {
    if acquire then See(Move(s, i, t), i, Join(s.views[i], p.view)) else Move(s, i, t)
  }

  /** One step of one thread. get loads the entry with acquire; translated code does if the instruction it has
      come to does. A block without code leads back to get. */
  ghost function Step(s: State, i: ThreadId, a: Action): State
    requires Shaped(s) && Enabled(s, i, a)
  {
    var t := s.threads[i];
    match a
    case Look(block) =>
      var e := Entry(s, i, block);
      if e.Some? then Enter(s, i, Entered(block, e.value.offset), e.value, true) else Move(s, i, Missed(block))
    case Generate(text) => Move(s, i, Wanting(t.block, text))
    case Ask(text) => Move(s, i, Asking(text))
    case Acquire =>
      See(Move(s, i, if t.Asking? then Allocating(t.text) else Rechecking(t.block, t.text)), i,
        Join(s.views[i], s.released))
        .(holder := Some(i))
    case Recheck =>
      var e := Entry(s, i, t.block);
      if e.Some? then Enter(s, i, Returning(t.block, e.value.offset), e.value, true) else Take(s, i, t.text)
    case Reserve => Take(s, i, t.text)
    case Store => Move(Put(s, i, t.start / 4 + t.issued, t.text[t.issued]), i, t.(issued := t.issued + 1))
    case Publish =>
      var v := s.views[i].(entries := s.views[i].entries + {t.block});
      See(Move(s, i, Returning(t.block, t.start)), i, v)
        .(entries := s.entries[t.block := Some(Published(t.start, t.text, v))])
    case Release =>
      if t.Returning? then Move(s, i, Entered(t.block, t.offset)).(holder := None, released := s.views[i])
      else Move(s, i, Idle)
             .(holder := None, released := s.views[i], placed := s.placed + [Placed(i, t.start, t.text)])
    case Leave => Move(s, i, Idle)
    case Branch(block, _, load) =>
      var e := Entry(s, i, block);
      if e.Some? then Enter(s, i, Entered(block, e.value.offset), e.value, load.LdarBlock?) else Move(s, i, Idle)
    case SeeCell(cell) =>
      See(s, i, s.views[i].(cells := s.views[i].cells[cell := s.views[i].cells[cell] + 1]))
    case SeeEntry(block) =>
      See(s, i, s.views[i].(entries := s.views[i].entries + {block}))
  }

  lemma JoinFits(cells: seq<History>, a: View, b: View)
    requires Fits(cells, a) && Fits(cells, b)
    ensures Fits(cells, Join(a, b)) && Covers(Join(a, b), a) && Covers(Join(a, b), b)
  {
  }

  /** w has seen all that v has. */
  ghost predicate Covers(w: View, v: View) {
    |w.cells| == |v.cells| && (forall c :: 0 <= c < |v.cells| ==> v.cells[c] <= w.cells[c]) && v.entries <= w.entries
  }

  lemma PutShaped(s: State, i: ThreadId, cell: nat, value: Cell)
    requires Shaped(s) && i < |s.threads| && cell < |s.cells|
    ensures Shaped(Put(s, i, cell, value))
    ensures Covers(Put(s, i, cell, value).views[i], s.views[i])
    ensures Put(s, i, cell, value) == s.(views := Put(s, i, cell, value).views, cells := Put(s, i, cell, value).cells)
  {
    var r := Put(s, i, cell, value);
    forall v: View | Fits(s.cells, v)
      ensures Fits(r.cells, v)
    {
    }
    assert Fits(r.cells, r.views[i]);
  }

  lemma StepShaped(s: State, i: ThreadId, a: Action)
    requires Shaped(s) && Enabled(s, i, a)
    ensures Shaped(Step(s, i, a))
  {
    hide TextOrdered, TranslationFor, Meets, Join, Put, Fits, Covers;
    var t := s.threads[i];
    match a
    case Look(block) => EnterShaped(s, i, Entry(s, i, block));
    case Branch(block, _, _) => EnterShaped(s, i, Entry(s, i, block));
    case Recheck => EnterShaped(s, i, Entry(s, i, t.block));
    case Acquire => JoinFits(s.cells, s.views[i], s.released);
    case Store => PutShaped(s, i, t.start / 4 + t.issued, t.text[t.issued]);
    case Publish => SeesEntryFits(s.cells, s.views[i], t.block);
    case SeeCell(cell) => SeesCellFits(s.cells, s.views[i], cell);
    case SeeEntry(block) => SeesEntryFits(s.cells, s.views[i], block);
    case _ =>
  }

  lemma EnterShaped(s: State, i: ThreadId, e: Option<Published>)
    requires Shaped(s) && i < |s.threads| && (e.Some? ==> Fits(s.cells, e.value.view))
    ensures e.Some? ==> Fits(s.cells, Join(s.views[i], e.value.view))
  {
    hide TextOrdered, TranslationFor, Meets, Join;
    if e.Some? {
      JoinFits(s.cells, s.views[i], e.value.view);
    }
  }

  lemma SeesEntryFits(cells: seq<History>, v: View, block: nat)
    requires Fits(cells, v)
    ensures var w := v.(entries := v.entries + {block}); Fits(cells, w) && Covers(w, v)
  {
  }

  lemma SeesCellFits(cells: seq<History>, v: View, cell: nat)
    requires Fits(cells, v) && cell < |cells| && v.cells[cell] + 1 < |cells[cell]|
    ensures var w := v.(cells := v.cells[cell := v.cells[cell] + 1]); Fits(cells, w) && Covers(w, v)
  {
  }

  // ----- the invariant -----

  predicate InSection(t: Thread) {
    t.Rechecking? || t.Writing? || t.Returning? || t.Allocating? || t.Filling?
  }

  /** Everything stored so far has been seen. */
  ghost predicate Latest(s: State, v: View) {
    && Fits(s.cells, v) && (forall c :: 0 <= c < |s.cells| ==> v.cells[c] == |s.cells[c]| - 1)
    && (forall block :: 0 <= block < |s.entries| && s.entries[block].Some? ==> block in v.entries)
  }

  predicate SeenAt(cells: seq<History>, v: View, cell: nat, value: Cell) {
    cell < |cells| == |v.cells| && v.cells[cell] == |cells[cell]| - 1 && Last(cells[cell]) == value
  }

  /** With this view code is seen where it lies, and nothing will change it. */
  ghost predicate Finds(cells: seq<History>, v: View, offset: nat, text: Text) {
    forall k :: 0 <= k < |text| ==> SeenAt(cells, v, offset / 4 + k, text[k])
  }

  /** Below the limit. */
  predicate Within(offset: nat, text: Text, limit: nat) {
    offset % CODE_ALIGNMENT == 0 && CODE_ALIGNMENT <= offset && offset + 4 * |text| <= limit
  }

  /** The first byte that code in use may not reach. */
  function Limit(s: State): nat {
    if s.holder.Some? && s.holder.value < |s.threads| && Writes(s.threads[s.holder.value]) then
      s.threads[s.holder.value].start
    else s.nextFree
  }

  ghost predicate EntryOk(s: State, block: nat, limit: nat)
    requires block < |s.entries|
  {
    s.entries[block].Some? ==>
      var p := s.entries[block].value;
      && Within(p.offset, p.text, limit) && p.offset + 4 * |p.text| <= s.size
      && Finds(s.cells, p.view, p.offset, p.text) && TextOrdered(s.multithreaded, p.text)
  }

  ghost predicate PlacedOk(s: State, k: nat, limit: nat)
    requires k < |s.placed|
  {
    var p := s.placed[k];
    && p.who < |s.views| && Within(p.offset, p.text, limit) && p.offset + 4 * |p.text| <= s.size
    && Finds(s.cells, s.views[p.who], p.offset, p.text)
  }

  /** What a thread in the middle of writing has ensured so far. */
  ghost predicate WritingOk(s: State, i: ThreadId)
    requires i < |s.threads| == |s.views| && Writes(s.threads[i])
  {
    var t := s.threads[i];
    && Within(t.start, t.text, s.nextFree) && t.start + 4 * |t.text| == s.nextFree <= s.size && t.issued <= |t.text|
    && (t.Writing? ==> t.block < |s.entries| && s.entries[t.block] == None)
    && Finds(s.cells, s.views[i], t.start, t.text[..t.issued])
  }

  /** A thread that has an address sees the code there. */
  ghost predicate EnteredOk(s: State, i: ThreadId)
    requires i < |s.threads| == |s.views|
  {
    var t := s.threads[i];
    t.Entered? || t.Returning? ==>
      && t.block < |s.entries| && s.entries[t.block].Some? && s.entries[t.block].value.offset == t.offset
      && Finds(s.cells, s.views[i], t.offset, s.entries[t.block].value.text)
  }

  ghost predicate ThreadOk(s: State, i: ThreadId)
    requires i < |s.threads| == |s.views|
  {
    var t := s.threads[i];
    && (InSection(t) ==> s.holder == Some(i))
    && (t.Missed? || t.Wanting? || t.Rechecking? ==> t.block < |s.entries|)
    && (t.Wanting? || t.Rechecking? || t.Writing? ==> TextOrdered(s.multithreaded, t.text))
    && EnteredOk(s, i) && (Writes(t) ==> WritingOk(s, i))
  }

  /** What the thread that has the mutex sees, or whoever takes it will see. */
  function GuardedView(s: State): View
    requires s.holder.Some? ==> s.holder.value < |s.views|
  {
    if s.holder.Some? then s.views[s.holder.value] else s.released
  }

  ghost predicate Inv(s: State) {
    && Shaped(s) && CODE_ALIGNMENT <= s.nextFree && s.nextFree % 4 == 0
    && (s.holder.Some? ==> s.holder.value < |s.threads|) && Latest(s, GuardedView(s))
    && (s.multithreaded || |s.threads| <= 1) && (|s.threads| == 1 ==> Latest(s, s.views[0]))
    && (forall block :: 0 <= block < |s.entries| ==> EntryOk(s, block, Limit(s)))
    && (forall k :: 0 <= k < |s.placed| ==> PlacedOk(s, k, Limit(s)))
    && (forall i :: 0 <= i < |s.threads| ==> ThreadOk(s, i))
  }

  // ----- what one has seen stays seen -----

  lemma FindsLater(cells: seq<History>, v: View, w: View, offset: nat, text: Text)
    requires Finds(cells, v, offset, text) && Covers(w, v) && Fits(cells, w)
    ensures Finds(cells, w, offset, text)
  {
    forall k | 0 <= k < |text|
      ensures SeenAt(cells, w, offset / 4 + k, text[k])
    {
      assert SeenAt(cells, v, offset / 4 + k, text[k]);
    }
  }

  /** Words change, but none that code in use may reach. */
  lemma FindsBelow(cells: seq<History>, after: seq<History>, v: View, offset: nat, text: Text, limit: nat)
    requires Finds(cells, v, offset, text) && Within(offset, text, limit) && |after| == |cells|
    requires forall c :: 0 <= c < |cells| && c < limit / 4 ==> after[c] == cells[c]
    ensures Finds(after, v, offset, text)
  {
    forall k | 0 <= k < |text|
      ensures SeenAt(after, v, offset / 4 + k, text[k])
    {
      assert SeenAt(cells, v, offset / 4 + k, text[k]);
      assert offset / 4 + k < limit / 4;
    }
  }

  lemma LatestLater(s: State, v: View, w: View)
    requires Latest(s, v) && Covers(w, v) && Fits(s.cells, w)
    ensures Latest(s, w)
  {
  }

  /** A set entry stays, and so does every word below the limit; nobody forgets what they have seen. */
  ghost predicate Later(s: State, r: State) {
    && Limit(s) <= Limit(r) && |r.entries| == |s.entries| && s.placed <= r.placed && |r.views| == |s.views|
    && |r.cells| == |s.cells| && (forall c :: 0 <= c < |s.cells| && c < Limit(s) / 4 ==> r.cells[c] == s.cells[c])
    && (forall block :: 0 <= block < |s.entries| && s.entries[block].Some? ==> r.entries[block] == s.entries[block])
    && (forall i :: 0 <= i < |s.views| ==> Covers(r.views[i], s.views[i]))
  }

  lemma ViewsLater(s: State, r: State, i: ThreadId)
    requires i < |s.views| && |r.views| == |s.views| && r.views == s.views[i := r.views[i]]
    requires Covers(r.views[i], s.views[i])
    ensures forall j :: 0 <= j < |s.views| ==> Covers(r.views[j], s.views[j])
  {
  }

  // ----- steps that store nothing -----

  /** A step that changes where one thread is, what it has seen, and who has the mutex. */
  ghost predicate Local(s: State, r: State, i: ThreadId) {
    && i < |s.threads| == |r.threads| && |s.views| == |s.threads| == |r.views|
    && r == s.(threads := s.threads[i := r.threads[i]], views := s.views[i := r.views[i]], holder := r.holder,
               released := r.released)
    && Fits(s.cells, r.views[i]) && Fits(s.cells, r.released) && Covers(r.views[i], s.views[i])
  }

  lemma LocalKeeps(s: State, r: State, i: ThreadId)
    requires Inv(s) && Local(s, r, i) && ThreadOk(r, i) && Limit(r) == Limit(s)
    requires r.holder == s.holder || s.holder == None || s.holder == Some(i)
    requires r.holder.Some? ==> r.holder.value < |r.threads|
    requires Latest(s, GuardedView(r))
    ensures Inv(r) && Later(s, r)
  {
    hide TextOrdered, TranslationFor, Meets, Limit, ThreadOk, PlacedOk, Covers, Fits, Latest, GuardedView;
    ViewsLater(s, r, i);
    SameLatest(s, r);
    if |s.threads| == 1 {
      LatestLater(s, s.views[0], r.views[0]);
    }
    forall j | 0 <= j < |r.threads|
      ensures ThreadOk(r, j)
    {
      if j != i {
        assert ThreadOk(s, j);
        OtherThread(s, r, i, j);
      }
    }
    forall block | 0 <= block < |r.entries|
      ensures EntryOk(r, block, Limit(r))
    {
      assert EntryOk(s, block, Limit(s));
    }
    forall k | 0 <= k < |r.placed|
      ensures PlacedOk(r, k, Limit(r))
    {
      assert PlacedOk(s, k, Limit(s));
      PlacedLater(s, r, i, k);
    }
  }

  lemma SameLatest(s: State, r: State)
    requires r.cells == s.cells && r.entries == s.entries
    ensures forall v :: Latest(s, v) == Latest(r, v)
  {
  }

  lemma PlacedLater(s: State, r: State, i: ThreadId, k: nat)
    requires Local(s, r, i) && k < |s.placed| && PlacedOk(s, k, Limit(s)) && Limit(r) == Limit(s)
    ensures PlacedOk(r, k, Limit(r))
  {
    hide TextOrdered, TranslationFor, Meets, Limit, Finds, Within;
    var p := s.placed[k];
    if p.who == i {
      FindsLater(s.cells, s.views[i], r.views[i], p.offset, p.text);
    }
  }

  lemma OtherThread(s: State, r: State, i: ThreadId, j: ThreadId)
    requires Local(s, r, i) && j < |s.threads| && i != j && ThreadOk(s, j)
    requires r.holder == s.holder || s.holder == None || s.holder == Some(i)
    ensures ThreadOk(r, j)
  {
    hide TextOrdered, TranslationFor, Meets, Finds, Within, Covers, Fits;
  }

  /** An acquire load that reads an entry: the thread finds the code there. */
  lemma EnterFinds(s: State, i: ThreadId, block: nat)
    requires Inv(s) && i < |s.threads| && block < |s.entries| && s.entries[block].Some?
    ensures var p := s.entries[block].value;
            && Fits(s.cells, Join(s.views[i], p.view)) && Covers(Join(s.views[i], p.view), s.views[i])
            && Finds(s.cells, Join(s.views[i], p.view), p.offset, p.text)
  {
    hide TextOrdered, TranslationFor, Meets, Finds, Join, Fits, Covers, Latest, PlacedOk, ThreadOk, Limit;
    var p := s.entries[block].value;
    assert EntryOk(s, block, Limit(s));
    JoinFits(s.cells, s.views[i], p.view);
    FindsLater(s.cells, p.view, Join(s.views[i], p.view), p.offset, p.text);
  }

  /** With a plain load it does so if it is the only thread: it has seen everything. */
  lemma AloneFinds(s: State, i: ThreadId, block: nat)
    requires Inv(s) && i < |s.threads| == 1 && block < |s.entries| && s.entries[block].Some?
    ensures var p := s.entries[block].value; Finds(s.cells, s.views[i], p.offset, p.text)
  {
    hide TextOrdered, TranslationFor, Meets, Finds, Fits, PlacedOk, ThreadOk, Limit;
    var p := s.entries[block].value;
    assert EntryOk(s, block, Limit(s));
    LatestFinds(s, s.views[0], p.view, p.offset, p.text);
  }

  lemma LatestFinds(s: State, w: View, v: View, offset: nat, text: Text)
    requires Latest(s, w) && Finds(s.cells, v, offset, text)
    ensures Finds(s.cells, w, offset, text)
  {
    forall k | 0 <= k < |text|
      ensures SeenAt(s.cells, w, offset / 4 + k, text[k])
    {
      assert SeenAt(s.cells, v, offset / 4 + k, text[k]);
    }
  }

  lemma EnterKeeps(s: State, i: ThreadId, e: Option<Published>, block: nat, acquire: bool, t: Thread)
    requires Inv(s) && i < |s.threads| && block < |s.entries| && e == s.entries[block] && e.Some?
    requires acquire || |s.threads| == 1
    requires t == Entered(block, e.value.offset) || t == Returning(block, e.value.offset)
    requires (t.Returning? ==> s.holder == Some(i)) && !Writes(s.threads[i])
    ensures Inv(Enter(s, i, t, e.value, acquire)) && Later(s, Enter(s, i, t, e.value, acquire))
  {
    hide TextOrdered, TranslationFor, Meets, Later, Finds, Join, Latest, PlacedOk, Covers, GuardedView;
    var r := Enter(s, i, t, e.value, acquire);
    if acquire {
      EnterFinds(s, i, block);
    } else {
      AloneFinds(s, i, block);
      CoversItself(s.views[i]);
    }
    GuardedLater(s, r, i);
    LocalKeeps(s, r, i);
  }

  lemma CoversItself(v: View)
    ensures Covers(v, v)
  {
  }

  /** The mutex holder's own steps keep what it has seen up to date. */
  lemma GuardedLater(s: State, r: State, i: ThreadId)
    requires Inv(s) && Local(s, r, i) && r.holder == s.holder && r.released == s.released
    ensures Latest(s, GuardedView(r))
  {
    hide TextOrdered, TranslationFor, Meets, PlacedOk, ThreadOk, EntryOk, Limit, Latest, Fits, Covers;
    if s.holder == Some(i) {
      LatestLater(s, s.views[i], r.views[i]);
    }
  }

  /** Translated code reads the table with acquire, or is the only thread. */
  lemma MeetsOrdered(s: State, i: ThreadId, word: nat, load: HInstr)
    requires Inv(s) && i < |s.threads| && s.threads[i].Entered? && ReadsTable(load) && Meets(s, i, word, load)
    ensures load.LdarBlock? || |s.threads| == 1
  {
    hide Fits, Latest, PlacedOk, WritingOk, Limit, Within;
    var t := s.threads[i];
    assert ThreadOk(s, i) && EntryOk(s, t.block, Limit(s));
    var text := s.entries[t.block].value.text;
    assert SeenAt(s.cells, s.views[i], t.offset / 4 + word, text[word]);
    assert AllOrdered(s.multithreaded, text[word]);
  }

  /** Loads of an entry that find code: in get, in the check under the mutex, and in translated code. */
  lemma FoundKeeps(s: State, i: ThreadId, a: Action)
    requires Inv(s) && Enabled(s, i, a) && (a.Look? || a.Branch? || a.Recheck?)
    requires Entry(s, i, if a.Recheck? then s.threads[i].block else a.block).Some?
    ensures Inv(Step(s, i, a)) && Later(s, Step(s, i, a))
  {
    hide TextOrdered, TranslationFor, Meets, Later, Inv, Enter, Meets;
    HoldsInv(s, i);
    match a
    case Look(block) =>
      var e := Entry(s, i, block);
      EnterKeeps(s, i, e, block, true, Entered(block, e.value.offset));
    case Branch(block, word, load) =>
      var e := Entry(s, i, block);
      MeetsOrdered(s, i, word, load);
      EnterKeeps(s, i, e, block, load.LdarBlock?, Entered(block, e.value.offset));
    case Recheck =>
      var block := s.threads[i].block;
      var e := Entry(s, i, block);
      EnterKeeps(s, i, e, block, true, Returning(block, e.value.offset));
  }

  lemma HoldsInv(s: State, i: ThreadId)
    requires Inv(s) && i < |s.threads|
    ensures Shaped(s) && ThreadOk(s, i) && (s.multithreaded || |s.threads| == 1)
  {
    hide TextOrdered, TranslationFor, Meets, ThreadOk, Shaped, Latest, EntryOk, PlacedOk;
  }

  /** A store of another thread becomes visible. */
  lemma SeeKeeps(s: State, i: ThreadId, a: Action)
    requires Inv(s) && Enabled(s, i, a) && (a.SeeCell? || a.SeeEntry?)
    ensures Inv(Step(s, i, a)) && Later(s, Step(s, i, a))
  {
    hide TextOrdered, TranslationFor, Meets, Later, Finds, Latest, PlacedOk, Covers, GuardedView, ThreadOk;
    assert ThreadOk(s, i);
    var r := Step(s, i, a);
    if a.SeeCell? {
      SeesCellFits(s.cells, s.views[i], a.cell);
    } else {
      SeesEntryFits(s.cells, s.views[i], a.block);
    }
    SeesMore(s, r, i);
    GuardedLater(s, r, i);
    LocalKeeps(s, r, i);
  }

  /** A thread that sees more stays where it is and finds what it found. */
  lemma SeesMore(s: State, r: State, i: ThreadId)
    requires i < |s.threads| == |s.views| && |r.views| == |s.views| && ThreadOk(s, i) && r == See(s, i, r.views[i])
    requires Covers(r.views[i], s.views[i]) && Fits(s.cells, r.views[i])
    ensures ThreadOk(r, i)
  {
    hide TextOrdered, TranslationFor, Meets, Finds, Covers, Fits, Within;
    var t := s.threads[i];
    if t.Entered? || t.Returning? {
      FindsLater(s.cells, s.views[i], r.views[i], t.offset, s.entries[t.block].value.text);
    } else if Writes(t) {
      FindsLater(s.cells, s.views[i], r.views[i], t.start, t.text[..t.issued]);
    }
  }

  /** Steps that change only where a thread is. */
  lemma MoveKeeps(s: State, i: ThreadId, a: Action)
    requires Inv(s) && Enabled(s, i, a)
    requires (a.Generate? && TextOrdered(s.multithreaded, a.text)) || a.Ask? || a.Leave?
             || (a.Look? && Entry(s, i, a.block) == None)
      || (a.Branch? && Entry(s, i, a.block) == None)
    ensures Inv(Step(s, i, a)) && Later(s, Step(s, i, a))
  {
    hide TextOrdered, TranslationFor, Meets, Later, Finds, Latest, PlacedOk, Fits, Covers, GuardedView;
    assert ThreadOk(s, i);
    var r := Step(s, i, a);
    CoversItself(s.views[i]);
    GuardedLater(s, r, i);
    LocalKeeps(s, r, i);
  }

  lemma GenerateKeeps(s: State, i: ThreadId, a: Action)
    requires Inv(s) && Enabled(s, i, a) && a.Generate?
    ensures Inv(Step(s, i, a)) && Later(s, Step(s, i, a))
  {
    hide Later, Inv, Step, TextOrdered, Translate, WordsOf, Padded;
    var block := s.threads[i].block;
    var w: Widths, cfg: Config, m: Mem :| Generates(w, cfg, m, a.text) && cfg.basePc == 4 * block
      && cfg.maxBlocks == |s.entries| && cfg.multithreaded == s.multithreaded;
    TextsOrdered(w, cfg, m);
    MoveKeeps(s, i, a);
  }

  /** Whoever takes the mutex sees all that was stored under it before. */
  lemma AcquireKeeps(s: State, i: ThreadId)
    requires Inv(s) && Enabled(s, i, Acquire)
    ensures Inv(Step(s, i, Acquire)) && Later(s, Step(s, i, Acquire))
  {
    hide TextOrdered, TranslationFor, Meets, Later, Finds, Join, Latest, PlacedOk, Fits, Covers;
    assert ThreadOk(s, i);
    JoinFits(s.cells, s.views[i], s.released);
    LatestLater(s, s.released, Join(s.views[i], s.released));
    LocalKeeps(s, Step(s, i, Acquire), i);
  }

  lemma ReleaseKeeps(s: State, i: ThreadId)
    requires Inv(s) && Enabled(s, i, Release) && s.threads[i].Returning?
    ensures Inv(Step(s, i, Release)) && Later(s, Step(s, i, Release))
  {
    hide TextOrdered, TranslationFor, Meets, Later, Finds, Latest, PlacedOk, Fits, Covers;
    assert ThreadOk(s, i);
    CoversItself(s.views[i]);
    LocalKeeps(s, Step(s, i, Release), i);
  }

  // ----- steps under the mutex -----

  /** What the holder of the mutex does: it alone changes, and no word that code in use may reach. */
  ghost predicate Guarded(s: State, r: State, i: ThreadId) {
    && i < |s.threads| == |r.threads| == |s.views| == |r.views| && s.holder == Some(i)
    && (r.holder == Some(i) || (r.holder == None && r.released == r.views[i])) && r.multithreaded == s.multithreaded
    && r.size == s.size
    && r.threads == s.threads[i := r.threads[i]] && r.views == s.views[i := r.views[i]]
    && Covers(r.views[i], s.views[i]) && |r.cells| == |s.cells| && |r.entries| == |s.entries| && s.placed <= r.placed
    && (forall c :: 0 <= c < |s.cells| && c < Limit(s) / 4 ==> r.cells[c] == s.cells[c])
    && (forall block :: 0 <= block < |s.entries| && s.entries[block].Some? ==> r.entries[block] == s.entries[block])
  }

  lemma EntryKept(s: State, r: State, i: ThreadId, block: nat)
    requires Guarded(s, r, i) && block < |s.entries| && s.entries[block].Some?
    requires EntryOk(s, block, Limit(s)) && Limit(s) <= Limit(r)
    ensures EntryOk(r, block, Limit(r))
  {
    hide TextOrdered, TranslationFor, Meets, Finds, Limit, Covers;
    var p := s.entries[block].value;
    FindsBelow(s.cells, r.cells, p.view, p.offset, p.text, Limit(s));
  }

  lemma PlacedKept(s: State, r: State, i: ThreadId, k: nat)
    requires Guarded(s, r, i) && k < |s.placed| && Fits(r.cells, r.views[i])
    requires PlacedOk(s, k, Limit(s)) && Limit(s) <= Limit(r)
    ensures PlacedOk(r, k, Limit(r))
  {
    hide TextOrdered, TranslationFor, Meets, Finds, Limit, Covers, Fits;
    var p := s.placed[k];
    FindsBelow(s.cells, r.cells, s.views[p.who], p.offset, p.text, Limit(s));
    if p.who == i {
      FindsLater(r.cells, s.views[i], r.views[i], p.offset, p.text);
    }
  }

  lemma ThreadKept(s: State, r: State, i: ThreadId, j: ThreadId)
    requires Guarded(s, r, i) && j < |s.threads| && j != i && ThreadOk(s, j)
    requires forall block :: 0 <= block < |s.entries| ==> EntryOk(s, block, Limit(s))
    ensures ThreadOk(r, j)
  {
    hide TextOrdered, TranslationFor, Meets, Finds, Limit, Covers;
    var t := s.threads[j];
    if t.Entered? {
      assert EntryOk(s, t.block, Limit(s));
      FindsBelow(s.cells, r.cells, s.views[j], t.offset, s.entries[t.block].value.text, Limit(s));
    }
  }

  lemma HolderKeeps(s: State, r: State, i: ThreadId)
    requires Inv(s) && Guarded(s, r, i) && Shaped(r) && Latest(r, r.views[i]) && ThreadOk(r, i)
    requires Limit(s) <= Limit(r) && CODE_ALIGNMENT <= r.nextFree && r.nextFree % 4 == 0
    requires forall block :: 0 <= block < |r.entries| && s.entries[block] == None ==> EntryOk(r, block, Limit(r))
    requires forall k :: |s.placed| <= k < |r.placed| ==> PlacedOk(r, k, Limit(r))
    ensures Inv(r) && Later(s, r)
  {
    hide TextOrdered, TranslationFor, Meets, Limit, ThreadOk, EntryOk, PlacedOk, Latest, Fits, Covers;
    ViewsLater(s, r, i);
    forall j | 0 <= j < |r.threads|
      ensures ThreadOk(r, j)
    {
      if j != i {
        assert ThreadOk(s, j);
        ThreadKept(s, r, i, j);
      }
    }
    forall block | 0 <= block < |r.entries|
      ensures EntryOk(r, block, Limit(r))
    {
      if s.entries[block].Some? {
        EntryKept(s, r, i, block);
      }
    }
    forall k | 0 <= k < |r.placed|
      ensures PlacedOk(r, k, Limit(r))
    {
      if k < |s.placed| {
        assert PlacedOk(s, k, Limit(s));
        PlacedKept(s, r, i, k);
      }
    }
  }

  lemma HolderSees(s: State, i: ThreadId)
    requires Inv(s) && s.holder == Some(i)
    ensures Latest(s, s.views[i])
    ensures forall block :: 0 <= block < |s.entries| ==> Entry(s, i, block) == s.entries[block]
  {
    hide TextOrdered, TranslationFor, Meets, ThreadOk, EntryOk, PlacedOk, Limit;
  }

  lemma TakesOk(s: State, i: ThreadId, text: Text)
    requires i < |s.threads| == |s.views| && (s.threads[i].Rechecking? || s.threads[i].Allocating?) && ThreadOk(s, i)
    requires s.threads[i].Rechecking? ==>
               s.threads[i].block < |s.entries| && s.entries[s.threads[i].block] == None && text == s.threads[i].text
    requires CODE_ALIGNMENT <= s.nextFree && s.nextFree % 4 == 0
    ensures var r := Take(s, i, text);
            ThreadOk(r, i) && s.nextFree <= Limit(r) && s.nextFree <= r.nextFree && r.nextFree % 4 == 0
  {
    hide TextOrdered, TranslationFor, Meets, Covers, Latest, Fits, AlignUp;
    AlignUpIs(s.nextFree);
  }

  /** Taking room for code. */
  lemma TakeKeeps(s: State, i: ThreadId, text: Text)
    requires Inv(s) && i < |s.threads| && (s.threads[i].Rechecking? || s.threads[i].Allocating?)
    requires s.threads[i].Rechecking? ==>
               s.threads[i].block < |s.entries| && Entry(s, i, s.threads[i].block) == None && text == s.threads[i].text
    ensures Inv(Take(s, i, text)) && Later(s, Take(s, i, text))
  {
    hide TextOrdered, TranslationFor, Meets, Later, Latest, Fits, PlacedOk, Covers, WritingOk, EnteredOk, AlignUp,
      Finds, Within;
    assert ThreadOk(s, i);
    var r := Take(s, i, text);
    HolderSees(s, i);
    TakesOk(s, i, text);
    SameLatest(s, r);
    CoversItself(s.views[i]);
    HolderKeeps(s, r, i);
  }

  lemma PutSees(s: State, i: ThreadId, cell: nat, value: Cell)
    requires Shaped(s) && i < |s.threads| && cell < |s.cells| && Latest(s, s.views[i])
    ensures var r := Put(s, i, cell, value);
            Latest(r, r.views[i]) && SeenAt(r.cells, r.views[i], cell, value)
            && forall c: nat, x: Cell :: c != cell && SeenAt(s.cells, s.views[i], c, x) ==>
               SeenAt(r.cells, r.views[i], c, x)
  {
  }

  /** A store goes to the word after the last one stored, which nothing in use reaches. */
  lemma StoreSees(s: State, i: ThreadId)
    requires Inv(s) && Enabled(s, i, Store)
    ensures ThreadOk(Step(s, i, Store), i) && Latest(Step(s, i, Store), Step(s, i, Store).views[i])
  {
    hide TextOrdered, TranslationFor, Meets, Inv, Latest, Put, SeenAt;
    HoldsInv(s, i);
    HolderSees(s, i);
    var t := s.threads[i];
    var cell, value := t.start / 4 + t.issued, t.text[t.issued];
    var put, u := Put(s, i, cell, value), t.(issued := t.issued + 1);
    PutShaped(s, i, cell, value);
    PutSees(s, i, cell, value);
    SameLatest(put, Move(put, i, u));
    forall k | 0 <= k < u.issued
      ensures SeenAt(put.cells, put.views[i], u.start / 4 + k, u.text[..u.issued][k])
    {
      if k < t.issued {
        assert SeenAt(s.cells, s.views[i], t.start / 4 + k, t.text[..t.issued][k]);
      }
    }
  }

  lemma StoreKeeps(s: State, i: ThreadId)
    requires Inv(s) && Enabled(s, i, Store)
    ensures Inv(Step(s, i, Store)) && Later(s, Step(s, i, Store))
  {
    hide TextOrdered, TranslationFor, Meets, Later, PlacedOk, EnteredOk, Finds, Latest, Fits, Covers;
    assert ThreadOk(s, i);
    var r := Step(s, i, Store);
    StepShaped(s, i, Store);
    StoreSees(s, i);
    PutShaped(s, i, s.threads[i].start / 4 + s.threads[i].issued, s.threads[i].text[s.threads[i].issued]);
    HolderKeeps(s, r, i);
  }

  /** The whole text has been stored. */
  lemma WrittenFinds(s: State, i: ThreadId)
    requires i < |s.threads| == |s.views| && Writes(s.threads[i]) && WritingOk(s, i)
    requires s.threads[i].issued == |s.threads[i].text|
    ensures Finds(s.cells, s.views[i], s.threads[i].start, s.threads[i].text)
  {
    assert s.threads[i].text[..s.threads[i].issued] == s.threads[i].text;
  }

  lemma PublishKeepsInv(s: State, i: ThreadId)
    requires Inv(s) && Enabled(s, i, Action.Publish)
    ensures Inv(Step(s, i, Action.Publish)) && Later(s, Step(s, i, Action.Publish))
  {
    hide TextOrdered, TranslationFor, Meets, Later, PlacedOk, Finds;
    assert ThreadOk(s, i);
    var r, t := Step(s, i, Action.Publish), s.threads[i];
    StepShaped(s, i, Action.Publish);
    WrittenFinds(s, i);
    HolderSees(s, i);
    SameCellsFind(s.cells, s.views[i], r.views[i], t.start, t.text);
    HolderKeeps(s, r, i);
  }

  lemma SameCellsFind(cells: seq<History>, v: View, w: View, offset: nat, text: Text)
    requires Finds(cells, v, offset, text) && w.cells == v.cells
    ensures Finds(cells, w, offset, text)
  {
    forall k | 0 <= k < |text|
      ensures SeenAt(cells, w, offset / 4 + k, text[k])
    {
      assert SeenAt(cells, v, offset / 4 + k, text[k]);
    }
  }

  /** insert_standalone gives the mutex back, its code written. */
  lemma PlaceKeeps(s: State, i: ThreadId)
    requires Inv(s) && Enabled(s, i, Release) && s.threads[i].Filling?
    ensures Inv(Step(s, i, Release)) && Later(s, Step(s, i, Release))
  {
    hide TextOrdered, TranslationFor, Meets, Later, Finds, Latest, Fits, Covers;
    assert ThreadOk(s, i);
    var r := Step(s, i, Release);
    WrittenFinds(s, i);
    HolderSees(s, i);
    SameLatest(s, r);
    CoversItself(s.views[i]);
    HolderKeeps(s, r, i);
  }

  /** Every step of every thread keeps the invariant. */
  lemma StepKeeps(s: State, i: ThreadId, a: Action)
    requires Inv(s) && Enabled(s, i, a)
    ensures Inv(Step(s, i, a)) && Later(s, Step(s, i, a))
  {
    hide TextOrdered, TranslationFor, Meets, Later, Inv, Take, Enter;
    HoldsInv(s, i);
    var t := s.threads[i];
    match a
    case Generate(_) => GenerateKeeps(s, i, a);
    case Look(block) => if Entry(s, i, block).Some? { FoundKeeps(s, i, a); } else { MoveKeeps(s, i, a); }
    case Branch(block, _, _) => if Entry(s, i, block).Some? { FoundKeeps(s, i, a); } else { MoveKeeps(s, i, a); }
    case Recheck => if Entry(s, i, t.block).Some? { FoundKeeps(s, i, a); } else { TakeKeeps(s, i, t.text); }
    case Reserve => TakeKeeps(s, i, t.text);
    case Acquire => AcquireKeeps(s, i);
    case Store => StoreKeeps(s, i);
    case Publish => PublishKeepsInv(s, i);
    case Release => if t.Filling? { PlaceKeeps(s, i); } else { ReleaseKeeps(s, i); }
    case SeeCell(_) => SeeKeeps(s, i, a);
    case SeeEntry(_) => SeeKeeps(s, i, a);
    case _ => MoveKeeps(s, i, a);
  }

  // ----- runs -----

  datatype Event = Event(thread: ThreadId, action: Action)

  /** Nothing seen but the memory the run starts from. */
  function StartView(cells: nat): View { View(seq(cells, _ => 0), {}) }

  /** Any number of idle threads over an empty table. */
  function Start(threads: nat, size: nat, cells: Text, blocks: nat, multithreaded: bool): State
    requires size < TWO32 && |cells| == size / 4
  {
    State(seq(threads, _ => Idle), seq(threads, _ => StartView(|cells|)), None, StartView(|cells|), CODE_ALIGNMENT,
      size,
      multithreaded, seq(|cells|, k requires 0 <= k < |cells| => [cells[k]]), seq(blocks, _ => None), [])
  }

  lemma StartShaped(threads: nat, size: nat, cells: Text, blocks: nat, multithreaded: bool)
    requires size < TWO32 && |cells| == size / 4
    ensures Shaped(Start(threads, size, cells, blocks, multithreaded))
    ensures multithreaded || threads <= 1 ==> Inv(Start(threads, size, cells, blocks, multithreaded))
  {
    var s := Start(threads, size, cells, blocks, multithreaded);
    forall i | 0 <= i < |s.threads|
      ensures ThreadOk(s, i)
    {
    }
  }

  /** s leads to r by these events, in this order: any interleaving of the threads. */
  ghost predicate Leads(s: State, events: seq<Event>, r: State)
    requires Shaped(s)
    decreases |events|
  {
    if events == [] then s == r
    else
      Enabled(s, events[0].thread, events[0].action)
      && (StepShaped(s, events[0].thread, events[0].action);
          Leads(Step(s, events[0].thread, events[0].action), events[1..], r))
  }

  lemma LaterTwice(s: State, r: State, q: State)
    requires Later(s, r) && Later(r, q)
    ensures Later(s, q)
  {
    hide TextOrdered, TranslationFor, Meets, Limit;
  }

  lemma LaterItself(s: State)
    ensures Later(s, s)
  {
  }

  lemma {:induction false} LeadsKeeps(s: State, events: seq<Event>, r: State)
    requires Shaped(s) && Inv(s) && Leads(s, events, r)
    ensures Inv(r) && Later(s, r)
    decreases |events|
  {
    hide TextOrdered, TranslationFor, Meets, Inv, Step, Enabled, Later;
    if events == [] {
      LaterItself(s);
    } else {
      var i, a := events[0].thread, events[0].action;
      StepKeeps(s, i, a);
      StepShaped(s, i, a);
      LeadsKeeps(Step(s, i, a), events[1..], r);
      LaterTwice(s, Step(s, i, a), r);
    }
  }

  /** A thread reads this from a word. */
  predicate ReadsAt(s: State, i: ThreadId, cell: nat, value: Cell)
    requires i < |s.views|
  {
    cell < |s.cells| == |s.views[i].cells| && s.views[i].cells[cell] < |s.cells[cell]|
    && s.cells[cell][s.views[i].cells[cell]] == value
  }

  /** A thread reads this code where it lies. */
  ghost predicate ReadsText(s: State, i: ThreadId, offset: nat, text: Text)
    requires i < |s.views|
  {
    forall k :: 0 <= k < |text| ==> ReadsAt(s, i, offset / 4 + k, text[k])
  }

  lemma FindsReads(s: State, i: ThreadId, offset: nat, text: Text)
    requires i < |s.views| && Finds(s.cells, s.views[i], offset, text)
    ensures ReadsText(s, i, offset, text)
  {
    forall k | 0 <= k < |text|
      ensures ReadsAt(s, i, offset / 4 + k, text[k])
    {
      assert SeenAt(s.cells, s.views[i], offset / 4 + k, text[k]);
    }
  }

  lemma EnteredReads(s: State, i: ThreadId)
    requires Inv(s) && i < |s.threads| && s.threads[i].Entered?
    ensures var t := s.threads[i];
            && t.block < |s.entries| && s.entries[t.block].Some? && s.entries[t.block].value.offset == t.offset
            && t.offset != 0 && ReadsText(s, i, t.offset, s.entries[t.block].value.text)
  {
    hide TextOrdered, TranslationFor, Meets, PlacedOk, Latest, Fits, Finds;
    assert ThreadOk(s, i);
    assert EntryOk(s, s.threads[i].block, Limit(s));
    FindsReads(s, i, s.threads[i].offset, s.entries[s.threads[i].block].value.text);
  }

  /** Code a thread finds below the limit it finds ever after. */
  lemma StillReads(s: State, r: State, i: ThreadId, offset: nat, text: Text)
    requires Inv(s) && Inv(r) && Later(s, r) && i < |s.threads| && Within(offset, text, Limit(s))
    requires Finds(s.cells, s.views[i], offset, text)
    ensures i < |r.threads| && ReadsText(r, i, offset, text)
  {
    hide TextOrdered, TranslationFor, Meets, Finds, EntryOk, PlacedOk, ThreadOk, Latest, Covers;
    FindsBelow(s.cells, r.cells, s.views[i], offset, text, Limit(s));
    FindsLater(r.cells, s.views[i], r.views[i], offset, text);
    FindsReads(r, i, offset, text);
  }

  /** Publication safety, in a multithreaded buffer or with a single thread. After any interleaving from the
      start, a thread that has an address for a block reads all of the code its entry was published with at
      it; whatever happens from then on the entry stays, and the thread reads that code; and any two threads
      that have an address for one block have the same. */
  lemma PublicationSafe(threads: nat, size: nat, cells: Text, blocks: nat, multithreaded: bool, events: seq<Event>,
                        s: State, more: seq<Event>, r: State, i: ThreadId, j: ThreadId)
    requires size < TWO32 && |cells| == size / 4 && (multithreaded || threads <= 1)
    requires var start := Start(threads, size, cells, blocks, multithreaded);
             Shaped(start) && Leads(start, events, s) && Shaped(s) && Leads(s, more, r)
    requires i < |s.threads| && j < |s.threads| && s.threads[i].Entered?
    ensures var block, offset := s.threads[i].block, s.threads[i].offset;
            && block < |s.entries| == |r.entries| && s.entries[block].Some? && r.entries[block] == s.entries[block]
            && offset == s.entries[block].value.offset != 0 && i < |s.views| == |r.views|
            && ReadsText(s, i, offset, s.entries[block].value.text)
            && ReadsText(r, i, offset, s.entries[block].value.text)
            && (s.threads[j].Entered? && s.threads[j].block == block ==> s.threads[j].offset == offset)
  {
    hide TextOrdered, TranslationFor, Meets, Leads, Finds, Latest, PlacedOk, ReadsText, Fits;
    StartShaped(threads, size, cells, blocks, multithreaded);
    LeadsKeeps(Start(threads, size, cells, blocks, multithreaded), events, s);
    LeadsKeeps(s, more, r);
    assert ThreadOk(s, i) && ThreadOk(s, j) && EntryOk(s, s.threads[i].block, Limit(s));
    EnteredReads(s, i);
    StillReads(s, r, i, s.threads[i].offset, s.entries[s.threads[i].block].value.text);
  }

  /** The same of standalone code, whatever blocks other threads insert meanwhile: a region once returned is
      aligned, not at zero and in bounds, and the thread it was returned to reads its code there from then
      on. */
  lemma StandaloneSafe(threads: nat, size: nat, cells: Text, blocks: nat, multithreaded: bool, events: seq<Event>,
                       s: State, more: seq<Event>, r: State, k: nat)
    requires size < TWO32 && |cells| == size / 4 && (multithreaded || threads <= 1)
    requires var start := Start(threads, size, cells, blocks, multithreaded);
             Shaped(start) && Leads(start, events, s) && Shaped(s) && Leads(s, more, r)
    requires k < |s.placed|
    ensures k < |r.placed| && r.placed[k] == s.placed[k]
    ensures var p := s.placed[k];
            && p.offset % CODE_ALIGNMENT == 0 && p.offset != 0 && p.offset + 4 * |p.text| <= s.size
            && p.who < |s.views| == |r.views|
            && ReadsText(s, p.who, p.offset, p.text) && ReadsText(r, p.who, p.offset, p.text)
  {
    hide TextOrdered, TranslationFor, Meets, Leads, Finds, Latest, ReadsText, Fits;
    StartShaped(threads, size, cells, blocks, multithreaded);
    LeadsKeeps(Start(threads, size, cells, blocks, multithreaded), events, s);
    LeadsKeeps(s, more, r);
    var p := s.placed[k];
    assert PlacedOk(s, k, Limit(s)) && r.placed[k] == p && PlacedOk(r, k, Limit(r));
    FindsReads(s, p.who, p.offset, p.text);
    StillReads(s, r, p.who, p.offset, p.text);
  }

  /** At most one thread is between taking the mutex and releasing it. */
  lemma MutualExclusion(s: State, i: ThreadId, j: ThreadId)
    requires Inv(s) && i < |s.threads| && j < |s.threads| && InSection(s.threads[i]) && InSection(s.threads[j])
    ensures i == j
  {
    assert ThreadOk(s, i) && ThreadOk(s, j);
  }

  // ----- whose code it is -----

  /** Every translation in these events gives the code that is listed for the block. */
  ghost predicate TranslatesAs(s: State, events: seq<Event>, texts: seq<Text>)
    requires Shaped(s)
    decreases |events|
  {
    events != [] && Enabled(s, events[0].thread, events[0].action) ==>
      var i, a := events[0].thread, events[0].action;
      && (a.Generate? ==> s.threads[i].block < |texts| && a.text == texts[s.threads[i].block])
      && (StepShaped(s, i, a); TranslatesAs(Step(s, i, a), events[1..], texts))
  }

  predicate OwnThread(t: Thread, texts: seq<Text>) {
    t.Wanting? || t.Rechecking? || t.Writing? ==> t.block < |texts| && t.text == texts[t.block]
  }

  predicate OwnEntry(e: Option<Published>, block: nat, texts: seq<Text>) {
    e.Some? ==> block < |texts| && e.value.text == texts[block]
  }

  ghost predicate OwnCode(s: State, texts: seq<Text>) {
    && (forall i :: 0 <= i < |s.threads| ==> OwnThread(s.threads[i], texts))
    && (forall block :: 0 <= block < |s.entries| ==> OwnEntry(s.entries[block], block, texts))
  }

  lemma {:induction false} LeadsOwnCode(s: State, events: seq<Event>, r: State, texts: seq<Text>)
    requires Shaped(s) && OwnCode(s, texts) && Leads(s, events, r) && TranslatesAs(s, events, texts)
    ensures OwnCode(r, texts)
    decreases |events|
  {
    hide TextOrdered, TranslationFor, Meets, OwnCode, Step, Enabled;
    if events != [] {
      StepShaped(s, events[0].thread, events[0].action);
      StepOwnCode(s, events[0].thread, events[0].action, texts);
      LeadsOwnCode(Step(s, events[0].thread, events[0].action), events[1..], r, texts);
    }
  }

  lemma StepOwnCode(s: State, i: ThreadId, a: Action, texts: seq<Text>)
    requires Shaped(s) && OwnCode(s, texts) && Enabled(s, i, a)
    requires a.Generate? ==> s.threads[i].block < |texts| && a.text == texts[s.threads[i].block]
    ensures OwnCode(Step(s, i, a), texts)
  {
    assert OwnThread(s.threads[i], texts);
    StepChanges(s, i, a);
    hide TextOrdered, TranslationFor, Meets, Step, Shaped, Enabled;
    var r := Step(s, i, a);
    assert OwnThread(r.threads[i], texts);
  }

  /** A step gives only its own thread a new place, with the code it carries, and an entry only the code of the
      thread that publishes it. */
  lemma StepChanges(s: State, i: ThreadId, a: Action)
    requires Shaped(s) && Enabled(s, i, a)
    ensures var r, t := Step(s, i, a), s.threads[i];
            && i < |r.threads| && r.threads == s.threads[i := r.threads[i]]
            && (var u := r.threads[i];
                u.Wanting? || u.Rechecking? || u.Writing? ==>
                  (a.Generate? && t.Missed? && u == Wanting(t.block, a.text))
                  || ((t.Wanting? || t.Rechecking? || t.Writing?) && t.block == u.block && t.text == u.text))
            && (r.entries == s.entries
                || (t.Writing? && t.block < |s.entries|
                    && exists p: Published :: r.entries == s.entries[t.block := Some(p)] && p.text == t.text))
  {
    hide TextOrdered, TranslationFor, Meets, Join, Fits, AlignUp, JoinCells;
  }

  function Laid(w: Widths, codes: seq<Code>): (texts: seq<Text>)
    ensures |texts| == |codes| && forall k :: 0 <= k < |codes| ==> texts[k] == WordsOf(w, codes[k])
  {
    if codes == [] then [] else [WordsOf(w, codes[0])] + Laid(w, codes[1..])
  }

  /** So what a thread that has an address for a block reads there is that block's own translation. */
  lemma ReadersFindOwnCode(threads: nat, size: nat, cells: Text, blocks: nat, multithreaded: bool, events: seq<Event>,
                           s: State, w: Widths, codes: seq<Code>, i: ThreadId) returns (seen: Text)
    requires size < TWO32 && |cells| == size / 4 && (multithreaded || threads <= 1)
    requires var start := Start(threads, size, cells, blocks, multithreaded);
             Shaped(start) && Leads(start, events, s) && Shaped(s) && TranslatesAs(start, events, Laid(w, codes))
    requires i < |s.threads| && s.threads[i].Entered?
    ensures var block, offset := s.threads[i].block, s.threads[i].offset;
            ReadsText(s, i, offset, seen) && block < |codes| && Flatten(seen) == codes[block]
  {
    hide TextOrdered, TranslationFor, Meets, Leads, TranslatesAs, Inv, ReadsText, Shaped, WordsOf, Flatten;
    var start := Start(threads, size, cells, blocks, multithreaded);
    StartShaped(threads, size, cells, blocks, multithreaded);
    LeadsKeeps(start, events, s);
    LeadsOwnCode(start, events, s, Laid(w, codes));
    EnteredReads(s, i);
    seen := WordsOf(w, codes[s.threads[i].block]);
    FlattenWords(w, codes[s.threads[i].block]);
  }
}
