/** The software-coherent cache hierarchy of the device, one cache line at a time.

    Two Minions share a line that only one of them (its owner) writes. Each Minion
    reaches memory through its own L1, the L2 of its shire, the global L3 and DDR.
    Nothing here is coherent: a copy in any cache may be stale, caches fill and
    evict on their own at any time, and the only software tools are the two
    operations of et-k-rs/src/cache.rs, writeback to a level and eviction to a level. */
module CacheHierarchy {

  datatype Role = Ping | Pong {
    function Peer(): Role {
      if Ping? then Pong else Ping
    }
  }

  type Word = w: nat | w < 0x1_0000_0000_0000_0000

  const WORDS_PER_LINE := 8
  const SLOTS := 5
  const LEVELS := 3

  /** Contents of a 64-byte line. */
  type Words = ws: seq<Word> | |ws| == WORDS_PER_LINE witness [0, 0, 0, 0, 0, 0, 0, 0]

  datatype Copy = Absent | Held(words: Words, dirty: bool) {
    predicate Dirty() {
      Held? && dirty
    }
  }

  type Copies = cs: seq<Copy> | |cs| == SLOTS witness [Absent, Absent, Absent, Absent, Absent]

  /** One line: its copies in the five caches (two L1, two L2, one L3), its DDR
      contents, and whether its owner has stored to it during this launch. */
  datatype Line = Line(copies: Copies, memory: Words, touched: bool)

  /** The cache at `level` (0 = L1, 1 = L2, 2 = L3) on the path of `who` to DDR.
      Minions of one shire share an L2. */
  function Slot(same: bool, who: Role, level: nat): (slot: nat)
    requires level < LEVELS
    ensures slot < SLOTS
  {
    if level == 0 then (if who.Ping? then 0 else 1)
    else if level == 1 then (if who.Ping? || same then 2 else 3)
    else 4
  }

  /** The innermost level common to both paths. */
  function Join(same: bool): nat {
    if same then 1 else 2
  }

  function At(same: bool, l: Line, who: Role, level: nat): Copy
    requires level < LEVELS
  {
    l.copies[Slot(same, who, level)]
  }

  function Put(l: Line, slot: nat, copy: Copy): Line
    requires slot < SLOTS
  {
    l.(copies := l.copies[slot := copy])
  }

  /** What a read by `who` entering the hierarchy at `level` returns; level 3 is DDR. */
  function View(same: bool, l: Line, who: Role, level: nat): Words
    requires level <= LEVELS
  {
    if level <= 0 && At(same, l, who, 0).Held? then At(same, l, who, 0).words
    else if level <= 1 && At(same, l, who, 1).Held? then At(same, l, who, 1).words
    else if level <= 2 && At(same, l, who, 2).Held? then At(same, l, who, 2).words
    else l.memory
  }

  // --- Spontaneous cache activity -------------------------------------------

  /** Cache `level` fetches the line from the next level outward. */
  function Fill(same: bool, l: Line, who: Role, level: nat): Line
    requires level < LEVELS
  {
    if At(same, l, who, level).Held? then l
    else Put(l, Slot(same, who, level), Held(View(same, l, who, level + 1), false))
  }

  /** A clean copy is discarded; a dirty one must be written back first. */
  function Drop(l: Line, slot: nat): Line
    requires slot < SLOTS
  {
    if l.copies[slot].Dirty() then l else Put(l, slot, Absent)
  }

  /** A dirty copy is written to the next level outward, refreshing whatever that
      level held, and stays behind as clean. */
  function WriteBack(same: bool, l: Line, who: Role, level: nat): Line
    requires level < LEVELS
  {
    var copy := At(same, l, who, level);
    if !copy.Dirty() then l
    else
      var cleaned := Put(l, Slot(same, who, level), copy.(dirty := false));
      if level + 1 == LEVELS then cleaned.(memory := copy.words)
      else Put(cleaned, Slot(same, who, level + 1), Held(copy.words, true))
  }

  // --- Operations issued by a Minion ----------------------------------------

  /** `flush_va` to `dest`: every dirty copy below `dest` is written back, passing
      through and refreshing each level on the way. */
  function Flush(same: bool, l: Line, who: Role, dest: nat): Line
    requires dest <= LEVELS
  {
    if dest == 0 then l
    else WriteBack(same, Flush(same, l, who, dest - 1), who, dest - 1)
  }

  /** `evict_va` to `dest`: write back if dirty, then invalidate, in every level
      from L1 up to but not including `dest`. */
  function Evict(same: bool, l: Line, who: Role, dest: nat): Line
    requires dest <= LEVELS
  {
    if dest == 0 then l
    else EvictLevel(same, Evict(same, l, who, dest - 1), who, dest - 1)
  }

  function EvictLevel(same: bool, l: Line, who: Role, level: nat): Line
    requires level < LEVELS
  {
    Drop(WriteBack(same, l, who, level), Slot(same, who, level))
  }

  function Load(same: bool, l: Line, who: Role, word: nat): Word
    requires word < WORDS_PER_LINE
  {
    View(same, l, who, 0)[word]
  }

  /** Write-allocate store of one word into L1. */
  function Store(same: bool, l: Line, who: Role, word: nat, value: Word): Line
    requires word < WORDS_PER_LINE
  {
    Put(l, Slot(same, who, 0), Held(View(same, l, who, 0)[word := value], true)).(touched := true)
  }

  // --- What the owner has written, and who can see it -------------------------

  /** No copy on the path of `who` below `level` is dirty. */
  predicate CleanTo(same: bool, l: Line, who: Role, level: nat)
    requires level <= LEVELS
  {
    && (level > 0 ==> !At(same, l, who, 0).Dirty())
    && (level > 1 ==> !At(same, l, who, 1).Dirty())
    && (level > 2 ==> !At(same, l, who, 2).Dirty())
  }

  /** The owner's last stores: the innermost dirty copy on its path, else DDR. */
  function Latest(same: bool, l: Line, owner: Role): Words {
    if At(same, l, owner, 0).Dirty() then At(same, l, owner, 0).words
    else if At(same, l, owner, 1).Dirty() then At(same, l, owner, 1).words
    else if At(same, l, owner, 2).Dirty() then At(same, l, owner, 2).words
    else l.memory
  }

  /** The copy of `who` at `level`, if any, has contents `ws`. */
  predicate Agrees(same: bool, l: Line, who: Role, level: nat, ws: Words)
    requires level < LEVELS
  {
    At(same, l, who, level).Held? ==> At(same, l, who, level).words == ws
  }

  predicate AnyDirty(l: Line) {
    || l.copies[0].Dirty() || l.copies[1].Dirty() || l.copies[2].Dirty() || l.copies[3].Dirty()
    || l.copies[4].Dirty()
  }

  /** The per-line invariant. A peer never holds a dirty copy of its own. Before the
      owner's first store the caches may hold anything, however stale, but nothing
      dirty; afterwards every copy inside the innermost dirty one agrees with it. */
  predicate LineOk(same: bool, owner: Role, l: Line) {
    && CleanTo(same, l, owner.Peer(), Join(same))
    && (!same || !l.copies[3].Dirty())
    && (!l.touched ==> !AnyDirty(l))
    && (l.touched ==>
          var latest := Latest(same, l, owner);
          && (CleanTo(same, l, owner, 1) ==> Agrees(same, l, owner, 0, latest))
          && (CleanTo(same, l, owner, 2) ==> Agrees(same, l, owner, 1, latest))
          && (CleanTo(same, l, owner, 3) ==> Agrees(same, l, owner, 2, latest)))
  }

  /** The owner's stores have reached a level that the peer shares. */
  predicate Published(same: bool, owner: Role, l: Line) {
    l.touched && CleanTo(same, l, owner, Join(same))
  }

  /** Published, and no stale copy is left in the peer's private caches. */
  predicate Fresh(same: bool, owner: Role, l: Line) {
    && Published(same, owner, l)
    && Agrees(same, l, owner.Peer(), 0, Latest(same, l, owner))
    && (!same ==> Agrees(same, l, owner.Peer(), 1, Latest(same, l, owner)))
  }

  /** `ws` is the content of some copy of the line, or of DDR. */
  predicate Holds(l: Line, ws: Words) {
    || l.memory == ws
    || (l.copies[0].Held? && l.copies[0].words == ws)
    || (l.copies[1].Held? && l.copies[1].words == ws)
    || (l.copies[2].Held? && l.copies[2].words == ws)
    || (l.copies[3].Held? && l.copies[3].words == ws)
    || (l.copies[4].Held? && l.copies[4].words == ws)
  }

  /** The line changed without any store: everything the protocol relies on is kept. */
  ghost predicate Quiet(same: bool, owner: Role, l: Line, l': Line) {
    && LineOk(same, owner, l')
    && l'.touched == l.touched
    && (l.touched ==> Latest(same, l', owner) == Latest(same, l, owner))
    && (Published(same, owner, l) ==> Published(same, owner, l'))
    && (Fresh(same, owner, l) ==> Fresh(same, owner, l'))
    && (forall ws | Holds(l', ws) :: Holds(l, ws))
    && (AnyDirty(l') ==> AnyDirty(l))
  }

  /** What a miss at `level` brings in: some copy's contents, and the owner's last
      stores whenever nothing dirty hides them. */
  lemma ViewFromOutside(same: bool, owner: Role, l: Line, who: Role, level: nat)
    requires LineOk(same, owner, l) && 0 < level <= LEVELS
    ensures Holds(l, View(same, l, who, level))
    ensures l.touched && CleanTo(same, l, owner, level) && (who == owner || level >= Join(same)) ==>
              View(same, l, who, level) == Latest(same, l, owner)
    ensures who != owner && level <= Join(same) && Fresh(same, owner, l) ==>
              View(same, l, who, level) == Latest(same, l, owner)
  {
  }

  lemma InsertKeepsHolds(l: Line, slot: nat, ws: Words)
    requires slot < SLOTS && l.copies[slot].Absent? && Holds(l, ws)
    ensures forall ws' | Holds(Put(l, slot, Held(ws, false)), ws') :: Holds(l, ws')
    ensures AnyDirty(Put(l, slot, Held(ws, false))) == AnyDirty(l)
  {
    forall ws' | Holds(Put(l, slot, Held(ws, false)), ws')
      ensures Holds(l, ws')
    {
    }
  }

  lemma InsertIsQuiet(same: bool, owner: Role, l: Line, who: Role, level: nat, ws: Words)
    requires LineOk(same, owner, l) && level < LEVELS && At(same, l, who, level).Absent?
    requires Holds(l, ws)
    requires l.touched && CleanTo(same, l, owner, level + 1) && (who == owner || level >= Join(same)) ==>
               ws == Latest(same, l, owner)
    requires who != owner && level < Join(same) && Fresh(same, owner, l) ==> ws == Latest(same, l, owner)
    ensures Quiet(same, owner, l, Put(l, Slot(same, who, level), Held(ws, false)))
  {
    var l' := Put(l, Slot(same, who, level), Held(ws, false));
    InsertKeepsHolds(l, Slot(same, who, level), ws);
    assert Latest(same, l', owner) == Latest(same, l, owner);
    assert forall k: nat | k <= LEVELS :: CleanTo(same, l', owner, k) == CleanTo(same, l, owner, k);
  }

  lemma FillIsQuiet(same: bool, owner: Role, l: Line, who: Role, level: nat)
    requires LineOk(same, owner, l) && level < LEVELS
    ensures Quiet(same, owner, l, Fill(same, l, who, level))
  {
    if At(same, l, who, level).Absent? {
      var ws := View(same, l, who, level + 1);
      ViewFromOutside(same, owner, l, who, level + 1);
      InsertIsQuiet(same, owner, l, who, level, ws);
    }
  }

  lemma QuietTransitive(same: bool, owner: Role, a: Line, b: Line, c: Line)
    requires Quiet(same, owner, a, b) && Quiet(same, owner, b, c)
    ensures Quiet(same, owner, a, c)
  {
  }

  lemma DropIsQuiet(same: bool, owner: Role, l: Line, slot: nat)
    requires LineOk(same, owner, l) && slot < SLOTS
    ensures Quiet(same, owner, l, Drop(l, slot))
  {
  }

  lemma WriteBackIsQuiet(same: bool, owner: Role, l: Line, who: Role, level: nat)
    requires LineOk(same, owner, l) && level < LEVELS
    ensures Quiet(same, owner, l, WriteBack(same, l, who, level))
  {
  }

  lemma FlushIsQuiet(same: bool, owner: Role, l: Line, who: Role, dest: nat)
    requires LineOk(same, owner, l) && dest <= LEVELS
    ensures Quiet(same, owner, l, Flush(same, l, who, dest))
  {
    if dest > 0 {
      FlushIsQuiet(same, owner, l, who, dest - 1);
      WriteBackIsQuiet(same, owner, Flush(same, l, who, dest - 1), who, dest - 1);
    }
  }

  lemma EvictLevelIsQuiet(same: bool, owner: Role, l: Line, who: Role, level: nat)
    requires LineOk(same, owner, l) && level < LEVELS
    ensures Quiet(same, owner, l, EvictLevel(same, l, who, level))
  {
    var cleaned := WriteBack(same, l, who, level);
    WriteBackIsQuiet(same, owner, l, who, level);
    DropIsQuiet(same, owner, cleaned, Slot(same, who, level));
    QuietTransitive(same, owner, l, cleaned, Drop(cleaned, Slot(same, who, level)));
  }

  lemma EvictIsQuiet(same: bool, owner: Role, l: Line, who: Role, dest: nat)
    requires LineOk(same, owner, l) && dest <= LEVELS
    ensures Quiet(same, owner, l, Evict(same, l, who, dest))
  {
    if dest > 0 {
      EvictIsQuiet(same, owner, l, who, dest - 1);
      var inner := Evict(same, l, who, dest - 1);
      EvictLevelIsQuiet(same, owner, inner, who, dest - 1);
      QuietTransitive(same, owner, l, inner, EvictLevel(same, inner, who, dest - 1));
    }
  }

  /** After the owner flushes to `dest`, nothing dirty is left below it. */
  lemma {:induction false} FlushCleans(same: bool, l: Line, who: Role, dest: nat)
    requires dest <= LEVELS
    ensures CleanTo(same, Flush(same, l, who, dest), who, dest)
    ensures Flush(same, l, who, dest).touched == l.touched
  {
    if dest > 0 {
      FlushCleans(same, l, who, dest - 1);
    }
  }

  /** A flush by the owner to any level both Minions share publishes its stores. */
  lemma FlushPublishes(same: bool, owner: Role, l: Line, dest: nat)
    requires LineOk(same, owner, l) && l.touched && Join(same) <= dest <= LEVELS
    ensures Published(same, owner, Flush(same, l, owner, dest))
  {
    FlushCleans(same, l, owner, dest);
  }

  /** A flush by the owner to DDR leaves no dirty copy anywhere. */
  lemma FlushToMemoryCleansAll(same: bool, owner: Role, l: Line)
    requires LineOk(same, owner, l)
    ensures !AnyDirty(Flush(same, l, owner, LEVELS))
  {
    FlushCleans(same, l, owner, LEVELS);
    FlushIsQuiet(same, owner, l, owner, LEVELS);
  }

  lemma EvictEmpties(same: bool, l: Line, who: Role, dest: nat)
    requires dest <= LEVELS
    ensures dest > 0 ==> At(same, Evict(same, l, who, dest), who, 0).Absent?
    ensures dest > 1 ==> At(same, Evict(same, l, who, dest), who, 1).Absent?
  {
    if dest > 0 {
      EvictEmpties(same, l, who, dest - 1);
    }
  }

  /** An eviction by the peer to any shared level, once the owner has published,
      leaves the peer no stale copy. */
  lemma EvictFreshens(same: bool, owner: Role, l: Line, dest: nat)
    requires LineOk(same, owner, l) && Published(same, owner, l) && Join(same) <= dest <= LEVELS
    ensures Fresh(same, owner, Evict(same, l, owner.Peer(), dest))
  {
    EvictIsQuiet(same, owner, l, owner.Peer(), dest);
    EvictEmpties(same, l, owner.Peer(), dest);
  }

  /** A fresh line reads as the owner last wrote it. */
  lemma FreshReadsLatest(same: bool, owner: Role, l: Line)
    requires LineOk(same, owner, l) && Fresh(same, owner, l)
    ensures View(same, l, owner.Peer(), 0) == Latest(same, l, owner)
  {
  }

  /** A store by the owner changes one word of what it has written, nothing else,
      and is not yet published. */
  lemma StoreUpdatesLatest(same: bool, owner: Role, l: Line, word: nat, value: Word)
    requires LineOk(same, owner, l) && word < WORDS_PER_LINE
    ensures
      var l' := Store(same, l, owner, word, value);
      && LineOk(same, owner, l')
      && l'.touched
      && Latest(same, l', owner)[word] == value
      && (l.touched ==> Latest(same, l', owner) == Latest(same, l, owner)[word := value])
      && (forall ws | Holds(l', ws) :: Holds(l, ws) || ws == View(same, l, owner, 0)[word := value])
      && Holds(l, View(same, l, owner, 0))
  {
  }
}
