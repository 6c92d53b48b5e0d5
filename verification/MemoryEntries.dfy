// The list of memory entries of monitor/memory.c as a sequence: it grows down from the stack
// ceiling and is a table of labels, a table of sections and a first-fit allocator at once.

module MemoryEntries {
  import opened Bytes

  /** sizeof(struct memory_entry) on the target. */
  const HEADER: nat := 24

  const MAX_NAME_LEN: nat := 8

  type Name = seq<Byte>

  datatype Kind =
    | Section(size: nat)
    | Label(isCode: bool, name: Name)
    | Block(isAllocated: bool, blockSize: nat)

  datatype Entry = Entry(at: nat, addr: nat, kind: Kind)

  // ---- Addresses

  /** arm_address_set_thumb_intwrk_bit */
  function WithInterwork(ptr: nat, bit: bool): nat {
    ptr / 2 * 2 + if bit then 1 else 0
  }

  /** The bytes behind a header that belong to the entry. */
  function Extra(e: Entry): nat {
    if e.kind.Block? then e.kind.blockSize else 0
  }

  /** Where the entry before this one starts, or the stack ceiling. */
  function Top(s: seq<Entry>, ceiling: nat, i: nat): nat
    requires i <= |s|
  {
    if i == 0 then ceiling else s[i - 1].at
  }

  function Last(s: seq<Entry>, ceiling: nat): nat {
    Top(s, ceiling, |s|)
  }

  /** Whole headers needed for extra bytes. */
  function Units(extra: nat): (n: nat)
    ensures (n - 1) * HEADER < extra <= n * HEADER
  {
    extra / HEADER + if extra % HEADER != 0 then 1 else 0
  }

  /** create_memory_entry puts the new header in front of everything. */
  function Place(s: seq<Entry>, ceiling: nat, extra: nat): int {
    Last(s, ceiling) - HEADER - Units(extra) * HEADER
  }

  /** Address room: a null pointer ends the list, so no entry can be at 0. */
  predicate RoomFor(s: seq<Entry>, ceiling: nat, extra: nat) {
    0 < Place(s, ceiling, extra)
  }

  // ---- The invariant

  predicate ValidName(name: Name) {
    0 < |name| <= MAX_NAME_LEN
  }

  predicate SoundEntry(e: Entry) {
    && 0 < e.at
    && (e.kind.Block? ==> e.addr == e.at + HEADER && e.kind.blockSize % HEADER == 0)
    && (e.kind.Label? ==> ValidName(e.kind.name) && (e.kind.isCode ==> e.addr % 2 == 1))
  }

  /** Entries lie side by side from the ceiling down, the first one is the user section and the
      only section, and no two labels share a name. */
  predicate Sound(s: seq<Entry>, ceiling: nat) {
    && |s| > 0 && s[0].kind.Section?
    && (forall i :: 0 <= i < |s| ==> SoundEntry(s[i]))
    && (forall i :: 0 < i < |s| ==> !s[i].kind.Section?)
    && (forall i :: 0 <= i < |s| ==> Abuts(s, ceiling, i))
    && UniqueNames(s)
  }

  predicate Abuts(s: seq<Entry>, ceiling: nat, i: nat)
    requires i < |s|
  {
    s[i].at + HEADER + Extra(s[i]) == Top(s, ceiling, i)
  }

  predicate UniqueNames(s: seq<Entry>) {
    forall i, j :: 0 <= i < j < |s| && s[i].kind.Label? && s[j].kind.Label? ==> s[i].kind.name != s[j].kind.name
  }

  // ---- What the layout gives

  /** Everything an entry owns ends where an earlier one begins. */
  lemma {:induction false} Descending(s: seq<Entry>, ceiling: nat, i: nat, j: nat)
    requires Sound(s, ceiling) && i < j < |s|
    ensures s[j].at + HEADER + Extra(s[j]) <= s[i].at
    decreases j
  {
    assert Abuts(s, ceiling, j);
    if i < j - 1 {
      Descending(s, ceiling, i, j - 1);
    }
  }

  /** No byte belongs to two entries, headers and blocks alike, or to one at or above the ceiling. */
  lemma Disjoint(s: seq<Entry>, ceiling: nat, i: nat, j: nat, a: int)
    requires Sound(s, ceiling) && i < |s| && j < |s|
    requires s[i].at <= a < s[i].at + HEADER + Extra(s[i])
    requires s[j].at <= a < s[j].at + HEADER + Extra(s[j])
    ensures i == j && Last(s, ceiling) <= a < ceiling
  {
    if i < j {
      Descending(s, ceiling, i, j);
    } else if j < i {
      Descending(s, ceiling, j, i);
    }
    assert Abuts(s, ceiling, 0);
    if i > 0 {
      Descending(s, ceiling, 0, i);
    }
    if i < |s| - 1 {
      Descending(s, ceiling, i, |s| - 1);
    }
  }

  /** The bytes that headers and blocks take. */
  function Used(s: seq<Entry>): nat {
    if |s| == 0 then 0 else Used(s[..|s| - 1]) + HEADER + Extra(s[|s| - 1])
  }

  lemma {:induction false} UsedTo(s: seq<Entry>, ceiling: nat, n: nat)
    requires Sound(s, ceiling) && n <= |s|
    ensures Used(s[..n]) == ceiling - Top(s, ceiling, n)
  {
    if n > 0 {
      UsedTo(s, ceiling, n - 1);
      assert Abuts(s, ceiling, n - 1);
      assert s[..n][..n - 1] == s[..n - 1];
    }
  }

  /** Nothing is lost: the distance from the ceiling to the last entry is what the entries take. */
  lemma Conservation(s: seq<Entry>, ceiling: nat)
    requires Sound(s, ceiling)
    ensures Used(s) == ceiling - Last(s, ceiling)
  {
    UsedTo(s, ceiling, |s|);
    assert s[..|s|] == s;
  }

  // ---- Lookups

  predicate Named(e: Entry, name: Name) {
    e.kind.Label? && e.kind.name == name
  }

  predicate Refers(e: Entry, ptr: nat) {
    e.kind.Label? &&
    if e.kind.isCode then WithInterwork(e.addr, true) == ptr || WithInterwork(e.addr, false) == ptr
    else e.addr == ptr
  }

  predicate Covers(e: Entry, ptr: nat) {
    e.kind.Section? && e.addr <= ptr <= e.addr + e.kind.size
  }

  predicate Offers(e: Entry, size: nat) {
    e.kind.Block? && !e.kind.isAllocated && e.kind.blockSize >= size
  }

  /** What the loops over the list look for. */
  datatype Query =
    | ByName(name: Name)
    | ByAddress(ptr: nat)
    | ByRange(ptr: nat)
    | ByRoom(size: nat)
    | ByBlock(ptr: nat)

  predicate Fits(q: Query, e: Entry) {
    match q
    case ByName(name) => Named(e, name)
    case ByAddress(ptr) => Refers(e, ptr)
    case ByRange(ptr) => Covers(e, ptr)
    case ByRoom(size) => Offers(e, size)
    case ByBlock(ptr) => e.at + HEADER == ptr
  }

  /** The first entry that fits, or the length of the list. */
  function First(s: seq<Entry>, q: Query): (i: nat)
    ensures i <= |s|
    ensures forall k :: 0 <= k < i && k < |s| ==> !Fits(q, s[k])
    ensures i < |s| ==> Fits(q, s[i])
  {
    if s == [] then 0 else if Fits(q, s[0]) then 0 else First(s[1..], q) + 1
  }

  lemma FirstIs(s: seq<Entry>, q: Query, i: nat)
    requires i <= |s| && (forall k :: 0 <= k < i && k < |s| ==> !Fits(q, s[k])) && (i < |s| ==> Fits(q, s[i]))
    ensures First(s, q) == i
  {
  }

  function LookupLabel(s: seq<Entry>, name: Name): nat {
    First(s, ByName(name))
  }

  function RLookupLabel(s: seq<Entry>, ptr: nat): nat {
    First(s, ByAddress(ptr))
  }

  function FindFree(s: seq<Entry>, size: nat): nat {
    First(s, ByRoom(size))
  }

  // ---- Operations

  /** memory_init */
  function Initial(ceiling: nat, userStart: nat): seq<Entry>
    requires HEADER < ceiling
  {
    [Entry(ceiling - HEADER, userStart, Section(0))]
  }

  predicate LabelAccepted(s: seq<Entry>, name: Name) {
    ValidName(name) && LookupLabel(s, name) == |s|
  }

  function LabelAddress(ptr: nat, isCode: bool): nat {
    if isCode then WithInterwork(ptr, true) else ptr
  }

  /** memory_create_label */
  function CreateLabel(s: seq<Entry>, ceiling: nat, name: Name, ptr: nat, isCode: bool): seq<Entry>
    requires LabelAccepted(s, name) ==> RoomFor(s, ceiling, 0)
  {
    if !LabelAccepted(s, name) then s
    else s + [Entry(Place(s, ceiling, 0), LabelAddress(ptr, isCode), Label(isCode, name))]
  }

  /** memory_sys_alloc: the first free block that is large enough, or a new one. */
  function Alloc(s: seq<Entry>, ceiling: nat, size: nat): seq<Entry>
    requires FindFree(s, size) == |s| ==> RoomFor(s, ceiling, size)
  {
    var i := FindFree(s, size);
    if i < |s| then s[i := s[i].(kind := s[i].kind.(isAllocated := true))]
    else
      var at := Place(s, ceiling, size);
      s + [Entry(at, at + HEADER, Block(true, Last(s, ceiling) - (at + HEADER)))]
  }

  /** The entry that an allocation is made in. */
  function Allocated(s: seq<Entry>, size: nat): nat {
    FindFree(s, size)
  }

  predicate Live(s: seq<Entry>, ptr: nat) {
    exists i :: 0 <= i < |s| && LiveAt(s[i], ptr)
  }

  predicate LiveAt(e: Entry, ptr: nat) {
    e.kind.Block? && e.kind.isAllocated && e.addr == ptr
  }

  /** The entry whose header is directly before a pointer. */
  function HeaderOf(s: seq<Entry>, ptr: nat): nat {
    First(s, ByBlock(ptr))
  }

  /** memory_sys_free */
  function Free(s: seq<Entry>, ptr: nat): seq<Entry> {
    var i := HeaderOf(s, ptr);
    if i < |s| && LiveAt(s[i], ptr) then s[i := s[i].(kind := s[i].kind.(isAllocated := false))] else s
  }

  /** memory_update_section_size of the user section. */
  function ResizeUser(s: seq<Entry>, size: nat): seq<Entry>
    requires |s| > 0 && s[0].kind.Section?
  {
    s[0 := s[0].(kind := Section(size))]
  }

  // ---- Every operation keeps the invariant

  lemma InitialSound(ceiling: nat, userStart: nat)
    requires HEADER < ceiling
    ensures Sound(Initial(ceiling, userStart), ceiling)
  {
  }

  lemma AppendSound(s: seq<Entry>, ceiling: nat, e: Entry)
    requires Sound(s, ceiling) && SoundEntry(e) && !e.kind.Section?
    requires e.at + HEADER + Extra(e) == Last(s, ceiling)
    requires e.kind.Label? ==> forall i :: 0 <= i < |s| ==> !Named(s[i], e.kind.name)
    ensures Sound(s + [e], ceiling)
  {
    var t := s + [e];
    forall i | 0 <= i < |t| ensures Abuts(t, ceiling, i) {
      if i < |s| {
        assert Abuts(s, ceiling, i) && Top(t, ceiling, i) == Top(s, ceiling, i);
      }
    }
    forall i, j | 0 <= i < j < |t| && t[i].kind.Label? && t[j].kind.Label?
      ensures t[i].kind.name != t[j].kind.name
    {
      if j == |s| {
        assert !Named(s[i], e.kind.name);
      }
    }
  }

  /** Flags and section sizes may change in place. */
  predicate SameOutline(e: Entry, f: Entry) {
    && e.at == f.at && e.addr == f.addr
    && match e.kind
       case Section(_) => f.kind.Section?
       case Label(_, _) => f.kind == e.kind
       case Block(_, size) => f.kind.Block? && f.kind.blockSize == size
  }

  lemma UpdateSound(s: seq<Entry>, ceiling: nat, i: nat, e: Entry)
    requires Sound(s, ceiling) && i < |s| && SameOutline(s[i], e)
    ensures Sound(s[i := e], ceiling)
  {
    var t := s[i := e];
    forall k | 0 <= k < |t| ensures Abuts(t, ceiling, k) {
      assert Abuts(s, ceiling, k) && Top(t, ceiling, k) == Top(s, ceiling, k);
      assert Extra(t[k]) == Extra(s[k]);
    }
  }

  lemma CreateLabelSound(s: seq<Entry>, ceiling: nat, name: Name, ptr: nat, isCode: bool)
    requires Sound(s, ceiling) && (LabelAccepted(s, name) ==> RoomFor(s, ceiling, 0))
    ensures Sound(CreateLabel(s, ceiling, name, ptr, isCode), ceiling)
  {
    if LabelAccepted(s, name) {
      assert forall i :: 0 <= i < |s| && Named(s[i], name) ==> Fits(ByName(name), s[i]);
      AppendSound(s, ceiling, Entry(Place(s, ceiling, 0), LabelAddress(ptr, isCode), Label(isCode, name)));
    }
  }

  lemma AllocSound(s: seq<Entry>, ceiling: nat, size: nat)
    requires Sound(s, ceiling) && (FindFree(s, size) == |s| ==> RoomFor(s, ceiling, size))
    ensures Sound(Alloc(s, ceiling, size), ceiling)
  {
    var i := FindFree(s, size);
    if i < |s| {
      UpdateSound(s, ceiling, i, s[i].(kind := s[i].kind.(isAllocated := true)));
    } else {
      var at := Place(s, ceiling, size);
      NewBlockSize(s, ceiling, size);
      AppendSound(s, ceiling, Entry(at, at + HEADER, Block(true, Last(s, ceiling) - (at + HEADER))));
    }
  }

  /** A new block is the size asked for, rounded up to whole headers. */
  lemma NewBlockSize(s: seq<Entry>, ceiling: nat, size: nat)
    ensures
      var block := Last(s, ceiling) - (Place(s, ceiling, size) + HEADER);
      block % 24 == 0 && size <= block < size + 24
  {
  }

  lemma FreeSound(s: seq<Entry>, ceiling: nat, ptr: nat)
    requires Sound(s, ceiling)
    ensures Sound(Free(s, ptr), ceiling)
  {
    var i := HeaderOf(s, ptr);
    if i < |s| && LiveAt(s[i], ptr) {
      UpdateSound(s, ceiling, i, s[i].(kind := s[i].kind.(isAllocated := false)));
    }
  }

  // ---- Allocation

  /** The block given out is large enough, was free or is new, is the first that would do, and the
      last entry moves only when none would. */
  lemma AllocGives(s: seq<Entry>, ceiling: nat, size: nat)
    requires Sound(s, ceiling) && (FindFree(s, size) == |s| ==> RoomFor(s, ceiling, size))
    ensures
      var t := Alloc(s, ceiling, size);
      var i := Allocated(s, size);
      && i < |t| && LiveAt(t[i], t[i].addr) && t[i].kind.blockSize >= size
      && (forall k :: 0 <= k < i && k < |s| ==> !Offers(s[k], size))
      && (if i < |s| then Offers(s[i], size) && Last(t, ceiling) == Last(s, ceiling)
          else Last(t, ceiling) < Last(s, ceiling) && t[i].kind.blockSize < size + HEADER)
  {
    var i := FindFree(s, size);
    assert forall k :: 0 <= k < i && k < |s| && Offers(s[k], size) ==> Fits(ByRoom(size), s[k]);
    if i == |s| {
      NewBlockSize(s, ceiling, size);
    } else {
      assert Fits(ByRoom(size), s[i]);
    }
  }

  /** Freeing a live block finds exactly its own header. */
  lemma HeaderFound(s: seq<Entry>, ceiling: nat, i: nat)
    requires Sound(s, ceiling) && i < |s| && s[i].kind.Block?
    ensures HeaderOf(s, s[i].addr) == i
  {
    forall k | 0 <= k < i ensures !Fits(ByBlock(s[i].addr), s[k]) {
      Descending(s, ceiling, k, i);
    }
    FirstIs(s, ByBlock(s[i].addr), i);
  }

  /** A block that was given out and freed again is given out again, or one before it. */
  lemma FreeThenAlloc(s: seq<Entry>, ceiling: nat, i: nat, size: nat)
    requires Sound(s, ceiling) && i < |s| && LiveAt(s[i], s[i].addr) && size <= s[i].kind.blockSize
    ensures
      var t := Free(s, s[i].addr);
      && t[i].kind == Block(false, s[i].kind.blockSize) && FindFree(t, size) <= i
  {
    HeaderFound(s, ceiling, i);
    var t := Free(s, s[i].addr);
    assert Fits(ByRoom(size), t[i]);
  }

  /** Free undoes an allocation that made a new block, but for the block itself. */
  lemma AllocThenFree(s: seq<Entry>, ceiling: nat, size: nat)
    requires Sound(s, ceiling) && (FindFree(s, size) == |s| ==> RoomFor(s, ceiling, size))
    ensures
      var t := Alloc(s, ceiling, size);
      var u := Free(t, t[Allocated(s, size)].addr);
      if Allocated(s, size) < |s| then u == s
      else |u| == |s| + 1 && u[..|s|] == s && Offers(u[|s|], size)
  {
    var t := Alloc(s, ceiling, size);
    var i := Allocated(s, size);
    AllocGives(s, ceiling, size);
    AllocSound(s, ceiling, size);
    HeaderFound(t, ceiling, i);
  }

  // ---- Labels as a map

  datatype Target = Target(addr: nat, isCode: bool)

  function Labels(s: seq<Entry>): map<Name, Target> {
    if s == [] then map[]
    else
      var e := s[|s| - 1];
      var m := Labels(s[..|s| - 1]);
      if e.kind.Label? then m[e.kind.name := Target(e.addr, e.kind.isCode)] else m
  }

  lemma {:induction false} LabelsHas(s: seq<Entry>, name: Name)
    requires UniqueNames(s)
    ensures name in Labels(s) <==> exists i :: 0 <= i < |s| && Named(s[i], name)
    ensures forall i :: 0 <= i < |s| && Named(s[i], name) ==>
      name in Labels(s) && Labels(s)[name] == Target(s[i].addr, s[i].kind.isCode)
  {
    if s != [] {
      var r := s[..|s| - 1];
      LabelsHas(r, name);
      if Named(s[|s| - 1], name) {
        assert forall i :: 0 <= i < |r| ==> !Named(r[i], name);
      }
    }
  }

  /** A lookup finds an entry exactly for the names in the map, and finds what the map says. */
  lemma LookupIsMap(s: seq<Entry>, ceiling: nat, name: Name)
    requires Sound(s, ceiling)
    ensures LookupLabel(s, name) < |s| <==> name in Labels(s)
    ensures LookupLabel(s, name) < |s| ==>
      var e := s[LookupLabel(s, name)];
      Named(e, name) && Labels(s)[name] == Target(e.addr, e.kind.isCode)
  {
    LabelsHas(s, name);
    var i := LookupLabel(s, name);
    assert forall k :: 0 <= k < |s| && Named(s[k], name) ==> Fits(ByName(name), s[k]);
    if i < |s| {
      assert Fits(ByName(name), s[i]);
    }
  }

  lemma LabelsAppend(s: seq<Entry>, e: Entry)
    ensures Labels(s + [e]) ==
      if e.kind.Label? then Labels(s)[e.kind.name := Target(e.addr, e.kind.isCode)] else Labels(s)
  {
    assert (s + [e])[..|s|] == s;
  }

  lemma {:induction false} LabelsUpdate(s: seq<Entry>, i: nat, e: Entry)
    requires i < |s| && SameOutline(s[i], e)
    ensures Labels(s[i := e]) == Labels(s)
    decreases |s|
  {
    var n := |s| - 1;
    if i < n {
      assert s[i := e][..n] == s[..n][i := e];
      LabelsUpdate(s[..n], i, e);
    } else {
      assert s[i := e][..n] == s[..n];
    }
  }

  /** A label is accepted if and only if its name has 1 to 8 bytes and is new. It keeps the address it
      was given, which for code is made odd, and a lookup of that address finds it or an earlier one. */
  lemma LabelKept(s: seq<Entry>, ceiling: nat, name: Name, ptr: nat, isCode: bool)
    requires Sound(s, ceiling) && (LabelAccepted(s, name) ==> RoomFor(s, ceiling, 0))
    ensures
      var t := CreateLabel(s, ceiling, name, ptr, isCode);
      if 1 <= |name| <= 8 && name !in Labels(s) then
        && |t| == |s| + 1 && t[..|s|] == s && name in Labels(t)
        && Labels(t)[name] == Target(if isCode then 2 * (ptr / 2) + 1 else ptr, isCode)
        && RLookupLabel(t, ptr) <= |s| && Marks(t[|s|], ptr)
      else t == s
  {
    LookupIsMap(s, ceiling, name);
    var t := CreateLabel(s, ceiling, name, ptr, isCode);
    if LabelAccepted(s, name) {
      CreateLabelSound(s, ceiling, name, ptr, isCode);
      LabelsAppend(s, t[|s|]);
      RLookupEarliest(t, ceiling, ptr);
    }
  }

  /** The user section is the only one, and both its ends belong to it. */
  lemma SectionLookup(s: seq<Entry>, ceiling: nat, ptr: nat)
    requires Sound(s, ceiling)
    ensures
      First(s, ByRange(ptr)) == if s[0].addr <= ptr <= s[0].addr + s[0].kind.size then 0 else |s|
  {
    FirstIs(s, ByRange(ptr), if s[0].addr <= ptr <= s[0].addr + s[0].kind.size then 0 else |s|);
  }

  /** A label of an address, where code may also be named without the interworking bit. */
  predicate Marks(e: Entry, ptr: nat) {
    e.kind.Label? && (e.addr == ptr || (e.kind.isCode && e.addr == ptr + 1))
  }

  /** The earliest label that refers to an address, with or without the interworking bit. */
  lemma RLookupEarliest(s: seq<Entry>, ceiling: nat, ptr: nat)
    requires Sound(s, ceiling)
    ensures
      var i := RLookupLabel(s, ptr);
      && (i < |s| ==> Marks(s[i], ptr))
      && (forall k :: 0 <= k < |s| && Marks(s[k], ptr) ==> i <= k)
  {
    var i := RLookupLabel(s, ptr);
    if i < |s| {
      assert Fits(ByAddress(ptr), s[i]) && SoundEntry(s[i]);
    }
    forall k | 0 <= k < |s| && Marks(s[k], ptr) ensures i <= k {
      assert SoundEntry(s[k]);
      assert Fits(ByAddress(ptr), s[k]);
    }
  }

  // ---- Whole runs

  datatype Op =
    | NewLabel(name: Name, ptr: nat, isCode: bool)
    | Allocate(size: nat)
    | Release(ptr: nat)
    | Resize(size: nat)

  /** What an operation asks of its caller: address room, and a live block to release. */
  predicate Allowed(s: seq<Entry>, ceiling: nat, op: Op) {
    match op
    case NewLabel(name, _, _) => LabelAccepted(s, name) ==> RoomFor(s, ceiling, 0)
    case Allocate(size) => FindFree(s, size) == |s| ==> RoomFor(s, ceiling, size)
    case Release(ptr) => Live(s, ptr)
    case Resize(_) => true
  }

  function Apply(s: seq<Entry>, ceiling: nat, op: Op): seq<Entry>
    requires Sound(s, ceiling) && Allowed(s, ceiling, op)
  {
    match op
    case NewLabel(name, ptr, isCode) => CreateLabel(s, ceiling, name, ptr, isCode)
    case Allocate(size) => Alloc(s, ceiling, size)
    case Release(ptr) => Free(s, ptr)
    case Resize(size) => ResizeUser(s, size)
  }

  lemma ApplySound(s: seq<Entry>, ceiling: nat, op: Op)
    requires Sound(s, ceiling) && Allowed(s, ceiling, op)
    ensures Sound(Apply(s, ceiling, op), ceiling)
  {
    match op
    case NewLabel(name, ptr, isCode) => CreateLabelSound(s, ceiling, name, ptr, isCode);
    case Allocate(size) => AllocSound(s, ceiling, size);
    case Release(ptr) => FreeSound(s, ceiling, ptr);
    case Resize(size) => UpdateSound(s, ceiling, 0, s[0].(kind := Section(size)));
  }

  /** A run: the states between operations, each allowed where it happens. Operations are defined on
      sound lists only; that every list of a run is sound is left to be proved. */
  predicate IsRun(states: seq<seq<Entry>>, ceiling: nat, ops: seq<Op>) {
    && |states| == |ops| + 1
    && forall i :: 0 <= i < |ops| ==> Leads(states[i], ceiling, ops[i], states[i + 1])
  }

  predicate Leads(s: seq<Entry>, ceiling: nat, op: Op, t: seq<Entry>) {
    Sound(s, ceiling) ==> Allowed(s, ceiling, op) && t == Apply(s, ceiling, op)
  }

  /** The list stays sound in every run. */
  lemma {:induction false} RunSound(states: seq<seq<Entry>>, ceiling: nat, ops: seq<Op>, n: nat)
    requires IsRun(states, ceiling, ops) && Sound(states[0], ceiling) && n <= |ops|
    ensures Sound(states[n], ceiling)
  {
    if n > 0 {
      RunSound(states, ceiling, ops, n - 1);
      assert Leads(states[n - 1], ceiling, ops[n - 1], states[n]);
      ApplySound(states[n - 1], ceiling, ops[n - 1]);
    }
  }

  /** The map a run leaves, from the label requests alone: the first request for a name wins. */
  function MapAfter(m: map<Name, Target>, ops: seq<Op>): map<Name, Target> {
    if ops == [] then m
    else
      var before := MapAfter(m, ops[..|ops| - 1]);
      match ops[|ops| - 1]
      case NewLabel(name, ptr, isCode) =>
        if 1 <= |name| <= 8 && name !in before then
          before[name := Target(if isCode then 2 * (ptr / 2) + 1 else ptr, isCode)]
        else before
      case _ => before
  }

  lemma ApplyMap(s: seq<Entry>, ceiling: nat, op: Op)
    requires Sound(s, ceiling) && Allowed(s, ceiling, op)
    ensures Labels(Apply(s, ceiling, op)) == MapAfter(Labels(s), [op])
  {
    assert [op][..0] == [];
    match op
    case NewLabel(name, ptr, isCode) =>
      LookupIsMap(s, ceiling, name);
      if LabelAccepted(s, name) {
        LabelsAppend(s, Entry(Place(s, ceiling, 0), LabelAddress(ptr, isCode), Label(isCode, name)));
      }
    case Allocate(size) =>
      var i := FindFree(s, size);
      if i < |s| {
        LabelsUpdate(s, i, s[i].(kind := s[i].kind.(isAllocated := true)));
      } else {
        var t := Alloc(s, ceiling, size);
        LabelsAppend(s, t[|s|]);
      }
    case Release(ptr) =>
      var i := HeaderOf(s, ptr);
      if i < |s| && LiveAt(s[i], ptr) {
        LabelsUpdate(s, i, s[i].(kind := s[i].kind.(isAllocated := false)));
      }
    case Resize(size) =>
      LabelsUpdate(s, 0, s[0].(kind := Section(size)));
  }

  /** In every run the list refines a map from names: allocations, releases and resizing never
      change a lookup. */
  lemma {:induction false} RunRefinesMap(states: seq<seq<Entry>>, ceiling: nat, ops: seq<Op>, n: nat)
    requires IsRun(states, ceiling, ops) && Sound(states[0], ceiling) && n <= |ops|
    ensures Labels(states[n]) == MapAfter(Labels(states[0]), ops[..n])
  {
    if n == 0 {
      assert ops[..0] == [];
    } else {
      RunRefinesMap(states, ceiling, ops, n - 1);
      RunSound(states, ceiling, ops, n - 1);
      assert Leads(states[n - 1], ceiling, ops[n - 1], states[n]);
      ApplyMap(states[n - 1], ceiling, ops[n - 1]);
      assert ops[..n][..n - 1] == ops[..n - 1];
      assert [ops[n - 1]][..0] == [];
    }
  }

  /** After memory_init and any run, the list is sound and holds the labels that were asked for. */
  lemma RunFromInitial(
    states: seq<seq<Entry>>, ceiling: nat, userStart: nat, ops: seq<Op>, n: nat)
    requires HEADER < ceiling && IsRun(states, ceiling, ops) && n <= |ops|
    requires states[0] == Initial(ceiling, userStart)
    ensures Sound(states[n], ceiling) && Labels(states[n]) == MapAfter(map[], ops[..n])
    ensures Used(states[n]) == ceiling - Last(states[n], ceiling)
  {
    InitialSound(ceiling, userStart);
    RunSound(states, ceiling, ops, n);
    RunRefinesMap(states, ceiling, ops, n);
    Conservation(states[n], ceiling);
    NoLabels(states[0]);
  }

  /** The size that the user section was given last. */
  function SizeAfter(ops: seq<Op>): nat {
    if ops == [] then 0
    else match ops[|ops| - 1] case Resize(size) => size case _ => SizeAfter(ops[..|ops| - 1])
  }

  /** In every run from memory_init the user section stays the first entry, directly below the stack
      ceiling, starts where it did, and has the size it was given last. */
  lemma {:induction false} UserSection(
    states: seq<seq<Entry>>, ceiling: nat, userStart: nat, ops: seq<Op>, n: nat)
    requires HEADER < ceiling && IsRun(states, ceiling, ops) && n <= |ops|
    requires states[0] == Initial(ceiling, userStart)
    ensures |states[n]| > 0 && states[n][0] == Entry(ceiling - 24, userStart, Section(SizeAfter(ops[..n])))
  {
    if n > 0 {
      UserSection(states, ceiling, userStart, ops, n - 1);
      InitialSound(ceiling, userStart);
      RunSound(states, ceiling, ops, n - 1);
      assert Leads(states[n - 1], ceiling, ops[n - 1], states[n]);
      FirstStays(states[n - 1], ceiling, ops[n - 1]);
      assert ops[..n][..n - 1] == ops[..n - 1];
    }
  }

  lemma FirstStays(s: seq<Entry>, ceiling: nat, op: Op)
    requires Sound(s, ceiling) && Allowed(s, ceiling, op)
    ensures
      var t := Apply(s, ceiling, op);
      |t| > 0 && t[0] == if op.Resize? then s[0].(kind := Section(op.size)) else s[0]
  {
  }

  lemma NoLabels(s: seq<Entry>)
    requires |s| == 1 && s[0].kind.Section?
    ensures Labels(s) == map[]
  {
    assert s[..0] == [];
  }

  /** Allocating, freeing and resizing change no label lookup, by name or by address. */
  lemma LookupsUnchanged(s: seq<Entry>, ceiling: nat, op: Op, q: Query)
    requires Sound(s, ceiling) && Allowed(s, ceiling, op) && !op.NewLabel? && (q.ByName? || q.ByAddress?)
    ensures
      var t := Apply(s, ceiling, op);
      First(t, q) == if First(s, q) < |s| then First(s, q) else |t|
  {
    var t := Apply(s, ceiling, op);
    ApplyExtends(s, ceiling, op);
    assert forall k :: 0 <= k < |s| ==> SameOutline(s[k], t[k]) && Fits(q, t[k]) == Fits(q, s[k]);
    FirstIs(t, q, if First(s, q) < |s| then First(s, q) else |t|);
  }

  /** Entries never move: later states extend earlier ones. */
  predicate Extends(s: seq<Entry>, t: seq<Entry>) {
    |s| <= |t| && forall i :: 0 <= i < |s| ==> SameOutline(s[i], t[i])
  }

  lemma ApplyExtends(s: seq<Entry>, ceiling: nat, op: Op)
    requires Sound(s, ceiling) && Allowed(s, ceiling, op)
    ensures Extends(s, Apply(s, ceiling, op))
  {
  }

  /** A block that is live stays live, at its place and of its size, until it is released. */
  lemma {:induction false} LiveUntilReleased(
    states: seq<seq<Entry>>, ceiling: nat, ops: seq<Op>, i: nat, n: nat)
    requires IsRun(states, ceiling, ops) && Sound(states[0], ceiling) && n <= |ops|
    requires i < |states[0]| && LiveAt(states[0][i], states[0][i].addr)
    requires forall k :: 0 <= k < n ==> ops[k] != Release(states[0][i].addr)
    ensures i < |states[n]| && states[n][i] == states[0][i]
  {
    if n > 0 {
      LiveUntilReleased(states, ceiling, ops, i, n - 1);
      RunSound(states, ceiling, ops, n - 1);
      assert Leads(states[n - 1], ceiling, ops[n - 1], states[n]);
      StaysLive(states[n - 1], ceiling, ops[n - 1], i);
    }
  }

  lemma StaysLive(s: seq<Entry>, ceiling: nat, op: Op, i: nat)
    requires Sound(s, ceiling) && Allowed(s, ceiling, op)
    requires i < |s| && LiveAt(s[i], s[i].addr) && op != Release(s[i].addr)
    ensures i < |Apply(s, ceiling, op)| && Apply(s, ceiling, op)[i] == s[i]
  {
    match op
    case Allocate(size) =>
    case _ =>
  }
}
