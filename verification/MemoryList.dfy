// The list of memory entries as monitor/memory.c keeps it: headers at addresses, linked from the
// first one below the stack ceiling down to the last one.

module MemoryList {
  import opened Bytes
  import opened MemoryEntries

  /** struct memory_entry, where an address of 0 is the null pointer. */
  datatype Cell = Cell(next: nat, addr: nat, kind: Kind)

  /** Where an entry's next pointer leads. */
  function Following(s: seq<Entry>, i: nat): nat
    requires i < |s|
  {
    if i + 1 < |s| then s[i + 1].at else 0
  }

  predicate Linked(s: seq<Entry>, cells: map<nat, Cell>, i: nat)
    requires i < |s|
  {
    s[i].at in cells && cells[s[i].at] == Cell(Following(s, i), s[i].addr, s[i].kind)
  }

  predicate Threaded(s: seq<Entry>, cells: map<nat, Cell>) {
    forall i :: 0 <= i < |s| ==> Linked(s, cells, i)
  }

  lemma AppendThreads(s: seq<Entry>, ceiling: nat, cells: map<nat, Cell>, e: Entry)
    requires |s| > 0 && Threaded(s, cells) && Sound(s + [e], ceiling)
    ensures
      var last := s[|s| - 1].at;
      last in cells && Threaded(s + [e], cells[last := cells[last].(next := e.at)][e.at := Cell(0, e.addr, e.kind)])
  {
    var t := s + [e];
    var last := s[|s| - 1].at;
    assert Linked(s, cells, |s| - 1);
    var linked := cells[last := cells[last].(next := e.at)][e.at := Cell(0, e.addr, e.kind)];
    forall i | 0 <= i < |t| ensures Linked(t, linked, i) {
      if i < |s| {
        assert Linked(s, cells, i);
        Descending(t, ceiling, i, |s|);
        if i < |s| - 1 {
          Descending(t, ceiling, i, |s| - 1);
        }
      }
    }
  }

  lemma UpdateThreads(s: seq<Entry>, ceiling: nat, cells: map<nat, Cell>, i: nat, kind: Kind)
    requires Threaded(s, cells) && Sound(s, ceiling) && i < |s|
    ensures
      var at := s[i].at;
      at in cells && Threaded(s[i := s[i].(kind := kind)], cells[at := cells[at].(kind := kind)])
  {
    assert Linked(s, cells, i);
    var t := s[i := s[i].(kind := kind)];
    var updated := cells[s[i].at := cells[s[i].at].(kind := kind)];
    forall k | 0 <= k < |t| ensures Linked(t, updated, k) {
      assert Linked(s, cells, k);
      if k < i {
        Descending(s, ceiling, k, i);
      } else if i < k {
        Descending(s, ceiling, i, k);
      }
    }
  }

  class Memory {
    const stackCeiling: nat
    var cells: map<nat, Cell>
    var lastMemoryEntry: nat
    ghost var entries: seq<Entry>

    /** The pointers thread the entries in order, and the last one ends the list. */
    ghost predicate Valid()
      reads this
    {
      && Sound(entries, stackCeiling)
      && lastMemoryEntry == Last(entries, stackCeiling)
      && Threaded(entries, cells)
    }

    /** memory_init. The first link is written into what lies at the ceiling, past the list. */
    constructor (ceiling: nat, userStart: nat)
      requires HEADER < ceiling
      ensures Valid() && stackCeiling == ceiling && entries == Initial(ceiling, userStart)
    {
      stackCeiling := ceiling;
      cells := map[ceiling := Cell(0, 0, Section(0))];
      lastMemoryEntry := ceiling - HEADER + HEADER;
      entries := [];
      new;
      var entry := CreateMemoryEntry(0);
      cells := cells[entry := Cell(0, userStart, Section(0))];
      entries := Initial(ceiling, userStart);
      assert Linked(entries, cells, 0);
    }

    method CreateMemoryEntry(extraSize: nat) returns (result: nat)
      requires lastMemoryEntry in cells
      requires HEADER + Units(extraSize) * HEADER < lastMemoryEntry
      modifies this`cells, this`lastMemoryEntry
      ensures result == old(lastMemoryEntry) - HEADER - Units(extraSize) * HEADER
      ensures lastMemoryEntry == result
      ensures cells == old(cells)[old(lastMemoryEntry) := old(cells[lastMemoryEntry]).(next := result)]
    {
      var extraSizeInMemoryEntries := extraSize / HEADER;
      extraSizeInMemoryEntries := extraSizeInMemoryEntries + if extraSize % HEADER != 0 then 1 else 0;
      result := lastMemoryEntry - HEADER - extraSizeInMemoryEntries * HEADER;
      cells := cells[lastMemoryEntry := cells[lastMemoryEntry].(next := result)];
      lastMemoryEntry := result;
    }

    /** Changing one entry in place. */
    method Update(at: nat, kind: Kind, ghost i: nat)
      requires Valid() && i < |entries| && entries[i].at == at
      requires SameOutline(entries[i], entries[i].(kind := kind))
      modifies this`cells, this`entries
      ensures Valid() && entries == old(entries)[i := old(entries)[i].(kind := kind)]
    {
      UpdateSound(entries, stackCeiling, i, entries[i].(kind := kind));
      UpdateThreads(entries, stackCeiling, cells, i, kind);
      cells := cells[at := cells[at].(kind := kind)];
      entries := entries[i := entries[i].(kind := kind)];
    }

    // ---- Lookups

    /** The entry that a lookup comes to, or null. */
    ghost function Found(q: Query): nat
      requires Valid()
      reads this
    {
      var i := First(entries, q);
      if i < |entries| then entries[i].at else 0
    }

    lemma Advance(q: Query, i: nat)
      requires Valid() && i < |entries| && First(entries[i..], q) + i == First(entries, q)
      ensures First(entries[i..], q) == if Fits(q, entries[i]) then 0 else First(entries[i + 1..], q) + 1
    {
      assert entries[i..][1..] == entries[i + 1..];
    }

    method LookupLabel(name: Name) returns (current: nat)
      requires Valid()
      ensures current == Found(ByName(name))
    {
      current := stackCeiling - HEADER;
      ghost var q := ByName(name);
      ghost var i := 0;
      assert entries[0..] == entries && Abuts(entries, stackCeiling, 0) && Linked(entries, cells, 0);
      while current != 0
        invariant 0 <= i <= |entries|
        invariant current == if i < |entries| then entries[i].at else 0
        invariant First(entries[i..], q) + i == First(entries, q)
        decreases |entries| - i
      {
        assert Linked(entries, cells, i);
        Advance(q, i);
        var kind := cells[current].kind;
        if kind.Label? && |kind.name| == |name| {
          var difference := Memcmp(kind.name, name, |name|);
          assert kind.name[..|name|] == kind.name && name[..|name|] == name;
          if difference == 0 {
            return current;
          }
        }
        current := cells[current].next;
        i := i + 1;
      }
    }

    method RLookupLabel(ptr: nat) returns (current: nat)
      requires Valid()
      ensures current == Found(ByAddress(ptr))
    {
      current := stackCeiling - HEADER;
      ghost var q := ByAddress(ptr);
      ghost var i := 0;
      assert entries[0..] == entries && Abuts(entries, stackCeiling, 0) && Linked(entries, cells, 0);
      while current != 0
        invariant 0 <= i <= |entries|
        invariant current == if i < |entries| then entries[i].at else 0
        invariant First(entries[i..], q) + i == First(entries, q)
        decreases |entries| - i
      {
        assert Linked(entries, cells, i);
        Advance(q, i);
        var cell := cells[current];
        if cell.kind.Label? {
          if cell.kind.isCode {
            var intwrkBitPtr := WithInterwork(cell.addr, true);
            var woIntwrkBitPtr := WithInterwork(cell.addr, false);
            if intwrkBitPtr == ptr || woIntwrkBitPtr == ptr {
              return current;
            }
          } else if cell.addr == ptr {
            return current;
          }
        }
        current := cell.next;
        i := i + 1;
      }
    }

    method LookupSection(ptr: nat) returns (current: nat)
      requires Valid()
      ensures current == Found(ByRange(ptr))
    {
      current := stackCeiling - HEADER;
      ghost var q := ByRange(ptr);
      ghost var i := 0;
      assert entries[0..] == entries && Abuts(entries, stackCeiling, 0) && Linked(entries, cells, 0);
      while current != 0
        invariant 0 <= i <= |entries|
        invariant current == if i < |entries| then entries[i].at else 0
        invariant First(entries[i..], q) + i == First(entries, q)
        decreases |entries| - i
      {
        assert Linked(entries, cells, i);
        Advance(q, i);
        var cell := cells[current];
        if cell.kind.Section? {
          var secStart := cell.addr;
          var secEnd := secStart + cell.kind.size;
          if secStart <= ptr && ptr <= secEnd {
            return current;
          }
        }
        current := cell.next;
        i := i + 1;
      }
    }

    method FindFreeAllocation(size: nat) returns (current: nat)
      requires Valid()
      ensures current == Found(ByRoom(size))
    {
      current := stackCeiling - HEADER;
      ghost var q := ByRoom(size);
      ghost var i := 0;
      assert entries[0..] == entries && Abuts(entries, stackCeiling, 0) && Linked(entries, cells, 0);
      while current != 0
        invariant 0 <= i <= |entries|
        invariant current == if i < |entries| then entries[i].at else 0
        invariant First(entries[i..], q) + i == First(entries, q)
        decreases |entries| - i
      {
        assert Linked(entries, cells, i);
        Advance(q, i);
        var cell := cells[current];
        if cell.kind.Block? && !cell.kind.isAllocated && cell.kind.blockSize >= size {
          return current;
        }
        current := cell.next;
        i := i + 1;
      }
    }

    // ---- Changing the list

    method CreateLabel(name: Name, ptr: nat, isCode: bool) returns (created: bool)
      requires Valid()
      requires LabelAccepted(entries, name) ==> RoomFor(entries, stackCeiling, 0)
      modifies this
      ensures Valid() && created == LabelAccepted(old(entries), name)
      ensures entries == MemoryEntries.CreateLabel(old(entries), stackCeiling, name, ptr, isCode)
    {
      if |name| == 0 || |name| > MAX_NAME_LEN {
        return false;
      }
      assert forall i :: 0 <= i < |entries| ==> SoundEntry(entries[i]) && entries[i].at != 0;
      var existing := LookupLabel(name);
      if existing != 0 {
        return false;
      }
      CreateLabelSound(entries, stackCeiling, name, ptr, isCode);
      ghost var e := Entry(Place(entries, stackCeiling, 0), LabelAddress(ptr, isCode), Label(isCode, name));
      AppendThreads(entries, stackCeiling, cells, e);
      var newLabel := CreateMemoryEntry(0);
      var addr := ptr;
      if isCode {
        addr := WithInterwork(addr, true);
      }
      cells := cells[newLabel := Cell(0, addr, Label(isCode, name))];
      entries := entries + [e];
      return true;
    }

    method SysAlloc(size: nat) returns (addr: nat)
      requires Valid()
      requires FindFree(entries, size) == |entries| ==> RoomFor(entries, stackCeiling, size)
      modifies this
      ensures Valid() && entries == Alloc(old(entries), stackCeiling, size)
      ensures LiveAt(entries[Allocated(old(entries), size)], addr)
    {
      ghost var i := FindFree(entries, size);
      AllocGives(entries, stackCeiling, size);
      AllocSound(entries, stackCeiling, size);
      var newAlloc := FindFreeAllocation(size);
      assert i < |entries| ==> SoundEntry(entries[i]) && Linked(entries, cells, i);
      if newAlloc != 0 {
        var cell := cells[newAlloc];
        Update(newAlloc, cell.kind.(isAllocated := true), i);
        addr := cell.addr;
      } else {
        ghost var e := Alloc(entries, stackCeiling, size)[|entries|];
        AppendThreads(entries, stackCeiling, cells, e);
        var originalLast := lastMemoryEntry;
        newAlloc := CreateMemoryEntry(size);
        addr := newAlloc + HEADER;
        var actualSize := originalLast - addr;
        cells := cells[newAlloc := Cell(0, addr, Block(true, actualSize))];
        entries := entries + [e];
      }
    }

    /** The block must be live, or the assertions on its header fail. */
    method SysFree(ptr: nat)
      requires Valid() && Live(entries, ptr)
      modifies this
      ensures Valid() && entries == Free(old(entries), ptr)
    {
      ghost var i :| 0 <= i < |entries| && LiveAt(entries[i], ptr);
      assert SoundEntry(entries[i]) && Linked(entries, cells, i);
      HeaderFound(entries, stackCeiling, i);
      var allocEntry := ptr - HEADER;
      assert cells[allocEntry].kind.Block?;
      assert cells[allocEntry].kind.isAllocated;
      Update(allocEntry, cells[allocEntry].kind.(isAllocated := false), i);
    }

    method UpdateUserSectionSize(newSize: nat)
      requires Valid()
      modifies this
      ensures Valid() && entries == ResizeUser(old(entries), newSize)
    {
      assert Abuts(entries, stackCeiling, 0) && Linked(entries, cells, 0);
      var userSection := stackCeiling - HEADER;
      assert cells[userSection].kind.Section?;
      Update(userSection, Section(newSize), 0);
    }
  }
}
