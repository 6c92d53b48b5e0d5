// A stream of instructions of two lengths in memory, which can only be walked forwards.

module InstructionStream {
  import opened ThumbAsm
  import opened ThumbMemory

  /** An instruction starts at p when memory is walked from start. */
  predicate Boundary(mem: seq<bv16>, start: nat, p: nat)
    decreases p - start
  {
    p == start || (start < p && Boundary(mem, Next(mem, start), p))
  }

  /** Where k steps from start lead. */
  function Walk(mem: seq<bv16>, start: nat, k: nat): nat {
    if k == 0 then start else Next(mem, Walk(mem, start, k - 1))
  }

  lemma {:induction false} BoundaryJoin(mem: seq<bv16>, a: nat, b: nat, c: nat)
    requires Boundary(mem, a, b) && Boundary(mem, b, c)
    ensures Boundary(mem, a, c)
    decreases b - a
  {
    if a < b {
      BoundaryForward(mem, b, c);
      BoundaryForward(mem, Next(mem, a), b);
      BoundaryJoin(mem, Next(mem, a), b, c);
    }
  }

  lemma BoundaryForward(mem: seq<bv16>, a: nat, b: nat)
    requires Boundary(mem, a, b)
    ensures a <= b
  {
  }

  lemma BoundaryNext(mem: seq<bv16>, a: nat, p: nat)
    requires Boundary(mem, a, p)
    ensures Boundary(mem, a, Next(mem, p))
  {
    assert Boundary(mem, Next(mem, p), Next(mem, p));
    assert Boundary(mem, p, Next(mem, p));
    BoundaryJoin(mem, a, p, Next(mem, p));
  }

  /** Of two places on the same walk, the earlier leads to the later. */
  lemma {:induction false} BoundaryBetween(mem: seq<bv16>, a: nat, b: nat, c: nat)
    requires Boundary(mem, a, b) && Boundary(mem, a, c) && b <= c
    ensures Boundary(mem, b, c)
    decreases b - a
  {
    if a < b {
      BoundaryForward(mem, Next(mem, a), b);
      BoundaryBetween(mem, Next(mem, a), b, c);
    }
  }

  /** A step from one place of a walk does not pass a later one. */
  lemma StepInside(mem: seq<bv16>, a: nat, p: nat, q: nat)
    requires Boundary(mem, a, p) && Boundary(mem, a, q) && p < q
    ensures Next(mem, p) <= q && Boundary(mem, a, Next(mem, p))
  {
    BoundaryBetween(mem, a, p, q);
    BoundaryForward(mem, Next(mem, p), q);
    BoundaryNext(mem, a, p);
  }

  /** Only what lies before a place decides whether the walk gets there. */
  lemma {:induction false} BoundaryFrame(mem: seq<bv16>, after: seq<bv16>, a: nat, p: nat)
    requires |mem| == |after| && forall i :: a <= i < p && i < |mem| ==> mem[i] == after[i]
    ensures Boundary(mem, a, p) <==> Boundary(after, a, p)
    decreases p - a
  {
    if a < p {
      assert Next(mem, a) == Next(after, a);
      if Next(mem, a) <= p {
        BoundaryFrame(mem, after, Next(mem, a), p);
      }
    }
  }

  /** A walk reaches a place if and only if the place is a boundary. */
  lemma WalkReaches(mem: seq<bv16>, start: nat, k: nat)
    ensures Boundary(mem, start, Walk(mem, start, k))
  {
    if k > 0 {
      WalkReaches(mem, start, k - 1);
      BoundaryNext(mem, start, Walk(mem, start, k - 1));
    }
  }

  /** The last instruction before a place, found by walking there from start. */
  function Previous(mem: seq<bv16>, start: nat, current: nat): (p: nat)
    requires start < current && Boundary(mem, start, current)
    ensures Boundary(mem, start, p) && start <= p < current && Next(mem, p) == current
    decreases current - start
  {
    if Next(mem, start) == current then start
    else
      BoundaryForward(mem, Next(mem, start), current);
      Previous(mem, Next(mem, start), current)
  }

  lemma {:induction false} WalkTo(mem: seq<bv16>, start: nat, p: nat) returns (k: nat)
    requires Boundary(mem, start, p)
    ensures Walk(mem, start, k) == p
    decreases p - start
  {
    k := 0;
    if start < p {
      BoundaryForward(mem, Next(mem, start), p);
      var rest := WalkTo(mem, Next(mem, start), p);
      WalkOn(mem, start, rest);
      k := rest + 1;
    }
  }

  lemma {:induction false} WalkOn(mem: seq<bv16>, start: nat, k: nat)
    ensures Walk(mem, start, k + 1) == Walk(mem, Next(mem, start), k)
  {
    if k > 0 {
      WalkOn(mem, start, k - 1);
    } else {
      assert Walk(mem, start, 0) == start;
    }
  }

  /** Some instruction on the walk from start, however far on, is followed by one at current. */
  ghost predicate Finds(mem: seq<bv16>, start: nat, current: nat) {
    exists k: nat :: Next(mem, Walk(mem, start, k)) == current
  }

  ghost function Found(mem: seq<bv16>, start: nat, current: nat): nat
    requires Finds(mem, start, current)
  {
    var k: nat :| Next(mem, Walk(mem, start, k)) == current;
    Walk(mem, start, k)
  }

  /** The search for the previous instruction ends if and only if it looks for a place past start
      that an instruction starts at. */
  lemma SearchEnds(mem: seq<bv16>, start: nat, current: nat)
    ensures Finds(mem, start, current) <==> start < current && Boundary(mem, start, current)
  {
    if Finds(mem, start, current) {
      var k: nat :| Next(mem, Walk(mem, start, k)) == current;
      WalkReaches(mem, start, k);
      BoundaryNext(mem, start, Walk(mem, start, k));
      BoundaryForward(mem, start, Walk(mem, start, k));
    }
    if start < current && Boundary(mem, start, current) {
      var k := WalkTo(mem, start, Previous(mem, start, current));
    }
  }

  /** Nothing else on the walk steps to the same place. */
  lemma OnePredecessor(mem: seq<bv16>, start: nat, current: nat, p: nat)
    requires start < current && Boundary(mem, start, current)
    requires Boundary(mem, start, p) && Next(mem, p) == current
    ensures p == Previous(mem, start, current)
  {
    var q := Previous(mem, start, current);
    if p < q {
      StepInside(mem, start, p, q);
    } else if q < p {
      StepInside(mem, start, q, p);
    }
  }

  lemma SearchFinds(mem: seq<bv16>, start: nat, current: nat)
    requires Finds(mem, start, current)
    ensures start < current && Boundary(mem, start, current)
    ensures Found(mem, start, current) == Previous(mem, start, current)
  {
    SearchEnds(mem, start, current);
    var k: nat :| Next(mem, Walk(mem, start, k)) == current && Found(mem, start, current) == Walk(mem, start, k);
    WalkReaches(mem, start, k);
    OnePredecessor(mem, start, current, Walk(mem, start, k));
  }

  /** previous_thumb_instruction */
  method PreviousThumbInstruction(code: array<bv16>, start: nat, current: nat) returns (previous: nat)
    requires Finds(code[..], start, current)
    ensures previous == Found(code[..], start, current)
    ensures start <= previous < current && Next(code[..], previous) == current
  {
    SearchFinds(code[..], start, current);
    previous := start;
    while true
      invariant start <= previous < current
      invariant Boundary(code[..], previous, current)
      invariant Previous(code[..], previous, current) == Previous(code[..], start, current)
      decreases current - previous
    {
      var next := if previous < code.Length && IsWide(code[previous]) then previous + 2 else previous + 1;
      assert next == Next(code[..], previous);
      if next == current {
        break;
      }
      BoundaryForward(code[..], next, current);
      previous := next;
    }
  }

  // ---- What the stream says

  function At(mem: seq<bv16>, p: nat): DisResult
    requires p < |mem|
  {
    Disassemble(WordAt(mem, p))
  }

  lemma NarrowAt(mem: seq<bv16>, p: nat)
    requires p < |mem| && !IsWide(mem[p])
    ensures At(mem, p) == DisassembleNarrow(mem[p])
  {
    LowOfJoin(HalfAt(mem, p), HalfAt(mem, p + 1));
    NarrowWord(WordAt(mem, p), mem[p]);
  }

  /** An instruction is made of its own halfwords only. */
  lemma AtFrame(mem: seq<bv16>, after: seq<bv16>, p: nat)
    requires p < |mem| == |after|
    requires forall i :: p <= i < Next(mem, p) && i < |mem| ==> mem[i] == after[i]
    ensures At(mem, p) == At(after, p)
  {
    assert mem[p] == after[p];
    if IsWide(mem[p]) {
      assert HalfAt(mem, p) == HalfAt(after, p);
      assert HalfAt(mem, p + 1) == HalfAt(after, p + 1);
    } else {
      NarrowAt(mem, p);
      NarrowAt(after, p);
    }
  }

  /** The instructions from start up to end. */
  function Listing(mem: seq<bv16>, start: nat, end: nat): seq<DisResult>
    requires Boundary(mem, start, end) && end <= |mem|
    decreases end - start
  {
    if start == end then []
    else
      BoundaryForward(mem, start, end);
      [At(mem, start)] + Listing(mem, Next(mem, start), end)
  }

  lemma {:induction false} ListingFrame(mem: seq<bv16>, after: seq<bv16>, start: nat, end: nat)
    requires Boundary(mem, start, end) && end <= |mem| == |after|
    requires forall i :: start <= i < end ==> mem[i] == after[i]
    ensures Boundary(after, start, end) && Listing(after, start, end) == Listing(mem, start, end)
    decreases end - start
  {
    BoundaryFrame(mem, after, start, end);
    if start != end {
      BoundaryForward(mem, start, end);
      BoundaryForward(mem, Next(mem, start), end);
      AtFrame(mem, after, start);
      ListingFrame(mem, after, Next(mem, start), end);
    }
  }

  lemma {:induction false} ListingJoin(mem: seq<bv16>, a: nat, b: nat, c: nat)
    requires Boundary(mem, a, b) && Boundary(mem, b, c) && c <= |mem|
    ensures Boundary(mem, a, c) && b <= c
    ensures Listing(mem, a, c) == Listing(mem, a, b) + Listing(mem, b, c)
    decreases b - a
  {
    BoundaryForward(mem, b, c);
    BoundaryJoin(mem, a, b, c);
    if a < b {
      BoundaryForward(mem, Next(mem, a), b);
      ListingJoin(mem, Next(mem, a), b, c);
    }
  }

  lemma ListingOne(mem: seq<bv16>, p: nat)
    requires p < |mem| && Next(mem, p) <= |mem|
    ensures Boundary(mem, p, Next(mem, p)) && Listing(mem, p, Next(mem, p)) == [At(mem, p)]
  {
    assert Boundary(mem, Next(mem, p), Next(mem, p));
    assert Boundary(mem, p, Next(mem, p));
    assert Listing(mem, Next(mem, p), Next(mem, p)) == [];
  }

  lemma ListingSplits(mem: seq<bv16>, start: nat, p: nat, end: nat)
    requires Boundary(mem, start, p) && Boundary(mem, start, end) && p < end <= |mem|
    ensures
      && Next(mem, p) <= end && Boundary(mem, Next(mem, p), end)
      && Listing(mem, start, end) == Listing(mem, start, p) + [At(mem, p)] + Listing(mem, Next(mem, p), end)
  {
    StepInside(mem, start, p, end);
    BoundaryBetween(mem, start, Next(mem, p), end);
    ListingOne(mem, p);
    ListingJoin(mem, start, p, Next(mem, p));
    ListingJoin(mem, start, Next(mem, p), end);
  }

  lemma UpdateMiddle<T>(a: seq<T>, x: T, y: T, b: seq<T>)
    ensures |a| < |a + [x] + b| && (a + [x] + b)[|a| := y] == a + [y] + b
  {
  }

  /** Memory changed between p and the next instruction only: one entry of the listing changes. */
  lemma ListingReplaced(mem: seq<bv16>, after: seq<bv16>, start: nat, p: nat, q: nat, end: nat, d: DisResult)
    requires Boundary(mem, start, p) && Boundary(mem, start, end) && p < end <= |mem| == |after|
    requires q == Next(mem, p) && q <= end && Boundary(after, start, q)
    requires forall i :: q <= i < |mem| ==> after[i] == mem[i]
    requires Listing(after, start, q) == Listing(mem, start, p) + [d]
    ensures Boundary(after, start, end) && |Listing(mem, start, p)| < |Listing(mem, start, end)|
    ensures Listing(after, start, end) == Listing(mem, start, end)[|Listing(mem, start, p)| := d]
  {
    ListingSplits(mem, start, p, end);
    ListingFrame(mem, after, q, end);
    ListingJoin(after, start, q, end);
    UpdateMiddle(Listing(mem, start, p), At(mem, p), d, Listing(mem, q, end));
  }
}
