/** The rings of preallocated argument cells (`hotcall-untrusted.h`), whose addresses asynchronous calls
    pass on. There is one for each argument type. */
module Arguments {
  const CELLS: nat := 20

  /** The cell of the entry with a given number. */
  function Cell(h: nat): (c: nat)
    ensures c < CELLS
  {
    h % CELLS
  }

  lemma NextCell(h: nat)
    ensures Cell(0) == 0 && Cell(h + 1) == if Cell(h) + 1 == CELLS then 0 else Cell(h) + 1
  {
  }

  class ArgumentRing {
    var cells: array<nat>
    var idx: nat
    /** Every value ever put into the ring. */
    ghost var taken: seq<nat>

    /** The last 20 values are in the cells, each in its place. */
    ghost predicate Valid()
      reads this, cells
    {
      && cells.Length == CELLS && idx <= CELLS && (if idx == CELLS then 0 else idx) == Cell(|taken|)
      && forall h | 0 <= h < |taken| && |taken| <= h + CELLS :: cells[Cell(h)] == taken[h]
    }

    constructor ()
      ensures Valid() && taken == [] && fresh(cells)
    {
      cells := new nat[CELLS];
      idx := 0;
      taken := [];
      NextCell(0);
    }

    /** `next_uint8`, `next_uint32` and the like: the cell that now holds the value. */
    method Next(x: nat) returns (at: nat)
      requires Valid()
      modifies this`idx, this`taken, cells
      ensures Valid() && taken == old(taken) + [x] && at == Cell(|old(taken)|) && cells[at] == x
      ensures forall c | 0 <= c < CELLS && c != at :: cells[c] == old(cells[c])
    {
      hide Cell;
      NextCell(|taken|);
      if idx == CELLS {
        idx := 0;
      }
      cells[idx] := x;
      at := idx;
      idx := idx + 1;
      taken := taken + [x];
      forall h | 0 <= h < |taken| && |taken| <= h + CELLS ensures cells[Cell(h)] == taken[h] {
        if h < |taken| - 1 { SameCell(h, |taken| - 1); }
      }
    }
  }

  /** Which of two entries share a cell. */
  lemma SameCell(g: nat, h: nat)
    requires g < h
    ensures h - g < CELLS ==> Cell(g) != Cell(h)
    ensures h - g == CELLS ==> Cell(g) == Cell(h)
  {
  }

  /** The arguments of the last `calls` calls are all intact if and only if they are no more than 20
      together, when each call takes `perCall` cells of the ring. So a call that takes two cells of one
      type, as adding a rule to an eviction group does, is safe with at most 10 outstanding, although
      the ring of calls has 20 slots. */
  lemma ArgumentsIntactIff(n: nat, perCall: nat, calls: nat)
    requires perCall * calls <= n
    ensures (forall g: nat, h: nat | n - perCall * calls <= g < h < n :: Cell(g) != Cell(h))
            <==> perCall * calls <= CELLS
  {
    var first := n - perCall * calls;
    if perCall * calls <= CELLS {
      forall g: nat, h: nat | first <= g < h < n ensures Cell(g) != Cell(h) { SameCell(g, h); }
    } else {
      SameCell(first, first + CELLS);
      assert first <= first + CELLS < n;
    }
  }

  /** Eleven such calls overwrite an argument of the first, below the 20 slots of the ring of calls. */
  lemma ElevenAreTooMany()
    ensures !forall g: nat, h: nat | 22 - 2 * 11 <= g < h < 22 :: Cell(g) != Cell(h)
    ensures forall g: nat, h: nat | 20 - 2 * 10 <= g < h < 20 :: Cell(g) != Cell(h)
  {
    ArgumentsIntactIff(22, 2, 11);
    ArgumentsIntactIff(20, 2, 10);
  }
}
