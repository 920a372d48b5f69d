/** What CashMachineHelper computes, as functions of the notes in its stack
    (CashMachine/CashMachineHelper.cs). The class in cash_machine_helper.dfy is proved to
    follow these functions step by step; the lemmas here state what its results mean. */
module Dispensing {
  import opened Wrappers
  import opened BanknoteSets
  import opened NoteLists

  // ---------------------------------------------------------------------------
  // Building the pool (the constructor)

  /** The notes the constructor pushes, bottom of the stack first: each set's Nominal,
      Count times, set after set. */
  function Flatten(sets: seq<BanknoteSet>): seq<int>
  {
    if sets == [] then [] else Repeat(sets[0].Nominal, sets[0].Count) + Flatten(sets[1..])
  }

  /** Flattening one more set appends that set's notes. */
  lemma {:induction false} FlattenSnoc(sets: seq<BanknoteSet>, last: BanknoteSet)
    ensures Flatten(sets + [last]) == Flatten(sets) + Repeat(last.Nominal, last.Count)
  {
    if sets == [] {
      assert [] + [last] == [last];
    } else {
      assert (sets + [last])[1..] == sets[1..] + [last];
      FlattenSnoc(sets[1..], last);
    }
  }

  /** The pool holds exactly Count notes of each set's Nominal, a non-positive Count adding
      none, and nothing else. */
  lemma {:induction false} FlattenCount(sets: seq<BanknoteSet>, nominal: int)
    ensures multiset(Flatten(sets))[nominal] == CountOf(sets, nominal)
  {
    if sets != [] {
      FlattenCount(sets[1..], nominal);
      RepeatMultiset(sets[0].Nominal, sets[0].Count);
    }
  }

  /** Sum of Nominal times the number of notes each set adds: the value of the pool. */
  function Value(sets: seq<BanknoteSet>): int
  {
    if sets == [] then 0 else sets[0].Nominal * Units(sets[0]) + Value(sets[1..])
  }

  lemma {:induction false} RepeatSum(note: int, count: nat)
    ensures Sum(Repeat(note, count)) == note * count
  {
    if count > 0 {
      RepeatSum(note, count - 1);
      SumSnoc(Repeat(note, count - 1), note);
      assert note * count == note * (count - 1) + note;
    }
  }

  /** The notes of the pool add up to the value of the sets. */
  lemma {:induction false} FlattenSum(sets: seq<BanknoteSet>)
    ensures Sum(Flatten(sets)) == Value(sets)
  {
    if sets != [] {
      FlattenSum(sets[1..]);
      RepeatSum(sets[0].Nominal, Units(sets[0]));
      assert Repeat(sets[0].Nominal, sets[0].Count) == Repeat(sets[0].Nominal, Units(sets[0]));
      SumConcat(Repeat(sets[0].Nominal, sets[0].Count), Flatten(sets[1..]));
    }
  }

  // ---------------------------------------------------------------------------
  // Shaping a result (GroupBy(b => b).Select(new BanknoteSet(Key, Count())))

  /** Adds one note to a grouping: the set with its nominal gets one more, or a set of one
      such note is appended, so keys keep the order of their first occurrence. */
  function AddNote(groups: seq<BanknoteSet>, note: int): seq<BanknoteSet>
  {
    if groups == [] then [BanknoteSet(note, 1)]
    else if groups[0].Nominal == note then [groups[0].(Count := groups[0].Count + 1)] + groups[1..]
    else [groups[0]] + AddNote(groups[1..], note)
  }

  /** Groups notes by value: one set per distinct value, with the number of its occurrences. */
  function GroupBy(notes: seq<int>): seq<BanknoteSet>
  {
    if notes == [] then [] else AddNote(GroupBy(notes[..|notes| - 1]), notes[|notes| - 1])
  }

  /** Every set holds at least one note. */
  ghost predicate NonEmptySets(groups: seq<BanknoteSet>)
  {
    forall i :: 0 <= i < |groups| ==> groups[i].Count >= 1
  }

  lemma {:induction false} AddNoteFacts(groups: seq<BanknoteSet>, note: int, nominal: int)
    requires DistinctNominals(groups) && NonEmptySets(groups)
    ensures DistinctNominals(AddNote(groups, note)) && NonEmptySets(AddNote(groups, note))
    ensures CountOf(AddNote(groups, note), nominal) == CountOf(groups, nominal) + (if nominal == note then 1 else 0)
    ensures Total(AddNote(groups, note)) == Total(groups) + note
    ensures NoteCount(AddNote(groups, note)) == NoteCount(groups) + 1
  {
    var r := AddNote(groups, note);
    if groups == [] {
    } else if groups[0].Nominal == note {
      assert r[1..] == groups[1..];
      assert (groups[0].Count + 1) * note == groups[0].Count * note + note;
    } else {
      AddNoteFacts(groups[1..], note, nominal);
      assert r[1..] == AddNote(groups[1..], note);
      forall j | 0 < j < |r| ensures r[j].Nominal != groups[0].Nominal {
        assert r[j] in AddNote(groups[1..], note);
        NominalOfAddNote(groups[1..], note, r[j]);
      }
    }
  }

  lemma {:induction false} NominalOfAddNote(groups: seq<BanknoteSet>, note: int, entry: BanknoteSet)
    requires entry in AddNote(groups, note)
    ensures entry.Nominal == note || exists i :: 0 <= i < |groups| && groups[i].Nominal == entry.Nominal
  {
    if groups != [] && groups[0].Nominal != note {
      if entry != groups[0] {
        NominalOfAddNote(groups[1..], note, entry);
        if entry.Nominal != note {
          var i :| 0 <= i < |groups[1..]| && groups[1..][i].Nominal == entry.Nominal;
          assert groups[i + 1].Nominal == entry.Nominal;
        }
      }
    }
  }

  /** The grouping describes exactly the given notes: distinct nominals, at least one note per
      set, as many notes of each value as the list holds, the same total and the same count. */
  lemma {:induction false} GroupByFacts(notes: seq<int>)
    ensures DistinctNominals(GroupBy(notes)) && NonEmptySets(GroupBy(notes))
    ensures forall nominal :: CountOf(GroupBy(notes), nominal) == multiset(notes)[nominal]
    ensures Total(GroupBy(notes)) == Sum(notes)
    ensures NoteCount(GroupBy(notes)) == |notes|
  {
    if notes != [] {
      var init, last := notes[..|notes| - 1], notes[|notes| - 1];
      GroupByFacts(init);
      assert notes == init + [last];
      forall nominal ensures CountOf(GroupBy(notes), nominal) == multiset(notes)[nominal] {
        AddNoteFacts(GroupBy(init), last, nominal);
      }
      AddNoteFacts(GroupBy(init), last, last);
    }
  }

  /** Flattening a grouping gives back the grouped notes, up to order. */
  lemma GroupByRoundTrip(notes: seq<int>)
    ensures multiset(Flatten(GroupBy(notes))) == multiset(notes)
  {
    GroupByFacts(notes);
    forall nominal ensures multiset(Flatten(GroupBy(notes)))[nominal] == multiset(notes)[nominal] {
      FlattenCount(GroupBy(notes), nominal);
    }
  }

  // ---------------------------------------------------------------------------
  // One cell of the search

  /** The notes taken, in order, by popping `count` notes from a stack holding `stack`
      (its last element on top). */
  function Popped(stack: seq<int>, count: nat): seq<int>
    requires count <= |stack|
  {
    if count == 0 then [] else Popped(stack, count - 1) + [stack[|stack| - count]]
  }

  /** The i-th note popped is the i-th from the top. */
  lemma {:induction false} PoppedAt(stack: seq<int>, count: nat)
    requires count <= |stack|
    ensures |Popped(stack, count)| == count
    ensures forall i :: 0 <= i < count ==> Popped(stack, count)[i] == stack[|stack| - 1 - i]
  {
    if count > 0 {
      PoppedAt(stack, count - 1);
    }
  }

  /** The notes popped are the top `count` notes of the stack. */
  lemma {:induction false} PoppedMultiset(stack: seq<int>, count: nat)
    requires count <= |stack|
    ensures multiset(Popped(stack, count)) + multiset(stack[..|stack| - count]) == multiset(stack)
  {
    if count == 0 {
      assert stack[..|stack|] == stack;
    } else {
      PoppedMultiset(stack, count - 1);
      var note, left := stack[|stack| - count], stack[..|stack| - count];
      assert stack[..|stack| - (count - 1)] == left + [note];
      assert Popped(stack, count) == Popped(stack, count - 1) + [note];
      MoveLast(Popped(stack, count - 1), stack[..|stack| - (count - 1)], left, note, stack);
    }
  }

  /** Moving the last note of one list to the end of another keeps their notes together. */
  lemma MoveLast(a: seq<int>, top: seq<int>, left: seq<int>, note: int, whole: seq<int>)
    requires top == left + [note]
    requires multiset(a) + multiset(top) == multiset(whole)
    ensures multiset(a + [note]) + multiset(left) == multiset(whole)
  {
    assert multiset(top) == multiset(left) + multiset{note};
    assert multiset(a + [note]) == multiset(a) + multiset{note};
  }

  /** Popping `count` notes off a descending stack takes its `count` smallest notes, smallest
      first, and leaves the others: the working set of a cell. */
  lemma TakesSmallest(sorted: seq<int>, count: nat)
    requires Descending(sorted) && count <= |sorted|
    ensures |Popped(sorted, count)| == count
    ensures multiset(Popped(sorted, count)) + multiset(sorted[..|sorted| - count]) == multiset(sorted)
    ensures forall i, j :: 0 <= i < j < count ==> Popped(sorted, count)[i] <= Popped(sorted, count)[j]
    ensures forall i, j :: 0 <= i < count && 0 <= j < |sorted| - count ==>
              Popped(sorted, count)[i] <= sorted[j]
  {
    PoppedAt(sorted, count);
    PoppedMultiset(sorted, count);
  }

  /** The greedy top-up of one cell: while the combination holds fewer than `cap` notes, move
      the largest working note that still fits under `amount` into it. Returns the working
      notes left over and the combination. */
  function Fill(taken: seq<int>, combo: seq<int>, amount: int, cap: nat): (seq<int>, seq<int>)
    decreases cap - |combo|
  {
    if |combo| >= cap then (taken, combo)
    else
      match MaxAtMost(taken, amount - Sum(combo))
      case None => (taken, combo)
      case Some(note) => Fill(RemoveFirst(taken, note), combo + [note], amount, cap)
  }

  /** The greedy moves notes and invents none: what is left and what was chosen are together
      the working notes and the starting combination. */
  lemma {:induction false} FillConserves(taken: seq<int>, combo: seq<int>, amount: int, cap: nat)
    ensures var r := Fill(taken, combo, amount, cap);
      multiset(r.0) + multiset(r.1) == multiset(taken) + multiset(combo)
    decreases cap - |combo|
  {
    if |combo| < cap {
      MaxAtMostFits(taken, amount - Sum(combo));
      match MaxAtMost(taken, amount - Sum(combo))
      case None =>
      case Some(note) =>
        var rest := RemoveFirst(taken, note);
        RemoveFirstMultiset(taken, note);
        MoveNote(taken, rest, combo, note);
        assert Fill(taken, combo, amount, cap) == Fill(rest, combo + [note], amount, cap);
        FillConserves(rest, combo + [note], amount, cap);
    }
  }

  /** Moving one working note into the combination keeps the notes of both together. */
  lemma MoveNote(taken: seq<int>, rest: seq<int>, combo: seq<int>, note: int)
    requires note in taken && multiset(rest) == multiset(taken) - multiset{note}
    ensures multiset(rest) + multiset(combo + [note]) == multiset(taken) + multiset(combo)
  {
    assert multiset(rest) + multiset{note} == multiset(taken) by {
      assert note in multiset(taken);
    }
    assert multiset(combo + [note]) == multiset(combo) + multiset{note};
  }

  /** The combination only grows, and never past the cap. */
  lemma {:induction false} FillPrefix(taken: seq<int>, combo: seq<int>, amount: int, cap: nat)
    ensures var r := Fill(taken, combo, amount, cap);
      combo <= r.1 && |r.1| <= (if |combo| < cap then cap else |combo|)
    decreases cap - |combo|
  {
    if |combo| < cap {
      match MaxAtMost(taken, amount - Sum(combo))
      case None =>
      case Some(note) =>
        var rest := RemoveFirst(taken, note);
        assert Fill(taken, combo, amount, cap) == Fill(rest, combo + [note], amount, cap);
        FillPrefix(rest, combo + [note], amount, cap);
        assert (combo + [note])[..|combo|] == combo;
    }
  }

  /** A combination that starts at or below the amount never goes above it. */
  lemma {:induction false} FillWithinAmount(taken: seq<int>, combo: seq<int>, amount: int, cap: nat)
    requires Sum(combo) <= amount
    ensures Sum(Fill(taken, combo, amount, cap).1) <= amount
    decreases cap - |combo|
  {
    if |combo| < cap {
      match MaxAtMost(taken, amount - Sum(combo))
      case None =>
      case Some(note) =>
        MaxAtMostFits(taken, amount - Sum(combo));
        var rest := RemoveFirst(taken, note);
        assert Fill(taken, combo, amount, cap) == Fill(rest, combo + [note], amount, cap);
        SumSnoc(combo, note);
        FillWithinAmount(rest, combo + [note], amount, cap);
    }
  }

  /** The first note the greedy adds fits under what was still missing. */
  lemma FillFirstFits(taken: seq<int>, combo: seq<int>, amount: int, cap: nat)
    ensures var r := Fill(taken, combo, amount, cap);
      |combo| < |r.1| ==> r.1[|combo|] <= amount - Sum(combo)
  {
    if |combo| >= cap {
      assert Fill(taken, combo, amount, cap) == (taken, combo);
    } else {
      MaxAtMostFits(taken, amount - Sum(combo));
      match MaxAtMost(taken, amount - Sum(combo))
      case None =>
        assert Fill(taken, combo, amount, cap) == (taken, combo);
      case Some(note) =>
        var rest := RemoveFirst(taken, note);
        assert Fill(taken, combo, amount, cap) == Fill(rest, combo + [note], amount, cap);
        FillPrefix(rest, combo + [note], amount, cap);
        var grown := Fill(rest, combo + [note], amount, cap).1;
        assert grown[..|combo| + 1] == combo + [note];
        assert grown[|combo|] == grown[..|combo| + 1][|combo|];
    }
  }

  /** The greedy stops short of the cap only when no working note left fits under what is
      still missing. */
  lemma {:induction false} FillStops(taken: seq<int>, combo: seq<int>, amount: int, cap: nat)
    ensures var r := Fill(taken, combo, amount, cap);
      |r.1| < cap ==> forall i :: 0 <= i < |r.0| ==> r.0[i] > amount - Sum(r.1)
    decreases cap - |combo|
  {
    if |combo| < cap {
      MaxAtMostLargest(taken, amount - Sum(combo));
      match MaxAtMost(taken, amount - Sum(combo))
      case None =>
      case Some(note) =>
        FillStops(RemoveFirst(taken, note), combo + [note], amount, cap);
    }
  }

  /** The greedy leaves its working notes untouched when it chooses nothing. */
  lemma FillIdle(taken: seq<int>, combo: seq<int>, amount: int, cap: nat)
    ensures var r := Fill(taken, combo, amount, cap);
      |r.1| == |combo| ==> r.0 == taken
  {
    if |combo| < cap {
      match MaxAtMost(taken, amount - Sum(combo))
      case None =>
      case Some(note) =>
        FillPrefix(RemoveFirst(taken, note), combo + [note], amount, cap);
    }
  }

  /** A cell's attempt on its working notes: the greedy combination under a cap of x + 1
      notes, if it is not empty and adds up to `amount` exactly. */
  function Attempt(taken: seq<int>, amount: int, x: nat): Option<seq<int>>
  {
    var combo := Fill(taken, [], amount, x + 1).1;
    if combo != [] && Sum(combo) == amount then Some(combo) else None
  }

  /** Cell (x, y): the attempt on the y + 1 notes popped off the sorted stack (no cell lies
      beyond the last note). */
  function Cell(sorted: seq<int>, amount: int, x: nat, y: nat): Option<seq<int>>
  {
    if y < |sorted| then Attempt(Popped(sorted, y + 1), amount, x) else None
  }

  /** The stack a failed cell (x, y) leaves behind: the sorted stack without the y + 1 notes
      it popped, then the working notes the greedy left, then the failed combination, pushed
      in that order. */
  function Restored(sorted: seq<int>, amount: int, x: nat, y: nat): seq<int>
    requires y < |sorted|
  {
    var r := Fill(Popped(sorted, y + 1), [], amount, x + 1);
    sorted[..|sorted| - (y + 1)] + r.0 + r.1
  }

  /** Restored in terms of the notes left in the stack and the notes popped. */
  lemma RestoredOf(sorted: seq<int>, amount: int, x: nat, y: nat, left: seq<int>, taken: seq<int>)
    requires y < |sorted| && left == sorted[..|sorted| - (y + 1)] && taken == Popped(sorted, y + 1)
    ensures Restored(sorted, amount, x, y) ==
              left + Fill(taken, [], amount, x + 1).0 + Fill(taken, [], amount, x + 1).1
  {
  }

  /** A failed cell gives every note it popped back: the stack it leaves holds the notes it
      started from. */
  lemma RestoredMultiset(sorted: seq<int>, amount: int, x: nat, y: nat)
    requires y < |sorted|
    ensures multiset(Restored(sorted, amount, x, y)) == multiset(sorted)
  {
    var taken, left := Popped(sorted, y + 1), sorted[..|sorted| - (y + 1)];
    var r := Fill(taken, [], amount, x + 1);
    PoppedMultiset(sorted, y + 1);
    FillConserves(taken, [], amount, x + 1);
    RestoredOf(sorted, amount, x, y, left, taken);
    var none: seq<int> := [];
    assert multiset(none) == multiset{};
    assert multiset(r.0) + multiset(r.1) == multiset(taken);
    PushBack(left, r.0, r.1, taken, sorted);
  }

  /** Pushing back the two parts the popped notes were split into restores the whole. */
  lemma PushBack(left: seq<int>, rest: seq<int>, combo: seq<int>, taken: seq<int>, whole: seq<int>)
    requires multiset(rest) + multiset(combo) == multiset(taken)
    requires multiset(taken) + multiset(left) == multiset(whole)
    ensures multiset(left + rest + combo) == multiset(whole)
  {
    calc {
      multiset(left + rest + combo);
      multiset(left + rest) + multiset(combo);
      multiset(left) + multiset(rest) + multiset(combo);
      multiset(left) + multiset(taken);
    }
  }

  /** A successful attempt adds up to the amount, uses between 1 and x + 1 of the working
      notes, and leaves the rest. */
  lemma AttemptSound(taken: seq<int>, amount: int, x: nat)
    requires Attempt(taken, amount, x).Some?
    ensures var combo := Attempt(taken, amount, x).value;
      && Sum(combo) == amount && 1 <= |combo| <= x + 1 && combo[0] <= amount
      && multiset(combo) <= multiset(taken)
      && multiset(Fill(taken, [], amount, x + 1).0) + multiset(combo) == multiset(taken)
  {
    var r := Fill(taken, [], amount, x + 1);
    FillConserves(taken, [], amount, x + 1);
    FillPrefix(taken, [], amount, x + 1);
    FillFirstFits(taken, [], amount, x + 1);
    assert Attempt(taken, amount, x) == Some(r.1);
    var none: seq<int> := [];
    assert multiset(r.0) + multiset(r.1) == multiset(taken) by {
      assert multiset(none) == multiset{};
    }
    assert r.1[0] <= amount by {
      assert Sum([]) == 0;
    }
  }

  // ---------------------------------------------------------------------------
  // The search over cells

  /** How a search ends: the winning combination and its cell, or no cell succeeded. */
  datatype Outcome = Dispensed(combo: seq<int>, x: nat, y: nat) | Exhausted

  /** The nested loops of CollectAmount over the cells (x, y) with x and y below `size`, x outer,
      from cell (x, y) on: the first cell whose outcome in `cells` is a combination wins. */
  function Search(cells: (nat, nat) -> Option<seq<int>>, size: nat, x: nat, y: nat): Outcome
    decreases size - x, size - y
  {
    if x >= size then Exhausted
    else if y >= size then Search(cells, size, x + 1, 0)
    else match cells(x, y)
      case Some(combo) => Dispensed(combo, x, y)
      case None => Search(cells, size, x, y + 1)
  }

  /** The outcomes of all cells for a sorted stack and an amount. */
  function CellsOf(sorted: seq<int>, amount: int): (nat, nat) -> Option<seq<int>>
  {
    (x: nat, y: nat) => Cell(sorted, amount, x, y)
  }

  /** The outcome of CollectAmount on a pool: the search over the pool sorted descending. */
  function Collect(pool: seq<int>, amount: int): Outcome
  {
    Search(CellsOf(SortDesc(pool), amount), |pool|, 0, 0)
  }

  /** The value CollectAmount returns: the winning combination grouped by nominal, or None
      (null) when no cell succeeds. */
  function Dispense(pool: seq<int>, amount: int): Option<seq<BanknoteSet>>
  {
    match Collect(pool, amount)
    case Dispensed(combo, _, _) => Some(GroupBy(combo))
    case Exhausted => None
  }

  /** A search that wins in cell (x, y) makes CollectAmount return that cell's combination. */
  lemma CollectFound(pool: seq<int>, amount: int, combo: seq<int>, x: nat, y: nat)
    requires Collect(pool, amount) == Dispensed(combo, x, y)
    ensures Dispense(pool, amount) == Some(GroupBy(combo))
  {
  }

  /** A search that gets past the last column finds nothing, and CollectAmount returns null. */
  lemma CollectNone(pool: seq<int>, amount: int)
    requires Collect(pool, amount) == Search(CellsOf(SortDesc(pool), amount), |pool|, |pool|, 0)
    ensures Collect(pool, amount) == Exhausted && Dispense(pool, amount) == None
  {
  }

  /** Cell (x, y) comes strictly before cell (x2, y2) in the order the loops visit them. */
  predicate Before(x: nat, y: nat, x2: nat, y2: nat)
  {
    x < x2 || (x == x2 && y < y2)
  }

  /** A search that ends in a combination found it in a cell at or after its starting cell,
      inside the grid, and that cell's outcome is the combination. */
  lemma {:induction false} SearchFinds(cells: (nat, nat) -> Option<seq<int>>, size: nat, x: nat, y: nat)
    requires Search(cells, size, x, y).Dispensed?
    ensures var o := Search(cells, size, x, y);
      && o.x < size && o.y < size && !Before(o.x, o.y, x, y)
      && cells(o.x, o.y) == Some(o.combo)
    decreases size - x, size - y
  {
    if x < size {
      if y >= size {
        SearchFinds(cells, size, x + 1, 0);
      } else if cells(x, y).None? {
        SearchFinds(cells, size, x, y + 1);
      }
    }
  }

  /** The loops return from the first cell that succeeds: every cell they visit before the
      winning one fails. */
  lemma {:induction false} SearchFirst(cells: (nat, nat) -> Option<seq<int>>, size: nat, x: nat, y: nat)
    requires Search(cells, size, x, y).Dispensed?
    ensures var o := Search(cells, size, x, y);
      forall i: nat, j: nat :: !Before(i, j, x, y) && Before(i, j, o.x, o.y) && j < size ==> cells(i, j).None?
    decreases size - x, size - y
  {
    if x < size {
      if y >= size {
        SearchFirst(cells, size, x + 1, 0);
      } else if cells(x, y).None? {
        SearchFirst(cells, size, x, y + 1);
      }
    }
  }

  /** The loops run to the end only when every cell they visit fails. */
  lemma {:induction false} SearchExhausted(cells: (nat, nat) -> Option<seq<int>>, size: nat, x: nat, y: nat)
    requires Search(cells, size, x, y).Exhausted?
    ensures forall i: nat, j: nat :: !Before(i, j, x, y) && i < size && j < size ==> cells(i, j).None?
    decreases size - x, size - y
  {
    if x < size {
      if y >= size {
        SearchExhausted(cells, size, x + 1, 0);
      } else {
        SearchExhausted(cells, size, x, y + 1);
      }
    }
  }

  /** One step of the inner loop: cell (x, y) either wins or hands the search on to the next
      cell. */
  lemma SearchStep(cells: (nat, nat) -> Option<seq<int>>, size: nat, x: nat, y: nat)
    requires x < size && y < size
    ensures Search(cells, size, x, y) ==
              if cells(x, y).Some? then Dispensed(cells(x, y).value, x, y) else Search(cells, size, x, y + 1)
  {
  }

  /** Past the last cell of a column the search goes on with the next column. */
  lemma SearchRowEnd(cells: (nat, nat) -> Option<seq<int>>, size: nat, x: nat)
    requires x < size
    ensures Search(cells, size, x, size) == Search(cells, size, x + 1, 0)
  {
  }

  /** When every cell from (x, y) up to (x2, y2) fails, the search goes on from (x2, y2). */
  lemma {:induction false} SearchSkips(cells: (nat, nat) -> Option<seq<int>>, size: nat, x: nat, y: nat, x2: nat, y2: nat)
    requires x <= x2 <= size && y <= size && y2 <= size
    requires !Before(x2, y2, x, y)
    requires forall i: nat, j: nat :: !Before(i, j, x, y) && Before(i, j, x2, y2) && j < size ==> cells(i, j).None?
    ensures Search(cells, size, x, y) == Search(cells, size, x2, y2)
    decreases size - x, size - y
  {
    if x == x2 && y == y2 {
    } else if x >= size {
    } else if y >= size {
      SearchSkips(cells, size, x + 1, 0, x2, y2);
    } else {
      SearchSkips(cells, size, x, y + 1, x2, y2);
    }
  }

  /** The outcome of the cells of a sorted stack at one cell is the cell itself. */
  lemma CellsOfAt(sorted: seq<int>, amount: int, x: nat, y: nat)
    ensures CellsOf(sorted, amount)(x, y) == Cell(sorted, amount, x, y)
  {
  }

  // ---------------------------------------------------------------------------
  // What a result means

  /** A cell that succeeds lies inside the stack; its combination adds up to the amount, has
      at most x + 1 notes and at most the y + 1 notes the cell popped, and is drawn from them. */
  lemma CellSound(sorted: seq<int>, pool: seq<int>, amount: int, x: nat, y: nat, combo: seq<int>)
    requires multiset(sorted) == multiset(pool) && |sorted| == |pool|
    requires Cell(sorted, amount, x, y) == Some(combo)
    ensures y < |pool|
    ensures 1 <= |combo| <= x + 1 && |combo| <= y + 1
    ensures Sum(combo) == amount && combo[0] <= amount
    ensures multiset(combo) + multiset(sorted[..|pool| - (y + 1)]) <= multiset(pool)
  {
    var taken := Popped(sorted, y + 1);
    var left := sorted[..|pool| - (y + 1)];
    PoppedMultiset(sorted, y + 1);
    PoppedAt(sorted, y + 1);
    AttemptSound(taken, amount, x);
    assert |multiset(combo)| <= |multiset(taken)|;
  }

  /** The cell in which CollectAmount finds a combination lies inside the grid. */
  lemma CollectInGrid(pool: seq<int>, amount: int, combo: seq<int>, x: nat, y: nat)
    requires Collect(pool, amount) == Dispensed(combo, x, y)
    ensures x < |pool| && y < |pool|
  {
    SearchFinds(CellsOf(SortDesc(pool), amount), |pool|, 0, 0);
  }

  /** A combination CollectAmount finds is the outcome of its cell. */
  lemma CollectFinds(pool: seq<int>, amount: int, combo: seq<int>, x: nat, y: nat)
    requires Collect(pool, amount) == Dispensed(combo, x, y)
    ensures Cell(SortDesc(pool), amount, x, y) == Some(combo)
  {
    SearchFinds(CellsOf(SortDesc(pool), amount), |pool|, 0, 0);
    CellsOfAt(SortDesc(pool), amount, x, y);
  }

  /** CollectAmount returns the first combination found: every cell before the winning one
      fails, in particular every cell of a smaller cap x. */
  lemma CollectFirst(pool: seq<int>, amount: int, combo: seq<int>, x: nat, y: nat)
    requires Collect(pool, amount) == Dispensed(combo, x, y)
    ensures forall i: nat, j: nat :: Before(i, j, x, y) && j < |pool| ==> Cell(SortDesc(pool), amount, i, j).None?
  {
    var sorted := SortDesc(pool);
    var cells := CellsOf(sorted, amount);
    assert Search(cells, |pool|, 0, 0) == Dispensed(combo, x, y);
    SearchFirst(cells, |pool|, 0, 0);
    CellsFailBefore(sorted, amount, |pool|, x, y);
  }

  /** Cells of the grid that fail as entries of CellsOf fail as cells. */
  lemma CellsFailBefore(sorted: seq<int>, amount: int, size: nat, x: nat, y: nat)
    requires forall i: nat, j: nat :: !Before(i, j, 0, 0) && Before(i, j, x, y) && j < size ==>
               CellsOf(sorted, amount)(i, j).None?
    ensures forall i: nat, j: nat :: Before(i, j, x, y) && j < size ==> Cell(sorted, amount, i, j).None?
  {
    forall i: nat, j: nat | Before(i, j, x, y) && j < size
      ensures Cell(sorted, amount, i, j).None?
    {
      assert !Before(i, j, 0, 0);
      CellsOfAt(sorted, amount, i, j);
    }
  }

  /** CollectAmount returns null only when every cell of the grid fails. */
  lemma CollectExhausted(pool: seq<int>, amount: int)
    requires Collect(pool, amount).Exhausted?
    ensures forall i: nat, j: nat :: i < |pool| && j < |pool| ==> Cell(SortDesc(pool), amount, i, j).None?
  {
    var sorted := SortDesc(pool);
    var cells := CellsOf(sorted, amount);
    assert Search(cells, |pool|, 0, 0).Exhausted?;
    SearchExhausted(cells, |pool|, 0, 0);
    CellsFailAll(sorted, amount, |pool|);
  }

  /** Every cell of the grid that fails as an entry of CellsOf fails as a cell. */
  lemma CellsFailAll(sorted: seq<int>, amount: int, size: nat)
    requires forall i: nat, j: nat :: !Before(i, j, 0, 0) && i < size && j < size ==>
               CellsOf(sorted, amount)(i, j).None?
    ensures forall i: nat, j: nat :: i < size && j < size ==> Cell(sorted, amount, i, j).None?
  {
    forall i: nat, j: nat | i < size && j < size
      ensures Cell(sorted, amount, i, j).None?
    {
      assert !Before(i, j, 0, 0);
      CellsOfAt(sorted, amount, i, j);
    }
  }

  /** When every cell of the grid fails, CollectAmount returns null. */
  lemma AllCellsFail(pool: seq<int>, amount: int)
    requires forall i: nat, j: nat :: i < |pool| && j < |pool| ==> Cell(SortDesc(pool), amount, i, j).None?
    ensures Collect(pool, amount) == Exhausted
  {
    if Collect(pool, amount).Dispensed? {
      var o := Collect(pool, amount);
      CollectInGrid(pool, amount, o.combo, o.x, o.y);
      CollectFinds(pool, amount, o.combo, o.x, o.y);
      assert false;
    }
  }

  /** A combination CollectAmount finds in cell (x, y) adds up to the amount; it has at most
      x + 1 notes and at most the y + 1 notes its cell took; together with what is left of the
      sorted stack once the cell has popped its notes, it is part of the pool. */
  lemma CollectSound(pool: seq<int>, amount: int, combo: seq<int>, x: nat, y: nat)
    requires Collect(pool, amount) == Dispensed(combo, x, y)
    ensures 1 <= |combo| <= x + 1 && |combo| <= y + 1
    ensures Sum(combo) == amount && combo[0] <= amount
    ensures x < |pool| && y < |pool|
    ensures multiset(combo) + multiset(SortDesc(pool)[..|pool| - (y + 1)]) <= multiset(pool)
  {
    CollectInGrid(pool, amount, combo, x, y);
    CollectFinds(pool, amount, combo, x, y);
    CellSound(SortDesc(pool), pool, amount, x, y, combo);
  }

  /** The first note of a combination found is a note of the pool no larger than the amount. */
  lemma FirstNoteFits(pool: seq<int>, amount: int)
    ensures Collect(pool, amount).Dispensed? ==>
              var o := Collect(pool, amount);
              o.combo != [] && o.combo[0] in pool && o.combo[0] <= amount
  {
    if Collect(pool, amount).Dispensed? {
      var o := Collect(pool, amount);
      CollectSound(pool, amount, o.combo, o.x, o.y);
      assert o.combo[0] in multiset(o.combo);
      assert o.combo[0] in multiset(pool);
    }
  }

  /** The result of CollectAmount, as sets: its Total is the amount, each nominal appears in one
      set only, every set holds at least one note, and no nominal is given out more often than
      the pool holds it. */
  lemma DispenseSound(pool: seq<int>, amount: int)
    requires Dispense(pool, amount).Some?
    ensures var groups := Dispense(pool, amount).value;
      && Total(groups) == amount
      && DistinctNominals(groups) && NonEmptySets(groups)
      && (forall nominal :: CountOf(groups, nominal) <= multiset(pool)[nominal])
      && 1 <= NoteCount(groups) <= |pool|
  {
    var o := Collect(pool, amount);
    var combo := o.combo;
    CollectSound(pool, amount, combo, o.x, o.y);
    GroupByFacts(combo);
    assert |multiset(combo)| <= |multiset(pool)|;
  }

  /** With no negative notes, an attempt never reaches more than its working notes are worth. */
  lemma AttemptWithinValue(taken: seq<int>, amount: int, x: nat)
    requires forall i :: 0 <= i < |taken| ==> taken[i] >= 0
    requires Attempt(taken, amount, x).Some?
    ensures amount <= Sum(taken)
  {
    AttemptSound(taken, amount, x);
    var unused, combo := Fill(taken, [], amount, x + 1).0, Attempt(taken, amount, x).value;
    assert multiset(unused + combo) == multiset(taken);
    SumOfMultiset(unused + combo, taken);
    SumConcat(unused, combo);
    NonNegativeNotes(taken, unused);
    SumNonNegative(unused);
  }

  /** With no negative notes, the notes popped are worth no more than the whole stack. */
  lemma PoppedWithinValue(stack: seq<int>, count: nat)
    requires count <= |stack|
    requires forall i :: 0 <= i < |stack| ==> stack[i] >= 0
    ensures Sum(Popped(stack, count)) <= Sum(stack)
    ensures |Popped(stack, count)| == count
    ensures forall i :: 0 <= i < count ==> Popped(stack, count)[i] >= 0
  {
    PoppedAt(stack, count);
    PoppedMultiset(stack, count);
    var left, taken := stack[..|stack| - count], Popped(stack, count);
    assert multiset(left + taken) == multiset(stack);
    SumOfMultiset(left + taken, stack);
    SumConcat(left, taken);
    SumNonNegative(left);
  }

  /** With no negative notes, the amount found never exceeds the value of the whole pool. */
  lemma CollectAboveValue(pool: seq<int>, amount: int)
    requires forall i :: 0 <= i < |pool| ==> pool[i] >= 0
    requires amount > Sum(pool)
    ensures Collect(pool, amount) == Exhausted
  {
    if Collect(pool, amount).Dispensed? {
      var o := Collect(pool, amount);
      var sorted := SortDesc(pool);
      SearchFinds(CellsOf(sorted, amount), |pool|, 0, 0);
      NonNegativeNotes(pool, sorted);
      PoppedWithinValue(sorted, o.y + 1);
      AttemptWithinValue(Popped(sorted, o.y + 1), amount, o.x);
      SumOfMultiset(sorted, pool);
    }
  }

  lemma NonNegativeNotes(pool: seq<int>, part: seq<int>)
    requires forall i :: 0 <= i < |pool| ==> pool[i] >= 0
    requires multiset(part) <= multiset(pool)
    ensures forall i :: 0 <= i < |part| ==> part[i] >= 0
  {
    forall i | 0 <= i < |part| ensures part[i] >= 0 {
      assert part[i] in multiset(pool);
    }
  }

  /** When every note is larger than the amount, no cell can even start, so the result is null;
      in particular an empty pool gives null. */
  lemma CollectBelowEveryNote(pool: seq<int>, amount: int)
    requires forall i :: 0 <= i < |pool| ==> pool[i] > amount
    ensures Collect(pool, amount) == Exhausted
  {
    FirstNoteFits(pool, amount);
  }

  /** When every note is a multiple of `unit` and the amount is not, the result is null. */
  lemma CollectIndivisible(pool: seq<int>, amount: int, unit: int)
    requires unit > 0
    requires forall i :: 0 <= i < |pool| ==> pool[i] % unit == 0
    requires amount % unit != 0
    ensures Collect(pool, amount) == Exhausted
  {
    if Collect(pool, amount).Dispensed? {
      var o := Collect(pool, amount);
      CollectSound(pool, amount, o.combo, o.x, o.y);
      forall i | 0 <= i < |o.combo| ensures o.combo[i] % unit == 0 {
        assert o.combo[i] in multiset(pool);
      }
      SumDivisible(o.combo, unit);
    }
  }
}
