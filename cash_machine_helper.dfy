/** CashMachine/CashMachineHelper.cs: the helper object, which owns a stack of individual notes
    and assembles a requested amount from it. */
module CashMachine {
  import opened Wrappers
  import opened BanknoteSets
  import opened NoteLists
  import opened Dispensing

  /** Why construction fails: the collection of sets is null (ArgumentNullException). */
  datatype ConstructionError = ArgumentNull

  class CashMachineHelper {
    /** The stack of individual note values; its last element is the top. */
    var banknotes: seq<int>

    /** Pushes each set's Nominal Count times, set after set; a set with a non-positive Count
        pushes nothing. */
    constructor (sets: seq<BanknoteSet>)
      ensures banknotes == Flatten(sets)
    {
      banknotes := [];
      new;
      for k := 0 to |sets|
        invariant banknotes == Flatten(sets[..k])
      {
        var i := 0;
        while i < sets[k].Count
          invariant 0 <= i && (i <= sets[k].Count || i == 0)
          invariant banknotes == Flatten(sets[..k]) + Repeat(sets[k].Nominal, i)
        {
          banknotes := banknotes + [sets[k].Nominal];
          i := i + 1;
        }
        assert sets[..k + 1] == sets[..k] + [sets[k]];
        FlattenSnoc(sets[..k], sets[k]);
      }
      assert sets[..|sets|] == sets;
    }

    /** The constructor with its null check: a missing collection is refused, any other one
        is flattened into a new helper's stack. */
    static method Create(sets: Option<seq<BanknoteSet>>) returns (r: Result<CashMachineHelper, ConstructionError>)
      ensures sets.None? <==> r.Failure?
      ensures r.Success? ==> fresh(r.value) && r.value.banknotes == Flatten(sets.value)
    {
      if sets.None? {
        return Failure(ArgumentNull);
      }
      var helper := new CashMachineHelper(sets.value);
      return Success(helper);
    }

    /** Pushes the notes onto the stack in order. */
    method PushAll(notes: seq<int>)
      modifies this
      ensures banknotes == old(banknotes) + notes
    {
      for j := 0 to |notes|
        invariant banknotes == old(banknotes) + notes[..j]
      {
        assert notes[..j + 1] == notes[..j] + [notes[j]];
        banknotes := banknotes + [notes[j]];
      }
      assert notes[..|notes|] == notes;
    }

    /** Tries the cells (x, y) in order, x outer, and returns the first combination found
        grouped by nominal, or null (None) when no cell succeeds. The result is Dispense of the
        stack; after a null result the stack holds the same notes as before, and after a
        success it is the sorted stack without the y + 1 notes popped in the winning cell,
        used or not. After a null result on a non-empty stack, the stack is what the last cell,
        (n - 1, n - 1) for n notes, pushed back: every note, the greedy's leftovers first. */
    method CollectAmount(amount: int) returns (result: Option<seq<BanknoteSet>>)
      modifies this
      ensures result == Dispense(old(banknotes), amount)
      ensures Collect(old(banknotes), amount).Exhausted? ==>
                multiset(banknotes) == multiset(old(banknotes))
      ensures Collect(old(banknotes), amount).Exhausted? && old(banknotes) != [] ==>
                banknotes == Restored(SortDesc(old(banknotes)), amount, |old(banknotes)| - 1, |old(banknotes)| - 1)
      ensures Collect(old(banknotes), amount).Dispensed? ==>
                var y := Collect(old(banknotes), amount).y;
                y < |old(banknotes)| &&
                banknotes == SortDesc(old(banknotes))[..|old(banknotes)| - (y + 1)]
    {
      var count: nat := |banknotes|;
      ghost var pool := banknotes;
      for x := 0 to count
        invariant multiset(banknotes) == multiset(pool)
        invariant 0 < x ==> banknotes == Restored(SortDesc(pool), amount, x - 1, |pool| - 1)
        invariant Collect(pool, amount) == Search(CellsOf(SortDesc(pool), amount), |pool|, x, 0)
      {
        var found, y := TryRow(amount, x, pool);
        if found.Some? {
          CollectFound(pool, amount, found.value, x, y);
          return Some(GroupBy(found.value));
        }
        assert banknotes == Restored(SortDesc(pool), amount, x, |pool| - 1);
      }
      CollectNone(pool, amount);
      return None;
    }

    /** The inner loop of CollectAmount for column x: tries the cells (x, 0), (x, 1), ... and
        stops at the first that succeeds. `pool` is the stack when CollectAmount started. */
    method TryRow(amount: int, x: nat, ghost pool: seq<int>) returns (found: Option<seq<int>>, ghost y: nat)
      requires multiset(banknotes) == multiset(pool) && x < |pool|
      modifies this
      ensures var cells := CellsOf(SortDesc(pool), amount);
                Search(cells, |pool|, x, 0) ==
                  if found.Some? then Dispensed(found.value, x, y) else Search(cells, |pool|, x + 1, 0)
      ensures found.None? ==> multiset(banknotes) == multiset(pool)
      ensures found.None? ==> banknotes == Restored(SortDesc(pool), amount, x, |pool| - 1)
      ensures found.Some? ==> y < |pool| && banknotes == SortDesc(pool)[..|pool| - (y + 1)]
    {
      ghost var sorted := SortDesc(pool);
      ghost var cells := CellsOf(sorted, amount);
      y := 0;
      var count := |banknotes|;
      assert count == |pool| by {
        assert |multiset(banknotes)| == |multiset(pool)|;
      }
      for row := 0 to count
        invariant multiset(banknotes) == multiset(pool)
        invariant 0 < row ==> banknotes == Restored(sorted, amount, x, row - 1)
        invariant Search(cells, count, x, 0) == Search(cells, count, x, row)
      {
        found := TryCell(amount, x, row, pool);
        SearchStep(cells, count, x, row);
        CellsOfAt(sorted, amount, x, row);
        if found.Some? {
          y := row;
          return;
        }
        assert banknotes == Restored(sorted, amount, x, row);
      }
      SearchRowEnd(cells, count, x);
      found := None;
    }

    /** One cell (x, y): rebuild the stack in descending order, so that the smallest note is on
        top, pop y + 1 notes and settle the cell on them. `pool` is any list of the notes the
        stack holds, so the outcome depends only on which notes are in the stack. */
    method TryCell(amount: int, x: nat, y: nat, ghost pool: seq<int>) returns (found: Option<seq<int>>)
      requires multiset(banknotes) == multiset(pool) && y < |pool|
      modifies this
      ensures found == Cell(SortDesc(pool), amount, x, y)
      ensures found.None? ==> multiset(banknotes) == multiset(pool)
      ensures found.None? ==> banknotes == Restored(SortDesc(pool), amount, x, y)
      ensures found.Some? ==> banknotes == SortDesc(pool)[..|pool| - (y + 1)]
    {
      SortStack(pool);
      ghost var sorted := banknotes;
      assert |sorted| == |pool|;
      var taken := PopNotes(y + 1);
      RestoredOf(sorted, amount, x, y, banknotes, taken);
      found := SettleCell(taken, amount, x);
      if found.None? {
        RestoredMultiset(sorted, amount, x, y);
      }
    }

    /** Rebuilds the stack from its notes in descending order, so that the smallest is on top;
        the order it had before does not matter. */
    method SortStack(ghost pool: seq<int>)
      requires multiset(banknotes) == multiset(pool)
      modifies this
      ensures banknotes == SortDesc(pool)
    {
      SortDescOfPermutation(banknotes, pool);
      banknotes := SortDesc(banknotes);
    }

    /** The rest of a cell once its notes are popped: greedily fill a combination of at most
        x + 1 of the popped notes. A combination adding up to `amount` is returned and the
        popped notes stay out of the stack; otherwise every popped note is pushed back, the
        working notes left first and then the failed combination. */
    method SettleCell(taken: seq<int>, amount: int, x: nat) returns (found: Option<seq<int>>)
      modifies this
      ensures found == Attempt(taken, amount, x)
      ensures found.None? ==> multiset(banknotes) == multiset(old(banknotes)) + multiset(taken)
      ensures found.None? ==>
                banknotes == old(banknotes) + Fill(taken, [], amount, x + 1).0 + Fill(taken, [], amount, x + 1).1
      ensures found.Some? ==> banknotes == old(banknotes)
    {
      var rest, combination := Greedy(taken, amount, x);
      FillConserves(taken, [], amount, x + 1);
      FillIdle(taken, [], amount, x + 1);
      if combination != [] {
        if Sum(combination) == amount {
          return Some(combination);
        }
        rest := rest + combination;
        PushAll(rest);
      } else {
        PushAll(rest);
      }
      return None;
    }

    /** Pops `count` notes off the stack; they are returned in the order they were popped. */
    method PopNotes(count: nat) returns (taken: seq<int>)
      requires count <= |banknotes|
      modifies this
      ensures taken == Popped(old(banknotes), count)
      ensures banknotes == old(banknotes)[..|old(banknotes)| - count]
    {
      taken := [];
      for i := 0 to count
        invariant taken == Popped(old(banknotes), i)
        invariant banknotes == old(banknotes)[..|old(banknotes)| - i]
      {
        taken := taken + [banknotes[|banknotes| - 1]];
        banknotes := banknotes[..|banknotes| - 1];
      }
    }
  }

  /** The greedy fill of one cell: take the largest working note not above `amount`; if there
      is one, keep adding the largest note that fits under what is still missing, until the
      combination holds x + 1 notes or nothing fits. Returns the working notes left and the
      combination, which is empty exactly when no note fits at all. */
  method Greedy(taken: seq<int>, amount: int, x: nat) returns (rest: seq<int>, combination: seq<int>)
    ensures rest == Fill(taken, [], amount, x + 1).0
    ensures combination == Fill(taken, [], amount, x + 1).1
  {
    rest, combination := taken, [];
    var possible := MaxAtMost(rest, amount);
    if possible.Some? {
      combination := combination + [possible.value];
      rest := RemoveFirst(rest, possible.value);
      while |combination| < x + 1
        invariant Fill(rest, combination, amount, x + 1) == Fill(taken, [], amount, x + 1)
        decreases x + 1 - |combination|
      {
        var local := MaxAtMost(rest, amount - Sum(combination));
        if local.Some? {
          combination := combination + [local.value];
          rest := RemoveFirst(rest, local.value);
        } else {
          break;
        }
      }
    }
  }
}
