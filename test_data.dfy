/** The machine of CashMachine.Tests/CashMachineHelperTests.cs: three 100s, ten 50s, seven 20s
    and four 500s, and the amounts for which CollectAmount must return null. */
module TestData {
  import opened Wrappers
  import opened BanknoteSets
  import opened NoteLists
  import opened Dispensing
  import opened CashMachine

  /** The sets the tests build their helper from. */
  function Machine(): seq<BanknoteSet>
  {
    [BanknoteSet(100, 3), BanknoteSet(50, 10), BanknoteSet(20, 7), BanknoteSet(500, 4)]
  }

  /** Every note of the test machine is one of its four nominals. */
  lemma MachineNotes(i: int)
    requires 0 <= i < |Flatten(Machine())|
    ensures Flatten(Machine())[i] in {100, 50, 20, 500}
  {
    var note := Flatten(Machine())[i];
    assert note in multiset(Flatten(Machine()));
    FlattenCount(Machine(), note);
  }

  /** The test machine holds 2940 in notes. */
  lemma MachineValue()
    ensures Sum(Flatten(Machine())) == 2940
  {
    FlattenSum(Machine());
  }

  /** 10 is below the smallest note, 20: no combination. */
  lemma TenFails()
    ensures Dispense(Flatten(Machine()), 10) == None
  {
    forall i | 0 <= i < |Flatten(Machine())| ensures Flatten(Machine())[i] > 10 {
      MachineNotes(i);
    }
    CollectBelowEveryNote(Flatten(Machine()), 10);
  }

  /** 111 is not a multiple of 10, and every note is: no combination. */
  lemma OneElevenFails()
    ensures Dispense(Flatten(Machine()), 111) == None
  {
    forall i | 0 <= i < |Flatten(Machine())| ensures Flatten(Machine())[i] % 10 == 0 {
      MachineNotes(i);
    }
    CollectIndivisible(Flatten(Machine()), 111, 10);
  }

  /** 3500 is more than the 2940 the machine holds: no combination. */
  lemma ThirtyFiveHundredFails()
    ensures Dispense(Flatten(Machine()), 3500) == None
  {
    forall i | 0 <= i < |Flatten(Machine())| ensures Flatten(Machine())[i] >= 0 {
      MachineNotes(i);
    }
    MachineValue();
    CollectAboveValue(Flatten(Machine()), 3500);
  }

  /** CashMachineHelper_GiveAmount_Fail: a fresh helper over the test machine returns null for
      each of 10, 111 and 3500. */
  method GiveAmountFails() returns (ten: Option<seq<BanknoteSet>>, odd: Option<seq<BanknoteSet>>,
                                    tooMuch: Option<seq<BanknoteSet>>)
    ensures ten == None && odd == None && tooMuch == None
  {
    var helper := new CashMachineHelper(Machine());
    ten := helper.CollectAmount(10);
    TenFails();
    helper := new CashMachineHelper(Machine());
    odd := helper.CollectAmount(111);
    OneElevenFails();
    helper := new CashMachineHelper(Machine());
    tooMuch := helper.CollectAmount(3500);
    ThirtyFiveHundredFails();
  }

  /** The greedy on the notes 3, 4, 5 and 6 takes 6, then 5, and then nothing fits under
      the 2 still missing: it never reaches 13, whatever the cap. */
  lemma GreedyOnAll(x: nat)
    ensures Attempt([3, 4, 5, 6], 13, x) == None
  {
    var none: seq<int> := [];
    assert Sum(none) == 0;
    assert MaxAtMost([3, 4, 5, 6], 13) == Some(6);
    assert none + [6] == [6];
    assert RemoveFirst([3, 4, 5, 6], 6) == [3, 4, 5];
    assert Fill([3, 4, 5, 6], none, 13, x + 1) == Fill([3, 4, 5], [6], 13, x + 1);
    if x > 0 {
      assert Sum([6]) == 6;
      assert MaxAtMost([3, 4, 5], 7) == Some(5);
      assert RemoveFirst([3, 4, 5], 5) == [3, 4];
      assert [6] + [5] == [6, 5];
      assert Sum([6, 5]) == 11;
      assert Fill([3, 4, 5], [6], 13, x + 1) == Fill([3, 4], [6, 5], 13, x + 1);
      assert MaxAtMost([3, 4], 2) == None;
    }
  }

  /** Working notes worth less than the amount in all never reach it. */
  lemma SmallCell(taken: seq<int>, amount: int, x: nat)
    requires forall i :: 0 <= i < |taken| ==> taken[i] >= 0
    requires Sum(taken) < amount
    ensures Attempt(taken, amount, x) == None
  {
    if Attempt(taken, amount, x).Some? {
      AttemptWithinValue(taken, amount, x);
      assert false;
    }
  }

  /** The notes popped off the sorted stack 6, 5, 4, 3, one to four at a time, and what the
      first three of those are worth. */
  lemma PoppedThirteen()
    ensures Popped([6, 5, 4, 3], 1) == [3] && Popped([6, 5, 4, 3], 2) == [3, 4]
    ensures Popped([6, 5, 4, 3], 3) == [3, 4, 5] && Popped([6, 5, 4, 3], 4) == [3, 4, 5, 6]
    ensures Sum([3]) == 3 && Sum([3, 4]) == 7 && Sum([3, 4, 5]) == 12
  {
    assert [3, 4, 5][..2] == [3, 4] && [3, 4][..1] == [3];
  }

  /** Every cell over the sorted notes 6, 5, 4, 3 fails to reach 13: popping one, two or
      three notes leaves less than 13 to work with, and popping all four hands the greedy all
      of them. */
  lemma ThirteenCell(x: nat, y: nat)
    requires y < 4
    ensures Cell([6, 5, 4, 3], 13, x, y) == None
  {
    PoppedThirteen();
    if y == 0 {
      SmallCell([3], 13, x);
    } else if y == 1 {
      SmallCell([3, 4], 13, x);
    } else if y == 2 {
      SmallCell([3, 4, 5], 13, x);
    } else {
      GreedyOnAll(x);
    }
  }

  /** OrderByDescending on a stack holding the notes 3, 4, 5 and 6, in whatever order. */
  lemma SortedThirteen(pool: seq<int>)
    requires multiset(pool) == multiset{3, 4, 5, 6}
    ensures SortDesc(pool) == [6, 5, 4, 3]
  {
    var sorted, expected := SortDesc(pool), [6, 5, 4, 3];
    SortDescDescending(pool);
    DescendingThirteen();
    DescendingUnique(sorted, expected);
  }

  /** 6, 5, 4, 3 is descending and holds the notes 3, 4, 5 and 6. */
  lemma DescendingThirteen()
    ensures Descending([6, 5, 4, 3]) && multiset([6, 5, 4, 3]) == multiset{3, 4, 5, 6}
  {
  }

  /** 13 can be paid from a stack holding the notes 3, 4, 5 and 6: with 3, 4 and 6. */
  lemma ThirteenReachable(pool: seq<int>)
    requires multiset(pool) == multiset{3, 4, 5, 6}
    ensures Sum([3, 4, 6]) == 13 && multiset([3, 4, 6]) <= multiset(pool)
  {
    assert [3, 4, 6][..2] == [3, 4] && [3, 4][..1] == [3];
  }

  /** The search does not try every combination: from a stack holding the notes 3, 4, 5 and 6
      no cell reaches 13 (ThirteenReachable pays it with 3, 4 and 6), because each cell pops
      the smallest notes and then takes the largest that fit. */
  lemma ThirteenMissed(pool: seq<int>)
    requires multiset(pool) == multiset{3, 4, 5, 6}
    ensures Collect(pool, 13) == Exhausted && Dispense(pool, 13) == None
  {
    SortedThirteen(pool);
    if Collect(pool, 13).Dispensed? {
      var o := Collect(pool, 13);
      CollectInGrid(pool, 13, o.combo, o.x, o.y);
      CollectFinds(pool, 13, o.combo, o.x, o.y);
      assert |pool| == 4 by {
        assert |multiset(pool)| == 4;
      }
      ThirteenCell(o.x, o.y);
      assert false;
    }
  }

  // ---------------------------------------------------------------------------
  // A success: 70 from one 20 and one 50

  /** Any stack holding one 20 and one 50 is rebuilt as 50, 20: the 20 on top. */
  lemma SortedSeventy(pool: seq<int>)
    requires multiset(pool) == multiset{20, 50}
    ensures SortDesc(pool) == [50, 20]
  {
    var sorted, expected := SortDesc(pool), [50, 20];
    SortDescDescending(pool);
    DescendingSeventy();
    DescendingUnique(sorted, expected);
  }

  /** 50, 20 is descending and holds one 20 and one 50. */
  lemma DescendingSeventy()
    ensures Descending([50, 20]) && multiset([50, 20]) == multiset{20, 50}
  {
  }

  /** The greedy on the popped notes 20, 50: with room for one note it takes the 50 and stops
      short of 70; with room for two it adds the 20 and reaches 70. */
  lemma GreedySeventy()
    ensures Attempt([20, 50], 70, 0) == None
    ensures Attempt([20, 50], 70, 1) == Some([50, 20])
  {
    var none: seq<int> := [];
    assert Sum(none) == 0;
    assert MaxAtMost([20, 50], 70) == Some(50);
    assert none + [50] == [50];
    assert RemoveFirst([20, 50], 50) == [20];
    assert Fill([20, 50], none, 70, 1) == Fill([20], [50], 70, 1);
    assert Fill([20, 50], none, 70, 2) == Fill([20], [50], 70, 2);
    assert Sum([50]) == 50;
    assert MaxAtMost([20], 20) == Some(20);
    assert RemoveFirst([20], 20) == [];
    assert [50] + [20] == [50, 20];
    assert Fill([20], [50], 70, 2) == Fill([], [50, 20], 70, 2);
    assert Sum([50, 20]) == 70;
  }

  /** The cells over the sorted notes 50, 20 for 70: only cell (1, 1), which pops both notes
      and may combine two, succeeds. */
  lemma SeventyCells()
    ensures Cell([50, 20], 70, 0, 0) == None && Cell([50, 20], 70, 1, 0) == None
    ensures Cell([50, 20], 70, 0, 1) == None
    ensures Cell([50, 20], 70, 1, 1) == Some([50, 20])
  {
    assert Popped([50, 20], 1) == [20];
    assert Popped([50, 20], 2) == [20, 50];
    assert Sum([20]) == 20;
    SmallCell([20], 70, 0);
    SmallCell([20], 70, 1);
    GreedySeventy();
  }

  /** One 20 and one 50 pay 70 in cell (1, 1) with both notes. */
  lemma SeventyFound(pool: seq<int>)
    requires multiset(pool) == multiset{20, 50}
    ensures Collect(pool, 70) == Dispensed([50, 20], 1, 1)
  {
    SortedSeventy(pool);
    assert |pool| == 2 by {
      assert |multiset(pool)| == 2;
    }
    var cells := CellsOf([50, 20], 70);
    SeventyCells();
    CellsOfAt([50, 20], 70, 0, 0);
    CellsOfAt([50, 20], 70, 0, 1);
    CellsOfAt([50, 20], 70, 1, 0);
    CellsOfAt([50, 20], 70, 1, 1);
    SearchStep(cells, 2, 0, 0);
    SearchStep(cells, 2, 0, 1);
    SearchRowEnd(cells, 2, 0);
    SearchStep(cells, 2, 1, 0);
    SearchStep(cells, 2, 1, 1);
  }

  /** From a stack holding one 20 and one 50, CollectAmount(70) returns one 50 and one 20. */
  lemma SmallSuccess(pool: seq<int>)
    requires multiset(pool) == multiset{20, 50}
    ensures Dispense(pool, 70) == Some([BanknoteSet(50, 1), BanknoteSet(20, 1)])
  {
    SeventyFound(pool);
    GroupSeventy();
  }

  /** Grouping the notes 50, 20 gives one 50 and then one 20, in order of first occurrence:
      two notes worth 70, as CashMachineHelper_GiveAmount_Success counts them. */
  lemma GroupSeventy()
    ensures GroupBy([50, 20]) == [BanknoteSet(50, 1), BanknoteSet(20, 1)]
    ensures NoteCount([BanknoteSet(50, 1), BanknoteSet(20, 1)]) == 2
    ensures Total([BanknoteSet(50, 1), BanknoteSet(20, 1)]) == 70
  {
    assert [50, 20][..1] == [50];
    var none: seq<int> := [];
    assert [50][..0] == none;
    assert GroupBy([50]) == [BanknoteSet(50, 1)];
    assert GroupBy([50, 20]) == AddNote([BanknoteSet(50, 1)], 20);
  }

  /** A helper built from one 20 and one 50 returns one 50 and one 20 for 70, and its stack is
      then empty: the winning cell popped both notes. */
  method GiveAmountSucceeds() returns (result: Option<seq<BanknoteSet>>, left: seq<int>)
    ensures result == Some([BanknoteSet(50, 1), BanknoteSet(20, 1)])
    ensures left == []
  {
    var sets := [BanknoteSet(20, 1), BanknoteSet(50, 1)];
    var helper := new CashMachineHelper(sets);
    assert Flatten(sets) == [20, 50] by {
      assert sets[1..] == [BanknoteSet(50, 1)];
      assert Repeat(20, 1) == [20] && Repeat(50, 1) == [50];
    }
    assert multiset([20, 50]) == multiset{20, 50};
    result := helper.CollectAmount(70);
    SmallSuccess([20, 50]);
    SeventyFound([20, 50]);
    left := helper.banknotes;
  }
}
