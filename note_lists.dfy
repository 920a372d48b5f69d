/** The list, stack and query operations that CollectAmount applies to individual notes:
    Sum, OrderByDescending, Where(b <= bound).Max() and List.Remove, each as a function on
    a sequence of note values. */
module NoteLists {
  import opened Wrappers

  /** `count` copies of `note`, in the order a counting loop pushes them. */
  function Repeat(note: int, count: int): (r: seq<int>)
    ensures |r| == if count > 0 then count else 0
    ensures forall i :: 0 <= i < |r| ==> r[i] == note
  {
    if count <= 0 then [] else Repeat(note, count - 1) + [note]
  }

  lemma {:induction false} RepeatMultiset(note: int, count: int)
    ensures multiset(Repeat(note, count)) == multiset{}[note := if count > 0 then count else 0]
  {
    if count > 0 {
      RepeatMultiset(note, count - 1);
    }
  }

  /** Sum of the note values; the sum of no notes is 0. */
  function Sum(notes: seq<int>): int
  {
    if notes == [] then 0 else Sum(notes[..|notes| - 1]) + notes[|notes| - 1]
  }

  lemma {:induction false} SumConcat(a: seq<int>, b: seq<int>)
    ensures Sum(a + b) == Sum(a) + Sum(b)
  {
    if b != [] {
      var ab := a + b;
      assert ab[..|ab| - 1] == a + b[..|b| - 1];
      assert ab[|ab| - 1] == b[|b| - 1];
      assert Sum(ab) == Sum(ab[..|ab| - 1]) + ab[|ab| - 1];
      SumConcat(a, b[..|b| - 1]);
    } else {
      assert a + b == a;
    }
  }

  /** Adding one note at the end adds its value. */
  lemma SumSnoc(notes: seq<int>, note: int)
    ensures Sum(notes + [note]) == Sum(notes) + note
  {
    assert (notes + [note])[..|notes|] == notes;
  }

  /** The sum depends only on which notes there are, not on their order. */
  lemma {:induction false} SumOfMultiset(a: seq<int>, b: seq<int>)
    requires multiset(a) == multiset(b)
    ensures Sum(a) == Sum(b)
  {
    if a != [] {
      var last := a[|a| - 1];
      assert a == a[..|a| - 1] + [last];
      assert last in multiset(b);
      var i :| 0 <= i < |b| && b[i] == last;
      assert b == b[..i] + [last] + b[i + 1..];
      assert multiset(a[..|a| - 1]) == multiset(a) - multiset{last};
      assert multiset(b[..i] + b[i + 1..]) == multiset(b) - multiset{last};
      SumOfMultiset(a[..|a| - 1], b[..i] + b[i + 1..]);
      SumConcat(b[..i], [last]);
      SumConcat(b[..i] + [last], b[i + 1..]);
      SumConcat(b[..i], b[i + 1..]);
    }
  }

  /** Every note is non-negative, so taking notes away never raises the sum. */
  lemma {:induction false} SumNonNegative(notes: seq<int>)
    requires forall i :: 0 <= i < |notes| ==> notes[i] >= 0
    ensures Sum(notes) >= 0
  {
    if notes != [] {
      SumNonNegative(notes[..|notes| - 1]);
    }
  }

  /** Every note is a multiple of `unit`, and so is their sum. */
  lemma {:induction false} SumDivisible(notes: seq<int>, unit: int)
    requires unit > 0
    requires forall i :: 0 <= i < |notes| ==> notes[i] % unit == 0
    ensures Sum(notes) % unit == 0
  {
    if notes != [] {
      SumDivisible(notes[..|notes| - 1], unit);
      MultiplesAdd(Sum(notes[..|notes| - 1]), notes[|notes| - 1], unit);
    }
  }

  lemma MultiplesAdd(a: int, b: int, unit: int)
    requires unit > 0 && a % unit == 0 && b % unit == 0
    ensures (a + b) % unit == 0
  {
    var p, q := a / unit, b / unit;
    assert a == unit * p && b == unit * q;
    assert a + b == unit * (p + q);
    MultipleMod(unit, p + q);
  }

  /** A multiple of `unit` leaves no remainder. */
  lemma MultipleMod(unit: int, k: int)
    requires unit > 0
    ensures (unit * k) % unit == 0
  {
    var m, r := (unit * k) / unit, (unit * k) % unit;
    assert unit * k == unit * m + r && 0 <= r < unit;
    assert unit * (k - m) == r;
    if k - m >= 1 {
      MultipleAtLeast(unit, k - m);
    } else if k - m <= -1 {
      assert unit * (m - k) == -r;
      MultipleAtLeast(unit, m - k);
    }
  }

  lemma {:induction false} MultipleAtLeast(unit: int, d: int)
    requires unit > 0 && d >= 1
    ensures unit * d >= unit
    decreases d
  {
    if d > 1 {
      MultipleAtLeast(unit, d - 1);
      assert unit * d == unit * (d - 1) + unit;
    }
  }

  /** Largest first: every note is at least as large as every later one. */
  ghost predicate Descending(notes: seq<int>)
  {
    forall i, j :: 0 <= i < j < |notes| ==> notes[i] >= notes[j]
  }

  /** Puts `note` into a descending list at its place (InsertDescending). */
  function Insert(note: int, sorted: seq<int>): (r: seq<int>)
    ensures multiset(r) == multiset(sorted) + multiset{note}
    ensures |r| == |sorted| + 1 && (r[0] == note || (sorted != [] && r[0] == sorted[0]))
  {
    if sorted == [] || note >= sorted[0] then [note] + sorted
    else
      assert sorted == [sorted[0]] + sorted[1..];
      [sorted[0]] + Insert(note, sorted[1..])
  }

  /** Inserting into a descending list keeps it descending. */
  lemma {:induction false} InsertDescending(note: int, sorted: seq<int>)
    requires Descending(sorted)
    ensures Descending(Insert(note, sorted))
  {
    if sorted != [] && note < sorted[0] {
      var tail := Insert(note, sorted[1..]);
      DescendingTail(sorted);
      InsertDescending(note, sorted[1..]);
      forall k | 0 <= k < |tail| ensures sorted[0] >= tail[k] {
        var t := tail[k];
        assert t in multiset(tail);
        if t != note {
          assert t in multiset(sorted[1..]);
          assert t in sorted by {
            assert sorted == [sorted[0]] + sorted[1..];
          }
          HeadIsLargest(sorted, t);
        }
      }
      ConsDescending(sorted[0], tail);
    }
  }

  /** A note no smaller than any of a descending list can go in front of it. */
  lemma ConsDescending(head: int, tail: seq<int>)
    requires Descending(tail)
    requires forall k :: 0 <= k < |tail| ==> head >= tail[k]
    ensures Descending([head] + tail)
  {
  }

  /** OrderByDescending on note values: a rearrangement of the notes, which
      SortDescDescending shows to be in descending order. */
  function SortDesc(notes: seq<int>): (sorted: seq<int>)
    ensures multiset(sorted) == multiset(notes)
    ensures |sorted| == |notes|
  {
    if notes == [] then []
    else
      assert notes == [notes[0]] + notes[1..];
      Insert(notes[0], SortDesc(notes[1..]))
  }

  lemma {:induction false} SortDescDescending(notes: seq<int>)
    ensures Descending(SortDesc(notes))
  {
    if notes != [] {
      SortDescDescending(notes[1..]);
      InsertDescending(notes[0], SortDesc(notes[1..]));
    }
  }

  lemma HeadIsLargest(sorted: seq<int>, note: int)
    requires Descending(sorted) && note in sorted
    ensures note <= sorted[0]
  {
    var i :| 0 <= i < |sorted| && sorted[i] == note;
    assert i == 0 || sorted[0] >= sorted[i];
  }

  /** Two descending lists of the same notes are equal, so equal values make ordering
      them stable or not irrelevant. */
  lemma {:induction false} DescendingUnique(a: seq<int>, b: seq<int>)
    requires Descending(a) && Descending(b)
    requires multiset(a) == multiset(b)
    ensures a == b
  {
    if a != [] {
      SameHead(a, b);
      DescendingTail(a);
      DescendingTail(b);
      DescendingUnique(a[1..], b[1..]);
      assert a == [a[0]] + a[1..] && b == [b[0]] + b[1..];
    }
  }

  lemma SameHead(a: seq<int>, b: seq<int>)
    requires Descending(a) && Descending(b)
    requires multiset(a) == multiset(b) && a != []
    ensures b != [] && a[0] == b[0] && multiset(a[1..]) == multiset(b[1..])
  {
    assert b != [] by {
      assert a[0] in multiset(a);
    }
    assert b[0] in a by {
      assert b[0] in multiset(b);
    }
    assert a[0] in b by {
      assert a[0] in multiset(a);
    }
    HeadIsLargest(a, b[0]);
    HeadIsLargest(b, a[0]);
    ConsMultiset(a);
    ConsMultiset(b);
  }

  lemma ConsMultiset(s: seq<int>)
    requires s != []
    ensures multiset(s[1..]) == multiset(s) - multiset{s[0]}
  {
    assert s == [s[0]] + s[1..];
  }

  lemma DescendingTail(sorted: seq<int>)
    requires Descending(sorted) && sorted != []
    ensures Descending(sorted[1..])
  {
  }

  /** Sorting a rearranged pool yields the same list as sorting the pool. */
  lemma SortDescOfPermutation(a: seq<int>, b: seq<int>)
    requires multiset(a) == multiset(b)
    ensures SortDesc(a) == SortDesc(b)
  {
    SortDescDescending(a);
    SortDescDescending(b);
    DescendingUnique(SortDesc(a), SortDesc(b));
  }

  /** Where(b => b <= bound) followed by Any() and Max(): the largest note not above `bound`,
      or None when there is none (MaxAtMostLargest). */
  function MaxAtMost(notes: seq<int>, bound: int): Option<int>
  {
    MaxAtMostFrom(notes, bound, 0)
  }

  /** The scan behind MaxAtMost, over the notes from position `i` on. */
  function MaxAtMostFrom(notes: seq<int>, bound: int, i: nat): Option<int>
    decreases |notes| - i
  {
    if i >= |notes| then None
    else
      var rest := MaxAtMostFrom(notes, bound, i + 1);
      if notes[i] > bound then rest
      else if rest.Some? && rest.value >= notes[i] then rest
      else Some(notes[i])
  }

  /** What the scan from position `i` finds is a note at or after `i`, not above the bound. */
  lemma {:induction false} MaxAtMostFromFits(notes: seq<int>, bound: int, i: nat)
    ensures MaxAtMostFrom(notes, bound, i).Some? ==>
              exists k :: i <= k < |notes| && notes[k] == MaxAtMostFrom(notes, bound, i).value
    ensures MaxAtMostFrom(notes, bound, i).Some? ==> MaxAtMostFrom(notes, bound, i).value <= bound
    decreases |notes| - i
  {
    if i < |notes| {
      MaxAtMostFromFits(notes, bound, i + 1);
    }
  }

  /** What MaxAtMost finds is one of the notes and not above the bound. */
  lemma MaxAtMostFits(notes: seq<int>, bound: int)
    ensures MaxAtMost(notes, bound).Some? ==>
              MaxAtMost(notes, bound).value in notes && MaxAtMost(notes, bound).value <= bound
  {
    MaxAtMostFromFits(notes, bound, 0);
  }

  /** The scan from position `i` finds nothing exactly when every note from `i` on is above the
      bound, and what it finds is at least every such note not above the bound. */
  lemma {:induction false} MaxAtMostFromLargest(notes: seq<int>, bound: int, i: nat)
    ensures MaxAtMostFrom(notes, bound, i).None? <==> forall k :: i <= k < |notes| ==> notes[k] > bound
    ensures MaxAtMostFrom(notes, bound, i).Some? ==>
              forall k :: i <= k < |notes| && notes[k] <= bound ==> notes[k] <= MaxAtMostFrom(notes, bound, i).value
    decreases |notes| - i
  {
    if i < |notes| {
      MaxAtMostFromLargest(notes, bound, i + 1);
    }
  }

  /** MaxAtMost finds nothing exactly when every note is above the bound, and what it finds is
      at least every note not above the bound. */
  lemma MaxAtMostLargest(notes: seq<int>, bound: int)
    ensures MaxAtMost(notes, bound).None? <==> forall i :: 0 <= i < |notes| ==> notes[i] > bound
    ensures MaxAtMost(notes, bound).Some? ==>
              forall i :: 0 <= i < |notes| && notes[i] <= bound ==> notes[i] <= MaxAtMost(notes, bound).value
  {
    MaxAtMostFromLargest(notes, bound, 0);
  }

  /** The position of the first occurrence of `note` from position `i` on, or |notes| if there
      is none. */
  function IndexOf(notes: seq<int>, note: int, i: nat): (k: nat)
    requires i <= |notes|
    ensures i <= k <= |notes|
    ensures k < |notes| ==> notes[k] == note
    decreases |notes| - i
  {
    if i == |notes| || notes[i] == note then i else IndexOf(notes, note, i + 1)
  }

  /** IndexOf finds the first occurrence: no position it passes holds the note. */
  lemma {:induction false} IndexOfFirst(notes: seq<int>, note: int, i: nat)
    requires i <= |notes|
    ensures forall j :: i <= j < IndexOf(notes, note, i) ==> notes[j] != note
    decreases |notes| - i
  {
    if i < |notes| && notes[i] != note {
      IndexOfFirst(notes, note, i + 1);
    }
  }

  /** The first n notes without the one at position k, in their order, built from the end. */
  function Without(notes: seq<int>, k: nat, n: nat): seq<int>
    requires n <= |notes|
  {
    if n == 0 then []
    else if n - 1 == k then Without(notes, k, n - 1)
    else Without(notes, k, n - 1) + [notes[n - 1]]
  }

  /** Leaving out position k of the first n notes is the notes before it followed by the ones
      after it; when k is not among them, nothing is left out. */
  lemma {:induction false} WithoutSlices(notes: seq<int>, k: nat, n: nat)
    requires n <= |notes|
    ensures Without(notes, k, n) == if k < n then notes[..k] + notes[k + 1..n] else notes[..n]
  {
    if n == 0 {
      assert notes[..n] == [];
    } else if n - 1 == k {
      WithoutSlices(notes, k, n - 1);
      assert notes[k + 1..n] == [];
    } else if n - 1 < k {
      WithoutSlices(notes, k, n - 1);
      assert notes[..n] == notes[..n - 1] + [notes[n - 1]];
    } else {
      WithoutSlices(notes, k, n - 1);
      assert notes[k + 1..n] == notes[k + 1..n - 1] + [notes[n - 1]];
    }
  }

  /** List.Remove: drops the first occurrence of `note`, if any (RemoveFirstMultiset). */
  function RemoveFirst(notes: seq<int>, note: int): seq<int>
  {
    var k := IndexOf(notes, note, 0);
    if k < |notes| then Without(notes, k, |notes|) else notes
  }

  /** Removing a note that is there takes exactly one copy of it away; removing one that is not
      there changes nothing. */
  lemma RemoveFirstMultiset(notes: seq<int>, note: int)
    ensures note in notes ==> multiset(RemoveFirst(notes, note)) == multiset(notes) - multiset{note}
    ensures note !in notes ==> RemoveFirst(notes, note) == notes
  {
    var k := IndexOf(notes, note, 0);
    IndexOfFirst(notes, note, 0);
    if k < |notes| {
      WithoutSlices(notes, k, |notes|);
      var before, after := notes[..k], notes[k + 1..];
      assert notes[k + 1..|notes|] == after;
      assert RemoveFirst(notes, note) == before + after;
      assert notes == before + [note] + after;
      assert multiset(notes) == multiset(before + after) + multiset{note};
    }
  }
}
