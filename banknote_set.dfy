/** The (Nominal, Count) value of CashMachine/BanknoteSet.cs and the sums taken over lists of it. */
module BanknoteSets {

  /** One denomination and how many notes of it. The source's class only stores its two
      constructor arguments, with no validation and private setters, so a datatype value
      (any int in either field, never changed after construction) is the whole of it. */
  datatype BanknoteSet = BanknoteSet(Nominal: int, Count: int)

  /** How many individual notes a set stands for: a non-positive Count stands for none. */
  function Units(group: BanknoteSet): nat
  {
    if group.Count > 0 then group.Count else 0
  }

  /** How many notes of value `nominal` the sets stand for together. */
  function CountOf(sets: seq<BanknoteSet>, nominal: int): nat
  {
    if sets == [] then 0
    else (if sets[0].Nominal == nominal then Units(sets[0]) else 0) + CountOf(sets[1..], nominal)
  }

  /** Sum of Count * Nominal over the sets: the amount a result stands for. */
  function Total(sets: seq<BanknoteSet>): int
  {
    if sets == [] then 0 else sets[0].Count * sets[0].Nominal + Total(sets[1..])
  }

  /** Sum of Count over the sets: the number of notes a result stands for. */
  function NoteCount(sets: seq<BanknoteSet>): int
  {
    if sets == [] then 0 else sets[0].Count + NoteCount(sets[1..])
  }

  /** No nominal appears in two sets. */
  predicate DistinctNominals(sets: seq<BanknoteSet>)
  {
    forall i, j :: 0 <= i < j < |sets| ==> sets[i].Nominal != sets[j].Nominal
  }
}
