/** The `Counter` collection: one sequence value per counter id (`"noticeId"`,
    `"complaintId"`), bumped by an upserting `$inc`. The database applies each
    bump atomically; here each allocation is one sequential step. */
module Counters {

  const NOTICE_COUNTER := "noticeId"
  const COMPLAINT_COUNTER := "complaintId"

  class CounterStore {
    /** The stored `seq` of every counter document that exists. */
    var seqs: map<string, nat>
    /** Every value ever handed out, per counter. */
    ghost var issued: map<string, set<nat>>

    /** A counter document that does not exist yet reads as 0: an upserting
        `$inc` treats a missing `seq` as 0. */
    function Seq(kind: string): nat
      reads this
    {
      if kind in seqs then seqs[kind] else 0
    }

    ghost function Issued(kind: string): set<nat>
      reads this
    {
      if kind in issued then issued[kind] else {}
    }

    /** Every value handed out lies between 1 and the counter's current value. */
    ghost predicate Valid()
      reads this
    {
      forall kind, n :: kind in issued && n in issued[kind] ==> 1 <= n <= Seq(kind)
    }

    constructor ()
      ensures Valid()
      ensures seqs == map[] && issued == map[]
    {
      seqs := map[];
      issued := map[];
    }

    /** `Counter.findOneAndUpdate({id: kind}, {$inc: {seq: 1}}, {new: true, upsert: true})`:
        the counter (0 when absent) goes up by exactly one, and the value after
        the increment is returned. */
    method Allocate(kind: string) returns (value: nat)
      requires Valid()
      modifies this
      ensures Valid()
      ensures value == old(Seq(kind)) + 1
      ensures seqs == old(seqs)[kind := value]
      ensures forall k :: k != kind ==> Seq(k) == old(Seq(k))
      ensures forall n :: n in old(Issued(kind)) ==> n < value
      ensures issued == old(issued)[kind := old(Issued(kind)) + {value}]
    {
      value := Seq(kind) + 1;
      seqs := seqs[kind := value];
      issued := issued[kind := Issued(kind) + {value}];
    }
  }

  /** Two allocations in a row, on one counter or on two. */
  method AllocateTwice(store: CounterStore, first: string, second: string) returns (a: nat, b: nat)
    requires store.Valid()
    modifies store
    ensures store.Valid()
    ensures a == old(store.Seq(first)) + 1
    ensures first == second ==> b == a + 1
    ensures first != second ==> b == old(store.Seq(second)) + 1 && store.Seq(first) == a
    ensures store.seqs == old(store.seqs)[first := a][second := b]
  {
    a := store.Allocate(first);
    b := store.Allocate(second);
  }
}
