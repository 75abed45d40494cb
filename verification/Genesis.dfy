/** How a genesis config's supply is distributed (genesis/genesis.go, genesis/config.go).

Amounts are 64-bit; every sum below is over the natural numbers. Addresses are opaque values; the
X-chain sort only needs the order of the AVAX addresses.
*/
module Genesis {
  const TWO_64: nat := 0x1_0000_0000_0000_0000

  newtype uint64 = x: int | 0 <= x < 0x1_0000_0000_0000_0000

  type Address = nat

  datatype LockedAmount = LockedAmount(amount: uint64, locktime: uint64)

  datatype Allocation = Allocation(ethAddr: Address, avaxAddr: Address, initialAmount: uint64, unlockSchedule: seq<LockedAmount>)

  // ---------------------------------------------------------------- sums over schedules

  /** Chooses amounts by owner and locktime. */
  type Selector = (Address, Address, uint64) -> bool

  const ALL: Selector := (eth, avax, locktime) => true

  function Chosen(a: Allocation, u: LockedAmount, sel: Selector): nat {
    if sel(a.ethAddr, a.avaxAddr, u.locktime) then u.amount as nat else 0
  }

  /** The chosen amounts of `schedule`, owned like `a`. */
  function ScheduleSum(a: Allocation, schedule: seq<LockedAmount>, sel: Selector): nat {
    if schedule == [] then 0
    else ScheduleSum(a, schedule[..|schedule| - 1], sel) + Chosen(a, schedule[|schedule| - 1], sel)
  }

  function AllocationSum(a: Allocation, sel: Selector): nat { ScheduleSum(a, a.unlockSchedule, sel) }

  function Sum(allocations: seq<Allocation>, sel: Selector): nat {
    if allocations == [] then 0
    else Sum(allocations[..|allocations| - 1], sel) + AllocationSum(allocations[|allocations| - 1], sel)
  }

  function PartsSum(parts: seq<seq<Allocation>>, sel: Selector): nat {
    if parts == [] then 0 else PartsSum(parts[..|parts| - 1], sel) + Sum(parts[|parts| - 1], sel)
  }

  function Total(allocations: seq<Allocation>): nat { Sum(allocations, ALL) }

  /** Of what `sel` chooses, what belongs to the addresses, and what does not. */
  ghost function Among(addresses: seq<Address>, sel: Selector): Selector {
    (eth: Address, avax: Address, locktime: uint64) => avax in addresses && sel(eth, avax, locktime)
  }

  ghost function Outside(addresses: seq<Address>, sel: Selector): Selector {
    (eth: Address, avax: Address, locktime: uint64) => avax !in addresses && sel(eth, avax, locktime)
  }

  // ---------------------------------------------------------------- splitAllocations, step by step

  /** The variables of the loops of splitAllocations: finished parts, the part being filled, its
      amount, and the schedule of the allocation being cut. */
  datatype Split = Split(parts: seq<seq<Allocation>>, current: seq<Allocation>, amount: nat, schedule: seq<LockedAmount>)

  function WithSchedule(a: Allocation, schedule: seq<LockedAmount>): Allocation {
    a.(initialAmount := 0, unlockSchedule := schedule)
  }

  /** While another part can be closed, the part being filled is not overfull. */
  predicate Ready(s: Split, weight: nat, n: nat) {
    weight < TWO_64 && |s.parts| + 1 <= n && (|s.parts| + 1 < n ==> s.amount <= weight)
  }

  /** Closing a part: it is topped up to its weight with a piece of the unlock. */
  function Close(s: Split, a: Allocation, u: LockedAmount, weight: nat): Split
    requires s.amount <= weight < TWO_64
  {
    var piece := LockedAmount((weight - s.amount) as uint64, u.locktime);
    Split(s.parts + [s.current + [WithSchedule(a, s.schedule + [piece])]], [], 0, [])
  }

  function Leftover(s: Split, u: LockedAmount, weight: nat): LockedAmount
    requires s.amount <= weight < s.amount + u.amount as nat
  {
    u.(amount := u.amount - (weight - s.amount) as uint64)
  }

  /** The innermost loop: close parts while the unlock overfills them. */
  function Fill(s: Split, a: Allocation, u: LockedAmount, weight: nat, n: nat): (r: Split)
    requires Ready(s, weight, n)
    ensures Ready(r, weight, n)
    decreases n - |s.parts|
  {
    if s.amount + u.amount as nat > weight && |s.parts| + 1 < n then
      Fill(Close(s, a, u, weight), a, Leftover(s, u, weight), weight, n)
    else if u.amount == 0 then s
    else s.(amount := s.amount + u.amount as nat, schedule := s.schedule + [u])
  }

  function FillAll(s: Split, a: Allocation, unlocks: seq<LockedAmount>, weight: nat, n: nat): (r: Split)
    requires Ready(s, weight, n)
    ensures Ready(r, weight, n)
  {
    if unlocks == [] then s else Fill(FillAll(s, a, unlocks[..|unlocks| - 1], weight, n), a, unlocks[|unlocks| - 1], weight, n)
  }

  function AddAllocation(s: Split, a: Allocation, weight: nat, n: nat): (r: Split)
    requires Ready(s, weight, n)
    ensures Ready(r, weight, n)
  {
    var t := FillAll(s.(schedule := []), a, a.unlockSchedule, weight, n);
    if t.schedule == [] then t else t.(current := t.current + [WithSchedule(a, t.schedule)])
  }

  function AddAll(s: Split, allocations: seq<Allocation>, weight: nat, n: nat): (r: Split)
    requires Ready(s, weight, n)
    ensures Ready(r, weight, n)
  {
    if allocations == [] then s
    else AddAllocation(AddAll(s, allocations[..|allocations| - 1], weight, n), allocations[|allocations| - 1], weight, n)
  }

  const START := Split([], [], 0, [])

  function SplitParts(allocations: seq<Allocation>, n: nat): seq<seq<Allocation>>
    requires 1 <= n && Total(allocations) < TWO_64
  {
    var weight := Total(allocations) / n;
    assert weight <= Total(allocations);
    var s := AddAll(START, allocations, weight, n);
    s.parts + [s.current]
  }

  // ---------------------------------------------------------------- what the loops conserve

  /** The chosen amount placed so far, with the open schedule owned like `a`. */
  ghost function Placed(s: Split, a: Allocation, sel: Selector): nat {
    PartsSum(s.parts, sel) + Sum(s.current, sel) + ScheduleSum(a, s.schedule, sel)
  }

  ghost predicate PartsWeigh(parts: seq<seq<Allocation>>, weight: nat) {
    forall i :: 0 <= i < |parts| ==> Total(parts[i]) == weight
  }

  ghost predicate Balanced(s: Split, a: Allocation, weight: nat) {
    && s.amount == Sum(s.current, ALL) + ScheduleSum(a, s.schedule, ALL)
    && PartsWeigh(s.parts, weight)
    && (s.parts != [] ==> 0 < s.amount)
  }

  lemma ScheduleSumAppend(a: Allocation, schedule: seq<LockedAmount>, u: LockedAmount, sel: Selector)
    ensures ScheduleSum(a, schedule + [u], sel) == ScheduleSum(a, schedule, sel) + Chosen(a, u, sel)
  {
    assert (schedule + [u])[..|schedule|] == schedule;
  }

  lemma SumAppend(allocations: seq<Allocation>, a: Allocation, sel: Selector)
    ensures Sum(allocations + [a], sel) == Sum(allocations, sel) + AllocationSum(a, sel)
  {
    assert (allocations + [a])[..|allocations|] == allocations;
  }

  lemma PartsSumAppend(parts: seq<seq<Allocation>>, part: seq<Allocation>, sel: Selector)
    ensures PartsSum(parts + [part], sel) == PartsSum(parts, sel) + Sum(part, sel)
  {
    assert (parts + [part])[..|parts|] == parts;
  }

  /** The sums depend only on the owner, not on the rest of the allocation. */
  lemma {:induction false} SameOwner(a: Allocation, b: Allocation, schedule: seq<LockedAmount>, sel: Selector)
    requires a.ethAddr == b.ethAddr && a.avaxAddr == b.avaxAddr
    ensures ScheduleSum(a, schedule, sel) == ScheduleSum(b, schedule, sel)
  {
    if schedule != [] { SameOwner(a, b, schedule[..|schedule| - 1], sel); }
  }

  lemma ClosePart(s: Split, a: Allocation, u: LockedAmount, weight: nat, sel: Selector)
    requires s.amount <= weight < s.amount + u.amount as nat && weight < TWO_64
    ensures Placed(Close(s, a, u, weight), a, sel) + Chosen(a, Leftover(s, u, weight), sel) == Placed(s, a, sel) + Chosen(a, u, sel)
    ensures Sum(Close(s, a, u, weight).parts[|s.parts|], sel)
         == Sum(s.current, sel) + ScheduleSum(a, s.schedule, sel) + Chosen(a, LockedAmount((weight - s.amount) as uint64, u.locktime), sel)
  {
    var piece := LockedAmount((weight - s.amount) as uint64, u.locktime);
    var b := WithSchedule(a, s.schedule + [piece]);
    SumAppend(s.current, b, sel);
    SameOwner(a, b, s.schedule + [piece], sel);
    ScheduleSumAppend(a, s.schedule, piece, sel);
    PartsSumAppend(s.parts, s.current + [b], sel);
  }

  /** Filling with one unlock places exactly its amount, for every selection of owners and locktimes. */
  lemma {:induction false} FillConserves(s: Split, a: Allocation, u: LockedAmount, weight: nat, n: nat, sel: Selector)
    requires Ready(s, weight, n)
    ensures Placed(Fill(s, a, u, weight, n), a, sel) == Placed(s, a, sel) + Chosen(a, u, sel)
    decreases n - |s.parts|
  {
    if s.amount + u.amount as nat > weight && |s.parts| + 1 < n {
      ClosePart(s, a, u, weight, sel);
      FillConserves(Close(s, a, u, weight), a, Leftover(s, u, weight), weight, n, sel);
    } else if u.amount != 0 {
      ScheduleSumAppend(a, s.schedule, u, sel);
    }
  }

  /** Every closed part weighs `weight`, and a part is closed only when something is left for the next. */
  lemma {:induction false} FillBalances(s: Split, a: Allocation, u: LockedAmount, weight: nat, n: nat)
    requires Ready(s, weight, n) && PartsWeigh(s.parts, weight)
    requires s.amount == Sum(s.current, ALL) + ScheduleSum(a, s.schedule, ALL)
    requires s.parts != [] ==> 0 < s.amount + u.amount as nat
    ensures Balanced(Fill(s, a, u, weight, n), a, weight)
    decreases n - |s.parts|
  {
    if s.amount + u.amount as nat > weight && |s.parts| + 1 < n {
      CloseWeighs(s, a, u, weight);
      FillBalances(Close(s, a, u, weight), a, Leftover(s, u, weight), weight, n);
    } else if u.amount != 0 {
      ScheduleSumAppend(a, s.schedule, u, ALL);
    }
  }

  lemma CloseWeighs(s: Split, a: Allocation, u: LockedAmount, weight: nat)
    requires s.amount <= weight < s.amount + u.amount as nat && weight < TWO_64
    requires s.amount == Sum(s.current, ALL) + ScheduleSum(a, s.schedule, ALL) && PartsWeigh(s.parts, weight)
    ensures PartsWeigh(Close(s, a, u, weight).parts, weight)
  {
    ClosePart(s, a, u, weight, ALL);
  }

  lemma {:induction false} FillAllConserves(s: Split, a: Allocation, unlocks: seq<LockedAmount>, weight: nat, n: nat, sel: Selector)
    requires Ready(s, weight, n)
    ensures Placed(FillAll(s, a, unlocks, weight, n), a, sel) == Placed(s, a, sel) + ScheduleSum(a, unlocks, sel)
  {
    if unlocks != [] {
      FillAllConserves(s, a, unlocks[..|unlocks| - 1], weight, n, sel);
      FillConserves(FillAll(s, a, unlocks[..|unlocks| - 1], weight, n), a, unlocks[|unlocks| - 1], weight, n, sel);
    }
  }

  lemma {:induction false} FillAllBalances(s: Split, a: Allocation, unlocks: seq<LockedAmount>, weight: nat, n: nat)
    requires Ready(s, weight, n) && Balanced(s, a, weight)
    ensures Balanced(FillAll(s, a, unlocks, weight, n), a, weight)
  {
    if unlocks != [] {
      FillAllBalances(s, a, unlocks[..|unlocks| - 1], weight, n);
      FillBalances(FillAll(s, a, unlocks[..|unlocks| - 1], weight, n), a, unlocks[|unlocks| - 1], weight, n);
    }
  }

  /** Between allocations the amounts are all in the parts and the current part. */
  ghost predicate Settled(s: Split, weight: nat) {
    && s.amount == Sum(s.current, ALL)
    && PartsWeigh(s.parts, weight)
    && (s.parts != [] ==> 0 < s.amount)
  }

  ghost function Settlement(s: Split, sel: Selector): nat { PartsSum(s.parts, sel) + Sum(s.current, sel) }

  lemma AddAllocationConserves(s: Split, a: Allocation, weight: nat, n: nat, sel: Selector)
    requires Ready(s, weight, n)
    ensures Settlement(AddAllocation(s, a, weight, n), sel) == Settlement(s, sel) + AllocationSum(a, sel)
  {
    var t := FillAll(s.(schedule := []), a, a.unlockSchedule, weight, n);
    FillAllConserves(s.(schedule := []), a, a.unlockSchedule, weight, n, sel);
    if t.schedule != [] {
      var b := WithSchedule(a, t.schedule);
      SumAppend(t.current, b, sel);
      SameOwner(a, b, t.schedule, sel);
    }
  }

  lemma AddAllocationSettles(s: Split, a: Allocation, weight: nat, n: nat)
    requires Ready(s, weight, n) && Settled(s, weight)
    ensures Settled(AddAllocation(s, a, weight, n), weight)
  {
    var t := FillAll(s.(schedule := []), a, a.unlockSchedule, weight, n);
    FillAllBalances(s.(schedule := []), a, a.unlockSchedule, weight, n);
    if t.schedule != [] {
      var b := WithSchedule(a, t.schedule);
      SumAppend(t.current, b, ALL);
      SameOwner(a, b, t.schedule, ALL);
    }
  }

  lemma {:induction false} AddAllConserves(s: Split, allocations: seq<Allocation>, weight: nat, n: nat, sel: Selector)
    requires Ready(s, weight, n)
    ensures Settlement(AddAll(s, allocations, weight, n), sel) == Settlement(s, sel) + Sum(allocations, sel)
  {
    if allocations != [] {
      AddAllConserves(s, allocations[..|allocations| - 1], weight, n, sel);
      AddAllocationConserves(AddAll(s, allocations[..|allocations| - 1], weight, n), allocations[|allocations| - 1], weight, n, sel);
    }
  }

  lemma {:induction false} AddAllSettles(s: Split, allocations: seq<Allocation>, weight: nat, n: nat)
    requires Ready(s, weight, n) && Settled(s, weight)
    ensures Settled(AddAll(s, allocations, weight, n), weight)
  {
    if allocations != [] {
      AddAllSettles(s, allocations[..|allocations| - 1], weight, n);
      AddAllocationSettles(AddAll(s, allocations[..|allocations| - 1], weight, n), allocations[|allocations| - 1], weight, n);
    }
  }

  lemma {:induction false} EqualParts(parts: seq<seq<Allocation>>, weight: nat)
    requires PartsWeigh(parts, weight)
    ensures PartsSum(parts, ALL) == |parts| * weight
  {
    if parts != [] {
      var rest := parts[..|parts| - 1];
      EqualParts(rest, weight);
      Distribute(|rest|, 1, weight);
    }
  }

  lemma Distribute(x: nat, y: nat, w: nat)
    ensures (x + y) * w == x * w + y * w
    ensures 2 <= y ==> 2 * w <= y * w
  {
  }

  lemma PartCount(total: nat, n: nat, k: nat, amount: nat)
    requires 1 <= n && k + 1 <= n
    requires total == k * (total / n) + amount
    requires k + 1 < n ==> amount <= total / n
    requires 0 < k ==> 0 < amount
    ensures k + 1 == n <==> 0 < total || n == 1
    ensures k + 1 == n ==> amount == total - (n - 1) * (total / n) && amount < total / n + n
  {
    var w, rest := total / n, total % n;
    assert total == n * w + rest by { DivMod(total, n); }
    Distribute(k, n - k, w);
    assert k + (n - k) == n;
  }

  lemma DivMod(x: nat, n: nat)
    requires 1 <= n
    ensures x == n * (x / n) + x % n && x % n < n
  {
  }

  /** The split has as many parts as stakers exactly when there is something to stake or only one
      staker; all parts but the last weigh total / n, the last one the rest; and nothing moves between
      owners or locktimes. */
  lemma SplitSpec(allocations: seq<Allocation>, n: nat)
    requires 1 <= n && Total(allocations) < TWO_64
    ensures var parts := SplitParts(allocations, n);
      && 1 <= |parts| <= n
      && (|parts| == n <==> 0 < Total(allocations) || n == 1)
      && PartsWeigh(parts[..|parts| - 1], Total(allocations) / n)
      && (|parts| == n ==>
            && Total(parts[n - 1]) == Total(allocations) - (n - 1) * (Total(allocations) / n)
            && Total(parts[n - 1]) < Total(allocations) / n + n)
    ensures forall sel :: PartsSum(SplitParts(allocations, n), sel) == Sum(allocations, sel)
  {
    SplitWeights(allocations, n);
    forall sel
      ensures PartsSum(SplitParts(allocations, n), sel) == Sum(allocations, sel)
    {
      SplitConserves(allocations, n, sel);
    }
  }

  lemma SplitConserves(allocations: seq<Allocation>, n: nat, sel: Selector)
    requires 1 <= n && Total(allocations) < TWO_64
    ensures PartsSum(SplitParts(allocations, n), sel) == Sum(allocations, sel)
  {
    var w := Total(allocations) / n;
    var s := AddAll(START, allocations, w, n);
    AddAllConserves(START, allocations, w, n, sel);
    PartsSumAppend(s.parts, s.current, sel);
  }

  lemma SplitWeights(allocations: seq<Allocation>, n: nat)
    requires 1 <= n && Total(allocations) < TWO_64
    ensures var parts := SplitParts(allocations, n);
      && 1 <= |parts| <= n
      && (|parts| == n <==> 0 < Total(allocations) || n == 1)
      && PartsWeigh(parts[..|parts| - 1], Total(allocations) / n)
      && (|parts| == n ==>
            && Total(parts[n - 1]) == Total(allocations) - (n - 1) * (Total(allocations) / n)
            && Total(parts[n - 1]) < Total(allocations) / n + n)
  {
    var w := Total(allocations) / n;
    SplitSettles(allocations, w, n);
    SettledWeights(AddAll(START, allocations, w, n), Total(allocations), n);
  }

  lemma SettledWeights(s: Split, total: nat, n: nat)
    requires 1 <= n && Ready(s, total / n, n) && Settled(s, total / n) && PartsSum(s.parts, ALL) + s.amount == total
    ensures var parts := s.parts + [s.current];
      && 1 <= |parts| <= n
      && (|parts| == n <==> 0 < total || n == 1)
      && PartsWeigh(parts[..|parts| - 1], total / n)
      && (|parts| == n ==>
            && Total(parts[n - 1]) == total - (n - 1) * (total / n)
            && Total(parts[n - 1]) < total / n + n)
  {
    assert (s.parts + [s.current])[..|s.parts|] == s.parts;
    EqualParts(s.parts, total / n);
    PartCount(total, n, |s.parts|, s.amount);
  }

  lemma SplitSettles(allocations: seq<Allocation>, w: nat, n: nat)
    requires 1 <= n && w < TWO_64
    ensures var s := AddAll(START, allocations, w, n);
      && Settled(s, w) && PartsSum(s.parts, ALL) + s.amount == Total(allocations)
  {
    AddAllSettles(START, allocations, w, n);
    AddAllConserves(START, allocations, w, n, ALL);
  }

  // ---------------------------------------------------------------- splitAllocations as loops

  lemma {:induction false} SumPrefix(allocations: seq<Allocation>, i: nat, sel: Selector)
    requires i <= |allocations|
    ensures Sum(allocations[..i], sel) <= Sum(allocations, sel)
  {
    if i < |allocations| {
      SumPrefix(allocations[..|allocations| - 1], i, sel);
      assert allocations[..|allocations| - 1][..i] == allocations[..i];
    } else {
      assert allocations[..i] == allocations;
    }
  }

  lemma {:induction false} ScheduleSumPrefix(a: Allocation, schedule: seq<LockedAmount>, i: nat, sel: Selector)
    requires i <= |schedule|
    ensures ScheduleSum(a, schedule[..i], sel) <= ScheduleSum(a, schedule, sel)
  {
    if i < |schedule| {
      ScheduleSumPrefix(a, schedule[..|schedule| - 1], i, sel);
      assert schedule[..|schedule| - 1][..i] == schedule[..i];
    } else {
      assert schedule[..i] == schedule;
    }
  }

  /** Everything up to unlock `j` of allocation `i` stays below the total. */
  lemma PartialSum(allocations: seq<Allocation>, i: nat, j: nat)
    requires i < |allocations| && j < |allocations[i].unlockSchedule|
    ensures var a := allocations[i];
      && a.unlockSchedule[..j + 1] == a.unlockSchedule[..j] + [a.unlockSchedule[j]]
      && Sum(allocations[..i], ALL) + ScheduleSum(a, a.unlockSchedule[..j + 1], ALL) <= Total(allocations)
      && ScheduleSum(a, a.unlockSchedule[..j + 1], ALL) == ScheduleSum(a, a.unlockSchedule[..j], ALL) + a.unlockSchedule[j].amount as nat
  {
    var a := allocations[i];
    assert a.unlockSchedule[..j + 1] == a.unlockSchedule[..j] + [a.unlockSchedule[j]];
    ScheduleSumAppend(a, a.unlockSchedule[..j], a.unlockSchedule[j], ALL);
    ScheduleSumPrefix(a, a.unlockSchedule, j + 1, ALL);
    assert allocations[..i + 1] == allocations[..i] + [a];
    SumAppend(allocations[..i], a, ALL);
    SumPrefix(allocations, i + 1, ALL);
  }

  method TotalAmount(allocations: seq<Allocation>) returns (total: uint64)
    requires Total(allocations) < TWO_64
    ensures total as nat == Total(allocations)
  {
    total := 0;
    for i := 0 to |allocations|
      invariant total as nat == Sum(allocations[..i], ALL)
    {
      var a := allocations[i];
      for j := 0 to |a.unlockSchedule|
        invariant total as nat == Sum(allocations[..i], ALL) + ScheduleSum(a, a.unlockSchedule[..j], ALL)
      {
        PartialSum(allocations, i, j);
        total := total + a.unlockSchedule[j].amount;
      }
      assert a.unlockSchedule[..|a.unlockSchedule|] == a.unlockSchedule;
      assert allocations[..i + 1] == allocations[..i] + [a];
      SumAppend(allocations[..i], a, ALL);
    }
    assert allocations[..|allocations|] == allocations;
  }

  lemma SplitAmountBound(allocations: seq<Allocation>, i: nat, j: nat, weight: nat, n: nat)
    requires i < |allocations| && j < |allocations[i].unlockSchedule| && Ready(START, weight, n)
    ensures var a := allocations[i];
      var s := AddAll(START, allocations[..i], weight, n);
      var t := FillAll(s.(schedule := []), a, a.unlockSchedule[..j], weight, n);
      t.amount + a.unlockSchedule[j].amount as nat <= Total(allocations)
  {
    var a := allocations[i];
    var s := AddAll(START, allocations[..i], weight, n);
    AddAllConserves(START, allocations[..i], weight, n, ALL);
    AddAllSettles(START, allocations[..i], weight, n);
    FillAllConserves(s.(schedule := []), a, a.unlockSchedule[..j], weight, n, ALL);
    FillAllBalances(s.(schedule := []), a, a.unlockSchedule[..j], weight, n);
    PartialSum(allocations, i, j);
  }

  /** The innermost loop, on the loop variables themselves; no operation overflows or underflows. */
  method FillUnlock(parts0: seq<seq<Allocation>>, current0: seq<Allocation>, amount0: uint64, schedule0: seq<LockedAmount>,
                    a: Allocation, u: LockedAmount, weight: uint64, n: nat)
    returns (parts: seq<seq<Allocation>>, current: seq<Allocation>, amount: uint64, schedule: seq<LockedAmount>)
    requires Ready(Split(parts0, current0, amount0 as nat, schedule0), weight as nat, n)
    requires amount0 as nat + u.amount as nat < TWO_64
    ensures Split(parts, current, amount as nat, schedule)
         == Fill(Split(parts0, current0, amount0 as nat, schedule0), a, u, weight as nat, n)
  {
    parts, current, amount, schedule := parts0, current0, amount0, schedule0;
    var unlock := u;
    while amount + unlock.amount > weight && |parts| < n - 1
      invariant Ready(Split(parts, current, amount as nat, schedule), weight as nat, n)
      invariant amount as nat + unlock.amount as nat < TWO_64
      invariant Fill(Split(parts, current, amount as nat, schedule), a, unlock, weight as nat, n)
             == Fill(Split(parts0, current0, amount0 as nat, schedule0), a, u, weight as nat, n)
      decreases n - |parts|
    {
      var amountToAdd := weight - amount;
      schedule := schedule + [LockedAmount(amountToAdd, unlock.locktime)];
      unlock := unlock.(amount := unlock.amount - amountToAdd);
      current := current + [WithSchedule(a, schedule)];
      parts := parts + [current];
      current, amount, schedule := [], 0, [];
    }
    if unlock.amount == 0 { return; }
    schedule := schedule + [unlock];
    amount := amount + unlock.amount;
  }

  /** Cuts the unlock schedules into one part per staker. It terminates without overflow or underflow
      for every non-overflowing total and every positive number of splits. */
  method SplitAllocations(allocations: seq<Allocation>, numSplits: nat) returns (result: seq<seq<Allocation>>)
    requires 1 <= numSplits < TWO_64 && Total(allocations) < TWO_64
    ensures result == SplitParts(allocations, numSplits)
    ensures 1 <= |result| <= numSplits
    ensures |result| == numSplits <==> 0 < Total(allocations) || numSplits == 1
    ensures PartsWeigh(result[..|result| - 1], Total(allocations) / numSplits)
    ensures |result| == numSplits ==> Total(result[numSplits - 1]) < Total(allocations) / numSplits + numSplits
    ensures forall sel :: PartsSum(result, sel) == Sum(allocations, sel)
  {
    var totalAmount := TotalAmount(allocations);
    var nodeWeight := totalAmount / numSplits as uint64;
    var parts, current, amount: uint64, schedule := [], [], 0, [];
    ghost var w := nodeWeight as nat;
    assert w == Total(allocations) / numSplits;
    for i := 0 to |allocations|
      invariant Ready(Split(parts, current, amount as nat, schedule), w, numSplits)
      invariant Split(parts, current, amount as nat, schedule) == AddAll(START, allocations[..i], w, numSplits)
    {
      var a := allocations[i];
      ghost var s := Split(parts, current, amount as nat, []);
      schedule := [];
      for j := 0 to |a.unlockSchedule|
        invariant Ready(Split(parts, current, amount as nat, schedule), w, numSplits)
        invariant Split(parts, current, amount as nat, schedule) == FillAll(s, a, a.unlockSchedule[..j], w, numSplits)
      {
        SplitAmountBound(allocations, i, j, w, numSplits);
        assert a.unlockSchedule[..j + 1][..j] == a.unlockSchedule[..j];
        parts, current, amount, schedule :=
          FillUnlock(parts, current, amount, schedule, a, a.unlockSchedule[j], nodeWeight, numSplits);
      }
      assert a.unlockSchedule[..|a.unlockSchedule|] == a.unlockSchedule;
      assert allocations[..i + 1][..i] == allocations[..i];
      if |schedule| > 0 {
        current := current + [WithSchedule(a, schedule)];
      }
    }
    assert allocations[..|allocations|] == allocations;
    result := parts + [current];
    SplitSpec(allocations, numSplits);
  }

  // ---------------------------------------------------------------- the supply

  /** The initial amounts of the chosen AVAX addresses. */
  function InitialSum(allocations: seq<Allocation>, owner: Address -> bool): nat {
    if allocations == [] then 0
    else InitialSum(allocations[..|allocations| - 1], owner) + Initial(allocations[|allocations| - 1], owner)
  }

  function Initial(a: Allocation, owner: Address -> bool): nat {
    if owner(a.avaxAddr) then a.initialAmount as nat else 0
  }

  const ANYONE: Address -> bool := a => true

  function Supply(allocations: seq<Allocation>): nat { InitialSum(allocations, ANYONE) + Total(allocations) }

  lemma InitialSumAppend(allocations: seq<Allocation>, a: Allocation, owner: Address -> bool)
    ensures InitialSum(allocations + [a], owner) == InitialSum(allocations, owner) + Initial(a, owner)
  {
    assert (allocations + [a])[..|allocations|] == allocations;
  }

  lemma {:induction false} SupplyPrefix(allocations: seq<Allocation>, i: nat)
    requires i <= |allocations|
    ensures Supply(allocations[..i]) <= Supply(allocations)
  {
    if i < |allocations| {
      SupplyPrefix(allocations[..|allocations| - 1], i);
      assert allocations[..|allocations| - 1][..i] == allocations[..i];
    } else {
      assert allocations[..i] == allocations;
    }
  }

  datatype SupplyResult = Supplied(supply: uint64) | Overflow

  /** Checked 64-bit addition. */
  function Add64(a: uint64, b: uint64): (r: SupplyResult)
    ensures match r case Supplied(c) => c as nat == a as nat + b as nat case Overflow => a as nat + b as nat >= TWO_64
  {
    if a > 0xFFFF_FFFF_FFFF_FFFF - b then Overflow else Supplied(a + b)
  }

  /** Fails exactly when the whole supply does not fit into 64 bits. */
  method InitialSupply(allocations: seq<Allocation>) returns (r: SupplyResult)
    ensures match r case Supplied(s) => s as nat == Supply(allocations) case Overflow => Supply(allocations) >= TWO_64
  {
    var supply: uint64 := 0;
    for i := 0 to |allocations|
      invariant supply as nat == Supply(allocations[..i])
    {
      var a := allocations[i];
      SupplyStep(allocations, i);
      r := Add64(supply, a.initialAmount);
      if r.Overflow? { return; }
      var newSupply := r.supply;
      for j := 0 to |a.unlockSchedule|
        invariant newSupply as nat == supply as nat + a.initialAmount as nat + ScheduleSum(a, a.unlockSchedule[..j], ALL)
      {
        PartialSum(allocations, i, j);
        ScheduleSumPrefix(a, a.unlockSchedule, j + 1, ALL);
        r := Add64(newSupply, a.unlockSchedule[j].amount);
        if r.Overflow? { return; }
        newSupply := r.supply;
      }
      assert a.unlockSchedule[..|a.unlockSchedule|] == a.unlockSchedule;
      supply := newSupply;
    }
    assert allocations[..|allocations|] == allocations;
    r := Supplied(supply);
  }

  lemma SupplyStep(allocations: seq<Allocation>, i: nat)
    requires i < |allocations|
    ensures var a := allocations[i];
      && Supply(allocations[..i + 1]) == Supply(allocations[..i]) + a.initialAmount as nat + ScheduleSum(a, a.unlockSchedule, ALL)
      && Supply(allocations[..i + 1]) <= Supply(allocations)
  {
    var a := allocations[i];
    assert allocations[..i + 1] == allocations[..i] + [a];
    InitialSumAppend(allocations[..i], a, ANYONE);
    SumAppend(allocations[..i], a, ALL);
    SupplyPrefix(allocations, i + 1);
  }

  // ---------------------------------------------------------------- FromConfig

  datatype Config = Config(allocations: seq<Allocation>, initialStakedFunds: seq<Address>, numStakers: nat)

  datatype Holder = Holder(amount: uint64, address: Address)

  datatype Utxo = Utxo(locktime: uint64, amount: uint64, address: Address, message: Address)

  /** X-chain holders, P-chain UTXOs, and the staked UTXOs of each validator. */
  datatype GenesisState = GenesisState(holders: seq<Holder>, utxos: seq<Utxo>, staked: seq<seq<Utxo>>)

  datatype Outcome = Built(genesis: GenesisState) | SupplyOverflow | Panics

  predicate Less(a: Allocation, b: Allocation) {
    a.initialAmount < b.initialAmount || (a.initialAmount == b.initialAmount && a.avaxAddr < b.avaxAddr)
  }

  function Insert(sorted: seq<Allocation>, a: Allocation): seq<Allocation> {
    if sorted == [] then [a]
    else if Less(a, sorted[|sorted| - 1]) then Insert(sorted[..|sorted| - 1], a) + [sorted[|sorted| - 1]]
    else sorted + [a]
  }

  /** utils.Sort on allocations. */
  function SortAllocations(allocations: seq<Allocation>): seq<Allocation> {
    if allocations == [] then [] else Insert(SortAllocations(allocations[..|allocations| - 1]), allocations[|allocations| - 1])
  }

  ghost predicate SortedByAmount(allocations: seq<Allocation>) {
    forall i, j :: 0 <= i < j < |allocations| ==> !Less(allocations[j], allocations[i])
  }

  lemma {:induction false} InsertSorted(sorted: seq<Allocation>, a: Allocation)
    requires SortedByAmount(sorted)
    ensures SortedByAmount(Insert(sorted, a))
    ensures forall x :: x in Insert(sorted, a) <==> x in sorted || x == a
  {
    if sorted != [] {
      var rest, last := sorted[..|sorted| - 1], sorted[|sorted| - 1];
      assert sorted == rest + [last];
      if Less(a, last) {
        InsertSorted(rest, a);
        var r := Insert(rest, a);
        forall i | 0 <= i < |r|
          ensures !Less(last, r[i])
        {
          assert r[i] in r;
          if r[i] != a {
            var k :| 0 <= k < |rest| && rest[k] == r[i];
            assert sorted[k] == r[i] && !Less(sorted[|sorted| - 1], sorted[k]);
          }
        }
      }
    }
  }

  lemma {:induction false} SortSorts(allocations: seq<Allocation>)
    ensures SortedByAmount(SortAllocations(allocations))
  {
    if allocations != [] {
      SortSorts(allocations[..|allocations| - 1]);
      InsertSorted(SortAllocations(allocations[..|allocations| - 1]), allocations[|allocations| - 1]);
    }
  }

  lemma {:induction false} InsertSum(sorted: seq<Allocation>, a: Allocation, owner: Address -> bool)
    ensures InitialSum(Insert(sorted, a), owner) == InitialSum(sorted, owner) + Initial(a, owner)
  {
    if sorted == [] {
      assert [a][..0] == [];
    } else if Less(a, sorted[|sorted| - 1]) {
      InsertSum(sorted[..|sorted| - 1], a, owner);
      InitialSumAppend(Insert(sorted[..|sorted| - 1], a), sorted[|sorted| - 1], owner);
    } else {
      InitialSumAppend(sorted, a, owner);
    }
  }

  lemma {:induction false} SortSum(allocations: seq<Allocation>, owner: Address -> bool)
    ensures InitialSum(SortAllocations(allocations), owner) == InitialSum(allocations, owner)
  {
    if allocations != [] {
      SortSum(allocations[..|allocations| - 1], owner);
      InsertSum(SortAllocations(allocations[..|allocations| - 1]), allocations[|allocations| - 1], owner);
    }
  }

  function HolderSum(holders: seq<Holder>, owner: Address -> bool): nat {
    if holders == [] then 0
    else HolderSum(holders[..|holders| - 1], owner) + HolderAmount(holders[|holders| - 1], owner)
  }

  function HolderAmount(h: Holder, owner: Address -> bool): nat {
    if owner(h.address) then h.amount as nat else 0
  }

  function UtxoAmount(u: Utxo, sel: Selector): nat {
    if sel(u.message, u.address, u.locktime) then u.amount as nat else 0
  }

  function UtxoSum(utxos: seq<Utxo>, sel: Selector): nat {
    if utxos == [] then 0 else UtxoSum(utxos[..|utxos| - 1], sel) + UtxoAmount(utxos[|utxos| - 1], sel)
  }

  function StakedSum(staked: seq<seq<Utxo>>, sel: Selector): nat {
    if staked == [] then 0 else StakedSum(staked[..|staked| - 1], sel) + UtxoSum(staked[|staked| - 1], sel)
  }

  function WithAmount(allocations: seq<Allocation>): seq<Allocation> {
    if allocations == [] then []
    else
      var rest := WithAmount(allocations[..|allocations| - 1]);
      if allocations[|allocations| - 1].initialAmount > 0 then rest + [allocations[|allocations| - 1]] else rest
  }

  lemma {:induction false} WithAmountSum(allocations: seq<Allocation>, owner: Address -> bool)
    ensures InitialSum(WithAmount(allocations), owner) == InitialSum(allocations, owner)
  {
    if allocations != [] {
      WithAmountSum(allocations[..|allocations| - 1], owner);
      InitialSumAppend(WithAmount(allocations[..|allocations| - 1]), allocations[|allocations| - 1], owner);
    }
  }

  function HoldersOf(allocations: seq<Allocation>): seq<Holder> {
    seq(|allocations|, i requires 0 <= i < |allocations| => Holder(allocations[i].initialAmount, allocations[i].avaxAddr))
  }

  lemma {:induction false} HoldersOfSum(allocations: seq<Allocation>, owner: Address -> bool)
    ensures HolderSum(HoldersOf(allocations), owner) == InitialSum(allocations, owner)
  {
    if allocations != [] {
      HoldersOfSum(allocations[..|allocations| - 1], owner);
      assert HoldersOf(allocations)[..|allocations| - 1] == HoldersOf(allocations[..|allocations| - 1]);
    }
  }

  /** The X-chain: every initial amount has its holder, smaller holders first. */
  method Holders(allocations: seq<Allocation>) returns (holders: seq<Holder>)
    ensures forall i, j :: 0 <= i < j < |holders| ==> holders[i].amount <= holders[j].amount
    ensures forall owner :: HolderSum(holders, owner) == InitialSum(allocations, owner)
  {
    var xAllocations := [];
    for i := 0 to |allocations|
      invariant xAllocations == WithAmount(allocations[..i])
    {
      assert allocations[..i + 1][..i] == allocations[..i];
      if allocations[i].initialAmount > 0 { xAllocations := xAllocations + [allocations[i]]; }
    }
    assert allocations[..|allocations|] == allocations;
    xAllocations := SortAllocations(xAllocations);
    SortSorts(WithAmount(allocations));
    holders := [];
    for i := 0 to |xAllocations|
      invariant |holders| == i && forall j :: 0 <= j < i ==> holders[j] == HoldersOf(xAllocations)[j]
    {
      holders := holders + [Holder(xAllocations[i].initialAmount, xAllocations[i].avaxAddr)];
    }
    assert holders == HoldersOf(xAllocations);
    forall owner
      ensures HolderSum(holders, owner) == InitialSum(allocations, owner)
    {
      HoldersOfSum(xAllocations, owner);
      SortSum(WithAmount(allocations), owner);
      WithAmountSum(allocations, owner);
    }
  }

  function ToUtxo(a: Allocation, u: LockedAmount): Utxo { Utxo(u.locktime, u.amount, a.avaxAddr, a.ethAddr) }

  /** P-chain UTXOs leave out the empty unlocks, stakes do not. */
  function UtxosOf(a: Allocation, schedule: seq<LockedAmount>, skipEmpty: bool): seq<Utxo> {
    if schedule == [] then []
    else
      var rest, u := UtxosOf(a, schedule[..|schedule| - 1], skipEmpty), schedule[|schedule| - 1];
      if u.amount > 0 || !skipEmpty then rest + [ToUtxo(a, u)] else rest
  }

  function StakedUtxosOf(part: seq<Allocation>): seq<Utxo> {
    if part == [] then []
    else StakedUtxosOf(part[..|part| - 1]) + UtxosOf(part[|part| - 1], part[|part| - 1].unlockSchedule, false)
  }

  function Staked(allocations: seq<Allocation>, initiallyStaked: set<Address>): seq<Allocation> {
    if allocations == [] then []
    else
      var rest, a := Staked(allocations[..|allocations| - 1], initiallyStaked), allocations[|allocations| - 1];
      if a.avaxAddr in initiallyStaked then rest + [a] else rest
  }

  function UnstakedUtxos(allocations: seq<Allocation>, initiallyStaked: set<Address>): seq<Utxo> {
    if allocations == [] then []
    else
      var rest, a := UnstakedUtxos(allocations[..|allocations| - 1], initiallyStaked), allocations[|allocations| - 1];
      if a.avaxAddr in initiallyStaked then rest else rest + UtxosOf(a, a.unlockSchedule, true)
  }

  lemma {:induction false} UtxoSumConcat(a: seq<Utxo>, b: seq<Utxo>, sel: Selector)
    ensures UtxoSum(a + b, sel) == UtxoSum(a, sel) + UtxoSum(b, sel)
  {
    if b == [] {
      assert a + b == a;
    } else {
      UtxoSumConcat(a, b[..|b| - 1], sel);
      assert (a + b)[..|a + b| - 1] == a + b[..|b| - 1];
    }
  }

  lemma {:induction false} UtxosOfSum(a: Allocation, schedule: seq<LockedAmount>, skipEmpty: bool, sel: Selector)
    ensures UtxoSum(UtxosOf(a, schedule, skipEmpty), sel) == ScheduleSum(a, schedule, sel)
  {
    if schedule != [] {
      var rest, u := schedule[..|schedule| - 1], schedule[|schedule| - 1];
      UtxosOfSum(a, rest, skipEmpty, sel);
      var utxos := UtxosOf(a, rest, skipEmpty);
      assert (utxos + [ToUtxo(a, u)])[..|utxos|] == utxos;
    }
  }

  lemma {:induction false} StakedUtxosOfSum(part: seq<Allocation>, sel: Selector)
    ensures UtxoSum(StakedUtxosOf(part), sel) == Sum(part, sel)
  {
    if part != [] {
      var a := part[|part| - 1];
      StakedUtxosOfSum(part[..|part| - 1], sel);
      UtxosOfSum(a, a.unlockSchedule, false, sel);
      UtxoSumConcat(StakedUtxosOf(part[..|part| - 1]), UtxosOf(a, a.unlockSchedule, false), sel);
    }
  }

  lemma {:induction false} OwnerSum(a: Allocation, schedule: seq<LockedAmount>, addresses: seq<Address>, sel: Selector)
    ensures ScheduleSum(a, schedule, Among(addresses, sel)) == if a.avaxAddr in addresses then ScheduleSum(a, schedule, sel) else 0
    ensures ScheduleSum(a, schedule, Outside(addresses, sel)) == if a.avaxAddr in addresses then 0 else ScheduleSum(a, schedule, sel)
  {
    if schedule != [] { OwnerSum(a, schedule[..|schedule| - 1], addresses, sel); }
  }

  ghost function Members(addresses: seq<Address>): set<Address> { set a | a in addresses }

  /** Staked is exactly what belongs to the addresses, and what belongs to nobody of them becomes UTXOs. */
  lemma {:induction false} StakedOrUtxos(allocations: seq<Allocation>, addresses: seq<Address>, sel: Selector)
    ensures Sum(Staked(allocations, Members(addresses)), sel) == Sum(allocations, Among(addresses, sel))
    ensures UtxoSum(UnstakedUtxos(allocations, Members(addresses)), sel) == Sum(allocations, Outside(addresses, sel))
    ensures Sum(allocations, Among(addresses, sel)) + Sum(allocations, Outside(addresses, sel)) == Sum(allocations, sel)
  {
    if allocations != [] {
      var rest, a := allocations[..|allocations| - 1], allocations[|allocations| - 1];
      var initiallyStaked := Members(addresses);
      StakedOrUtxos(rest, addresses, sel);
      OwnerSum(a, a.unlockSchedule, addresses, sel);
      if a.avaxAddr in initiallyStaked {
        SumAppend(Staked(rest, initiallyStaked), a, sel);
      } else {
        UtxosOfSum(a, a.unlockSchedule, true, sel);
        UtxoSumConcat(UnstakedUtxos(rest, initiallyStaked), UtxosOf(a, a.unlockSchedule, true), sel);
      }
    }
  }

  lemma {:induction false} UtxosOfPositive(a: Allocation, schedule: seq<LockedAmount>)
    ensures forall u :: u in UtxosOf(a, schedule, true) ==> u.amount > 0
  {
    if schedule != [] { UtxosOfPositive(a, schedule[..|schedule| - 1]); }
  }

  /** Nothing but amounts becomes a UTXO. */
  lemma {:induction false} UnstakedPositive(allocations: seq<Allocation>, initiallyStaked: set<Address>)
    ensures forall u :: u in UnstakedUtxos(allocations, initiallyStaked) ==> u.amount > 0
  {
    if allocations != [] {
      UnstakedPositive(allocations[..|allocations| - 1], initiallyStaked);
      UtxosOfPositive(allocations[|allocations| - 1], allocations[|allocations| - 1].unlockSchedule);
    }
  }

  method AppendUtxos(utxos: seq<Utxo>, a: Allocation, skipEmpty: bool) returns (r: seq<Utxo>)
    ensures r == utxos + UtxosOf(a, a.unlockSchedule, skipEmpty)
  {
    r := utxos;
    for j := 0 to |a.unlockSchedule|
      invariant r == utxos + UtxosOf(a, a.unlockSchedule[..j], skipEmpty)
    {
      var u := a.unlockSchedule[j];
      assert a.unlockSchedule[..j + 1][..j] == a.unlockSchedule[..j];
      if u.amount > 0 || !skipEmpty { r := r + [ToUtxo(a, u)]; }
    }
    assert a.unlockSchedule[..|a.unlockSchedule|] == a.unlockSchedule;
  }

  /** The P-chain UTXOs of the allocations that are not staked, and the staked allocations. */
  method Unstaked(allocations: seq<Allocation>, initiallyStaked: set<Address>) returns (utxos: seq<Utxo>, skipped: seq<Allocation>)
    ensures skipped == Staked(allocations, initiallyStaked)
    ensures utxos == UnstakedUtxos(allocations, initiallyStaked)
  {
    utxos, skipped := [], [];
    for i := 0 to |allocations|
      invariant skipped == Staked(allocations[..i], initiallyStaked)
      invariant utxos == UnstakedUtxos(allocations[..i], initiallyStaked)
    {
      var a := allocations[i];
      assert allocations[..i + 1][..i] == allocations[..i];
      if a.avaxAddr in initiallyStaked {
        skipped := skipped + [a];
      } else {
        utxos := AppendUtxos(utxos, a, true);
      }
    }
    assert allocations[..|allocations|] == allocations;
  }

  method StakedUtxos(part: seq<Allocation>) returns (utxos: seq<Utxo>)
    ensures utxos == StakedUtxosOf(part)
  {
    utxos := [];
    for i := 0 to |part|
      invariant utxos == StakedUtxosOf(part[..i])
    {
      utxos := AppendUtxos(utxos, part[i], false);
      assert part[..i + 1][..i] == part[..i];
    }
    assert part[..|part|] == part;
  }

  function StakesOf(parts: seq<seq<Allocation>>): seq<seq<Utxo>> {
    if parts == [] then [] else StakesOf(parts[..|parts| - 1]) + [StakedUtxosOf(parts[|parts| - 1])]
  }

  lemma {:induction false} StakesOfSum(parts: seq<seq<Allocation>>, sel: Selector)
    ensures StakedSum(StakesOf(parts), sel) == PartsSum(parts, sel)
  {
    if parts != [] {
      var rest := parts[..|parts| - 1];
      StakesOfSum(rest, sel);
      StakedUtxosOfSum(parts[|parts| - 1], sel);
      assert StakesOf(parts)[..|StakesOf(rest)|] == StakesOf(rest);
    }
  }

  lemma {:induction false} StakesAt(parts: seq<seq<Allocation>>)
    ensures |StakesOf(parts)| == |parts|
    ensures forall i :: 0 <= i < |parts| ==> StakesOf(parts)[i] == StakedUtxosOf(parts[i])
  {
    if parts != [] {
      StakesAt(parts[..|parts| - 1]);
    }
  }

  /** All stakes but the last have the same amount. */
  ghost predicate EqualStakes(staked: seq<seq<Utxo>>, weight: nat) {
    forall i :: 0 <= i < |staked| - 1 ==> UtxoSum(staked[i], ALL) == weight
  }

  lemma StakesWeigh(parts: seq<seq<Allocation>>, weight: nat)
    requires parts != [] && PartsWeigh(parts[..|parts| - 1], weight)
    ensures |StakesOf(parts)| == |parts| && EqualStakes(StakesOf(parts), weight)
  {
    StakesAt(parts);
    forall i | 0 <= i < |parts| - 1
      ensures UtxoSum(StakesOf(parts)[i], ALL) == weight
    {
      StakedUtxosOfSum(parts[i], ALL);
      assert parts[i] == parts[..|parts| - 1][i];
    }
  }

  /** The staker loop of FromConfig, which indexes the parts by the position of the staker. */
  method StakeParts(parts: seq<seq<Allocation>>, numStakers: nat) returns (ok: bool, staked: seq<seq<Utxo>>)
    requires |parts| <= numStakers
    ensures ok <==> |parts| == numStakers
    ensures ok ==> staked == StakesOf(parts)
  {
    staked := [];
    for i := 0 to numStakers
      invariant i <= |parts| && staked == StakesOf(parts[..i])
    {
      if i >= |parts| { return false, staked; }
      var utxos := StakedUtxos(parts[i]);
      assert parts[..i + 1][..i] == parts[..i];
      staked := staked + [utxos];
    }
    assert parts[..|parts|] == parts;
    ok := true;
  }

  /** What the initially staked addresses have to stake. */
  ghost function ToStake(config: Config): nat { Sum(config.allocations, Among(config.initialStakedFunds, ALL)) }

  ghost predicate ConservesChosen(config: Config, g: GenesisState, sel: Selector) {
    UtxoSum(g.utxos, sel) + StakedSum(g.staked, sel) == Sum(config.allocations, sel)
  }

  /** The distribution loses nothing and invents nothing: per AVAX address on the X-chain, and per
      owner and locktime on the P-chain. */
  ghost predicate Conserves(config: Config, g: GenesisState) {
    && (forall owner :: HolderSum(g.holders, owner) == InitialSum(config.allocations, owner))
    && (forall sel :: ConservesChosen(config, g, sel))
  }

  /** Of what is chosen, exactly what belongs to the initially staked addresses is staked. */
  ghost predicate StakesChosen(config: Config, g: GenesisState, sel: Selector) {
    && StakedSum(g.staked, sel) == Sum(config.allocations, Among(config.initialStakedFunds, sel))
    && UtxoSum(g.utxos, sel) == Sum(config.allocations, Outside(config.initialStakedFunds, sel))
  }

  ghost predicate StakesTheirs(config: Config, g: GenesisState) {
    forall sel :: StakesChosen(config, g, sel)
  }

  /** One stake per staker, and all but the last are an equal share. */
  ghost predicate SharesStake(config: Config, g: GenesisState) {
    && |g.staked| == config.numStakers
    && 0 < config.numStakers && EqualStakes(g.staked, ToStake(config) / config.numStakers)
  }

  method FromConfig(config: Config) returns (r: Outcome)
    requires config.numStakers < TWO_64
    ensures r.SupplyOverflow? <==> Supply(config.allocations) >= TWO_64
    ensures r.Panics? <==>
              && Supply(config.allocations) < TWO_64
              && config.numStakers != 1
              && (config.numStakers == 0 || ToStake(config) == 0)
    ensures r.Built? ==> Conserves(config, r.genesis) && StakesTheirs(config, r.genesis)
    ensures r.Built? ==> SharesStake(config, r.genesis)
    ensures r.Built? ==> forall u :: u in r.genesis.utxos ==> u.amount > 0
  {
    var holders := Holders(config.allocations);
    var supply := InitialSupply(config.allocations);
    if supply.Overflow? { return SupplyOverflow; }
    var initiallyStaked := set a | a in config.initialStakedFunds;
    assert initiallyStaked == Members(config.initialStakedFunds);
    var utxos, skipped := Unstaked(config.allocations, initiallyStaked);
    StakedOrUtxos(config.allocations, config.initialStakedFunds, ALL);
    UnstakedPositive(config.allocations, initiallyStaked);
    // splitAllocations divides by the number of stakers.
    if config.numStakers == 0 { return Panics; }
    var parts := SplitAllocations(skipped, config.numStakers);
    var ok, staked := StakeParts(parts, config.numStakers);
    if !ok { return Panics; }
    r := Built(GenesisState(holders, utxos, staked));
    StakesWeigh(parts, Total(skipped) / config.numStakers);
    forall sel
      ensures StakesChosen(config, r.genesis, sel)
      ensures ConservesChosen(config, r.genesis, sel)
    {
      StakedOrUtxos(config.allocations, config.initialStakedFunds, sel);
      StakesOfSum(parts, sel);
    }
  }

  /** So whoever is chosen among the initially staked addresses has nothing outside the stakes, and whoever is
      chosen among the others has nothing in them. */
  lemma StakedOrNot(config: Config, g: GenesisState, sel: Selector)
    requires StakesTheirs(config, g)
    ensures (forall e, a, l :: sel(e, a, l) ==> a in config.initialStakedFunds) ==>
              UtxoSum(g.utxos, sel) == 0 && StakedSum(g.staked, sel) == Sum(config.allocations, sel)
    ensures (forall e, a, l :: sel(e, a, l) ==> a !in config.initialStakedFunds) ==>
              StakedSum(g.staked, sel) == 0 && UtxoSum(g.utxos, sel) == Sum(config.allocations, sel)
  {
    var mine, others := Among(config.initialStakedFunds, sel), Outside(config.initialStakedFunds, sel);
    StakedOrUtxos(config.allocations, config.initialStakedFunds, sel);
    assert StakesChosen(config, g, sel);
    if forall e, a, l :: sel(e, a, l) ==> a in config.initialStakedFunds { ChooseNothing(config.allocations, others); }
    if forall e, a, l :: sel(e, a, l) ==> a !in config.initialStakedFunds { ChooseNothing(config.allocations, mine); }
  }

  lemma {:induction false} ChooseNothing(allocations: seq<Allocation>, sel: Selector)
    requires forall e, a, l :: !sel(e, a, l)
    ensures Sum(allocations, sel) == 0
  {
    if allocations != [] {
      var a := allocations[|allocations| - 1];
      ChooseNothing(allocations[..|allocations| - 1], sel);
      ScheduleNothing(a, a.unlockSchedule, sel);
    }
  }

  lemma {:induction false} ScheduleNothing(a: Allocation, schedule: seq<LockedAmount>, sel: Selector)
    requires forall e, x, l :: !sel(e, x, l)
    ensures ScheduleSum(a, schedule, sel) == 0
  {
    if schedule != [] { ScheduleNothing(a, schedule[..|schedule| - 1], sel); }
  }

  /** X-chain, P-chain and staked amounts add up to the initial supply, in total and for every AVAX
      address. */
  lemma GenesisHoldsSupply(config: Config, g: GenesisState, address: Address)
    requires Conserves(config, g)
    ensures HolderSum(g.holders, ANYONE) + UtxoSum(g.utxos, ALL) + StakedSum(g.staked, ALL) == Supply(config.allocations)
    ensures var owner: Address -> bool := x => x == address;
      var sel: Selector := (eth, avax, locktime) => avax == address;
      HolderSum(g.holders, owner) + UtxoSum(g.utxos, sel) + StakedSum(g.staked, sel)
      == InitialSum(config.allocations, owner) + Sum(config.allocations, sel)
  {
    var sel: Selector := (eth, avax, locktime) => avax == address;
    assert ConservesChosen(config, g, ALL) && ConservesChosen(config, g, sel);
  }

  // ---------------------------------------------------------------- validateConfig

  datatype Validation =
    | Valid
    | ConflictingNetworkIDs
    | UnableToCalculateSupply
    | NoSupply
    | FutureStartTime
    | NoStakeDuration
    | StakeDurationTooHigh
    | NoStakers
    | StakeDurationTooLow(required: nat)
    | NoInitiallyStakedFunds
    | DuplicateStakedAddress(address: Address)
    | NoAllocationToStake(address: Address)
    | NoCChainGenesis

  /** What else validateConfig looks at. `hasCChain` says that the C-chain genesis is not empty; the clock is
      in seconds. */
  datatype Settings = Settings(networkID: nat, startTime: uint64, stakeDuration: uint64, stakeOffset: uint64, hasCChain: bool)

  datatype Environment = Environment(networkID: nat, now: int, maxStakeDuration: nat)

  /** The conversion of a uint64 to an int64. */
  function ToInt64(u: uint64): int {
    if u as int < TWO_64 / 2 then u as int else u as int - TWO_64
  }

  /** The product is taken in 64 bits and may wrap. */
  function OffsetRequired(settings: Settings, numStakers: nat): nat
    requires 0 < numStakers
  {
    (settings.stakeOffset as nat * ((numStakers - 1) % TWO_64)) % TWO_64
  }

  ghost predicate Distinct(addresses: seq<Address>) {
    forall i, j :: 0 <= i < j < |addresses| ==> addresses[i] != addresses[j]
  }

  ghost predicate HasAllocation(allocations: seq<Allocation>, address: Address) {
    exists i :: 0 <= i < |allocations| && allocations[i].avaxAddr == address
  }

  ghost predicate FundsValid(config: Config) {
    && config.initialStakedFunds != [] && Distinct(config.initialStakedFunds)
    && forall a :: a in config.initialStakedFunds ==> HasAllocation(config.allocations, a)
  }

  /** Everything before position `i` is in order. */
  ghost predicate FundsValidUpTo(config: Config, i: nat)
    requires i <= |config.initialStakedFunds|
  {
    && Distinct(config.initialStakedFunds[..i])
    && forall a :: a in config.initialStakedFunds[..i] ==> HasAllocation(config.allocations, a)
  }

  /** The first staked address that is not in order, and why: a repetition is noticed before a missing
      allocation. */
  ghost predicate FirstOffence(config: Config, i: nat, r: Validation) {
    && i < |config.initialStakedFunds| && FundsValidUpTo(config, i)
    && var a := config.initialStakedFunds[i];
       if a in config.initialStakedFunds[..i] then r == DuplicateStakedAddress(a)
       else !HasAllocation(config.allocations, a) && r == NoAllocationToStake(a)
  }

  /** Staked addresses are given, distinct, and all allocated; otherwise the error names the first
      offending one. */
  method ValidateInitialStakedFunds(config: Config) returns (r: Validation)
    ensures r == Valid <==> FundsValid(config)
    ensures r == NoInitiallyStakedFunds <==> config.initialStakedFunds == []
    ensures r != Valid && r != NoInitiallyStakedFunds ==> exists i :: FirstOffence(config, i, r)
  {
    if config.initialStakedFunds == [] { return NoInitiallyStakedFunds; }
    var allocationSet: set<Address> := {};
    for i := 0 to |config.allocations|
      invariant forall a :: a in allocationSet <==> HasAllocation(config.allocations[..i], a)
    {
      ghost var before := config.allocations[..i];
      assert config.allocations[..i + 1] == before + [config.allocations[i]];
      ghost var was := allocationSet;
      allocationSet := allocationSet + {config.allocations[i].avaxAddr};
      forall a
        ensures a in allocationSet <==> HasAllocation(config.allocations[..i + 1], a)
      {
        if a == config.allocations[i].avaxAddr { assert config.allocations[..i + 1][i].avaxAddr == a; }
        if HasAllocation(before, a) {
          var k :| 0 <= k < i && before[k].avaxAddr == a;
          assert config.allocations[..i + 1][k].avaxAddr == a;
        }
      }
    }
    assert config.allocations[..|config.allocations|] == config.allocations;
    var seen: set<Address> := {};
    for i := 0 to |config.initialStakedFunds|
      invariant seen == set a | a in config.initialStakedFunds[..i]
      invariant Distinct(config.initialStakedFunds[..i])
      invariant forall a :: a in config.initialStakedFunds[..i] ==> HasAllocation(config.allocations, a)
    {
      var staker := config.initialStakedFunds[i];
      assert config.initialStakedFunds[..i + 1] == config.initialStakedFunds[..i] + [staker];
      if staker in seen {
        var k :| 0 <= k < i && config.initialStakedFunds[..i][k] == staker;
        assert config.initialStakedFunds[k] == config.initialStakedFunds[i];
        assert FirstOffence(config, i, DuplicateStakedAddress(staker));
        return DuplicateStakedAddress(staker);
      }
      seen := seen + {staker};
      if staker !in allocationSet {
        assert FirstOffence(config, i, NoAllocationToStake(staker));
        return NoAllocationToStake(staker);
      }
    }
    assert config.initialStakedFunds[..|config.initialStakedFunds|] == config.initialStakedFunds;
    r := Valid;
  }

  ghost predicate ConfigValid(config: Config, settings: Settings, env: Environment) {
    && env.networkID == settings.networkID
    && 0 < Supply(config.allocations) < TWO_64
    && ToInt64(settings.startTime) <= env.now
    && 0 < settings.stakeDuration as nat <= env.maxStakeDuration
    && 0 < config.numStakers
    && OffsetRequired(settings, config.numStakers) <= settings.stakeDuration as nat
    && FundsValid(config)
    && settings.hasCChain
  }

  /** What is wrong, in the order in which it is noticed. */
  ghost predicate Explains(config: Config, settings: Settings, env: Environment, r: Validation) {
    if env.networkID != settings.networkID then r == ConflictingNetworkIDs
    else if Supply(config.allocations) >= TWO_64 then r == UnableToCalculateSupply
    else if Supply(config.allocations) == 0 then r == NoSupply
    else if env.now < ToInt64(settings.startTime) then r == FutureStartTime
    else if settings.stakeDuration == 0 then r == NoStakeDuration
    else if settings.stakeDuration as nat > env.maxStakeDuration then r == StakeDurationTooHigh
    else if config.numStakers == 0 then r == NoStakers
    else if OffsetRequired(settings, config.numStakers) > settings.stakeDuration as nat then
      r == StakeDurationTooLow(OffsetRequired(settings, config.numStakers))
    else if config.initialStakedFunds == [] then r == NoInitiallyStakedFunds
    else if !FundsValid(config) then exists i :: FirstOffence(config, i, r)
    else !settings.hasCChain && r == NoCChainGenesis
  }

  /** Valid exactly if everything is in order; otherwise the error is for the first check that fails. */
  method ValidateConfig(config: Config, settings: Settings, env: Environment) returns (r: Validation)
    ensures r == Valid <==> ConfigValid(config, settings, env)
    ensures r != Valid ==> Explains(config, settings, env, r)
  {
    if env.networkID != settings.networkID { return ConflictingNetworkIDs; }
    var supply := InitialSupply(config.allocations);
    if supply.Overflow? { return UnableToCalculateSupply; }
    if supply.supply == 0 { return NoSupply; }
    if env.now < ToInt64(settings.startTime) { return FutureStartTime; }
    if settings.stakeDuration == 0 { return NoStakeDuration; }
    if settings.stakeDuration as nat > env.maxStakeDuration { return StakeDurationTooHigh; }
    if config.numStakers == 0 { return NoStakers; }
    var required := OffsetRequired(settings, config.numStakers);
    if required > settings.stakeDuration as nat { return StakeDurationTooLow(required); }
    r := ValidateInitialStakedFunds(config);
    if r != Valid { return; }
    if !settings.hasCChain { return NoCChainGenesis; }
  }

  /** The check of the offsets is right about them exactly if it does not let through a product that exceeds
      64 bits and has wrapped to something small. */
  lemma OffsetCheck(settings: Settings, numStakers: nat)
    requires 0 < numStakers < TWO_64
    ensures var offsets, duration := settings.stakeOffset as nat * (numStakers - 1), settings.stakeDuration as nat;
      (OffsetRequired(settings, numStakers) <= duration <==> offsets <= duration) <==>
      !(TWO_64 <= offsets && OffsetRequired(settings, numStakers) <= duration)
  {
    assert (numStakers - 1) % TWO_64 == numStakers - 1;
    var offsets := settings.stakeOffset as nat * (numStakers - 1);
    if offsets < TWO_64 { assert offsets % TWO_64 == offsets; }
  }

  /** Two offsets of 2^63 seconds are required to fit into no time at all. */
  lemma OffsetWraps(settings: Settings)
    requires settings.stakeOffset as nat == TWO_64 / 2
    ensures OffsetRequired(settings, 3) == 0
  {
  }

  /** A config can pass validation and still have nothing to stake, so that FromConfig panics: its
      only staked address owns an initial amount but no unlocks. */
  lemma ValidConfigCanPanic(amount: uint64, address: Address) returns (config: Config, settings: Settings, env: Environment)
    requires 0 < amount
    ensures ConfigValid(config, settings, env) && 1 < config.numStakers
    ensures ToStake(config) == 0
  {
    var a := Allocation(address, address, amount, []);
    config := Config([a], [address], 2);
    settings, env := Settings(1, 0, 1, 0, true), Environment(1, 0, 1);
    assert config.allocations[..0] == [];
    assert InitialSum(config.allocations, ANYONE) == amount as nat;
    assert AllocationSum(a, ALL) == 0;
    SumAppend([], a, ALL);
    assert [] + [a] == config.allocations;
    StakedOrUtxos(config.allocations, config.initialStakedFunds, ALL);
    assert config.allocations[0].avaxAddr == address;
  }
}
