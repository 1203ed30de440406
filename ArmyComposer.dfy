/**
 * The army composer of the computer-controlled side (GeneratePresetImpl.generate):
 * ranks the unit archetypes by (attack + health) per point of cost, then, in
 * that order, fields up to eleven copies of each while the point budget allows,
 * each copy on a fresh cell of the 3 x 21 deployment area.
 */
module ArmyComposer {
  import opened Wrappers

  /** Dimensions of the deployment area. */
  const Width: int := 3
  const Height: int := 21

  /** Most copies fielded of any one archetype. */
  const MaxCopies: nat := 11

  /**
   * A unit (the game library's `Unit`): archetypes come in as units, and each
   * fielded copy is a new unit with its own name and cell. The bonus tables
   * are carried along as opaque values.
   */
  datatype Unit = Unit(
    name: string, unitType: string, health: int, baseAttack: int, cost: int,
    attackType: string, attackBonuses: map<string, real>, defenceBonuses: map<string, real>,
    x: int, y: int)

  /** The composed army: its units and its point total. */
  datatype Army = Army(units: seq<Unit>, points: int)

  /**
   * The outcome of a composition. `Exhausted` is returned when a copy is due
   * but every cell of the deployment area is taken.
   */
  datatype Outcome = Composed(army: Army) | Exhausted(army: Army)

  datatype Cell = Cell(x: int, y: int)

  function CellOf(u: Unit): Cell {
    Cell(u.x, u.y)
  }

  predicate InBounds(c: Cell) {
    0 <= c.x < Width && 0 <= c.y < Height
  }

  predicate PositiveCosts(units: seq<Unit>) {
    forall u :: u in units ==> u.cost > 0
  }

  // ---------------------------------------------------------------------------
  // Ranking

  /** The numerator of an archetype's score (attack + health) / cost. */
  function Value(u: Unit): int {
    u.baseAttack + u.health
  }

  /**
   * `a` scores at least as high as `b`. For positive costs this is
   * Value(a) / a.cost >= Value(b) / b.cost, compared exactly by
   * cross-multiplying.
   */
  predicate ScoresAtLeast(a: Unit, b: Unit) {
    Value(a) * b.cost >= Value(b) * a.cost
  }

  /**
   * The score as the comparator computes it, attack per point plus health
   * per point, in exact real arithmetic.
   */
  function RatioScore(u: Unit): real
    requires u.cost > 0
  {
    (u.baseAttack as real) / (u.cost as real) + (u.health as real) / (u.cost as real)
  }

  lemma RealMulMonotone(x: real, y: real, p: real)
    requires p > 0.0 && x >= y
    ensures x * p >= y * p
  {
  }

  lemma RealMulStrict(x: real, y: real, p: real)
    requires p > 0.0 && x > y
    ensures x * p > y * p
  {
  }

  /** A unit's score, times its cost, is its value. */
  lemma RatioScoreTimesCost(u: Unit)
    requires u.cost > 0
    ensures RatioScore(u) * (u.cost as real) == Value(u) as real
  {
    var c := u.cost as real;
    assert (u.baseAttack as real) / c * c == u.baseAttack as real;
    assert (u.health as real) / c * c == u.health as real;
  }

  /**
   * The cross-multiplied comparison orders units exactly as their ratio
   * scores do.
   */
  lemma ScoresAtLeastIffRatio(a: Unit, b: Unit)
    requires a.cost > 0 && b.cost > 0
    ensures ScoresAtLeast(a, b) <==> RatioScore(a) >= RatioScore(b)
  {
    var ca, cb := a.cost as real, b.cost as real;
    var ra, rb := RatioScore(a), RatioScore(b);
    RatioScoreTimesCost(a);
    RatioScoreTimesCost(b);
    assert (Value(a) * b.cost) as real == ra * ca * cb;
    assert (Value(b) * a.cost) as real == rb * cb * ca;
    assert rb * cb * ca == rb * (ca * cb) && ra * ca * cb == ra * (ca * cb);
    if ra >= rb {
      RealMulMonotone(ra, rb, ca * cb);
    } else {
      RealMulStrict(rb, ra, ca * cb);
    }
  }

  /** `a` and `b` have the same score. */
  predicate SameScore(a: Unit, b: Unit) {
    ScoresAtLeast(a, b) && ScoresAtLeast(b, a)
  }

  lemma MulMonotone(a: int, b: int, c: int)
    requires a >= b && c > 0
    ensures a * c >= b * c
  {
  }

  /** Cancelling a positive factor. */
  lemma MulCancel(a: int, b: int, c: int)
    requires a * c >= b * c && c > 0
    ensures a >= b
  {
    if a < b {
      MulMonotone(b, a + 1, c);
    }
  }

  /** The score order is transitive. */
  lemma ScoresAtLeastTransitive(a: Unit, b: Unit, c: Unit)
    requires a.cost > 0 && b.cost > 0 && c.cost > 0
    requires ScoresAtLeast(a, b) && ScoresAtLeast(b, c)
    ensures ScoresAtLeast(a, c)
  {
    MulMonotone(Value(a) * b.cost, Value(b) * a.cost, c.cost);
    MulMonotone(Value(b) * c.cost, Value(c) * b.cost, a.cost);
    assert Value(b) * a.cost * c.cost == Value(b) * c.cost * a.cost;
    assert Value(a) * b.cost * c.cost == (Value(a) * c.cost) * b.cost;
    assert Value(c) * b.cost * a.cost == (Value(c) * a.cost) * b.cost;
    MulCancel(Value(a) * c.cost, Value(c) * a.cost, b.cost);
  }

  /** Places `x` in front of the first unit it scores at least as high as. */
  function Insert(sorted: seq<Unit>, x: Unit): (r: seq<Unit>)
    ensures multiset(r) == multiset(sorted) + multiset{x}
    ensures forall u :: u in r <==> u in sorted || u == x
  {
    if sorted == [] then [x]
    else if ScoresAtLeast(x, sorted[0]) then [x] + sorted
    else
      assert sorted == [sorted[0]] + sorted[1..];
      [sorted[0]] + Insert(sorted[1..], x)
  }

  /**
   * The stable sort by descending score (`unitList.sort` with the score
   * comparator), written as an insertion sort.
   */
  function SortByScore(units: seq<Unit>): (r: seq<Unit>)
    ensures multiset(r) == multiset(units)
    ensures forall u :: u in r <==> u in units
  {
    if units == [] then []
    else
      assert units == [units[0]] + units[1..];
      Insert(SortByScore(units[1..]), units[0])
  }

  ghost predicate SortedByScore(s: seq<Unit>) {
    forall i, j :: 0 <= i < j < |s| ==> ScoresAtLeast(s[i], s[j])
  }

  lemma {:induction false} InsertSorted(sorted: seq<Unit>, x: Unit)
    requires PositiveCosts(sorted) && x.cost > 0 && SortedByScore(sorted)
    ensures SortedByScore(Insert(sorted, x))
  {
    if sorted == [] {
    } else if ScoresAtLeast(x, sorted[0]) {
      var r := [x] + sorted;
      forall i, j | 0 <= i < j < |r|
        ensures ScoresAtLeast(r[i], r[j])
      {
        if i == 0 && j > 1 {
          ScoresAtLeastTransitive(x, sorted[0], sorted[j - 1]);
        }
      }
    } else {
      var tail := sorted[1..];
      assert PositiveCosts(tail) && SortedByScore(tail);
      InsertSorted(tail, x);
      var rest := Insert(tail, x);
      var r := [sorted[0]] + rest;
      forall i, j | 0 <= i < j < |r|
        ensures ScoresAtLeast(r[i], r[j])
      {
        if i == 0 {
          assert r[j] in multiset(rest);
          assert r[j] == x || r[j] in tail;
        }
      }
    }
  }

  /** Ranked archetypes come in non-increasing order of score. */
  lemma {:induction false} SortByScoreSorted(units: seq<Unit>)
    requires PositiveCosts(units)
    ensures SortedByScore(SortByScore(units))
  {
    if units != [] {
      assert PositiveCosts(units[1..]);
      SortByScoreSorted(units[1..]);
      assert multiset(SortByScore(units[1..])) == multiset(units[1..]);
      assert forall u :: u in SortByScore(units[1..]) ==> u in multiset(units[1..]);
      InsertSorted(SortByScore(units[1..]), units[0]);
    }
  }

  /** The units of `s` with the same score as `w`, in their order in `s`. */
  function Ties(s: seq<Unit>, w: Unit): seq<Unit> {
    if s == [] then []
    else (if SameScore(s[0], w) then [s[0]] else []) + Ties(s[1..], w)
  }

  lemma TiesCons(h: Unit, t: seq<Unit>, w: Unit)
    ensures Ties([h] + t, w) == (if SameScore(h, w) then [h] else []) + Ties(t, w)
  {
    assert ([h] + t)[1..] == t;
  }

  /** Two units in strictly decreasing score order cannot both tie with `w`. */
  lemma NotBothTied(x: Unit, y: Unit, w: Unit)
    requires x.cost > 0 && y.cost > 0 && w.cost > 0 && !ScoresAtLeast(x, y)
    ensures !(SameScore(x, w) && SameScore(y, w))
  {
    if SameScore(x, w) && SameScore(y, w) {
      ScoresAtLeastTransitive(x, w, y);
    }
  }

  lemma {:induction false} InsertTies(sorted: seq<Unit>, x: Unit, w: Unit)
    requires PositiveCosts(sorted) && x.cost > 0 && w.cost > 0
    ensures Ties(Insert(sorted, x), w) == (if SameScore(x, w) then [x] else []) + Ties(sorted, w)
  {
    if sorted == [] {
    } else if ScoresAtLeast(x, sorted[0]) {
      TiesCons(x, sorted, w);
    } else {
      var tail := sorted[1..];
      assert sorted == [sorted[0]] + tail;
      assert PositiveCosts(tail);
      InsertTies(tail, x, w);
      TiesCons(sorted[0], Insert(tail, x), w);
      TiesCons(sorted[0], tail, w);
      NotBothTied(x, sorted[0], w);
    }
  }

  /**
   * The sort is stable: units of equal score keep their input order (and no
   * unit is lost or added, by the multiset equality of `SortByScore`).
   */
  lemma {:induction false} SortByScoreStable(units: seq<Unit>, w: Unit)
    requires PositiveCosts(units) && w.cost > 0
    ensures Ties(SortByScore(units), w) == Ties(units, w)
  {
    if units != [] {
      assert PositiveCosts(units[1..]);
      SortByScoreStable(units[1..], w);
      assert multiset(SortByScore(units[1..])) == multiset(units[1..]);
      assert forall u :: u in SortByScore(units[1..]) ==> u in multiset(units[1..]);
      InsertTies(SortByScore(units[1..]), units[0], w);
    }
  }

  // ---------------------------------------------------------------------------
  // Selection

  /** Points for `n` copies of cost `cost`. */
  function CostOf(n: nat, cost: int): int {
    if n == 0 then 0 else CostOf(n - 1, cost) + cost
  }

  lemma {:induction false} CostOfIsProduct(n: nat, cost: int)
    ensures CostOf(n, cost) == n * cost
  {
    if n > 0 {
      CostOfIsProduct(n - 1, cost);
    }
  }

  lemma {:induction false} CostOfMonotone(m: nat, n: nat, cost: int)
    requires m <= n && cost > 0
    ensures CostOf(m, cost) <= CostOf(n, cost)
  {
    if m < n {
      CostOfMonotone(m, n - 1, cost);
    }
  }

  /**
   * The inner loop's count: with `copies` copies fielded and `spent` points
   * used, adds copies of cost `cost` while fewer than eleven are fielded and
   * the next one fits the budget, and returns the final count.
   */
  function CopiesFrom(cost: int, spent: int, budget: int, copies: nat): nat
    requires cost > 0 && copies <= MaxCopies
    decreases MaxCopies - copies
  {
    if copies < MaxCopies && spent + cost <= budget then CopiesFrom(cost, spent + cost, budget, copies + 1)
    else copies
  }

  /**
   * The count reached stays within eleven, the added copies fit the budget,
   * and the loop stopped at eleven or because one more would not fit.
   */
  lemma {:induction false} CopiesFromBounds(cost: int, spent: int, budget: int, copies: nat)
    requires cost > 0 && copies <= MaxCopies
    ensures copies <= CopiesFrom(cost, spent, budget, copies) <= MaxCopies
    ensures var k := CopiesFrom(cost, spent, budget, copies);
      k == copies || spent + CostOf(k - copies, cost) <= budget
    ensures var k := CopiesFrom(cost, spent, budget, copies);
      k == MaxCopies || spent + CostOf(k - copies, cost) + cost > budget
    decreases MaxCopies - copies
  {
    if copies < MaxCopies && spent + cost <= budget {
      CopiesFromBounds(cost, spent + cost, budget, copies + 1);
      var k := CopiesFrom(cost, spent, budget, copies);
      CostOfShift(k - copies, cost);
    }
  }

  lemma {:induction false} CostOfShift(n: nat, cost: int)
    requires n > 0
    ensures CostOf(n, cost) == cost + CostOf(n - 1, cost)
  {
  }

  /**
   * How many copies of an archetype of cost `cost` the inner loop fields when
   * `spent` points are already used: the largest count up to eleven that
   * still fits the budget.
   */
  function CopiesAffordable(cost: int, spent: int, budget: int): (k: nat)
    requires cost > 0
    ensures k <= MaxCopies
    ensures k == 0 || spent + CostOf(k, cost) <= budget
    ensures k == MaxCopies || spent + CostOf(k, cost) + cost > budget
  {
    CopiesFromBounds(cost, spent, budget, 0);
    CopiesFrom(cost, spent, budget, 0)
  }

  /**
   * `CopiesAffordable` in closed form: the largest count k of at most eleven
   * with spent + k * cost within the budget (zero when not even one fits).
   */
  lemma {:induction false} CopiesAffordableIsLargest(cost: int, spent: int, budget: int)
    requires cost > 0
    ensures var k := CopiesAffordable(cost, spent, budget);
      && k <= MaxCopies
      && (k == 0 || spent + k * cost <= budget)
      && forall j: nat :: k < j <= MaxCopies ==> spent + j * cost > budget
  {
    var k := CopiesAffordable(cost, spent, budget);
    CostOfIsProduct(k, cost);
    forall j: nat | k < j <= MaxCopies
      ensures spent + j * cost > budget
    {
      CostOfIsProduct(j, cost);
      CostOfMonotone(k + 1, j, cost);
      CostOfShift(k + 1, cost);
    }
  }

  /**
   * The inner loop's guard, with `copies` copies fielded so far, holds exactly
   * while fewer than `CopiesAffordable` copies are fielded.
   */
  lemma GuardMatchesAffordable(cost: int, spent: int, budget: int, copies: nat)
    requires cost > 0 && copies <= CopiesAffordable(cost, spent, budget)
    ensures (copies < MaxCopies && spent + CostOf(copies, cost) + cost <= budget)
        <==> copies < CopiesAffordable(cost, spent, budget)
  {
    var k := CopiesAffordable(cost, spent, budget);
    if copies < k {
      CostOfMonotone(copies + 1, k, cost);
    }
  }

  /** Points spent once the first `i` ranked archetypes are processed. */
  function SpentAfter(ranked: seq<Unit>, budget: int, i: nat): int
    requires i <= |ranked| && PositiveCosts(ranked)
  {
    if i == 0 then 0
    else
      var spent := SpentAfter(ranked, budget, i - 1);
      spent + CostOf(CopiesAffordable(ranked[i - 1].cost, spent, budget), ranked[i - 1].cost)
  }

  /** Copies fielded of the archetype ranked `i`. */
  function CopiesOf(ranked: seq<Unit>, budget: int, i: nat): nat
    requires i < |ranked| && PositiveCosts(ranked)
  {
    CopiesAffordable(ranked[i].cost, SpentAfter(ranked, budget, i), budget)
  }

  /** Copy number `copy` of the archetype ranked `slot`. */
  datatype Order = Order(slot: nat, copy: nat)

  /** The orders for copies 0 to k - 1 of the archetype ranked `slot`. */
  function Copies(slot: nat, k: nat): (r: seq<Order>)
    ensures |r| == k && forall j :: 0 <= j < k ==> r[j] == Order(slot, j)
  {
    if k == 0 then [] else Copies(slot, k - 1) + [Order(slot, k - 1)]
  }

  /** The orders issued for the first `i` ranked archetypes, in issue order. */
  function Plan(ranked: seq<Unit>, budget: int, i: nat): seq<Order>
    requires i <= |ranked| && PositiveCosts(ranked)
  {
    if i == 0 then [] else Plan(ranked, budget, i - 1) + Copies(i - 1, CopiesOf(ranked, budget, i - 1))
  }

  /** Number of orders for the archetype ranked `slot`. */
  function CountSlot(plan: seq<Order>, slot: nat): nat {
    if plan == [] then 0
    else CountSlot(plan[..|plan| - 1], slot) + (if plan[|plan| - 1].slot == slot then 1 else 0)
  }

  lemma {:induction false} CountCopies(slot: nat, k: nat, other: nat)
    ensures CountSlot(Copies(slot, k), other) == if slot == other then k else 0
  {
    if k > 0 {
      assert Copies(slot, k)[..k - 1] == Copies(slot, k - 1);
      CountCopies(slot, k - 1, other);
    }
  }

  lemma {:induction false} CountAppend(a: seq<Order>, b: seq<Order>, slot: nat)
    ensures CountSlot(a + b, slot) == CountSlot(a, slot) + CountSlot(b, slot)
  {
    if b == [] {
      assert a + b == a;
    } else {
      assert (a + b)[..|a + b| - 1] == a + b[..|b| - 1];
      CountAppend(a, b[..|b| - 1], slot);
    }
  }

  /**
   * Each archetype is ordered exactly `CopiesOf` times, at most eleven, and
   * its orders carry copy numbers below that count.
   */
  lemma {:induction false} PlanCopiesPerArchetype(ranked: seq<Unit>, budget: int, i: nat, slot: nat)
    requires i <= |ranked| && PositiveCosts(ranked)
    ensures CountSlot(Plan(ranked, budget, i), slot) == if slot < i then CopiesOf(ranked, budget, slot) else 0
    ensures CountSlot(Plan(ranked, budget, i), slot) <= MaxCopies
  {
    if i > 0 {
      var prev, block := Plan(ranked, budget, i - 1), Copies(i - 1, CopiesOf(ranked, budget, i - 1));
      assert Plan(ranked, budget, i) == prev + block;
      PlanCopiesPerArchetype(ranked, budget, i - 1, slot);
      CountAppend(prev, block, slot);
      CountCopies(i - 1, CopiesOf(ranked, budget, i - 1), slot);
    }
    if slot < i {
      assert CopiesOf(ranked, budget, slot) <= MaxCopies;
    }
  }

  /** The orders name archetypes in non-decreasing rank, all below `bound`. */
  predicate SlotsOrdered(plan: seq<Order>, bound: nat) {
    && (forall j :: 0 <= j < |plan| ==> plan[j].slot < bound)
    && (forall j, j' :: 0 <= j < j' < |plan| ==> plan[j].slot <= plan[j'].slot)
  }

  lemma AppendBlockOrdered(plan: seq<Order>, slot: nat, k: nat)
    requires SlotsOrdered(plan, slot)
    ensures SlotsOrdered(plan + Copies(slot, k), slot + 1)
  {
    var extra := Copies(slot, k);
    var r := plan + extra;
    forall j, j' | 0 <= j < j' < |r|
      ensures r[j].slot <= r[j'].slot
    {
      if j' < |plan| {
        assert r[j] == plan[j] && r[j'] == plan[j'];
      } else if j < |plan| {
        assert r[j] == plan[j] && r[j'] == extra[j' - |plan|];
      } else {
        assert r[j] == extra[j - |plan|] && r[j'] == extra[j' - |plan|];
      }
    }
  }

  /** The orders visit the archetypes in ranked order, each among the first `i`. */
  lemma {:induction false} PlanInRankOrder(ranked: seq<Unit>, budget: int, i: nat)
    requires i <= |ranked| && PositiveCosts(ranked)
    ensures SlotsOrdered(Plan(ranked, budget, i), i)
  {
    if i > 0 {
      PlanInRankOrder(ranked, budget, i - 1);
      AppendBlockOrdered(Plan(ranked, budget, i - 1), i - 1, CopiesOf(ranked, budget, i - 1));
    }
  }

  /** Each order's copy number is below the count fielded of its archetype. */
  lemma {:induction false} PlanCopyNumbers(ranked: seq<Unit>, budget: int, i: nat)
    requires i <= |ranked| && PositiveCosts(ranked)
    ensures forall j :: 0 <= j < |Plan(ranked, budget, i)| ==>
      Plan(ranked, budget, i)[j].slot < i &&
      Plan(ranked, budget, i)[j].copy < CopiesOf(ranked, budget, Plan(ranked, budget, i)[j].slot)
  {
    if i > 0 {
      PlanCopyNumbers(ranked, budget, i - 1);
      var prev, extra := Plan(ranked, budget, i - 1), Copies(i - 1, CopiesOf(ranked, budget, i - 1));
      var plan := Plan(ranked, budget, i);
      assert plan == prev + extra;
      forall j | 0 <= j < |plan|
        ensures plan[j].slot < i && plan[j].copy < CopiesOf(ranked, budget, plan[j].slot)
      {
        if j < |prev| {
          assert plan[j] == prev[j];
        } else {
          assert plan[j] == extra[j - |prev|];
        }
      }
    }
  }

  /** Earlier plans are prefixes of later ones. */
  lemma {:induction false} PlanPrefix(ranked: seq<Unit>, budget: int, i: nat, n: nat)
    requires i <= n <= |ranked| && PositiveCosts(ranked)
    ensures |Plan(ranked, budget, i)| <= |Plan(ranked, budget, n)|
    ensures Plan(ranked, budget, n)[..|Plan(ranked, budget, i)|] == Plan(ranked, budget, i)
  {
    if i < n {
      PlanPrefix(ranked, budget, i, n - 1);
      var shorter, extra := Plan(ranked, budget, n - 1), Copies(n - 1, CopiesOf(ranked, budget, n - 1));
      assert Plan(ranked, budget, n) == shorter + extra;
      assert (shorter + extra)[..|Plan(ranked, budget, i)|] == shorter[..|Plan(ranked, budget, i)|];
    }
  }

  /** The orders for the archetype ranked `i` form one block of the full plan. */
  lemma PlanBlock(ranked: seq<Unit>, budget: int, i: nat)
    requires i < |ranked| && PositiveCosts(ranked)
    ensures |Plan(ranked, budget, i)| + CopiesOf(ranked, budget, i) <= |Plan(ranked, budget, |ranked|)|
    ensures Plan(ranked, budget, |ranked|)[|Plan(ranked, budget, i)|..|Plan(ranked, budget, i)| + CopiesOf(ranked, budget, i)]
         == Copies(i, CopiesOf(ranked, budget, i))
  {
    PlanPrefix(ranked, budget, i + 1, |ranked|);
    var full, before, block := Plan(ranked, budget, |ranked|), Plan(ranked, budget, i), Copies(i, CopiesOf(ranked, budget, i));
    assert Plan(ranked, budget, i + 1) == before + block;
    assert full[..|before| + |block|] == before + block;
    assert full[|before|..|before| + |block|] == (before + block)[|before|..];
  }

  /** The points spent never exceed the budget, unless nothing was bought. */
  lemma {:induction false} SpentWithinBudget(ranked: seq<Unit>, budget: int, i: nat)
    requires i <= |ranked| && PositiveCosts(ranked)
    ensures 0 <= SpentAfter(ranked, budget, i)
    ensures SpentAfter(ranked, budget, i) == 0 || SpentAfter(ranked, budget, i) <= budget
  {
    if i > 0 {
      SpentWithinBudget(ranked, budget, i - 1);
      var spent, cost := SpentAfter(ranked, budget, i - 1), ranked[i - 1].cost;
      var k := CopiesAffordable(cost, spent, budget);
      CostOfMonotone(0, k, cost);
      assert SpentAfter(ranked, budget, i) == spent + CostOf(k, cost);
    }
  }

  /**
   * Greedy maximality: after the archetype ranked `i` is processed, either
   * eleven copies were fielded or one more would overrun the budget.
   */
  lemma GreedyStop(ranked: seq<Unit>, budget: int, i: nat)
    requires i < |ranked| && PositiveCosts(ranked)
    ensures CopiesOf(ranked, budget, i) == MaxCopies
         || SpentAfter(ranked, budget, i + 1) + ranked[i].cost > budget
  {
  }

  /** With a budget below every cost (or no archetypes) nothing is ordered. */
  lemma {:induction false} NothingAffordable(ranked: seq<Unit>, budget: int, i: nat)
    requires i <= |ranked| && PositiveCosts(ranked)
    requires forall u :: u in ranked ==> u.cost > budget
    ensures Plan(ranked, budget, i) == [] && SpentAfter(ranked, budget, i) == 0
  {
    if i > 0 {
      NothingAffordable(ranked, budget, i - 1);
      assert ranked[i - 1] in ranked;
    }
  }

  // ---------------------------------------------------------------------------
  // Copies

  function DigitChar(d: nat): char
    requires d < 10
  {
    "0123456789"[d]
  }

  /** Decimal notation of `n`, as Java's string concatenation writes it. */
  function NatToString(n: nat): (s: string)
    ensures |s| > 0 && (n >= 10 <==> |s| > 1)
  {
    if n < 10 then [DigitChar(n)] else NatToString(n / 10) + [DigitChar(n % 10)]
  }

  lemma {:induction false} NatToStringInjective(a: nat, b: nat)
    requires NatToString(a) == NatToString(b)
    ensures a == b
  {
    if a >= 10 && b >= 10 {
      var sa, sb := NatToString(a), NatToString(b);
      assert sa[..|sa| - 1] == NatToString(a / 10);
      assert sb[..|sb| - 1] == NatToString(b / 10);
      NatToStringInjective(a / 10, b / 10);
      assert DigitChar(a % 10) == sa[|sa| - 1] == sb[|sb| - 1] == DigitChar(b % 10);
    }
  }

  /** The name of copy `k` of an archetype of type `unitType`. */
  function CopyName(unitType: string, k: nat): string {
    unitType + " " + NatToString(k)
  }

  /** A copy's name is its type, one space, then its number in decimal. */
  lemma CopyNameParts(unitType: string, k: nat)
    ensures var name := CopyName(unitType, k);
      && |name| == |unitType| + 1 + |NatToString(k)|
      && name[..|unitType|] == unitType && name[|unitType|] == ' '
      && name[|unitType| + 1..] == NatToString(k)
  {
  }

  /** Different copies of one archetype get different names. */
  lemma CopyNamesDistinct(unitType: string, j: nat, k: nat)
    requires j != k
    ensures CopyName(unitType, j) != CopyName(unitType, k)
  {
    if CopyName(unitType, j) == CopyName(unitType, k) {
      CopyNameParts(unitType, j);
      CopyNameParts(unitType, k);
      NatToStringInjective(j, k);
      assert false;
    }
  }

  /**
   * `u` is copy number `k` of `archetype`: named after its type and number,
   * with the archetype's type, health, attack, cost, attack type and bonus
   * tables.
   */
  predicate IsCopy(u: Unit, archetype: Unit, k: nat) {
    && u.name == CopyName(archetype.unitType, k)
    && u.unitType == archetype.unitType
    && u.health == archetype.health
    && u.baseAttack == archetype.baseAttack
    && u.cost == archetype.cost
    && u.attackType == archetype.attackType
    && u.attackBonuses == archetype.attackBonuses
    && u.defenceBonuses == archetype.defenceBonuses
  }

  /** Builds copy number `k` of `archetype`, standing on `cell`. */
  function MakeCopy(archetype: Unit, k: nat, cell: Cell): (u: Unit)
    ensures IsCopy(u, archetype, k) && CellOf(u) == cell
  {
    Unit(CopyName(archetype.unitType, k), archetype.unitType, archetype.health,
         archetype.baseAttack, archetype.cost, archetype.attackType,
         archetype.attackBonuses, archetype.defenceBonuses, cell.x, cell.y)
  }

  // ---------------------------------------------------------------------------
  // Placement

  function Board(): set<Cell> {
    set x: int, y: int | 0 <= x < Width && 0 <= y < Height :: Cell(x, y)
  }

  /**
   * The random placement: some free cell of the deployment area, chosen
   * without further promise, or `None` when every cell is taken.
   */
  method PickFreeCell(occupied: set<Cell>) returns (cell: Option<Cell>)
    ensures cell.Some? ==> InBounds(cell.value) && cell.value !in occupied
    ensures cell.None? <==> forall c :: InBounds(c) ==> c in occupied
  {
    var free := Board() - occupied;
    if free == {} {
      forall c | InBounds(c)
        ensures c in occupied
      {
        assert c == Cell(c.x, c.y) && c in Board();
        assert c !in free;
      }
      return None;
    }
    var c :| c in free;
    return Some(c);
  }

  // ---------------------------------------------------------------------------
  // Composition

  function TotalCost(units: seq<Unit>): int {
    if units == [] then 0 else TotalCost(units[..|units| - 1]) + units[|units| - 1].cost
  }

  /** `units` fill the plan's first orders, one copy per order, in order. */
  ghost predicate FollowsPlan(units: seq<Unit>, ranked: seq<Unit>, plan: seq<Order>) {
    && |units| <= |plan|
    && forall j :: 0 <= j < |units| ==>
         plan[j].slot < |ranked| && IsCopy(units[j], ranked[plan[j].slot], plan[j].copy)
  }

  /** `FollowsPlan`, one unit at a time from the back. */
  ghost predicate Fills(units: seq<Unit>, ranked: seq<Unit>, plan: seq<Order>) {
    && |units| <= |plan|
    && (units != [] ==>
          && Fills(units[..|units| - 1], ranked, plan)
          && plan[|units| - 1].slot < |ranked|
          && IsCopy(units[|units| - 1], ranked[plan[|units| - 1].slot], plan[|units| - 1].copy))
  }

  lemma {:induction false} FillsFollowsPlan(units: seq<Unit>, ranked: seq<Unit>, plan: seq<Order>)
    requires Fills(units, ranked, plan)
    ensures FollowsPlan(units, ranked, plan)
  {
    if units != [] {
      var init := units[..|units| - 1];
      FillsFollowsPlan(init, ranked, plan);
      forall j | 0 <= j < |units|
        ensures plan[j].slot < |ranked| && IsCopy(units[j], ranked[plan[j].slot], plan[j].copy)
      {
        if j < |init| {
          assert units[j] == init[j];
        }
      }
    }
  }

  lemma FillsExtend(units: seq<Unit>, ranked: seq<Unit>, plan: seq<Order>, u: Unit)
    requires Fills(units, ranked, plan) && |units| < |plan|
    requires plan[|units|].slot < |ranked| && IsCopy(u, ranked[plan[|units|].slot], plan[|units|].copy)
    ensures Fills(units + [u], ranked, plan)
  {
    var longer := units + [u];
    assert longer[..|longer| - 1] == units && longer[|longer| - 1] == u;
  }

  /** No two units share a cell, and every unit stands in the deployment area. */
  ghost predicate WellPlaced(units: seq<Unit>) {
    && (forall j :: 0 <= j < |units| ==> InBounds(CellOf(units[j])))
    && (forall j, j' :: 0 <= j < j' < |units| ==> CellOf(units[j]) != CellOf(units[j']))
  }

  /** The cells the units stand on. */
  function CellsOf(units: seq<Unit>): set<Cell> {
    if units == [] then {} else CellsOf(units[..|units| - 1]) + {CellOf(units[|units| - 1])}
  }

  lemma {:induction false} CellsOfMembers(units: seq<Unit>, c: Cell)
    ensures c in CellsOf(units) <==> exists j :: 0 <= j < |units| && CellOf(units[j]) == c
  {
    if units != [] {
      var init := units[..|units| - 1];
      CellsOfMembers(init, c);
      if c in CellsOf(init) {
        var j :| 0 <= j < |init| && CellOf(init[j]) == c;
        assert CellOf(units[j]) == c;
      }
      if exists j :: 0 <= j < |units| && CellOf(units[j]) == c {
        var j :| 0 <= j < |units| && CellOf(units[j]) == c;
        if j < |init| {
          assert CellOf(init[j]) == c;
        }
      }
    }
  }

  /** `WellPlaced`, one unit at a time from the back: each lands on a free cell. */
  ghost predicate Placed(units: seq<Unit>) {
    units != [] ==>
      && Placed(units[..|units| - 1])
      && InBounds(CellOf(units[|units| - 1]))
      && CellOf(units[|units| - 1]) !in CellsOf(units[..|units| - 1])
  }

  lemma {:induction false} PlacedWellPlaced(units: seq<Unit>)
    requires Placed(units)
    ensures WellPlaced(units)
  {
    if units != [] {
      var n := |units| - 1;
      var init := units[..n];
      PlacedWellPlaced(init);
      forall j, j' | 0 <= j < j' < |units|
        ensures CellOf(units[j]) != CellOf(units[j'])
      {
        if j' < n {
          assert units[j] == init[j] && units[j'] == init[j'];
        } else {
          assert units[j] == init[j];
          CellsOfMembers(init, CellOf(units[n]));
        }
      }
      forall j | 0 <= j < |units|
        ensures InBounds(CellOf(units[j]))
      {
        if j < n {
          assert units[j] == init[j];
        }
      }
    }
  }

  /** `occupied` is exactly the set of cells the units stand on, and they are well placed. */
  ghost predicate Tracks(units: seq<Unit>, occupied: set<Cell>) {
    Placed(units) && occupied == CellsOf(units)
  }

  lemma TracksExtend(units: seq<Unit>, occupied: set<Cell>, u: Unit)
    requires Tracks(units, occupied) && InBounds(CellOf(u)) && CellOf(u) !in occupied
    ensures Tracks(units + [u], occupied + {CellOf(u)})
  {
    assert (units + [u])[..|units|] == units;
  }

  /** `points` is the army's cost, within the budget unless the army is empty. */
  predicate Priced(units: seq<Unit>, points: int, budget: int) {
    && points == TotalCost(units)
    && (units != [] ==> points <= budget)
    && (units == [] ==> points == 0)
  }

  /**
   * The state of the inner loop of `generate` after `c` copies of `unit`, the
   * archetype ranked `i`, are fielded: the army fills the first `base + c`
   * orders of `plan`, and `spent` points were used before the loop.
   */
  ghost predicate Filling(ranked: seq<Unit>, plan: seq<Order>, base: nat, spent: int, budget: int,
                          unit: Unit, c: nat, units: seq<Unit>, points: int, occupied: set<Cell>)
  {
    && |units| == base + c
    && Fills(units, ranked, plan)
    && points == spent + CostOf(c, unit.cost)
    && Priced(units, points, budget)
    && Tracks(units, occupied)
  }

  /** Fielding one more copy, on a free cell, while the plan asks for it. */
  lemma FillingStep(ranked: seq<Unit>, plan: seq<Order>, base: nat, spent: int, budget: int, i: nat,
                    unit: Unit, c: nat, units: seq<Unit>, points: int, occupied: set<Cell>, cell: Cell)
    requires i < |ranked| && unit == ranked[i] && unit.cost > 0
    requires Filling(ranked, plan, base, spent, budget, unit, c, units, points, occupied)
    requires c < CopiesAffordable(unit.cost, spent, budget)
    requires base + c < |plan| && plan[base + c] == Order(i, c)
    requires InBounds(cell) && cell !in occupied
    ensures Filling(ranked, plan, base, spent, budget, unit, c + 1, units + [MakeCopy(unit, c, cell)],
                    points + unit.cost, occupied + {cell})
  {
    var u := MakeCopy(unit, c, cell);
    FillsExtend(units, ranked, plan, u);
    PriceStep(spent, unit.cost, budget, c, units, points, u);
    TracksExtend(units, occupied, u);
  }

  lemma PriceStep(spent: int, cost: int, budget: int, c: nat, units: seq<Unit>, points: int, u: Unit)
    requires cost > 0 && c < CopiesAffordable(cost, spent, budget)
    requires points == spent + CostOf(c, cost)
    requires Priced(units, points, budget) && u.cost == cost
    ensures points + u.cost == spent + CostOf(c + 1, cost)
    ensures Priced(units + [u], points + u.cost, budget)
  {
    assert (units + [u])[..|units|] == units;
    CostOfMonotone(c + 1, CopiesAffordable(cost, spent, budget), cost);
  }

  lemma BlockEntry(plan: seq<Order>, base: nat, i: nat, k: nat, c: nat)
    requires base + k <= |plan| && plan[base..base + k] == Copies(i, k) && c < k
    ensures base + c < |plan| && plan[base + c] == Order(i, c)
  {
    assert plan[base + c] == plan[base..base + k][c];
  }

  /** `selected'` extends `selected` at its end, and `occupied'` contains `occupied`. */
  ghost predicate Grows(selected: seq<Unit>, occupied: set<Cell>, selected': seq<Unit>, occupied': set<Cell>) {
    |selected| <= |selected'| && selected'[..|selected|] == selected && occupied <= occupied'
  }

  lemma GrowsTransitive(s0: seq<Unit>, o0: set<Cell>, s1: seq<Unit>, o1: set<Cell>, s2: seq<Unit>, o2: set<Cell>)
    requires Grows(s0, o0, s1, o1) && Grows(s1, o1, s2, o2)
    ensures Grows(s0, o0, s2, o2)
  {
    assert s2[..|s0|] == s2[..|s1|][..|s0|];
  }

  /**
   * One iteration of the inner loop of `generate`, entered with the guard
   * holding: picks a free cell and fields copy number `unitCount` of `unit`
   * there, counting it, or reports that every cell is taken and changes
   * nothing.
   */
  method PlaceCopy(ghost ranked: seq<Unit>, ghost plan: seq<Order>, ghost base: nat, ghost spent: int,
                   maxPoints: int, i: nat, unit: Unit, unitCount: nat,
                   selected: seq<Unit>, currentPoints: int, occupied: set<Cell>)
    returns (selected': seq<Unit>, currentPoints': int, occupied': set<Cell>, unitCount': nat, exhausted: bool)
    requires i < |ranked| && unit == ranked[i] && unit.cost > 0
    requires base + CopiesAffordable(unit.cost, spent, maxPoints) <= |plan|
    requires plan[base..base + CopiesAffordable(unit.cost, spent, maxPoints)]
          == Copies(i, CopiesAffordable(unit.cost, spent, maxPoints))
    requires unitCount < CopiesAffordable(unit.cost, spent, maxPoints)
    requires Filling(ranked, plan, base, spent, maxPoints, unit, unitCount, selected, currentPoints, occupied)
    ensures Filling(ranked, plan, base, spent, maxPoints, unit, unitCount', selected', currentPoints', occupied')
    ensures unitCount' <= CopiesAffordable(unit.cost, spent, maxPoints)
    ensures !exhausted ==> unitCount' == unitCount + 1 && currentPoints' == currentPoints + unit.cost
    ensures exhausted ==>
      && unitCount' == unitCount < CopiesAffordable(unit.cost, spent, maxPoints)
      && selected' == selected && currentPoints' == currentPoints && occupied' == occupied
      && forall c :: InBounds(c) ==> c in occupied
    ensures Grows(selected, occupied, selected', occupied')
  {
    ghost var k := CopiesAffordable(unit.cost, spent, maxPoints);
    BlockEntry(plan, base, i, k, unitCount);
    var cell := PickFreeCell(occupied);
    if cell.None? {
      assert selected[..|selected|] == selected;
      return selected, currentPoints, occupied, unitCount, true;
    }
    FillingStep(ranked, plan, base, spent, maxPoints, i, unit, unitCount,
                selected, currentPoints, occupied, cell.value);
    var copy := MakeCopy(unit, unitCount, cell.value);
    assert (selected + [copy])[..|selected|] == selected;
    return selected + [copy], currentPoints + unit.cost, occupied + {cell.value}, unitCount + 1, false;
  }

  /**
   * The inner loop of `generate`: fields copies of `unit`, the archetype
   * ranked `i`, while fewer than eleven are fielded and the next one fits the
   * budget. Either all `CopiesAffordable` copies are fielded, or the
   * deployment area fills up first and `exhausted` is set.
   */
  method FieldCopies(ghost ranked: seq<Unit>, ghost plan: seq<Order>, ghost base: nat,
                     maxPoints: int, i: nat, unit: Unit,
                     selected: seq<Unit>, currentPoints: int, occupied: set<Cell>)
    returns (selected': seq<Unit>, currentPoints': int, occupied': set<Cell>, exhausted: bool)
    requires i < |ranked| && unit == ranked[i] && unit.cost > 0
    requires base + CopiesAffordable(unit.cost, currentPoints, maxPoints) <= |plan|
    requires plan[base..base + CopiesAffordable(unit.cost, currentPoints, maxPoints)]
          == Copies(i, CopiesAffordable(unit.cost, currentPoints, maxPoints))
    requires Filling(ranked, plan, base, currentPoints, maxPoints, unit, 0, selected, currentPoints, occupied)
    ensures Fills(selected', ranked, plan)
    ensures Priced(selected', currentPoints', maxPoints) && Tracks(selected', occupied')
    ensures !exhausted ==>
      && |selected'| == base + CopiesAffordable(unit.cost, currentPoints, maxPoints)
      && currentPoints' == currentPoints + CostOf(CopiesAffordable(unit.cost, currentPoints, maxPoints), unit.cost)
    ensures exhausted ==> |selected'| < |plan| && forall c :: InBounds(c) ==> c in occupied'
    ensures |selected| <= |selected'| && selected'[..|selected|] == selected
    ensures occupied <= occupied'
  {
    ghost var spent := currentPoints;
    ghost var k := CopiesAffordable(unit.cost, spent, maxPoints);
    selected', currentPoints', occupied' := selected, currentPoints, occupied;
    assert selected[..|selected|] == selected;
    exhausted := false;
    var unitCount := 0;
    while !exhausted && unitCount < MaxCopies && currentPoints' + unit.cost <= maxPoints
      invariant unitCount <= k
      invariant Filling(ranked, plan, base, spent, maxPoints, unit, unitCount, selected', currentPoints', occupied')
      invariant Grows(selected, occupied, selected', occupied')
      invariant exhausted ==> unitCount < k && forall c :: InBounds(c) ==> c in occupied'
      decreases MaxCopies - unitCount, if exhausted then 0 else 1
    {
      GuardMatchesAffordable(unit.cost, spent, maxPoints, unitCount);
      ghost var before, taken := selected', occupied';
      selected', currentPoints', occupied', unitCount, exhausted :=
        PlaceCopy(ranked, plan, base, spent, maxPoints, i, unit, unitCount, selected', currentPoints', occupied');
      GrowsTransitive(selected, occupied, before, taken, selected', occupied');
    }
    if !exhausted {
      GuardMatchesAffordable(unit.cost, spent, maxPoints, unitCount);
      assert unitCount == k;
    }
  }

  /**
   * How the plan grows by one archetype: its copies are appended, in copy
   * order, and their points added.
   */
  lemma PlanGrowth(ranked: seq<Unit>, budget: int, i: nat)
    requires i < |ranked| && PositiveCosts(ranked)
    ensures |Plan(ranked, budget, i + 1)| == |Plan(ranked, budget, i)| + CopiesOf(ranked, budget, i)
    ensures SpentAfter(ranked, budget, i + 1)
         == SpentAfter(ranked, budget, i) + CostOf(CopiesOf(ranked, budget, i), ranked[i].cost)
    ensures |Plan(ranked, budget, i)| + CopiesOf(ranked, budget, i) <= |Plan(ranked, budget, |ranked|)|
    ensures Plan(ranked, budget, |ranked|)[|Plan(ranked, budget, i)|..|Plan(ranked, budget, i)| + CopiesOf(ranked, budget, i)]
         == Copies(i, CopiesOf(ranked, budget, i))
  {
    PlanBlock(ranked, budget, i);
  }

  /**
   * The state of the outer loop of `generate` once the first `i` ranked
   * archetypes are processed: the army is exactly the plan's orders for them,
   * bought with `SpentAfter` points, on the cells `occupied`.
   */
  ghost predicate Composing(ranked: seq<Unit>, maxPoints: int, i: nat,
                            selected: seq<Unit>, currentPoints: int, occupied: set<Cell>)
    requires i <= |ranked| && PositiveCosts(ranked)
  {
    && |selected| == |Plan(ranked, maxPoints, i)|
    && Fills(selected, ranked, Plan(ranked, maxPoints, |ranked|))
    && currentPoints == SpentAfter(ranked, maxPoints, i)
    && Priced(selected, currentPoints, maxPoints)
    && Tracks(selected, occupied)
  }

  /**
   * The body of the outer loop of `generate`: fields the copies of the
   * archetype ranked `i`. Unless placement runs out, the loop state moves on
   * to `i + 1`; the army only grows at its end.
   */
  method FieldArchetype(ranked: seq<Unit>, maxPoints: int, i: nat,
                        selected: seq<Unit>, currentPoints: int, occupied: set<Cell>)
    returns (selected': seq<Unit>, currentPoints': int, occupied': set<Cell>, exhausted: bool)
    requires i < |ranked| && PositiveCosts(ranked)
    requires Composing(ranked, maxPoints, i, selected, currentPoints, occupied)
    ensures !exhausted ==> Composing(ranked, maxPoints, i + 1, selected', currentPoints', occupied')
    ensures exhausted ==>
      && Fills(selected', ranked, Plan(ranked, maxPoints, |ranked|))
      && Priced(selected', currentPoints', maxPoints) && Tracks(selected', occupied')
      && |selected'| < |Plan(ranked, maxPoints, |ranked|)|
      && forall c :: InBounds(c) ==> c in occupied'
    ensures |selected| <= |selected'| && selected'[..|selected|] == selected
    ensures occupied <= occupied'
  {
    PlanGrowth(ranked, maxPoints, i);
    assert ranked[i] in ranked;
    selected', currentPoints', occupied', exhausted :=
      FieldCopies(ranked, Plan(ranked, maxPoints, |ranked|), |selected|, maxPoints, i, ranked[i],
                  selected, currentPoints, occupied);
  }

  /**
   * The selection loop of `generate` over the archetypes already ranked. The
   * army follows the plan order by order: all of it when composed, a strict
   * prefix that fills the whole deployment area when placement is exhausted.
   */
  method Compose(ranked: seq<Unit>, maxPoints: int) returns (result: Outcome)
    requires PositiveCosts(ranked)
    ensures Fills(result.army.units, ranked, Plan(ranked, maxPoints, |ranked|))
    ensures result.Composed? ==> |result.army.units| == |Plan(ranked, maxPoints, |ranked|)|
    ensures result.Composed? ==> result.army.points == SpentAfter(ranked, maxPoints, |ranked|)
    ensures result.Exhausted? ==>
      && |result.army.units| < |Plan(ranked, maxPoints, |ranked|)|
      && forall c :: InBounds(c) ==> c in CellsOf(result.army.units)
    ensures Placed(result.army.units)
    ensures Priced(result.army.units, result.army.points, maxPoints)
  {
    var selected: seq<Unit> := [];
    var currentPoints := 0;
    var occupied: set<Cell> := {};
    var exhausted := false;
    var i := 0;
    while i < |ranked| && !exhausted
      invariant i <= |ranked|
      invariant !exhausted ==> Composing(ranked, maxPoints, i, selected, currentPoints, occupied)
      invariant exhausted ==>
        && Fills(selected, ranked, Plan(ranked, maxPoints, |ranked|))
        && Priced(selected, currentPoints, maxPoints) && Tracks(selected, occupied)
        && |selected| < |Plan(ranked, maxPoints, |ranked|)|
        && forall c :: InBounds(c) ==> c in occupied
    {
      selected, currentPoints, occupied, exhausted :=
        FieldArchetype(ranked, maxPoints, i, selected, currentPoints, occupied);
      i := i + 1;
    }
    result := if exhausted then Exhausted(Army(selected, currentPoints)) else Composed(Army(selected, currentPoints));
  }

  /**
   * `generate`: ranks the archetypes by score, then fields copies greedily
   * in that order (see `Compose`).
   */
  method Generate(unitList: seq<Unit>, maxPoints: int) returns (result: Outcome)
    requires PositiveCosts(unitList)
    ensures var ranked := SortByScore(unitList);
      FollowsPlan(result.army.units, ranked, Plan(ranked, maxPoints, |ranked|))
    ensures var ranked := SortByScore(unitList);
      result.Composed? ==> |result.army.units| == |Plan(ranked, maxPoints, |ranked|)|
    ensures var ranked := SortByScore(unitList);
      result.Composed? ==> result.army.points == SpentAfter(ranked, maxPoints, |ranked|)
    ensures var ranked := SortByScore(unitList);
      result.Exhausted? ==>
        && |result.army.units| < |Plan(ranked, maxPoints, |ranked|)|
        && forall c :: InBounds(c) ==> exists j :: 0 <= j < |result.army.units| && CellOf(result.army.units[j]) == c
    ensures WellPlaced(result.army.units)
    ensures Priced(result.army.units, result.army.points, maxPoints)
  {
    var ranked := SortByScore(unitList);
    result := Compose(ranked, maxPoints);
    FillsFollowsPlan(result.army.units, ranked, Plan(ranked, maxPoints, |ranked|));
    PlacedWellPlaced(result.army.units);
    forall c | InBounds(c) && result.Exhausted?
      ensures exists j :: 0 <= j < |result.army.units| && CellOf(result.army.units[j]) == c
    {
      CellsOfMembers(result.army.units, c);
    }
  }
}
