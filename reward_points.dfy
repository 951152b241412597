/** The points a completed pickup earns. On every completion the dashboard
    builds a fresh table with one value per known waste-type label, each
    `floor(random * width) + base`, so an integer in base .. base + width - 1;
    it then sums the table value of each label of the request, counting 100
    for a label the table lacks. The random source is injected here as one
    integer draw per known label, each in 0 .. width - 1. */
module RewardPoints {

  /** The range `floor(random * width) + base` draws from. */
  datatype PointRange = PointRange(base: int, width: nat)

  /** The eight known waste types and their ranges. */
  const Ranges: map<string, PointRange> := map[
    "Plastic Bottles"    := PointRange(150, 200),
    "Paper/Cardboard"    := PointRange(100, 150),
    "Metal Cans"         := PointRange(200, 250),
    "E-waste"            := PointRange(300, 300),
    "Glass Bottles"      := PointRange(120, 180),
    "Plastic Containers" := PointRange(130, 170),
    "Organic Waste"      := PointRange(80, 100),
    "Mixed Plastic"      := PointRange(150, 200)
  ]

  /** What a label outside the table earns. */
  const UnknownLabelPoints: int := 100

  /** One draw per known label, each below that label's width. */
  predicate ValidDraws(draws: map<string, int>) {
    forall l :: l in Ranges ==> l in draws && 0 <= draws[l] < Ranges[l].width
  }

  /** Every known range is non-empty and starts above zero. */
  lemma RangesPositive()
    ensures forall l :: l in Ranges ==> Ranges[l].width > 0 && Ranges[l].base >= 80
  {
  }

  /** The table of one completion. */
  function PointsTable(draws: map<string, int>): (t: map<string, int>)
    requires ValidDraws(draws)
    ensures t.Keys == Ranges.Keys
    ensures forall l :: l in t ==> t[l] - Ranges[l].base == draws[l]
    ensures forall l :: l in t ==> Ranges[l].base <= t[l] <= Ranges[l].base + Ranges[l].width - 1
    ensures forall l :: l in t ==> t[l] != 0
  {
    RangesPositive();
    map l | l in Ranges :: Ranges[l].base + draws[l]
  }

  /** The value a label contributes: its table entry, or 100 when the entry is
      missing or zero (the fallback of a JavaScript `||`). */
  function LabelPoints(t: map<string, int>, wasteType: string): int {
    if wasteType in t && t[wasteType] != 0 then t[wasteType] else UnknownLabelPoints
  }

  /** The least and the greatest value a label can contribute. */
  function MinPoints(wasteType: string): int {
    if wasteType in Ranges then Ranges[wasteType].base else UnknownLabelPoints
  }

  function MaxPoints(wasteType: string): int {
    if wasteType in Ranges then Ranges[wasteType].base + Ranges[wasteType].width - 1 else UnknownLabelPoints
  }

  /** Each label contributes a value in its range; a label outside the table
      contributes exactly 100. */
  lemma LabelPointsBounds(draws: map<string, int>, wasteType: string)
    requires ValidDraws(draws)
    ensures MinPoints(wasteType) <= LabelPoints(PointsTable(draws), wasteType) <= MaxPoints(wasteType)
    ensures wasteType !in Ranges ==> LabelPoints(PointsTable(draws), wasteType) == UnknownLabelPoints
    ensures wasteType in Ranges ==> LabelPoints(PointsTable(draws), wasteType) == Ranges[wasteType].base + draws[wasteType]
  {
    RangesPositive();
  }

  /** The ranges the code yields, for every known label. Each upper end is one
      below the one its inline comment gives, since the draw stays below width. */
  lemma KnownRanges()
    ensures MinPoints("Plastic Bottles") == 150 && MaxPoints("Plastic Bottles") == 349
    ensures MinPoints("Paper/Cardboard") == 100 && MaxPoints("Paper/Cardboard") == 249
    ensures MinPoints("Metal Cans") == 200 && MaxPoints("Metal Cans") == 449
    ensures MinPoints("E-waste") == 300 && MaxPoints("E-waste") == 599
    ensures MinPoints("Glass Bottles") == 120 && MaxPoints("Glass Bottles") == 299
    ensures MinPoints("Plastic Containers") == 130 && MaxPoints("Plastic Containers") == 299
    ensures MinPoints("Organic Waste") == 80 && MaxPoints("Organic Waste") == 179
    ensures MinPoints("Mixed Plastic") == 150 && MaxPoints("Mixed Plastic") == 349
  {
  }

  /** The sum over the labels of one request, left to right as `reduce` does. */
  function TotalPoints(t: map<string, int>, labels: seq<string>): int {
    if labels == [] then 0
    else TotalPoints(t, labels[..|labels| - 1]) + LabelPoints(t, labels[|labels| - 1])
  }

  function SumMin(labels: seq<string>): int {
    if labels == [] then 0 else SumMin(labels[..|labels| - 1]) + MinPoints(labels[|labels| - 1])
  }

  function SumMax(labels: seq<string>): int {
    if labels == [] then 0 else SumMax(labels[..|labels| - 1]) + MaxPoints(labels[|labels| - 1])
  }

  /** The total lies between the sum of the labels' minimums and the sum of
      their maximums; no labels earn nothing. */
  lemma {:induction false} TotalBounds(draws: map<string, int>, labels: seq<string>)
    requires ValidDraws(draws)
    ensures SumMin(labels) <= TotalPoints(PointsTable(draws), labels) <= SumMax(labels)
    ensures labels == [] ==> TotalPoints(PointsTable(draws), labels) == 0
  {
    if labels != [] {
      TotalBounds(draws, labels[..|labels| - 1]);
      LabelPointsBounds(draws, labels[|labels| - 1]);
    }
  }

  /** The total of a concatenation is the sum of the totals. */
  lemma {:induction false} TotalAppend(t: map<string, int>, a: seq<string>, b: seq<string>)
    ensures TotalPoints(t, a + b) == TotalPoints(t, a) + TotalPoints(t, b)
  {
    if b == [] {
      assert a + b == a;
    } else {
      var b' := b[..|b| - 1];
      assert (a + b)[..|a + b| - 1] == a + b';
      assert (a + b)[|a + b| - 1] == b[|b| - 1];
      TotalAppend(t, a, b');
    }
  }

  /** Taking out the label at position `i` takes its value out of the total. */
  lemma TotalRemoveAt(t: map<string, int>, b: seq<string>, i: nat)
    requires i < |b|
    ensures TotalPoints(t, b) == TotalPoints(t, b[..i] + b[i + 1..]) + LabelPoints(t, b[i])
  {
    assert b == b[..i] + [b[i]] + b[i + 1..];
    assert TotalPoints(t, [b[i]]) == LabelPoints(t, b[i]) by {
      assert [b[i]][..0] == [];
    }
    TotalAppend(t, b[..i], [b[i]]);
    TotalAppend(t, b[..i] + [b[i]], b[i + 1..]);
    TotalAppend(t, b[..i], b[i + 1..]);
  }

  /** Taking out the element at position `i` takes it out of the multiset. */
  lemma MultisetRemoveAt(b: seq<string>, i: nat)
    requires i < |b|
    ensures multiset(b[..i] + b[i + 1..]) == multiset(b) - multiset{b[i]}
  {
    assert b == b[..i] + [b[i]] + b[i + 1..];
    assert multiset(b) == multiset(b[..i]) + multiset{b[i]} + multiset(b[i + 1..]);
  }

  /** The total depends only on which labels occur how often, not on their order. */
  lemma {:induction false} TotalPermutation(t: map<string, int>, a: seq<string>, b: seq<string>)
    requires multiset(a) == multiset(b)
    ensures TotalPoints(t, a) == TotalPoints(t, b)
    decreases |a|
  {
    if a == [] {
      assert |b| == |multiset(b)| == 0;
    } else {
      var n := |a| - 1;
      assert a[..n] == a[..n] + a[n + 1..];
      MultisetRemoveAt(a, n);
      assert a[n] in multiset(b);
      var i :| 0 <= i < |b| && b[i] == a[n];
      MultisetRemoveAt(b, i);
      TotalPermutation(t, a[..n], b[..i] + b[i + 1..]);
      TotalRemoveAt(t, b, i);
    }
  }

  /** `n` copies of one label.*/
  function Repeat(wasteType: string, n: nat): (r: seq<string>)
    ensures |r| == n && forall i :: 0 <= i < n ==> r[i] == wasteType
  {
    if n == 0 then [] else Repeat(wasteType, n - 1) + [wasteType]
  }

  /** Because the table is built once per completion, every occurrence of a
      label contributes the same value: `n` copies earn `n` times one copy. */
  lemma {:induction false} TotalRepeated(t: map<string, int>, wasteType: string, n: nat)
    ensures TotalPoints(t, Repeat(wasteType, n)) == n * LabelPoints(t, wasteType)
  {
    if n > 0 {
      var r := Repeat(wasteType, n);
      assert r[..n - 1] == Repeat(wasteType, n - 1);
      TotalRepeated(t, wasteType, n - 1);
    }
  }

  /** A request for organic waste alone earns 80 to 179 points: below the
      300 the handler's comment announces. */
  lemma OrganicWasteAlone(draws: map<string, int>)
    requires ValidDraws(draws)
    ensures 80 <= TotalPoints(PointsTable(draws), ["Organic Waste"]) <= 179
  {
    var t := PointsTable(draws);
    assert ["Organic Waste"][..0] == [];
    LabelPointsBounds(draws, "Organic Waste");
    KnownRanges();
  }

  /** A request for an unknown waste type alone earns exactly 100 points. */
  lemma UnknownTypeAlone(draws: map<string, int>)
    requires ValidDraws(draws)
    ensures TotalPoints(PointsTable(draws), ["Unknown Type"]) == 100
  {
    assert ["Unknown Type"][..0] == [];
    assert "Unknown Type" !in Ranges;
    LabelPointsBounds(draws, "Unknown Type");
  }
}
