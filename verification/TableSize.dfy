/**
 * Table sizes in 64-bit arithmetic: totals, memory, lifetimes and the test for
 * a large server, each compared with the same in unbounded integers.
 */
module TableSize {
  import opened Bytes
  import opened Wrappers
  import opened Decimals
  import opened SortedText

  const TWO_TO_THE_64: nat := 0x1_0000_0000_0000_0000
  const MAX_INT64: nat := 0x7FFF_FFFF_FFFF_FFFF

  type Uint = n: int | 0 <= n < TWO_TO_THE_64

  type Int = n: int | -0x8000_0000_0000_0000 <= n <= 0x7FFF_FFFF_FFFF_FFFF

  const MAX: Uint := 0xFFFF_FFFF_FFFF_FFFF

  /** Addition and multiplication as the machine does them. */
  function Add(a: Uint, b: Uint): Uint {
    (a + b) % TWO_TO_THE_64
  }

  function Times(a: Uint, b: Uint): Uint {
    (a * b) % TWO_TO_THE_64
  }

  function Min(a: int, b: int): int {
    if a < b then a else b
  }

  // ---------- metric values ----------

  datatype FloatValue = NotANumber | Infinite(negative: bool) | Finite(value: real)

  datatype Metric = Words(text: Text) | Natural(Uint) | Signed(Int) | Floating(FloatValue) | Missing

  function SizeOfFloat(f: FloatValue): Uint {
    match f
    case NotANumber => 0
    case Infinite(negative) => if negative then 0 else MAX
    case Finite(value) =>
      if value <= 0.0 then 0
      else if value >= TWO_TO_THE_64 as real then MAX
      else value.Floor
  }

  /** A metric as a size; reading text as a float is a parameter. */
  function ToUint(parseFloat: Text -> Option<FloatValue>, m: Metric): Uint {
    match m
    case Words(text) =>
      var t := Trim(text);
      if ParseUint(t).Some? then ParseUint(t).value
      else if parseFloat(t).Some? then SizeOfFloat(parseFloat(t).value)
      else 0
    case Natural(n) => n
    case Signed(n) => if n > 0 then n else 0
    case Floating(f) => SizeOfFloat(f)
    case Missing => 0
  }

  /** A float's size is its integer part, kept within 0 and the largest 64-bit number. */
  lemma FloatSaturates(f: FloatValue)
    ensures f.Finite? ==> SizeOfFloat(f) == if f.value <= 0.0 then 0 else Min(f.value.Floor, 0xFFFF_FFFF_FFFF_FFFF)
    ensures f.Infinite? ==> SizeOfFloat(f) == if f.negative then 0 else 0xFFFF_FFFF_FFFF_FFFF
    ensures f.NotANumber? ==> SizeOfFloat(f) == 0
  {
  }

  /** Text is read in decimal if it is a 64-bit number, and else as a float; white space around it does not matter. */
  lemma WordsSize(parseFloat: Text -> Option<FloatValue>, before: Text, t: Text, after: Text)
    requires AllSpace(before) && AllSpace(after) && (t != [] ==> !IsSpace(t[0]) && !IsSpace(t[|t| - 1]))
    ensures ToUint(parseFloat, Words(before + t + after)) ==
            if t != [] && AllDigits(t) && ValueOf(t) <= 0xFFFF_FFFF_FFFF_FFFF then ValueOf(t)
            else if parseFloat(t).Some? then SizeOfFloat(parseFloat(t).value)
            else 0
  {
    hide Trim, ValueOf, SizeOfFloat;
    TrimUnique(before, t, after);
  }

  /** A number counts as itself, printed or not; a negative one counts as nothing, and so does a missing metric. */
  lemma NumbersSize(parseFloat: Text -> Option<FloatValue>, n: Uint, k: Int)
    ensures ToUint(parseFloat, Words(Print(n))) == n && ToUint(parseFloat, Natural(n)) == n
    ensures ToUint(parseFloat, Signed(k)) == if k > 0 then k else 0
    ensures ToUint(parseFloat, Missing) == 0
  {
    hide Trim, ValueOf, Print;
    ParsePrinted(n);
    assert [] + Print(n) + [] == Print(n);
    WordsSize(parseFloat, [], Print(n), []);
  }

  // ---------- totals ----------

  /** The metrics of each engine or table type, by field. */
  type Contents = map<Text, map<Text, Metric>>

  const TOTAL_SIZE := Ascii("Total Size")
  const TABLE_NUMBER := Ascii("Table Number")

  function FieldOf(metrics: map<Text, Metric>, field: Text): Metric {
    if field in metrics then metrics[field] else Missing
  }

  /** One field of every engine as a size. */
  function Sizes(parseFloat: Text -> Option<FloatValue>, engine: Contents, field: Text): map<Text, Uint> {
    map k | k in engine :: ToUint(parseFloat, FieldOf(engine[k], field))
  }

  /** The sum of the sizes in an order of their names. */
  function Sum(sizes: map<Text, Uint>, order: seq<Text>): nat
    requires forall k :: k in order ==> k in sizes
  {
    if order == [] then 0 else sizes[order[0]] + Sum(sizes, order[1..])
  }

  /** Adding up the sizes in the order in which the map is walked, stopping at an overflow. */
  method EngineTotal(parseFloat: Text -> Option<FloatValue>, engine: Contents, order: seq<Text>) returns (total: Uint)
    requires Lists(order, engine.Keys)
    ensures total == Min(Sum(Sizes(parseFloat, engine, Ascii("Total Size")), order), 0xFFFF_FFFF_FFFF_FFFF)
  {
    hide ToUint, Ascii, Sum;
    ghost var sizes := Sizes(parseFloat, engine, TOTAL_SIZE);
    SumEnds(sizes, order);
    total := 0;
    var i := 0;
    while i < |order|
      invariant 0 <= i <= |order|
      invariant Sum(sizes, order) == total + Sum(sizes, order[i..])
    {
      var size := ToUint(parseFloat, FieldOf(engine[order[i]], TOTAL_SIZE));
      SumStep(sizes, order, i);
      if size > MAX - total {
        return MAX;
      }
      total := Add(total, size);
      i := i + 1;
    }
  }

  /** Adding up table counts, which wraps around. */
  method EngineTableCount(parseFloat: Text -> Option<FloatValue>, engine: Contents, order: seq<Text>)
    returns (total: Uint)
    requires Lists(order, engine.Keys)
    ensures total == Sum(Sizes(parseFloat, engine, Ascii("Table Number")), order) % 0x1_0000_0000_0000_0000
  {
    hide ToUint, Ascii, Sum, Add;
    ghost var counts := Sizes(parseFloat, engine, TABLE_NUMBER);
    SumEnds(counts, order);
    total := 0;
    var i := 0;
    while i < |order|
      invariant 0 <= i <= |order|
      invariant Sum(counts, order) % TWO_TO_THE_64 == (total + Sum(counts, order[i..])) % TWO_TO_THE_64
    {
      var count := ToUint(parseFloat, FieldOf(engine[order[i]], TABLE_NUMBER));
      SumStep(counts, order, i);
      CountStep(total, count, Sum(counts, order[i + 1..]));
      total := Add(total, count);
      i := i + 1;
    }
  }

  lemma SumEnds(sizes: map<Text, Uint>, order: seq<Text>)
    requires forall k :: k in order ==> k in sizes
    ensures order[0..] == order && Sum(sizes, order[|order|..]) == 0
  {
  }

  lemma SumStep(sizes: map<Text, Uint>, order: seq<Text>, i: nat)
    requires i < |order| && forall k :: k in order ==> k in sizes
    ensures Sum(sizes, order[i..]) == sizes[order[i]] + Sum(sizes, order[i + 1..])
  {
    assert order[i..][0] == order[i] && order[i..][1..] == order[i + 1..];
  }

  /** Adding one count modulo 2^64 and then the others. */
  lemma CountStep(total: Uint, count: Uint, rest: nat)
    ensures (total + (count + rest)) % TWO_TO_THE_64 == (Add(total, count) + rest) % TWO_TO_THE_64
  {
    WrapsOnce(total + count, rest);
  }

  lemma WrapsOnce(a: nat, b: nat)
    ensures (a + b) % TWO_TO_THE_64 == (a % TWO_TO_THE_64 + b) % TWO_TO_THE_64
  {
    var q := a / TWO_TO_THE_64;
    assert a + b == a % TWO_TO_THE_64 + b + q * TWO_TO_THE_64;
  }

  /** Taking a name out of an order takes its size out of the sum. */
  lemma {:induction false} SumWithout(sizes: map<Text, Uint>, order: seq<Text>, i: nat)
    requires i < |order| && forall k :: k in order ==> k in sizes
    ensures Sum(sizes, order) == sizes[order[i]] + Sum(sizes, order[..i] + order[i + 1..])
    decreases i
  {
    var rest := order[..i] + order[i + 1..];
    if i == 0 {
      assert rest == order[1..];
    } else {
      SumWithout(sizes, order[1..], i - 1);
      assert rest[1..] == order[1..][..i - 1] + order[1..][i..];
      assert rest[0] == order[0];
    }
  }

  predicate SameNames(a: seq<Text>, b: seq<Text>) {
    && (forall k :: k in a ==> k in b) && (forall k :: k in b ==> k in a)
    && (forall i, j :: 0 <= i < j < |a| ==> a[i] != a[j])
    && (forall i, j :: 0 <= i < j < |b| ==> b[i] != b[j])
  }

  lemma HasName(order: seq<Text>)
    ensures order != [] ==> exists k :: k in order
  {
    if order != [] {
      assert order[0] in order;
    }
  }

  /** The sum is the same in every order. */
  lemma {:induction false} SumAnyOrder(sizes: map<Text, Uint>, a: seq<Text>, b: seq<Text>)
    requires SameNames(a, b) && forall k :: k in a ==> k in sizes
    ensures Sum(sizes, a) == Sum(sizes, b)
    decreases |a|
  {
    if a == [] {
      HasName(b);
    } else {
      assert a[0] in b;
      var i :| 0 <= i < |b| && b[i] == a[0];
      SumWithout(sizes, b, i);
      TakenOut(a, b, i);
      SumAnyOrder(sizes, a[1..], b[..i] + b[i + 1..]);
    }
  }

  lemma TakenOut(a: seq<Text>, b: seq<Text>, i: nat)
    requires SameNames(a, b) && a != [] && i < |b| && b[i] == a[0]
    ensures SameNames(a[1..], b[..i] + b[i + 1..])
  {
    var c := b[..i] + b[i + 1..];
    forall k | k in a[1..] ensures k in c {
      var x :| 0 <= x < |a[1..]| && a[1..][x] == k;
      assert a[x + 1] == k;
      assert k in a && k in b;
      var j :| 0 <= j < |b| && b[j] == k;
      assert j != i;
      assert c[if j < i then j else j - 1] == k;
    }
    forall k | k in c ensures k in a[1..] {
      var j :| 0 <= j < |c| && c[j] == k;
      assert b[if j < i then j else j + 1] == k;
      assert k in a && k != a[0];
      assert a == [a[0]] + a[1..];
    }
    forall x, y | 0 <= x < y < |c| ensures c[x] != c[y] {
      assert c[x] == b[if x < i then x else x + 1] && c[y] == b[if y < i then y else y + 1];
    }
  }

  /** The total does not depend on the order in which the map is walked. */
  lemma TotalAnyOrder(sizes: map<Text, Uint>, a: seq<Text>, b: seq<Text>)
    requires Lists(a, sizes.Keys) && Lists(b, sizes.Keys)
    ensures Sum(sizes, a) == Sum(sizes, b)
  {
    SumAnyOrder(sizes, a, b);
  }

  // ---------- the size policy ----------

  datatype Summary = Summary(totalTables: Uint, totalSize: Uint)

  datatype Input = Input(
    totalTables: Option<Uint>, effectiveRAM: Uint, tableThreshold: Int, ramMultiplier: Int, ttl: Int, now: int)

  function Count(input: Input, summary: Summary): Uint {
    if input.totalTables.Some? then input.totalTables.value else summary.totalTables
  }

  /** The test for a large server, in 64-bit arithmetic. */
  predicate Eligible(input: Input, summary: Summary) {
    if input.effectiveRAM == 0 || input.tableThreshold < 0 || input.ramMultiplier < 0 then false
    else if Count(input, summary) <= input.tableThreshold then false
    else if input.ramMultiplier > MAX / input.effectiveRAM then false
    else summary.totalSize > Times(input.effectiveRAM, input.ramMultiplier)
  }

  lemma {:induction false} ProductWithin(a: nat, b: nat, limit: nat)
    requires a > 0
    ensures b > limit / a <==> a * b > limit
  {
    var q := limit / a;
    assert limit == a * q + limit % a;
    if b > q {
      assert a * b >= a * (q + 1) by { Monotone(a, q + 1, b); }
      assert a * (q + 1) == a * q + a;
    } else {
      assert a * b <= a * q by { Monotone(a, b, q); }
    }
  }

  lemma Monotone(a: nat, b: nat, c: nat)
    requires b <= c
    ensures a * b <= a * c
  {
  }

  /** The 64-bit test is the test in unbounded integers. */
  lemma EligibleExact(input: Input, summary: Summary)
    ensures Eligible(input, summary) <==>
            && input.effectiveRAM != 0 && input.tableThreshold >= 0 && input.ramMultiplier >= 0
            && Count(input, summary) > input.tableThreshold
            && summary.totalSize > input.effectiveRAM * input.ramMultiplier
  {
    if input.effectiveRAM != 0 && input.ramMultiplier >= 0 {
      ProductWithin(input.effectiveRAM, input.ramMultiplier, MAX);
      if input.effectiveRAM * input.ramMultiplier <= MAX {
        assert Times(input.effectiveRAM, input.ramMultiplier) == input.effectiveRAM * input.ramMultiplier by {
          assert input.effectiveRAM * input.ramMultiplier >= 0 by {
            Monotone(input.effectiveRAM, 0, input.ramMultiplier);
          }
        }
      }
    }
  }

  /** Physical memory in bytes; AWS RDS reports it in units of 1024. */
  function EffectiveRAM(total: Uint, isAws: bool): Uint {
    if total == 0 then 0
    else if !isAws then total
    else if total > MAX / 1024 then MAX
    else Times(total, 1024)
  }

  lemma RAMSaturates(total: Uint, isAws: bool)
    ensures EffectiveRAM(total, isAws) == if isAws then Min(total * 1024, 0xFFFF_FFFF_FFFF_FFFF) else total
  {
  }

  const NANOSECONDS := 1_000_000_000

  function TTLFromSeconds(seconds: Int): Int {
    if seconds <= 0 then 0
    else if seconds > MAX_INT64 / NANOSECONDS then MAX_INT64
    else seconds * NANOSECONDS
  }

  lemma TTLSaturates(seconds: Int)
    ensures TTLFromSeconds(seconds) == if seconds <= 0 then 0 else Min(seconds * 1_000_000_000, 0x7FFF_FFFF_FFFF_FFFF)
  {
  }
}
