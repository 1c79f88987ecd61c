/** Day 11 of 2022, "Monkey in the Middle": monkeys take turns inspecting
    the items they hold. Each inspection changes the item's worry level by
    the monkey's operation, relieves it (divided by three in part one,
    reduced modulo the divisors' common multiple in part two) and throws
    the item to one of two monkeys depending on whether the level is
    divisible by the monkey's divisor. The answer is the product of the two
    largest inspection counts. */
module MonkeyInTheMiddle {
  import opened Wrappers
  import opened Strings

  // ---------------------------------------------------------------
  // Rust's integer division

  function Abs(a: int): nat { if a < 0 then -a else a }

  /** Rust's `/` on integers: the quotient rounded toward zero. */
  function Quot(a: int, b: int): int
    requires b != 0
  {
    if b > 0 then
      if a >= 0 then a / b else -((-a) / b)
    else
      if a >= 0 then -(a / -b) else (-a) / (-b)
  }

  /** Rust's `%` on integers: what is left over after `Quot`. */
  function Rem(a: int, b: int): int
    requires b != 0
  {
    a - Quot(a, b) * b
  }

  /** Rounding toward zero leaves a remainder smaller than the divisor and
      with the sign of the dividend. */
  lemma QuotRounds(a: int, b: int)
    requires b != 0
    ensures Abs(Rem(a, b)) < Abs(b)
    ensures Rem(a, b) == 0 || (Rem(a, b) > 0 <==> a > 0)
  {
    var r := RemOfAbs(a, b);
    assert 0 <= r < Abs(b);
  }

  /** The remainder is that of the absolute values, with the dividend's
      sign. */
  lemma RemOfAbs(a: int, b: int) returns (r: int)
    requires b != 0
    ensures r == Abs(a) % Abs(b)
    ensures Rem(a, b) == if a < 0 then -r else r
  {
    var n: int, d: int := Abs(a), Abs(b);
    r := n % d;
    var q: int := n / d;
    Euclid(n, d);
    assert Quot(a, b) == if (a < 0) == (b < 0) then q else -q;
    if a >= 0 {
      SignedProduct(a, b, n, d, q, r);
    } else {
      SignedProduct(-a, b, n, d, q, r);
    }
  }

  /** The arithmetic of `RemOfAbs` for a non-negative dividend. */
  lemma SignedProduct(a: int, b: int, n: int, d: int, q: int, r: int)
    requires a >= 0 && b != 0 && n == a && d == Abs(b) && n == q * d + r
    ensures a - (if b < 0 then -q else q) * b == r
  {
    if b < 0 {
      assert (-q) * b == q * d;
    }
  }

  lemma Euclid(n: int, d: int)
    requires d > 0
    ensures n == (n / d) * d + n % d && 0 <= n % d < d
  {
  }

  /** A multiple of `b` added to `x` leaves its remainder modulo `b`
      alone. */
  lemma ModOfMultiple(x: int, m: int, b: int)
    requires b > 0
    ensures (x + m * b) % b == x % b
  {
    var q, r := x / b, x % b;
    assert x + m * b == (q + m) * b + r;
    ModUnique(x + m * b, b, q + m, r);
  }

  /** Euclidean division has one quotient and one remainder. */
  lemma ModUnique(n: int, b: int, q: int, r: int)
    requires b > 0 && 0 <= r < b && n == q * b + r
    ensures n % b == r
  {
    var q', r' := n / b, n % b;
    assert (q - q') * b == r' - r;
    MulApart(q - q', b);
  }

  /** A non-zero multiple of `b` is at least `b` away from zero. */
  lemma MulApart(m: int, b: int)
    requires b > 0
    ensures m == 0 || m * b >= b || m * b <= -b
  {
    if m >= 1 {
      assert m * b == (m - 1) * b + b;
    } else if m <= -1 {
      assert m * b == (m + 1) * b - b;
    }
  }

  /** Rust's remainder is zero exactly when the dividend is a multiple of
      the divisor, whatever the signs. */
  lemma RemZero(a: int, b: int)
    requires b > 0
    ensures Rem(a, b) == 0 <==> a % b == 0
  {
    var q := Quot(a, b);
    QuotRounds(a, b);
    if Rem(a, b) == 0 {
      assert a == q * b + 0;
      ModOfMultiple(0, q, b);
    } else if a % b == 0 {
      assert a == (a / b) * b;
      var r := Rem(a, b);
      assert r == (a / b - q) * b;
      MulApart(a / b - q, b);
    }
  }

  // ---------------------------------------------------------------
  // Operations

  datatype Op = Add(n: int) | Sub(n: int) | Mul(n: int) | Div(n: int) | Square

  /** `Op::apply`: the new worry level, or `None` where the division by
      zero panics. */
  function Apply(op: Op, worry: int): (r: Option<int>)
    ensures r.None? <==> op == Div(0)
  {
    match op
    case Add(n) => Some(worry + n)
    case Sub(n) => Some(worry - n)
    case Mul(n) => Some(worry * n)
    case Div(n) => if n == 0 then None else Some(Quot(worry, n))
    case Square => Some(worry * worry)
  }

  /** The cases of the unit test of `apply`. */
  lemma ApplySamples()
    ensures Apply(Add(5), 2) == Some(7) && Apply(Sub(2), 5) == Some(3)
    ensures Apply(Mul(3), 4) == Some(12) && Apply(Div(3), 9) == Some(3)
  {
  }

  /** The operation in `get_monkey`: the operand "old" squares, whatever the
      operator; otherwise the operand is read as an `i64` and the operator
      picks the operation. An unknown operator or operand panics. */
  function OpOf(operator: string, operand: string): (r: Option<Op>)
  {
    if operand == "old" then Some(Square)
    else
      match ParseI64(operand)
      case None => None
      case Some(n) =>
        if operator == "+" then Some(Add(n))
        else if operator == "-" then Some(Sub(n))
        else if operator == "*" then Some(Mul(n))
        else if operator == "/" then Some(Div(n))
        else None
  }

  /** The operator and operand written for an operation. */
  function OpText(op: Op): (string, string)
  {
    match op
    case Add(n) => ("+", IntText(n))
    case Sub(n) => ("-", IntText(n))
    case Mul(n) => ("*", IntText(n))
    case Div(n) => ("/", IntText(n))
    case Square => ("*", "old")
  }

  /** Every operation with an `i64` operand, written out, reads back. */
  lemma OpOfText(op: Op)
    requires !op.Square? ==> I64Min <= op.n < I64Limit
    ensures OpOf(OpText(op).0, OpText(op).1) == Some(op)
  {
    if !op.Square? {
      var t := IntText(op.n);
      assert t != "old" by {
        assert IsDigit(t[|t| - 1]);
      }
      ParseI64Text(op.n);
    }
  }

  /** The operand "old" squares, whatever the operator; any other operand is
      a number, and an operator other than the four panics. */
  lemma OpOfOperand(operator: string, operand: string)
    ensures OpOf(operator, "old") == Some(Square)
    ensures operand != "old" && OpOf(operator, operand).Some? ==>
      ParseI64(operand).Some? && OpOf(operator, operand).value.n == ParseI64(operand).value
    ensures operand != "old" && operator !in {"+", "-", "*", "/"} ==> OpOf(operator, operand).None?
  {
  }

  // ---------------------------------------------------------------
  // Monkeys

  datatype Monkey = Monkey(num: int, items: seq<int>, operation: Op, divisor: int,
                           trueDst: nat, falseDst: nat, inspections: nat)

  /** The seven fields of a monkey's text, as the regular expression of
      `get_monkey` captures them. */
  datatype Captures = Captures(num: string, items: string, operator: string, operand: string,
                               divisor: string, trueDst: string, falseDst: string)

  /** `get_monkey` once the regular expression has matched: every capture
      converted, `None` where a conversion panics; no inspections yet. */
  function GetMonkey(c: Captures): (r: Option<Monkey>)
    ensures r.Some? ==> r.value.inspections == 0
    ensures r.Some? ==> |r.value.items| == |SplitOn(c.items, ", ")|
  {
    match (ParseI64(c.num), ReadEvery(SplitOn(c.items, ", "), ParseI64), OpOf(c.operator, c.operand))
    case (Some(num), Some(items), Some(op)) =>
      (match (ParseI64(c.divisor), ParseUSize(c.trueDst), ParseUSize(c.falseDst))
       case (Some(d), Some(t), Some(f)) => Some(Monkey(num, items, op, d, t, f, 0))
       case _ => None)
    case _ => None
  }

  function IntTexts(ns: seq<int>): (r: seq<string>)
    ensures |r| == |ns| && forall k :: 0 <= k < |ns| ==> r[k] == IntText(ns[k])
  {
    seq(|ns|, k requires 0 <= k < |ns| => IntText(ns[k]))
  }

  predicate InI64(n: int) { I64Min <= n < I64Limit }

  /** The captures of a monkey written out. */
  function CapturesOf(m: Monkey): Captures
    requires |m.items| > 0
  {
    Captures(IntText(m.num), Join(IntTexts(m.items), ", "), OpText(m.operation).0, OpText(m.operation).1,
             IntText(m.divisor), NatToString(m.trueDst), NatToString(m.falseDst))
  }

  /** A monkey holding at least one item, its numbers within `i64` and its
      targets within `usize`, written out reads back with its inspection
      count reset. */
  lemma GetMonkeyOf(m: Monkey)
    requires |m.items| > 0 && InI64(m.num) && InI64(m.divisor)
    requires m.trueDst < USizeLimit && m.falseDst < USizeLimit
    requires forall k :: 0 <= k < |m.items| ==> InI64(m.items[k])
    requires !m.operation.Square? ==> InI64(m.operation.n)
    ensures GetMonkey(CapturesOf(m)) == Some(m.(inspections := 0))
  {
    var c := CapturesOf(m);
    ParseI64Text(m.num);
    ParseI64Text(m.divisor);
    ParseNatToString(m.trueDst);
    ParseNatToString(m.falseDst);
    OpOfText(m.operation);
    ItemsRead(m.items);
  }

  /** Items written and joined with ", " read back. */
  lemma ItemsRead(items: seq<int>)
    requires |items| > 0 && forall k :: 0 <= k < |items| ==> InI64(items[k])
    ensures ReadEvery(SplitOn(Join(IntTexts(items), ", "), ", "), ParseI64) == Some(items)
  {
    var texts := IntTexts(items);
    forall k | 0 <= k < |texts| ensures ','  !in texts[k] && ParseI64(texts[k]) == Some(items[k]) {
      NoComma(texts[k]);
      ParseI64Text(items[k]);
    }
    SplitOnJoinFree(texts, ", ");
    ReadEveryMeaning(texts, ParseI64);
    var r := ReadEvery(texts, ParseI64);
    assert r.Some?;
    assert r.value == items;
  }

  lemma NoComma(t: string)
    requires |t| > 0 && (t[0] == '-' || IsDigit(t[0])) && forall i :: 0 < i < |t| ==> IsDigit(t[i])
    ensures ',' !in t
  {
    forall i | 0 <= i < |t| ensures t[i] != ',' {
      if i > 0 {
        assert IsDigit(t[i]);
      }
    }
  }

  // ---------------------------------------------------------------
  // One inspection

  /** The worry level once relief sets in: divided by three in part one,
      the remainder modulo `lcm` in part two (`None` where it is zero). */
  function Relief(w: int, partOne: bool, lcm: int): (r: Option<int>)
    ensures r.None? <==> !partOne && lcm == 0
  {
    if partOne then Some(Quot(w, 3))
    else if lcm == 0 then None
    else Some(Rem(w, lcm))
  }

  /** One inspection: the destination and the new worry level of the item,
      or `None` where the source panics on a division by zero. */
  function Inspect(m: Monkey, item: int, partOne: bool, lcm: int): (r: Option<(nat, int)>)
    ensures r.Some? ==> m.divisor != 0 && (partOne || lcm != 0)
    ensures r.Some? ==> r.value.0 == m.trueDst || r.value.0 == m.falseDst
  {
    match Apply(m.operation, item)
    case None => None
    case Some(w) =>
      match Relief(w, partOne, lcm)
      case None => None
      case Some(v) =>
        if m.divisor == 0 then None
        else Some((if Rem(v, m.divisor) == 0 then m.trueDst else m.falseDst, v))
  }

  /** The items thrown during a turn, in the order they were inspected. */
  function Throws(m: Monkey, items: seq<int>, partOne: bool, lcm: int): (r: Option<seq<(nat, int)>>)
    ensures r.Some? ==> |r.value| == |items|
    decreases |items|
  {
    if |items| == 0 then Some([])
    else
      match Throws(m, items[..|items| - 1], partOne, lcm)
      case None => None
      case Some(out) =>
        match Inspect(m, items[|items| - 1], partOne, lcm)
        case None => None
        case Some(t) => Some(out + [t])
  }

  /** A turn succeeds exactly when every inspection does, and throws each
      item in place. */
  lemma {:induction false} ThrowsMeaning(m: Monkey, items: seq<int>, partOne: bool, lcm: int)
    ensures Throws(m, items, partOne, lcm).Some? <==>
      forall k :: 0 <= k < |items| ==> Inspect(m, items[k], partOne, lcm).Some?
    ensures Throws(m, items, partOne, lcm).Some? ==>
      forall k :: 0 <= k < |items| ==> Throws(m, items, partOne, lcm).value[k] == Inspect(m, items[k], partOne, lcm).value
    decreases |items|
  {
    if |items| > 0 {
      var init := items[..|items| - 1];
      ThrowsMeaning(m, init, partOne, lcm);
      assert forall k :: 0 <= k < |init| ==> init[k] == items[k];
    }
  }

  /** The item goes to `trueDst` exactly when its relieved worry level is a
      multiple of the divisor, and to `falseDst` otherwise. */
  lemma InspectDivisible(m: Monkey, item: int, partOne: bool, lcm: int)
    requires m.divisor > 0 && Inspect(m, item, partOne, lcm).Some?
    ensures var (dst, v) := Inspect(m, item, partOne, lcm).value;
      v == Relief(Apply(m.operation, item).value, partOne, lcm).value &&
      (v % m.divisor == 0 ==> dst == m.trueDst) && (v % m.divisor != 0 ==> dst == m.falseDst)
  {
    RemZero(Inspect(m, item, partOne, lcm).value.1, m.divisor);
  }

  /** Part two's relief keeps every divisibility test's outcome: when the
      monkey's divisor divides the common multiple, the item goes where the
      unrelieved worry level would have sent it. */
  lemma ReliefKeepsTest(m: Monkey, item: int, lcm: int)
    requires m.divisor > 0 && lcm > 0 && lcm % m.divisor == 0
    requires Apply(m.operation, item).Some?
    ensures Inspect(m, item, false, lcm).Some?
    ensures var w := Apply(m.operation, item).value;
      Inspect(m, item, false, lcm).value.0 == (if Rem(w, m.divisor) == 0 then m.trueDst else m.falseDst)
  {
    var w := Apply(m.operation, item).value;
    var d := m.divisor;
    var v := Rem(w, lcm);
    var k := lcm / d;
    assert lcm == k * d;
    assert v == w + (-(Quot(w, lcm) * k)) * d;
    ModOfMultiple(w, -(Quot(w, lcm) * k), d);
    RemZero(v, d);
    RemZero(w, d);
  }

  // ---------------------------------------------------------------
  // Delivering thrown items

  /** The thrown items pushed onto the back of their destinations' queues in
      order; `None` where a destination is not a monkey and the index
      panics. */
  function Deliver(ms: seq<Monkey>, out: seq<(nat, int)>): (r: Option<seq<Monkey>>)
    ensures r.Some? ==> |r.value| == |ms|
    decreases |out|
  {
    if |out| == 0 then Some(ms)
    else
      match Deliver(ms, out[..|out| - 1])
      case None => None
      case Some(ms') =>
        var (dst, item) := out[|out| - 1];
        if dst < |ms'| then Some(ms'[dst := ms'[dst].(items := ms'[dst].items + [item])]) else None
  }

  /** The items thrown to monkey `j`, in the order they were thrown. */
  function Received(out: seq<(nat, int)>, j: nat): seq<int>
    decreases |out|
  {
    if |out| == 0 then []
    else Received(out[..|out| - 1], j) + (if out[|out| - 1].0 == j then [out[|out| - 1].1] else [])
  }

  /** Delivery succeeds exactly when every destination is a monkey, and then
      each monkey's queue ends with what was thrown to it, in throwing order;
      nothing else about any monkey changes. */
  lemma {:induction false} DeliverMeaning(ms: seq<Monkey>, out: seq<(nat, int)>)
    ensures Deliver(ms, out).Some? <==> forall k :: 0 <= k < |out| ==> out[k].0 < |ms|
    ensures Deliver(ms, out).Some? ==> forall j :: 0 <= j < |ms| ==>
      Deliver(ms, out).value[j] == ms[j].(items := ms[j].items + Received(out, j))
    decreases |out|
  {
    if |out| > 0 {
      var init := out[..|out| - 1];
      DeliverMeaning(ms, init);
      assert forall k :: 0 <= k < |init| ==> init[k] == out[k];
    }
  }

  /** Nothing is received from throws that go elsewhere. */
  lemma {:induction false} ReceivedNone(out: seq<(nat, int)>, j: nat)
    requires forall k :: 0 <= k < |out| ==> out[k].0 != j
    ensures Received(out, j) == []
    decreases |out|
  {
    if |out| > 0 {
      ReceivedNone(out[..|out| - 1], j);
    }
  }

  // ---------------------------------------------------------------
  // Turns and rounds

  /** A monkey after its inspections: nothing held, one more inspection for
      each item it held. */
  function Emptied(m: Monkey): Monkey
  {
    m.(items := [], inspections := m.inspections + |m.items|)
  }

  /** The turn of monkey `i`: it inspects and throws everything it holds,
      then the thrown items are delivered. */
  function Turn(ms: seq<Monkey>, i: nat, partOne: bool, lcm: int): (r: Option<seq<Monkey>>)
    requires i < |ms|
    ensures r.Some? ==> |r.value| == |ms|
  {
    match Throws(ms[i], ms[i].items, partOne, lcm)
    case None => None
    case Some(out) => Deliver(ms[i := Emptied(ms[i])], out)
  }

  /** The first `k` turns of a round, in index order. */
  function Turns(ms: seq<Monkey>, k: nat, partOne: bool, lcm: int): (r: Option<seq<Monkey>>)
    requires k <= |ms|
    ensures r.Some? ==> |r.value| == |ms|
  {
    if k == 0 then Some(ms)
    else
      match Turns(ms, k - 1, partOne, lcm)
      case None => None
      case Some(ms') => Turn(ms', k - 1, partOne, lcm)
  }

  /** `simulate_round`: every monkey's turn, in index order. */
  function Round(ms: seq<Monkey>, partOne: bool, lcm: int): (r: Option<seq<Monkey>>)
    ensures r.Some? ==> |r.value| == |ms|
  {
    Turns(ms, |ms|, partOne, lcm)
  }

  function Rounds(ms: seq<Monkey>, n: nat, partOne: bool, lcm: int): (r: Option<seq<Monkey>>)
    ensures r.Some? ==> |r.value| == |ms|
  {
    if n == 0 then Some(ms)
    else
      match Rounds(ms, n - 1, partOne, lcm)
      case None => None
      case Some(ms') => Round(ms', partOne, lcm)
  }

  /** After its turn a monkey holds exactly what it threw to itself, every
      other monkey holds what it held plus what was thrown to it; only the
      monkey whose turn it was has inspected anything. */
  lemma TurnEffect(ms: seq<Monkey>, i: nat, partOne: bool, lcm: int)
    requires i < |ms| && Turn(ms, i, partOne, lcm).Some?
    ensures var out := Throws(ms[i], ms[i].items, partOne, lcm).value;
      var r := Turn(ms, i, partOne, lcm).value;
      r[i] == Emptied(ms[i]).(items := Received(out, i)) &&
      forall j :: 0 <= j < |ms| && j != i ==> r[j] == ms[j].(items := ms[j].items + Received(out, j))
  {
    var out := Throws(ms[i], ms[i].items, partOne, lcm).value;
    DeliverMeaning(ms[i := Emptied(ms[i])], out);
  }

  /** A monkey that throws to others only has nothing left after its turn,
      and it inspected every item it held. */
  lemma TurnEmpties(ms: seq<Monkey>, i: nat, partOne: bool, lcm: int)
    requires i < |ms| && Turn(ms, i, partOne, lcm).Some?
    requires ms[i].trueDst != i && ms[i].falseDst != i
    ensures Turn(ms, i, partOne, lcm).value[i].items == []
    ensures Turn(ms, i, partOne, lcm).value[i].inspections == ms[i].inspections + |ms[i].items|
  {
    var m := ms[i];
    var out := Throws(m, m.items, partOne, lcm).value;
    ThrowsMeaning(m, m.items, partOne, lcm);
    assert forall k :: 0 <= k < |out| ==> out[k].0 != i by {
      forall k | 0 <= k < |out| ensures out[k].0 != i {
        assert out[k] == Inspect(m, m.items[k], partOne, lcm).value;
      }
    }
    ReceivedNone(out, i);
    TurnEffect(ms, i, partOne, lcm);
  }

  /** When the first `k` turns go through, so do the first `j`. */
  lemma {:induction false} TurnsPrefix(ms: seq<Monkey>, j: nat, k: nat, partOne: bool, lcm: int)
    requires j <= k <= |ms| && Turns(ms, k, partOne, lcm).Some?
    ensures Turns(ms, j, partOne, lcm).Some?
    decreases k
  {
    if j < k {
      TurnsPrefix(ms, j, k - 1, partOne, lcm);
    }
  }

  /** A turn adds to the inspection count of the monkey whose turn it is,
      by the number of items it held, and to no other. */
  lemma TurnInspections(ms: seq<Monkey>, i: nat, partOne: bool, lcm: int)
    requires i < |ms| && Turn(ms, i, partOne, lcm).Some?
    ensures Turn(ms, i, partOne, lcm).value[i].inspections == ms[i].inspections + |ms[i].items|
    ensures forall j :: 0 <= j < |ms| && j != i ==>
      Turn(ms, i, partOne, lcm).value[j].inspections == ms[j].inspections
  {
    TurnEffect(ms, i, partOne, lcm);
  }

  /** During a round, monkey `j`'s inspection count rises once, at its own
      turn, by the number of items it held when that turn began. */
  lemma {:induction false} TurnsInspections(ms: seq<Monkey>, k: nat, j: nat, partOne: bool, lcm: int)
    requires k <= |ms| && j < |ms| && Turns(ms, k, partOne, lcm).Some?
    ensures j >= k ==> Turns(ms, k, partOne, lcm).value[j].inspections == ms[j].inspections
    ensures j < k ==> Turns(ms, j, partOne, lcm).Some?
    ensures j < k ==>
      Turns(ms, k, partOne, lcm).value[j].inspections ==
      ms[j].inspections + |Turns(ms, j, partOne, lcm).value[j].items|
    decreases k
  {
    if k > 0 {
      var before := Turns(ms, k - 1, partOne, lcm).value;
      TurnsInspections(ms, k - 1, j, partOne, lcm);
      TurnInspections(before, k - 1, partOne, lcm);
      if j < k - 1 {
        assert Turns(ms, k, partOne, lcm).value[j].inspections == before[j].inspections;
      } else if j == k - 1 {
        assert Turns(ms, k, partOne, lcm).value[j].inspections == before[j].inspections + |before[j].items|;
      }
    }
  }

  /** The inspection counts after a round. */
  lemma RoundInspections(ms: seq<Monkey>, j: nat, partOne: bool, lcm: int)
    requires j < |ms| && Round(ms, partOne, lcm).Some?
    ensures Turns(ms, j, partOne, lcm).Some?
    ensures Round(ms, partOne, lcm).value[j].inspections ==
      ms[j].inspections + |Turns(ms, j, partOne, lcm).value[j].items|
  {
    TurnsInspections(ms, |ms|, j, partOne, lcm);
  }

  // ---------------------------------------------------------------
  // Items are neither made nor lost

  /** The number of items all the monkeys hold. */
  function ItemCount(ms: seq<Monkey>): nat
    decreases |ms|
  {
    if |ms| == 0 then 0 else ItemCount(ms[..|ms| - 1]) + |ms[|ms| - 1].items|
  }

  lemma {:induction false} ItemCountUpdate(ms: seq<Monkey>, i: nat, m: Monkey)
    requires i < |ms|
    ensures ItemCount(ms[i := m]) == ItemCount(ms) - |ms[i].items| + |m.items|
    decreases |ms|
  {
    var n := |ms| - 1;
    if i < n {
      assert ms[i := m][..n] == ms[..n][i := m];
      ItemCountUpdate(ms[..n], i, m);
    } else {
      assert ms[i := m][..n] == ms[..n];
    }
  }

  /** Delivery adds one item per throw. */
  lemma {:induction false} DeliverCount(ms: seq<Monkey>, out: seq<(nat, int)>)
    requires Deliver(ms, out).Some?
    ensures ItemCount(Deliver(ms, out).value) == ItemCount(ms) + |out|
    decreases |out|
  {
    if |out| > 0 {
      var ms' := Deliver(ms, out[..|out| - 1]).value;
      DeliverCount(ms, out[..|out| - 1]);
      var (dst, item) := out[|out| - 1];
      ItemCountUpdate(ms', dst, ms'[dst].(items := ms'[dst].items + [item]));
    }
  }

  /** A turn moves items between monkeys and keeps their number. */
  lemma TurnCount(ms: seq<Monkey>, i: nat, partOne: bool, lcm: int)
    requires i < |ms| && Turn(ms, i, partOne, lcm).Some?
    ensures ItemCount(Turn(ms, i, partOne, lcm).value) == ItemCount(ms)
  {
    var out := Throws(ms[i], ms[i].items, partOne, lcm).value;
    ItemCountUpdate(ms, i, Emptied(ms[i]));
    DeliverCount(ms[i := Emptied(ms[i])], out);
  }

  lemma {:induction false} TurnsCount(ms: seq<Monkey>, k: nat, partOne: bool, lcm: int)
    requires k <= |ms| && Turns(ms, k, partOne, lcm).Some?
    ensures ItemCount(Turns(ms, k, partOne, lcm).value) == ItemCount(ms)
    decreases k
  {
    if k > 0 {
      TurnsCount(ms, k - 1, partOne, lcm);
      TurnCount(Turns(ms, k - 1, partOne, lcm).value, k - 1, partOne, lcm);
    }
  }

  /** Any number of rounds keeps the number of items. */
  lemma {:induction false} RoundsCount(ms: seq<Monkey>, n: nat, partOne: bool, lcm: int)
    requires Rounds(ms, n, partOne, lcm).Some?
    ensures ItemCount(Rounds(ms, n, partOne, lcm).value) == ItemCount(ms)
    decreases n
  {
    if n > 0 {
      RoundsCount(ms, n - 1, partOne, lcm);
      var ms' := Rounds(ms, n - 1, partOne, lcm).value;
      TurnsCount(ms', |ms'|, partOne, lcm);
    }
  }

  // ---------------------------------------------------------------
  // The common multiple of the divisors

  /** Euclid's greatest common divisor. */
  function Gcd(a: nat, b: nat): nat
    decreases b
  {
    if b == 0 then a else Gcd(b, a % b)
  }

  /** The greatest common divisor divides both numbers, and is zero only
      when both are. */
  lemma {:induction false} GcdDivides(a: nat, b: nat)
    ensures Gcd(a, b) == 0 <==> a == 0 && b == 0
    ensures Gcd(a, b) > 0 ==> a % Gcd(a, b) == 0 && b % Gcd(a, b) == 0
    decreases b
  {
    if b > 0 {
      GcdDivides(b, a % b);
      GcdStep(a, b, Gcd(b, a % b));
    }
  }

  /** A common divisor of `b` and `a % b` divides `a`. */
  lemma GcdStep(a: nat, b: nat, g: nat)
    requires b > 0 && g > 0 && b % g == 0 && (a % b) % g == 0
    ensures a % g == 0
  {
    var q, kb, kr := a / b, b / g, (a % b) / g;
    assert a == q * b + a % b;
    Factor(q, kb, kr, g, b, a % b);
    ModOfMultiple(0, q * kb + kr, g);
  }

  lemma Factor(q: int, kb: int, kr: int, g: int, b: int, r: int)
    requires b == kb * g && r == kr * g
    ensures q * b + r == (q * kb + kr) * g
  {
  }

  /** `num_integer::lcm`: zero when both are zero, otherwise
      `|a * (b / gcd(a, b))|`. */
  function Lcm(a: int, b: int): int
  {
    if a == 0 && b == 0 then 0
    else
      GcdDivides(Abs(a), Abs(b));
      Abs(a * Quot(b, Gcd(Abs(a), Abs(b))))
  }

  /** The common multiple of two positive numbers is a positive multiple of
      each. */
  lemma LcmMultiple(a: int, b: int)
    requires a > 0 && b > 0
    ensures Lcm(a, b) > 0 && Lcm(a, b) % a == 0 && Lcm(a, b) % b == 0
  {
    var g, ka, kb := LcmOfPositives(a, b);
    var l := Lcm(a, b);
    assert l > 0 by {
      MultiplePositive(kb, a);
    }
    assert l % a == 0 by {
      ModOfMultiple(0, kb, a);
    }
    assert l % b == 0 by {
      ModOfMultiple(0, ka, b);
    }
  }

  lemma MultiplePositive(k: int, a: int)
    requires k > 0 && a > 0
    ensures k * a > 0
  {
  }

  lemma LcmOfPositives(a: int, b: int) returns (g: int, ka: int, kb: int)
    requires a > 0 && b > 0
    ensures kb > 0 && Lcm(a, b) == 0 + kb * a == 0 + ka * b
  {
    GcdDivides(a, b);
    g := Gcd(a, b);
    ka, kb := a / g, b / g;
    assert Quot(b, g) == kb;
    Swap(a, b, g, ka, kb);
  }

  lemma Swap(a: int, b: int, g: int, ka: int, kb: int)
    requires a > 0 && b > 0 && g > 0 && a == ka * g + 0 && b == kb * g + 0
    ensures kb > 0 && a * kb == kb * a == 0 + ka * b
  {
    assert a * kb == (ka * g) * kb == ka * (kb * g);
  }

  /** A multiple of a multiple of `a` is a multiple of `a`. */
  lemma MultipleOfMultiple(a: int, b: int, c: int)
    requires a > 0 && b > 0 && b % a == 0 && c % b == 0
    ensures c % a == 0
  {
    var kb, kc := b / a, c / b;
    assert b == kb * a && c == kc * b;
    assert c == (kc * kb) * a;
    ModOfMultiple(0, kc * kb, a);
  }

  /** The fold of `lcm` over the divisors, starting from 1. */
  function LcmOf(ds: seq<int>): int
  {
    if |ds| == 0 then 1 else Lcm(LcmOf(ds[..|ds| - 1]), ds[|ds| - 1])
  }

  /** With positive divisors, the fold is a positive multiple of every one
      of them. */
  lemma {:induction false} LcmOfMultiple(ds: seq<int>)
    requires forall k :: 0 <= k < |ds| ==> ds[k] > 0
    ensures LcmOf(ds) > 0
    ensures forall k :: 0 <= k < |ds| ==> LcmOf(ds) % ds[k] == 0
  {
    if |ds| > 0 {
      var init := ds[..|ds| - 1];
      LcmOfMultiple(init);
      var l, d := LcmOf(init), ds[|ds| - 1];
      LcmMultiple(l, d);
      forall k | 0 <= k < |ds| ensures LcmOf(ds) % ds[k] == 0 {
        if k < |init| {
          assert ds[k] == init[k];
          MultipleOfMultiple(ds[k], l, Lcm(l, d));
        }
      }
    }
  }

  function Divisors(ms: seq<Monkey>): (ds: seq<int>)
    ensures |ds| == |ms| && forall k :: 0 <= k < |ms| ==> ds[k] == ms[k].divisor
  {
    seq(|ms|, k requires 0 <= k < |ms| => ms[k].divisor)
  }

  /** With positive divisors, reducing modulo their common multiple sends
      every item where its unreduced worry level would: part two keeps the
      levels small without changing any throw. */
  lemma LcmKeepsThrows(ms: seq<Monkey>, i: nat, item: int)
    requires forall k :: 0 <= k < |ms| ==> ms[k].divisor > 0
    requires i < |ms| && Apply(ms[i].operation, item).Some?
    ensures var m, w := ms[i], Apply(ms[i].operation, item).value;
      Inspect(m, item, false, LcmOf(Divisors(ms))).Some? &&
      Inspect(m, item, false, LcmOf(Divisors(ms))).value.0 ==
      (if w % m.divisor == 0 then m.trueDst else m.falseDst)
  {
    var ds := Divisors(ms);
    LcmOfMultiple(ds);
    assert ds[i] == ms[i].divisor;
    ReliefKeepsTest(ms[i], item, LcmOf(ds));
    RemZero(Apply(ms[i].operation, item).value, ms[i].divisor);
  }

  // ---------------------------------------------------------------
  // The two busiest monkeys

  /** `a` holds the largest count and `b` the largest of the others. */
  predicate IsTopPair(xs: seq<nat>, a: nat, b: nat)
  {
    a < |xs| && b < |xs| && a != b && xs[a] >= xs[b] &&
    forall k :: 0 <= k < |xs| && k != a && k != b ==> xs[k] <= xs[b]
  }

  /** Where the two largest counts are. */
  function TopPair(xs: seq<nat>): (r: (nat, nat))
    requires |xs| >= 2
    ensures IsTopPair(xs, r.0, r.1)
    decreases |xs|
  {
    if |xs| == 2 then (if xs[0] >= xs[1] then (0, 1) else (1, 0))
    else
      var n := |xs| - 1;
      var (a, b) := TopPair(xs[..n]);
      assert forall k :: 0 <= k < n ==> xs[..n][k] == xs[k];
      if xs[n] > xs[a] then (n, a)
      else if xs[n] > xs[b] then (a, n)
      else (a, b)
  }

  /** Removing the item at `a` leaves the items at the other positions. */
  lemma WithoutAt(s: seq<nat>, a: nat)
    requires a < |s|
    ensures multiset(s) - multiset{s[a]} == multiset(s[..a] + s[a + 1..])
    ensures forall i :: 0 <= i < |s| && i != a ==> s[i] in multiset(s[..a] + s[a + 1..])
  {
    var rest := s[..a] + s[a + 1..];
    assert s == s[..a] + [s[a]] + s[a + 1..];
    assert forall i :: 0 <= i < |s| && i < a ==> s[i] == rest[i];
    assert forall i :: 0 <= i < |s| && i > a ==> s[i] == rest[i - 1];
  }

  /** What is left after removing the item at `a` sits at another
      position. */
  lemma WithoutAtIndex(s: seq<nat>, a: nat, v: nat)
    requires a < |s| && v in multiset(s[..a] + s[a + 1..])
    ensures exists k :: 0 <= k < |s| && k != a && s[k] == v
  {
    var rest := s[..a] + s[a + 1..];
    var j :| 0 <= j < |rest| && rest[j] == v;
    if j < a {
      assert s[j] == v;
    } else {
      assert s[j + 1] == v;
    }
  }

  /** No count exceeds the largest. */
  lemma AtMostTop(xs: seq<nat>, a: nat, b: nat, v: nat)
    requires IsTopPair(xs, a, b) && v in multiset(xs)
    ensures v <= xs[a]
  {
    var k :| 0 <= k < |xs| && xs[k] == v;
  }

  /** No count left after removing the largest exceeds the second largest. */
  lemma AtMostSecond(xs: seq<nat>, a: nat, b: nat, v: nat)
    requires IsTopPair(xs, a, b) && v in multiset(xs[..a] + xs[a + 1..])
    ensures v <= xs[b]
  {
    WithoutAtIndex(xs, a, v);
    var k :| 0 <= k < |xs| && k != a && xs[k] == v;
  }

  /** The two largest counts do not depend on their order: any reordering,
      such as the sort in the source, has the same largest and second
      largest. */
  lemma TopPairReordered(xs: seq<nat>, ys: seq<nat>, a: nat, b: nat, c: nat, d: nat)
    requires multiset(xs) == multiset(ys)
    requires IsTopPair(xs, a, b) && IsTopPair(ys, c, d)
    ensures xs[a] == ys[c] && xs[b] == ys[d]
  {
    assert xs[a] in multiset(ys);
    AtMostTop(ys, c, d, xs[a]);
    assert ys[c] in multiset(xs);
    AtMostTop(xs, a, b, ys[c]);
    WithoutAt(xs, a);
    WithoutAt(ys, c);
    assert multiset(xs[..a] + xs[a + 1..]) == multiset(ys[..c] + ys[c + 1..]);
    AtMostSecond(xs, a, b, ys[d]);
    AtMostSecond(ys, c, d, xs[b]);
  }

  predicate Ascending(ys: seq<nat>)
  {
    forall i, j :: 0 <= i < j < |ys| ==> ys[i] <= ys[j]
  }

  function Inspections(ms: seq<Monkey>): (r: seq<nat>)
    ensures |r| == |ms| && forall k :: 0 <= k < |ms| ==> r[k] == ms[k].inspections
  {
    seq(|ms|, k requires 0 <= k < |ms| => ms[k].inspections)
  }

  /** The level of monkey business after `rounds` rounds: the product of
      the two largest inspection counts, or `None` where the source panics
      (a bad throw, a division by zero, fewer than two monkeys). */
  function Business(ms: seq<Monkey>, rounds: nat, partOne: bool): Option<nat>
  {
    match Rounds(ms, rounds, partOne, LcmOf(Divisors(ms)))
    case None => None
    case Some(end) =>
      if |end| < 2 then None else Some(TopProduct(Inspections(end)))
  }

  /** The product of the two largest counts. */
  function TopProduct(counts: seq<nat>): nat
    requires |counts| >= 2
  {
    var (a, b) := TopPair(counts);
    counts[a] * counts[b]
  }

  /** Sorting the monkeys by inspection count and multiplying the last two
      counts gives the same answer. */
  lemma BusinessSorted(ms: seq<Monkey>, rounds: nat, partOne: bool, ys: seq<nat>)
    requires Business(ms, rounds, partOne).Some?
    requires multiset(ys) == multiset(Inspections(Rounds(ms, rounds, partOne, LcmOf(Divisors(ms))).value))
    requires Ascending(ys)
    ensures |ys| >= 2 && Business(ms, rounds, partOne).value == ys[|ys| - 1] * ys[|ys| - 2]
  {
    var counts := Inspections(Rounds(ms, rounds, partOne, LcmOf(Divisors(ms))).value);
    assert |ys| == |counts| by {
      calc {
        |ys|;
        |multiset(ys)|;
        |multiset(counts)|;
        |counts|;
      }
    }
    var (a, b) := TopPair(counts);
    assert IsTopPair(ys, |ys| - 1, |ys| - 2);
    TopPairReordered(counts, ys, a, b, |ys| - 1, |ys| - 2);
  }

  // ---------------------------------------------------------------
  // The simulation, in place

  /** Once an inspection panics, the whole turn does. */
  lemma ThrowsStop(m: Monkey, items: seq<int>, j: nat, partOne: bool, lcm: int)
    requires j < |items| && Inspect(m, items[j], partOne, lcm).None?
    ensures Throws(m, items, partOne, lcm).None?
  {
    ThrowsMeaning(m, items, partOne, lcm);
  }

  /** The inspection loop of `simulate_round`: the monkey pops each item off
      the front of its queue, counts the inspection, works out the new worry
      level and notes where to throw the item. */
  method InspectAll(monkeys: array<Monkey>, i: nat, partOne: bool, lcm: int)
      returns (ok: bool, outgoing: seq<(nat, int)>)
    requires i < monkeys.Length
    modifies monkeys
    ensures ok == Throws(old(monkeys[i]), old(monkeys[i]).items, partOne, lcm).Some?
    ensures ok ==> outgoing == Throws(old(monkeys[i]), old(monkeys[i]).items, partOne, lcm).value
    ensures ok ==> monkeys[..] == old(monkeys[..])[i := Emptied(old(monkeys[i]))]
  {
    ghost var start := monkeys[..];
    ghost var m := monkeys[i];
    outgoing := [];
    ghost var j := 0;
    while |monkeys[i].items| > 0
      invariant j <= |m.items|
      invariant monkeys[i] == m.(items := m.items[j..], inspections := m.inspections + j)
      invariant forall k :: 0 <= k < monkeys.Length && k != i ==> monkeys[k] == start[k]
      invariant Throws(m, m.items[..j], partOne, lcm) == Some(outgoing)
      decreases |monkeys[i].items|
    {
      var monkey := monkeys[i];
      var item := monkey.items[0];
      monkeys[i] := monkey.(items := monkey.items[1..], inspections := monkey.inspections + 1);
      var thrown, dst, w := InspectItem(monkey, item, partOne, lcm);
      if !thrown {
        ThrowsStop(m, m.items, j, partOne, lcm);
        return false, [];
      }
      ThrowsNext(m, m.items, j, partOne, lcm);
      outgoing := outgoing + [(dst, w)];
      j := j + 1;
    }
    assert m.items[..j] == m.items;
    assert monkeys[..] == start[i := Emptied(m)];
    ok := true;
  }

  lemma ThrowsNext(m: Monkey, items: seq<int>, j: nat, partOne: bool, lcm: int)
    requires j < |items| && Throws(m, items[..j], partOne, lcm).Some?
    requires Inspect(m, items[j], partOne, lcm).Some?
    ensures Throws(m, items[..j + 1], partOne, lcm) ==
      Some(Throws(m, items[..j], partOne, lcm).value + [Inspect(m, items[j], partOne, lcm).value])
  {
    assert items[..j + 1][..j] == items[..j];
  }

  /** One pass of the inspection loop's body: the operation, the relief and
      the divisibility test, `false` where one of them panics. */
  method InspectItem(monkey: Monkey, item: int, partOne: bool, lcm: int)
      returns (ok: bool, dst: nat, w: int)
    ensures ok == Inspect(monkey, item, partOne, lcm).Some?
    ensures ok ==> (dst, w) == Inspect(monkey, item, partOne, lcm).value
  {
    var worry := Apply(monkey.operation, item);
    if worry.None? {
      return false, 0, 0;
    }
    w := worry.value;
    if partOne {
      w := Quot(w, 3);
    } else {
      if lcm == 0 {
        return false, 0, 0;
      }
      w := Rem(w, lcm);
    }
    if monkey.divisor == 0 {
      return false, 0, 0;
    }
    if Rem(w, monkey.divisor) == 0 {
      dst := monkey.trueDst;
    } else {
      dst := monkey.falseDst;
    }
    ok := true;
  }

  /** The delivery loop of `simulate_round`: each thrown item is pushed onto
      the back of its destination's queue. */
  method DeliverAll(monkeys: array<Monkey>, outgoing: seq<(nat, int)>) returns (ok: bool)
    modifies monkeys
    ensures ok == Deliver(old(monkeys[..]), outgoing).Some?
    ensures ok ==> monkeys[..] == Deliver(old(monkeys[..]), outgoing).value
  {
    ghost var start := monkeys[..];
    for k := 0 to |outgoing|
      invariant Deliver(start, outgoing[..k]) == Some(monkeys[..])
    {
      var (idx, item) := outgoing[k];
      if idx >= monkeys.Length {
        DeliverMeaning(start, outgoing);
        return false;
      }
      monkeys[idx] := monkeys[idx].(items := monkeys[idx].items + [item]);
      assert outgoing[..k + 1][..k] == outgoing[..k];
    }
    assert outgoing[..|outgoing|] == outgoing;
    ok := true;
  }

  /** The turn of monkey `i`. */
  method TakeTurn(monkeys: array<Monkey>, i: nat, partOne: bool, lcm: int) returns (ok: bool)
    requires i < monkeys.Length
    modifies monkeys
    ensures ok == Turn(old(monkeys[..]), i, partOne, lcm).Some?
    ensures ok ==> monkeys[..] == Turn(old(monkeys[..]), i, partOne, lcm).value
  {
    var outgoing;
    ok, outgoing := InspectAll(monkeys, i, partOne, lcm);
    if ok {
      ok := DeliverAll(monkeys, outgoing);
    }
  }

  /** Once a turn panics, the rest of the round is never reached. */
  lemma {:induction false} TurnsStop(ms: seq<Monkey>, j: nat, k: nat, partOne: bool, lcm: int)
    requires j <= k <= |ms| && Turns(ms, j, partOne, lcm).None?
    ensures Turns(ms, k, partOne, lcm).None?
    decreases k
  {
    if j < k {
      TurnsStop(ms, j, k - 1, partOne, lcm);
    }
  }

  /** `simulate_round`: the monkeys take their turns in index order. */
  method SimulateRound(monkeys: array<Monkey>, partOne: bool, lcm: int) returns (ok: bool)
    modifies monkeys
    ensures ok == Round(old(monkeys[..]), partOne, lcm).Some?
    ensures ok ==> monkeys[..] == Round(old(monkeys[..]), partOne, lcm).value
  {
    ghost var start := monkeys[..];
    for i := 0 to monkeys.Length
      invariant Turns(start, i, partOne, lcm) == Some(monkeys[..])
    {
      ok := TakeTurn(monkeys, i, partOne, lcm);
      if !ok {
        TurnsStop(start, i + 1, |start|, partOne, lcm);
        return;
      }
    }
    ok := true;
  }

  lemma {:induction false} RoundsStop(ms: seq<Monkey>, j: nat, k: nat, partOne: bool, lcm: int)
    requires j <= k && Rounds(ms, j, partOne, lcm).None?
    ensures Rounds(ms, k, partOne, lcm).None?
    decreases k
  {
    if j < k {
      RoundsStop(ms, j, k - 1, partOne, lcm);
    }
  }

  /** The loop over the rounds. */
  method Simulate(monkeys: array<Monkey>, rounds: nat, partOne: bool, lcm: int) returns (ok: bool)
    modifies monkeys
    ensures ok == Rounds(old(monkeys[..]), rounds, partOne, lcm).Some?
    ensures ok ==> monkeys[..] == Rounds(old(monkeys[..]), rounds, partOne, lcm).value
  {
    ghost var start := monkeys[..];
    for r := 0 to rounds
      invariant Rounds(start, r, partOne, lcm) == Some(monkeys[..])
    {
      ok := SimulateRound(monkeys, partOne, lcm);
      if !ok {
        RoundsStop(start, r + 1, rounds, partOne, lcm);
        return;
      }
    }
    ok := true;
  }

  /** The body shared by `part_one` and `part_two`, from the parsed
      monkeys: the common multiple, the rounds, then the two largest
      inspection counts multiplied. */
  method MonkeyBusiness(ms: seq<Monkey>, rounds: nat, partOne: bool) returns (r: Option<nat>)
    ensures r == Business(ms, rounds, partOne)
  {
    var monkeys := new Monkey[|ms|](k requires 0 <= k < |ms| => ms[k]);
    assert monkeys[..] == ms;
    var lcm := LcmOf(Divisors(ms));
    var ok := Simulate(monkeys, rounds, partOne, lcm);
    if !ok || monkeys.Length < 2 {
      return None;
    }
    r := Some(TopProduct(Inspections(monkeys[..])));
  }

  /** `part_one`: twenty rounds, worry divided by three. */
  method PartOne(ms: seq<Monkey>) returns (r: Option<nat>)
    ensures r == Business(ms, 20, true)
  {
    r := MonkeyBusiness(ms, 20, true);
  }

  /** `part_two`: ten thousand rounds, worry reduced modulo the common
      multiple of the divisors. */
  method PartTwo(ms: seq<Monkey>) returns (r: Option<nat>)
    ensures r == Business(ms, 10000, false)
  {
    r := MonkeyBusiness(ms, 10000, false);
  }
}
