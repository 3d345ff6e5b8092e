/** What `processGroup` and `roll` compute (ezdice.php:27-131), stated on values.
    The dice come in as the numbers `getRandomNumber` returned, in the order it
    was called; the order in which `shuffle` leaves the kept dice of a drop
    group is left open, so the states a group appends are specified by a
    relation that fixes the dropped dice exactly and the kept dice up to order. */
module Evaluation {
  import opened Optional
  import opened Numerals
  import opened Seqs
  import opened Notation
  import opened PregMatchAll

  /** One entry of `$states`: `['sides' => ..., 'value' => ..., 'dropped' => ...]`. */
  datatype DieState = DieState(sides: nat, value: int, dropped: bool)

  /** The three fields a roll leaves behind. */
  datatype Tally = Tally(total: int, modifier: int, states: seq<DieState>)

  /** `$scaler`: -1 for the `-` operator, 1 for `+` or none. */
  function Scale(sign: Sign): (r: int)
    ensures (r == 1 || r == -1) && (r < 0 <==> sign == Minus)
  {
    if sign == Minus then -1 else 1
  }

  /** The number of sides: `%` is shorthand for 100. */
  function SideCount(sides: Sides): (r: nat)
    ensures sides.Percentile? ==> r == 100
  {
    match sides
    case Percentile => 100
    case Numbered(text) => DecimalValue(text)
  }

  /** The guard of ezdice.php:101 as intended: at least one die with at least
      one side. */
  predicate IsLive(t: Token) {
    t.Dice? && SideCount(t.sides) > 0 && DecimalValue(t.number) > 0
  }

  /** The same guard as written: `$sides` is tested for PHP truthiness while it
      is still the captured string (or the integer 100), and a digit string is
      falsy only when it is "" or "0". */
  predicate GuardAsWritten(t: Token)
    requires t.Dice?
  {
    var sidesTruthy := match t.sides
      case Percentile => true
      case Numbered(text) => text != "" && text != "0";
    sidesTruthy && DecimalValue(t.number) > 0
  }

  /** How many times a token calls `getRandomNumber`. */
  function DrawCount(t: Token): nat {
    if IsLive(t) then DecimalValue(t.number) else 0
  }

  /** `min($group['dquantity'] ?? 1, $number)`. */
  function DropQuantity(rule: DropRule, n: nat): (q: nat)
    ensures q <= n
    ensures rule.quantity.None? ==> q == if n == 0 then 0 else 1
  {
    var wanted := match rule.quantity
      case None => 1
      case Some(digits) => DecimalValue(digits);
    if wanted < n then wanted else n
  }

  /** The order in which the pops of ezdice.php:117-120 take dice: after `sort`
      (and `array_reverse` for L) `array_pop` takes the lowest first for L and
      the highest first for H. */
  function DropOrder(kind: DropKind, draws: seq<int>): (r: seq<int>)
    ensures |r| == |draws|
  {
    if kind == Lowest then Ascending(draws) else Reverse(Ascending(draws))
  }

  /** `$results` before the pops of ezdice.php:117-120: sorted, and reversed
      for L. */
  function BeforePops(kind: DropKind, draws: seq<int>): seq<int> {
    if kind == Lowest then Reverse(Ascending(draws)) else Ascending(draws)
  }

  /** Popping q dice from the back of BeforePops takes the first q of the pop
      order and leaves the rest of it, rearranged. */
  lemma PopPlan(kind: DropKind, draws: seq<int>, q: nat)
    requires q <= |draws|
    ensures |BeforePops(kind, draws)| == |draws|
    ensures Reverse(BeforePops(kind, draws))[..q] == DropOrder(kind, draws)[..q]
    ensures multiset(BeforePops(kind, draws)[..|draws| - q]) == multiset(DropOrder(kind, draws)[q..])
  {
    var sorted := Ascending(draws);
    if kind == Lowest {
      ReverseTwicePrefix(sorted, q);
      ReversedRest(sorted, q);
    } else {
      ReverseSuffix(sorted, q);
      ReversePermutes(sorted[..|sorted| - q]);
    }
  }

  /** The dice a group drops, in the order their states are appended. */
  function Discarded(t: Token, draws: seq<int>): (r: seq<int>)
    requires t.Dice?
    ensures |r| <= |draws|
  {
    match t.drop
    case None => []
    case Some(rule) =>
      var q := DropQuantity(rule, |draws|);
      DropOrder(rule.kind, draws)[..q]
  }

  /** The dice a group keeps (before `shuffle`). */
  function Kept(t: Token, draws: seq<int>): seq<int>
    requires t.Dice?
  {
    match t.drop
    case None => draws
    case Some(rule) =>
      var q := DropQuantity(rule, |draws|);
      DropOrder(rule.kind, draws)[q..]
  }

  /** States with the given sides, values and drop flag. */
  function Marked(sides: nat, values: seq<int>, dropped: bool): (r: seq<DieState>)
    ensures |r| == |values|
  {
    seq(|values|, k requires 0 <= k < |values| => DieState(sides, values[k], dropped))
  }

  lemma MarkedSnoc(sides: nat, values: seq<int>, v: int, dropped: bool)
    ensures Marked(sides, values + [v], dropped) == Marked(sides, values, dropped) + [DieState(sides, v, dropped)]
  {
  }

  function Values(states: seq<DieState>): (r: seq<int>)
    ensures |r| == |states|
  {
    seq(|states|, k requires 0 <= k < |states| => states[k].value)
  }

  /** What a token adds to `$total`: a modifier its signed number, a live dice
      group the signed sum of its kept dice, anything else nothing. */
  function TotalDelta(t: Token, draws: seq<int>): int {
    if t.Modifier? then ModifierValue(t)
    else if IsLive(t) then Scale(t.sign) * Sum(Kept(t, draws))
    else 0
  }

  /** What a token adds to `$modifier`. */
  function ModifierDelta(t: Token): int {
    if t.Modifier? then ModifierValue(t) else 0
  }

  /** The states of a group with a drop rule: the dropped dice first, in pop
      order, then the kept dice in some order. */
  ghost predicate DropBlock(sides: nat, dropped: seq<int>, kept: seq<int>, block: seq<DieState>) {
    && |block| == |dropped| + |kept|
    && block[..|dropped|] == Marked(sides, dropped, true)
    && block[|dropped|..] == Marked(sides, Values(block[|dropped|..]), false)
    && multiset(Values(block[|dropped|..])) == multiset(kept)
  }

  /** The states one token appends, given the numbers it drew.  A group without
      a drop rule records its dice in the order drawn; a group with one records
      its dropped dice first, in pop order, then its kept dice in any order. */
  ghost predicate GroupStates(t: Token, draws: seq<int>, block: seq<DieState>) {
    if !IsLive(t) then block == []
    else if t.drop.None? then block == Marked(SideCount(t.sides), draws, false)
    else DropBlock(SideCount(t.sides), Discarded(t, draws), Kept(t, draws), block)
  }

  /** The states a drop group appends, built as ezdice.php:117-129 builds
      them: the popped dice, then the shuffled rest, which sum as the kept
      dice do. */
  lemma DropGroupBuilt(t: Token, draws: seq<int>, rest: seq<int>)
    requires IsLive(t) && t.drop.Some?
    requires multiset(rest) == multiset(Kept(t, draws))
    ensures GroupStates(t, draws, Marked(SideCount(t.sides), Discarded(t, draws), true) + Marked(SideCount(t.sides), rest, false))
    ensures TotalDelta(t, draws) == Scale(t.sign) * Sum(rest)
  {
    var sides := SideCount(t.sides);
    var dropped := Discarded(t, draws);
    DiscardedAndKept(t, draws);
    ConcatHalves(Marked(sides, dropped, true), Marked(sides, rest, false));
    ValuesOfMarked(sides, rest, false);
    SumPermutation(rest, Kept(t, draws));
  }

  // ---------------------------------------------------------------------------
  // A whole roll: the tokens in order, each using the next DrawCount numbers

  function Last<T>(s: seq<T>): T requires s != [] { s[|s| - 1] }
  function Init<T>(s: seq<T>): seq<T> requires s != [] { s[..|s| - 1] }

  /** The sides of the die behind each `getRandomNumber` call of a roll. */
  function GroupSides(t: Token): seq<nat> {
    if IsLive(t) then seq(DrawCount(t), _ => SideCount(t.sides)) else []
  }

  function DieSides(tokens: seq<Token>): seq<nat>
  {
    if tokens == [] then [] else DieSides(Init(tokens)) + GroupSides(Last(tokens))
  }

  /** The numbers drawn are as many as the dice and each lies in [1, sides]:
      what `mt_rand(1, $max)` guarantees. */
  predicate RollsFit(tokens: seq<Token>, rolls: seq<int>) {
    var sides := DieSides(tokens);
    |rolls| == |sides| && forall k :: 0 <= k < |rolls| ==> 1 <= rolls[k] <= sides[k]
  }

  function TotalOf(tokens: seq<Token>, rolls: seq<int>): int
    requires |rolls| == |DieSides(tokens)|
  {
    if tokens == [] then 0
    else
      var n := DrawCount(Last(tokens));
      TotalOf(Init(tokens), rolls[..|rolls| - n]) + TotalDelta(Last(tokens), rolls[|rolls| - n..])
  }

  function ModifierOf(tokens: seq<Token>): int {
    if tokens == [] then 0 else ModifierOf(Init(tokens)) + ModifierDelta(Last(tokens))
  }

  ghost predicate StatesOf(tokens: seq<Token>, rolls: seq<int>, states: seq<DieState>)
    requires |rolls| == |DieSides(tokens)|
  {
    && |states| == |rolls|
    && (tokens != [] ==>
          var n := DrawCount(Last(tokens));
          && StatesOf(Init(tokens), rolls[..|rolls| - n], states[..|states| - n])
          && GroupStates(Last(tokens), rolls[|rolls| - n..], states[|states| - n..]))
  }

  /** The fields after processing `tokens` from the reset values, with `rolls`
      the numbers drawn. */
  ghost predicate Produced(tokens: seq<Token>, rolls: seq<int>, t: Tally) {
    && |rolls| == |DieSides(tokens)|
    && t.total == TotalOf(tokens, rolls)
    && t.modifier == ModifierOf(tokens)
    && StatesOf(tokens, rolls, t.states)
  }

  /** The dice of a prefix of the tokens come first among the dice of all. */
  lemma {:induction false} DieSidesPrefix(tokens: seq<Token>, i: nat)
    requires i <= |tokens|
    ensures DieSides(tokens[..i]) <= DieSides(tokens)
    decreases |tokens|
  {
    if i < |tokens| {
      assert Init(tokens)[..i] == tokens[..i];
      DieSidesPrefix(Init(tokens), i);
    } else {
      assert tokens[..i] == tokens;
    }
  }

  lemma DieSidesStep(tokens: seq<Token>, i: nat)
    requires i < |tokens|
    ensures DieSides(tokens[..i + 1]) == DieSides(tokens[..i]) + GroupSides(tokens[i])
  {
    assert Init(tokens[..i + 1]) == tokens[..i];
  }

  /** The dice of token i come right after those of the tokens before it. */
  lemma NextDraws(tokens: seq<Token>, rolls: seq<int>, i: nat)
    requires i < |tokens| && |rolls| == |DieSides(tokens)|
    ensures |DieSides(tokens[..i])| + DrawCount(tokens[i]) == |DieSides(tokens[..i + 1])| <= |rolls|
  {
    DieSidesStep(tokens, i);
    DieSidesPrefix(tokens, i + 1);
  }

  /** A single modifier token: no dice, and total and modifier both its value. */
  lemma ModifierOnly(t: Token)
    requires t.Modifier?
    ensures DieSides([t]) == []
    ensures Produced([t], [], Tally(ModifierValue(t), ModifierValue(t), []))
  {
    assert Init([t]) == [] && Last([t]) == t;
  }

  /** A modifier token anywhere in a roll draws nothing, appends no state and
      adds its signed number to both the total and the modifier. */
  lemma ModifierGroup(t: Token, draws: seq<int>, block: seq<DieState>)
    requires t.Modifier? && GroupStates(t, draws, block)
    ensures DrawCount(t) == 0 && block == []
    ensures TotalDelta(t, draws) == ModifierDelta(t) == Scale(t.sign) * DecimalValue(t.number)
  {
  }

  /** One more token processed: the step of the `foreach` at ezdice.php:49-51. */
  lemma ProducedStep(tokens: seq<Token>, rolls: seq<int>, t: Tally, next: Token, draws: seq<int>,
                     block: seq<DieState>, after: Tally)
    requires Produced(tokens, rolls, t)
    requires |draws| == DrawCount(next) && GroupStates(next, draws, block)
    requires after.total == t.total + TotalDelta(next, draws)
    requires after.modifier == t.modifier + ModifierDelta(next)
    requires after.states == t.states + block
    ensures Produced(tokens + [next], rolls + draws, after)
  {
    var all := tokens + [next];
    assert Init(all) == tokens && Last(all) == next;
    assert |GroupSides(next)| == |draws|;
    assert (rolls + draws)[..|rolls|] == rolls && (rolls + draws)[|rolls|..] == draws;
    GroupLength(next, draws, block);
    assert after.states[..|t.states|] == t.states && after.states[|t.states|..] == block;
  }

  lemma PrefixStep(matches: seq<Token>, rolls: seq<int>, i: nat, drawn: seq<int>, draws: seq<int>)
    requires i < |matches| && |drawn| + |draws| <= |rolls|
    requires drawn == rolls[..|drawn|] && draws == rolls[|drawn|..|drawn| + |draws|]
    ensures matches[..i] + [matches[i]] == matches[..i + 1]
    ensures drawn + draws == rolls[..|drawn| + |draws|]
  {
  }


  /** The converse of ProducedStep: a roll of several tokens is a roll of all
      but the last followed by the last token's group. */
  lemma ProducedSplit(tokens: seq<Token>, rolls: seq<int>, t: Tally)
      returns (earlier: seq<int>, draws: seq<int>, before: seq<DieState>, block: seq<DieState>)
    requires tokens != [] && Produced(tokens, rolls, t)
    ensures rolls == earlier + draws && t.states == before + block
    ensures |draws| == DrawCount(Last(tokens)) && |block| == |draws|
    ensures DieSides(tokens) == DieSides(Init(tokens)) + GroupSides(Last(tokens))
    ensures Produced(Init(tokens), earlier, Tally(TotalOf(Init(tokens), earlier), ModifierOf(Init(tokens)), before))
    ensures GroupStates(Last(tokens), draws, block)
    ensures t.total == TotalOf(Init(tokens), earlier) + TotalDelta(Last(tokens), draws)
    ensures t.modifier == ModifierOf(Init(tokens)) + ModifierDelta(Last(tokens))
  {
    var n := DrawCount(Last(tokens));
    earlier, draws := rolls[..|rolls| - n], rolls[|rolls| - n..];
    before, block := StatesSplit(tokens, rolls, t.states);
    assert rolls == earlier + draws;
  }

  /** The states of a roll of several tokens: those of all but the last, then
      the last token's group. */
  lemma StatesSplit(tokens: seq<Token>, rolls: seq<int>, states: seq<DieState>)
      returns (before: seq<DieState>, block: seq<DieState>)
    requires tokens != [] && |rolls| == |DieSides(tokens)| && StatesOf(tokens, rolls, states)
    ensures var n := DrawCount(Last(tokens));
      && n <= |rolls| && |block| == n && states == before + block
      && StatesOf(Init(tokens), rolls[..|rolls| - n], before)
      && GroupStates(Last(tokens), rolls[|rolls| - n..], block)
  {
    var n := DrawCount(Last(tokens));
    before, block := states[..|states| - n], states[|states| - n..];
  }
  lemma GroupLength(t: Token, draws: seq<int>, block: seq<DieState>)
    requires |draws| == DrawCount(t) && GroupStates(t, draws, block)
    ensures |block| == |draws|
  {
  }

  // ---------------------------------------------------------------------------
  // What one group appends

  lemma ValuesOfMarked(sides: nat, values: seq<int>, dropped: bool)
    ensures Values(Marked(sides, values, dropped)) == values
  {
  }

  lemma ValuesSplit(block: seq<DieState>, q: nat)
    requires q <= |block|
    ensures Values(block) == Values(block[..q]) + Values(block[q..])
  {
  }

  /** `sort` then, for H, `array_reverse`: a rearrangement of the draws, lowest
      first for L and highest first for H. */
  lemma DropOrderFacts(kind: DropKind, draws: seq<int>)
    ensures multiset(DropOrder(kind, draws)) == multiset(draws)
    ensures kind == Lowest ==> Ascends(DropOrder(kind, draws))
    ensures kind == Highest ==> Descends(DropOrder(kind, draws))
  {
    AscendingSorts(draws);
    if kind == Highest {
      ReversePermutes(Ascending(draws));
      ReverseOfAscendingDescends(Ascending(draws));
    }
  }

  /** Dropped and kept dice together are the dice drawn. */
  lemma DiscardedAndKept(t: Token, draws: seq<int>)
    requires t.Dice? && t.drop.Some?
    ensures Discarded(t, draws) + Kept(t, draws) == DropOrder(t.drop.value.kind, draws)
    ensures multiset(Discarded(t, draws)) + multiset(Kept(t, draws)) == multiset(draws)
    ensures |Discarded(t, draws)| == DropQuantity(t.drop.value, |draws|)
  {
    var order := DropOrder(t.drop.value.kind, draws);
    var q := DropQuantity(t.drop.value, |draws|);
    assert order == order[..q] + order[q..];
    DropOrderFacts(t.drop.value.kind, draws);
  }

  /** A group without a drop rule records each die as drawn, not dropped, and
      adds the signed sum of all of them. */
  lemma PlainGroup(t: Token, draws: seq<int>, block: seq<DieState>)
    requires IsLive(t) && t.drop.None? && GroupStates(t, draws, block)
    ensures |block| == |draws|
    ensures forall k :: 0 <= k < |block| ==> block[k] == DieState(SideCount(t.sides), draws[k], false)
    ensures TotalDelta(t, draws) == Scale(t.sign) * Sum(Values(block))
  {
    ValuesOfMarked(SideCount(t.sides), draws, false);
  }

  /** The dice a group keeps under L are each at least every die it drops, and
      under H at most every die it drops. */
  lemma KeptBeyondDropped(t: Token, draws: seq<int>, i: nat, m: nat)
    requires t.Dice? && t.drop.Some?
    requires i < |Discarded(t, draws)| && m < |Kept(t, draws)|
    ensures t.drop.value.kind == Lowest ==> Discarded(t, draws)[i] <= Kept(t, draws)[m]
    ensures t.drop.value.kind == Highest ==> Discarded(t, draws)[i] >= Kept(t, draws)[m]
  {
    var order := DropOrder(t.drop.value.kind, draws);
    var q := DropQuantity(t.drop.value, |draws|);
    assert Discarded(t, draws) == order[..q] && Kept(t, draws) == order[q..];
    DropOrderFacts(t.drop.value.kind, draws);
    if t.drop.value.kind == Lowest {
      AscendsAcross(order, q, i, m);
    } else {
      DescendsAcross(order, q, i, m);
    }
  }

  /** The order of the dropped states: the pops of ezdice.php:117-120 take the
      lowest first for L and the highest first for H. */
  lemma DroppedInPopOrder(t: Token, draws: seq<int>)
    requires t.Dice? && t.drop.Some?
    ensures t.drop.value.kind == Lowest ==> Ascends(Discarded(t, draws))
    ensures t.drop.value.kind == Highest ==> Descends(Discarded(t, draws))
  {
    DropOrderFacts(t.drop.value.kind, draws);
  }

  /** The first q states of a drop group are the dropped dice, the rest the
      kept ones, all with the group's sides. */
  lemma DropGroupFlags(t: Token, draws: seq<int>, block: seq<DieState>)
    requires IsLive(t) && t.drop.Some? && GroupStates(t, draws, block)
    ensures var q := DropQuantity(t.drop.value, |draws|);
      && |block| == |draws|
      && forall k :: 0 <= k < |block| ==> block[k].sides == SideCount(t.sides) && (block[k].dropped <==> k < q)
  {
    var q := DropQuantity(t.drop.value, |draws|);
    var sides := SideCount(t.sides);
    DiscardedAndKept(t, draws);
    var rest := block[q..];
    forall k | 0 <= k < |block|
      ensures block[k].sides == sides && (block[k].dropped <==> k < q)
    {
      if k < q { assert block[k] == block[..q][k]; } else { assert block[k] == rest[k - q]; }
    }
  }

  /** The values of a drop group's states are the dice drawn, rearranged. */
  lemma DropGroupValues(t: Token, draws: seq<int>, block: seq<DieState>)
    requires IsLive(t) && t.drop.Some? && GroupStates(t, draws, block)
    ensures multiset(Values(block)) == multiset(draws)
    ensures TotalDelta(t, draws) == Scale(t.sign) * Sum(Values(block[DropQuantity(t.drop.value, |draws|)..]))
  {
    var q := DropQuantity(t.drop.value, |draws|);
    DiscardedAndKept(t, draws);
    ValuesOfMarked(SideCount(t.sides), Discarded(t, draws), true);
    ValuesSplit(block, q);
    SumPermutation(Values(block[q..]), Kept(t, draws));
  }

  /** Under L no kept die of a drop group is below a dropped one; under H none
      is above. */
  lemma DropGroupOrder(t: Token, draws: seq<int>, block: seq<DieState>)
    requires IsLive(t) && t.drop.Some? && GroupStates(t, draws, block)
    ensures var q := DropQuantity(t.drop.value, |draws|);
      && (t.drop.value.kind == Lowest ==> forall i, j :: 0 <= i < q <= j < |block| ==> block[i].value <= block[j].value)
      && (t.drop.value.kind == Highest ==> forall i, j :: 0 <= i < q <= j < |block| ==> block[i].value >= block[j].value)
  {
    var q := DropQuantity(t.drop.value, |draws|);
    var dropped := Discarded(t, draws);
    var kept := Kept(t, draws);
    DiscardedAndKept(t, draws);
    var rest := block[q..];
    forall i, j | 0 <= i < q <= j < |block|
      ensures t.drop.value.kind == Lowest ==> block[i].value <= block[j].value
      ensures t.drop.value.kind == Highest ==> block[i].value >= block[j].value
    {
      assert block[i].value == dropped[i] by { assert block[i] == block[..q][i]; }
      assert block[j].value == Values(rest)[j - q];
      var m := PermutedMember(kept, Values(rest), j - q);
      KeptBeyondDropped(t, draws, i, m);
    }
  }

  /** A group with a drop rule: its states are the dice drawn, once each; the
      first q of them, q = min(quantity, number), are the dropped ones; under L
      no kept die is below a dropped one and under H none is above; and the
      total moves by the signed sum of the states not dropped. */
  lemma DropGroup(t: Token, draws: seq<int>, block: seq<DieState>)
    requires IsLive(t) && t.drop.Some? && GroupStates(t, draws, block)
    ensures var q := DropQuantity(t.drop.value, |draws|);
      && |block| == |draws|
      && multiset(Values(block)) == multiset(draws)
      && (forall k :: 0 <= k < |block| ==> block[k].sides == SideCount(t.sides) && (block[k].dropped <==> k < q))
      && (t.drop.value.kind == Lowest ==> forall i, j :: 0 <= i < q <= j < |block| ==> block[i].value <= block[j].value)
      && (t.drop.value.kind == Highest ==> forall i, j :: 0 <= i < q <= j < |block| ==> block[i].value >= block[j].value)
      && TotalDelta(t, draws) == Scale(t.sign) * Sum(Values(block[q..]))
  {
    DropGroupFlags(t, draws, block);
    DropGroupValues(t, draws, block);
    DropGroupOrder(t, draws, block);
  }

  /** The dice a group keeps are among those it drew. */
  lemma KeptInRange(t: Token, draws: seq<int>, lo: int, hi: int)
    requires t.Dice?
    requires forall k :: 0 <= k < |draws| ==> lo <= draws[k] <= hi
    ensures forall m :: 0 <= m < |Kept(t, draws)| ==> lo <= Kept(t, draws)[m] <= hi
  {
    if t.drop.Some? {
      var kept := Kept(t, draws);
      var dropped := Discarded(t, draws);
      DiscardedAndKept(t, draws);
      assert multiset(draws) == multiset(dropped + kept);
      forall m | 0 <= m < |kept| ensures lo <= kept[m] <= hi {
        assert (dropped + kept)[|dropped| + m] == kept[m];
        var k := PermutedMember(draws, dropped + kept, |dropped| + m);
      }
    }
  }

  /** The numbers a live group draws all lie in [1, sides]; then the group
      moves the total by between |kept| and |kept|*sides in the direction of
      its sign. */
  lemma GroupTotalBounds(t: Token, draws: seq<int>)
    requires IsLive(t) && |draws| == DrawCount(t)
    requires forall k :: 0 <= k < |draws| ==> 1 <= draws[k] <= SideCount(t.sides)
    ensures var kept := Kept(t, draws);
      |kept| <= Scale(t.sign) * TotalDelta(t, draws) <= |kept| * SideCount(t.sides)
  {
    var kept := Kept(t, draws);
    KeptInRange(t, draws, 1, SideCount(t.sides));
    SumBounds(kept, 1, SideCount(t.sides));
    if t.sign == Minus {
      assert TotalDelta(t, draws) == -Sum(kept);
    } else {
      assert TotalDelta(t, draws) == Sum(kept);
    }
  }

  /** Each state a group appends stands for one die it drew, with that die's
      sides: the states are the draws rearranged. */
  lemma GroupShape(t: Token, draws: seq<int>, block: seq<DieState>)
    requires |draws| == DrawCount(t) && GroupStates(t, draws, block)
    ensures |block| == |draws|
    ensures forall k :: 0 <= k < |block| ==> block[k].sides == GroupSides(t)[k]
    ensures multiset(Values(block)) == multiset(draws)
  {
    if IsLive(t) {
      if t.drop.None? {
        PlainGroup(t, draws, block);
        assert Values(block) == draws;
      } else {
        DropGroup(t, draws, block);
      }
    }
  }

  lemma ValuesConcat(a: seq<DieState>, b: seq<DieState>)
    ensures Values(a + b) == Values(a) + Values(b)
  {
  }

  /** After a roll there is one state per number drawn, in the order of the
      groups, each with the sides of the die it was drawn for; the values of
      the states are the numbers drawn, rearranged only within drop groups. */
  lemma {:induction false} ProducedShape(tokens: seq<Token>, rolls: seq<int>, t: Tally)
    requires Produced(tokens, rolls, t)
    ensures |t.states| == |rolls|
    ensures forall k :: 0 <= k < |t.states| ==> t.states[k].sides == DieSides(tokens)[k]
    ensures multiset(Values(t.states)) == multiset(rolls)
  {
    if tokens != [] {
      var earlier, draws, before, block := ProducedSplit(tokens, rolls, t);
      ProducedShape(Init(tokens), earlier, Tally(TotalOf(Init(tokens), earlier), ModifierOf(Init(tokens)), before));
      GroupShape(Last(tokens), draws, block);
      ValuesConcat(before, block);
      forall k | 0 <= k < |t.states| ensures t.states[k].sides == DieSides(tokens)[k] {
        if k < |before| {
          assert t.states[k] == before[k];
        } else {
          assert t.states[k] == block[k - |before|];
        }
      }
    }
  }

  /** The sum of the values of the states not marked dropped. */
  function KeptSum(states: seq<DieState>): int {
    if states == [] then 0
    else KeptSum(Init(states)) + (if Last(states).dropped then 0 else Last(states).value)
  }

  lemma {:induction false} KeptSumConcat(a: seq<DieState>, b: seq<DieState>)
    ensures KeptSum(a + b) == KeptSum(a) + KeptSum(b)
  {
    if b != [] {
      assert Init(a + b) == a + Init(b) && Last(a + b) == Last(b);
      KeptSumConcat(a, Init(b));
    } else {
      assert a + b == a;
    }
  }

  lemma {:induction false} KeptSumMarked(sides: nat, values: seq<int>, dropped: bool)
    ensures KeptSum(Marked(sides, values, dropped)) == if dropped then 0 else Sum(values)
  {
    if values != [] {
      assert Init(Marked(sides, values, dropped)) == Marked(sides, Init(values), dropped);
      KeptSumMarked(sides, Init(values), dropped);
    }
  }

  /** For a group rolled with `+` the total moves by the values of the states
      it leaves not dropped. */
  lemma GroupKeptSum(t: Token, draws: seq<int>, block: seq<DieState>)
    requires t.Dice? && t.sign == Plus
    requires |draws| == DrawCount(t) && GroupStates(t, draws, block)
    ensures TotalDelta(t, draws) == KeptSum(block)
  {
    if IsLive(t) {
      var sides := SideCount(t.sides);
      assert TotalDelta(t, draws) == Sum(Kept(t, draws)) by { assert Scale(t.sign) == 1; }
      if t.drop.None? {
        KeptSumMarked(sides, draws, false);
      } else {
        var dropped := Discarded(t, draws);
        var rest := block[|dropped|..];
        SplitAt(block, |dropped|);
        KeptSumConcat(block[..|dropped|], rest);
        KeptSumMarked(sides, dropped, true);
        KeptSumMarked(sides, Values(rest), false);
        SumPermutation(Values(rest), Kept(t, draws));
      }
    }
  }

  /** When no dice group is subtracted, the total is the modifier plus the
      values of the dice states not marked dropped. */
  lemma {:induction false} TotalFromStates(tokens: seq<Token>, rolls: seq<int>, t: Tally)
    requires Produced(tokens, rolls, t)
    requires forall k :: 0 <= k < |tokens| && tokens[k].Dice? ==> tokens[k].sign == Plus
    ensures t.total == t.modifier + KeptSum(t.states)
  {
    if tokens != [] {
      var earlier, draws, before, block := ProducedSplit(tokens, rolls, t);
      assert forall k :: 0 <= k < |Init(tokens)| ==> Init(tokens)[k] == tokens[k];
      TotalFromStates(Init(tokens), earlier, Tally(TotalOf(Init(tokens), earlier), ModifierOf(Init(tokens)), before));
      KeptSumConcat(before, block);
      if Last(tokens).Dice? {
        GroupKeptSum(Last(tokens), draws, block);
      }
    }
  }

  /** A string without a digit rolls nothing: no tokens, no dice, and the reset
      values stay. */
  lemma NoDigitRollsNothing(s: string, t: Tally)
    requires forall k :: 0 <= k < |s| ==> !IsDigit(s[k])
    ensures Tokens(s) == [] && DieSides(Tokens(s)) == []
    ensures Produced(Tokens(s), [], t) <==> t == Tally(0, 0, [])
  {
    NoTokensIffNoDigit(s);
  }

  /** A roll of one dice group with `+`, a count N and S sides and no drop
      rule: N states, each not dropped, with S sides and a value in [1, S], no
      modifier, and a total in [N, N*S]. */
  lemma PlainRollBounds(t: Token, rolls: seq<int>, tally: Tally)
    requires IsLive(t) && t.drop.None? && t.sign == Plus
    requires RollsFit([t], rolls) && Produced([t], rolls, tally)
    ensures var n, sides := DecimalValue(t.number), SideCount(t.sides);
      && |tally.states| == n
      && (forall k :: 0 <= k < n ==>
            tally.states[k].sides == sides && !tally.states[k].dropped && 1 <= tally.states[k].value <= sides)
      && tally.modifier == 0
      && n <= tally.total <= n * sides
  {
    SingleGroup(t, rolls, tally);
    forall k | 0 <= k < |rolls| ensures 1 <= rolls[k] <= SideCount(t.sides) {
      assert GroupSides(t)[k] == SideCount(t.sides);
    }
    PlainGroupBounds(t, rolls, tally.states);
  }

  /** The group-level half of PlainRollBounds. */
  lemma PlainGroupBounds(t: Token, draws: seq<int>, block: seq<DieState>)
    requires IsLive(t) && t.drop.None? && t.sign == Plus
    requires |draws| == DrawCount(t) && GroupStates(t, draws, block)
    requires forall k :: 0 <= k < |draws| ==> 1 <= draws[k] <= SideCount(t.sides)
    ensures var n, sides := DecimalValue(t.number), SideCount(t.sides);
      && |block| == n
      && (forall k :: 0 <= k < n ==> block[k].sides == sides && !block[k].dropped && 1 <= block[k].value <= sides)
      && ModifierDelta(t) == 0
      && n <= TotalDelta(t, draws) <= n * sides
  {
    PlainGroup(t, draws, block);
    GroupTotalBounds(t, draws);
    assert Kept(t, draws) == draws;
  }

  /** A roll of a single token is that token's group from the reset values. */
  lemma SingleGroup(t: Token, rolls: seq<int>, tally: Tally)
    requires Produced([t], rolls, tally)
    ensures DieSides([t]) == GroupSides(t) && |rolls| == DrawCount(t)
    ensures tally.total == TotalDelta(t, rolls) && tally.modifier == ModifierDelta(t)
    ensures GroupStates(t, rolls, tally.states)
  {
    var earlier, draws, before, block := ProducedSplit([t], rolls, tally);
    DieSidesSingle(t);
    assert |earlier| == 0 && |before| == 0;
    assert draws == rolls && block == tally.states;
  }

  lemma DieSidesSingle(t: Token)
    ensures Init([t]) == [] && Last([t]) == t
    ensures DieSides([t]) == GroupSides(t) && |GroupSides(t)| == DrawCount(t)
  {
    assert Init([t]) == [];
    assert DieSides([]) == [];
  }

  /** Tokens that are all dice groups with a zero count or zero sides draw
      nothing and leave the reset values: `roll` then returns 0. */
  lemma {:induction false} DeadGroupsRollZero(tokens: seq<Token>, t: Tally)
    requires forall k :: 0 <= k < |tokens| ==> tokens[k].Dice? && !IsLive(tokens[k])
    ensures DieSides(tokens) == []
    ensures Produced(tokens, [], t) <==> t == Tally(0, 0, [])
  {
    if tokens != [] {
      assert forall k :: 0 <= k < |Init(tokens)| ==> Init(tokens)[k] == tokens[k];
      DeadGroupsRollZero(Init(tokens), t);
      assert Last(tokens) == tokens[|tokens| - 1];
      assert t.states[..|t.states|] == t.states && t.states[|t.states|..] == [];
      assert Produced(tokens, [], t) <==> Produced(Init(tokens), [], t);
    }
  }

  /** "0d10" is scanned as one dice group with no dice: it is a match, so
      `roll` returns the total, which stays 0, rather than `false`. */
  lemma ZeroCountRollsZero()
    ensures Tokens("0d10") == [Dice(Plus, "0", Numbered("10"), None)]
    ensures !IsLive(Tokens("0d10")[0]) && DieSides(Tokens("0d10")) == []
    ensures forall t: Tally :: Produced(Tokens("0d10"), [], t) <==> t == Tally(0, 0, [])
  {
    var s := "0d10";
    var t := Dice(Plus, "0", Numbered("10"), None);
    assert SkipSpaces(s, 0) == 0;
    assert DigitsEnd(s, 1) == 1 && DigitsEnd(s, 0) == 1;
    assert DigitsEnd(s, 4) == 4 && DigitsEnd(s, 3) == 4 && DigitsEnd(s, 2) == 4;
    assert DropAt(s, 4) == (None, 4);
    assert s[0..1] == "0" && s[2..4] == "10";
    assert DiceSuffix(s, 1) == Some(Suffix(Numbered("10"), None, 4));
    assert MatchAt(s, 0, Tolerant) == Some(Match(t, 4));
    Takes(|s|, 0, Matcher(s, Tolerant));
    assert Tokens(s) == [t];
    assert DecimalValue("0") == 0 by { assert "0"[..0] == ""; }
    forall tally: Tally ensures Produced([t], [], tally) <==> tally == Tally(0, 0, []) {
      DeadGroupsRollZero([t], tally);
    }
  }

  /** Every die a roll draws for has at least one side. */
  lemma {:induction false} DieSidesPositive(tokens: seq<Token>)
    ensures forall k :: 0 <= k < |DieSides(tokens)| ==> DieSides(tokens)[k] >= 1
  {
    if tokens != [] {
      DieSidesPositive(Init(tokens));
    }
  }

  /** So for every string there are numbers `getRandomNumber` can return for
      all its dice (all ones, for instance): processing never reaches a die
      with no possible roll. */
  lemma LowestRollsFit(tokens: seq<Token>)
    ensures RollsFit(tokens, seq(|DieSides(tokens)|, _ => 1))
  {
    DieSidesPositive(tokens);
  }

  // ---------------------------------------------------------------------------
  // The guard of ezdice.php:101 as written against the guard as intended

  /** The two guards disagree on exactly the well-formed groups whose sides are
      written with two or more digits, all of them zero ("00", "000", ...). */
  lemma GuardsDisagreeOnZeroPadding(t: Token)
    requires t.Dice? && WellFormed(t)
    ensures GuardAsWritten(t) != IsLive(t) <==>
      && DecimalValue(t.number) > 0
      && t.sides.Numbered? && |t.sides.text| >= 2
      && forall k :: 0 <= k < |t.sides.text| ==> t.sides.text[k] == '0'
  {
    if t.sides.Numbered? {
      var text := t.sides.text;
      ZeroValueIffZeroDigits(text);
      if |text| == 1 && DecimalValue(text) == 0 {
        assert text == "0";
      }
      if text == "0" {
        assert text[0] == '0';
      }
    }
  }

  /** "1d00" is scanned as one die with zero sides; the guard as written lets
      it through, to `mt_rand(1, 0)`, while the intended guard skips it. */
  lemma ZeroPaddedSidesPassGuard()
    ensures Tokens("1d00") == [Dice(Plus, "1", Numbered("00"), None)]
    ensures GuardAsWritten(Tokens("1d00")[0]) && SideCount(Tokens("1d00")[0].sides) == 0
    ensures !IsLive(Tokens("1d00")[0]) && DrawCount(Tokens("1d00")[0]) == 0
  {
    var s := "1d00";
    var t := Dice(Plus, "1", Numbered("00"), None);
    assert SkipSpaces(s, 0) == 0;
    assert DigitsEnd(s, 1) == 1 && DigitsEnd(s, 0) == 1;
    assert DigitsEnd(s, 4) == 4 && DigitsEnd(s, 3) == 4 && DigitsEnd(s, 2) == 4;
    assert DropAt(s, 4) == (None, 4);
    assert s[0..1] == "1" && s[2..4] == "00";
    assert DiceSuffix(s, 1) == Some(Suffix(Numbered("00"), None, 4));
    assert MatchAt(s, 0, Tolerant) == Some(Match(t, 4));
    Takes(|s|, 0, Matcher(s, Tolerant));
    assert Tokens(s) == [t];
    assert DecimalValue("00") == 0 by { assert "00"[..1] == "0" && "0"[..0] == ""; }
    assert DecimalValue("1") == 1 by { assert "1"[..0] == ""; }
  }
}
