/** The `EZDice` class of ezdice.php: `roll` resets the fields, then either
    takes an integer literal as it is or scans the string for dice groups and
    modifiers and processes each in turn; the getters read the fields back.
    The numbers `getRandomNumber` returns are passed in as `rolls`. */
module Ezdice {
  import opened Optional
  import opened Numerals
  import opened Seqs
  import opened Notation
  import opened Evaluation

  /** `shuffle`: some rearrangement of the values; which one is left open. */
  method Shuffle(values: seq<int>) returns (shuffled: seq<int>)
    ensures multiset(shuffled) == multiset(values)
  {
    shuffled := values;
  }

  class EZDice {
    var total: int
    var states: seq<DieState>
    var modifier: int

    constructor ()
      ensures total == 0 && states == [] && modifier == 0
    {
      total := 0;
      states := [];
      modifier := 0;
    }

    /** `roll`: None stands for `false`, returned when the string holds no
        match at all.  `rolls` are the numbers drawn, in order. */
    method Roll(diceStr: string, rolls: seq<int>) returns (r: Option<int>)
      requires RollsFit(Tokens(diceStr), rolls)
      modifies this
      ensures Produced(Tokens(diceStr), rolls, Tally(total, modifier, states))
      ensures r == if Tokens(diceStr) == [] then None else Some(total)
      ensures IntegerLiteral(diceStr).Some? ==>
                total == modifier == IntegerLiteral(diceStr).value && states == []
    {
      total := 0;
      states := [];
      modifier := 0;

      var literal := IntegerLiteral(diceStr);
      if literal.Some? {
        var t := LiteralScansAsModifier(diceStr);
        ModifierOnly(t);
        total := literal.value;
        modifier := total;
        return Some(total);
      }

      var matches := Tokens(diceStr);
      if |matches| == 0 {
        return None;
      }

      ProcessMatches(matches, rolls);
      return Some(total);
    }

    /** ezdice.php:49-51: each match processed in turn from the reset fields,
        group i taking the next DrawCount numbers. */
    method ProcessMatches(matches: seq<Token>, rolls: seq<int>)
      requires |rolls| == |DieSides(matches)|
      requires total == 0 && modifier == 0 && states == []
      modifies this
      ensures Produced(matches, rolls, Tally(total, modifier, states))
    {
      var i := 0;
      var used := 0;
      ghost var done: seq<Token> := [];
      ghost var drawn: seq<int> := [];
      while i < |matches|
        invariant i <= |matches| && done == matches[..i]
        invariant used == |drawn| <= |rolls| && drawn == rolls[..used]
        invariant Produced(done, drawn, Tally(total, modifier, states))
      {
        NextDraws(matches, rolls, i);
        var n := DrawCount(matches[i]);
        var draws := rolls[used..used + n];
        ProcessMatch(matches[i], draws, done, drawn);
        PrefixStep(matches, rolls, i, drawn, draws);
        done := done + [matches[i]];
        drawn := drawn + draws;
        i := i + 1;
        used := used + n;
      }
      assert done == matches;
      assert drawn == rolls by { assert |drawn| == |DieSides(done)|; }
    }

    /** One pass of the `foreach` at ezdice.php:49-51: the fields that were
        produced by the matches `done` become those produced by one match more. */
    method ProcessMatch(m: Token, draws: seq<int>, ghost done: seq<Token>, ghost drawn: seq<int>)
      requires |draws| == DrawCount(m) && Produced(done, drawn, Tally(total, modifier, states))
      modifies this
      ensures Produced(done + [m], drawn + draws, Tally(total, modifier, states))
    {
      ghost var before := Tally(total, modifier, states);
      ghost var block := ProcessGroup(m, draws);
      ProducedStep(done, drawn, before, m, draws, block, Tally(total, modifier, states));
    }

    /** `strContainsDice`: whether the string holds a complete dice group
        (a digit, `d` or `D`, then a digit or `%`). */
    method StrContainsDice(diceStr: string) returns (b: bool)
      ensures b <==> exists i :: DiceAt(diceStr, i)
    {
      ContainsDiceIff(diceStr);
      b := |Scan(diceStr, 0, DiceOnly)| > 0;
    }

    method AddState(sides: nat, value: int, dropped: bool)
      modifies this
      ensures states == old(states) + [DieState(sides, value, dropped)]
      ensures total == old(total) && modifier == old(modifier)
    {
      states := states + [DieState(sides, value, dropped)];
    }

    /** `processGroup`: one match, with `draws` the numbers it rolls. */
    method ProcessGroup(group: Token, draws: seq<int>) returns (ghost block: seq<DieState>)
      requires |draws| == DrawCount(group)
      modifies this
      ensures total == old(total) + TotalDelta(group, draws)
      ensures modifier == old(modifier) + ModifierDelta(group)
      ensures states == old(states) + block && GroupStates(group, draws, block)
    {
      var scaler := Scale(group.sign);
      var number := DecimalValue(group.number);
      block := [];

      if group.Modifier? {
        total := total + number * scaler;
        modifier := modifier + number * scaler;
        return;
      }

      var sides := SideCount(group.sides);
      if sides > 0 && number > 0 {
        block := RollGroup(group, draws);
      }
    }

    /** ezdice.php:102-129, a dice group that passes the guard: draw its dice,
        drop some if it has a drop rule, and add the rest. */
    method RollGroup(group: Token, draws: seq<int>) returns (ghost block: seq<DieState>)
      requires IsLive(group) && |draws| == DrawCount(group)
      modifies this
      ensures total == old(total) + TotalDelta(group, draws)
      ensures modifier == old(modifier)
      ensures states == old(states) + block && GroupStates(group, draws, block)
    {
      var scaler := Scale(group.sign);
      var number := DecimalValue(group.number);
      var sides := SideCount(group.sides);
      var results := DrawDice(number, draws);

      if group.drop.Some? {
        var rule := group.drop.value;
        var dropQuantity := DropQuantity(rule, number);
        assert Discarded(group, draws) == DropOrder(rule.kind, draws)[..dropQuantity];
        results := DropDice(sides, rule.kind, dropQuantity, results);
        DropGroupBuilt(group, draws, results);
        block := Marked(sides, Discarded(group, draws), true) + Marked(sides, results, false);
        KeepDice(sides, scaler, results);
      } else {
        block := Marked(sides, draws, false);
        KeepDice(sides, scaler, results);
      }
    }

    /** ezdice.php:103-106: `$number` calls of `getRandomNumber`, whose
        results are the next numbers drawn, collected in order. */
    method DrawDice(number: nat, draws: seq<int>) returns (results: seq<int>)
      requires |draws| == number
      ensures results == draws
    {
      results := [];
      var c := 0;
      while c < number
        invariant c <= number && results == draws[..c]
      {
        results := results + [draws[c]];
        c := c + 1;
      }
    }

    /** ezdice.php:110-122: sort, reverse for L, pop `dropQuantity` dice into
        dropped states (lowest first for L, highest first for H), and shuffle
        the rest, which is returned. */
    method DropDice(sides: nat, kind: DropKind, dropQuantity: nat, draws: seq<int>) returns (rest: seq<int>)
      requires dropQuantity <= |draws|
      modifies this
      ensures states == old(states) + Marked(sides, DropOrder(kind, draws)[..dropQuantity], true)
      ensures multiset(rest) == multiset(DropOrder(kind, draws)[dropQuantity..])
      ensures total == old(total) && modifier == old(modifier)
    {
      ghost var before := BeforePops(kind, draws);
      var results := Ascending(draws);
      if kind == Lowest {
        results := Reverse(results);
      }
      assert results == before;
      PopPlan(kind, draws, dropQuantity);
      var remaining := PopDice(sides, results, dropQuantity);
      assert remaining == before[..|draws| - dropQuantity];
      rest := Shuffle(remaining);
    }

    /** ezdice.php:117-120: `array_pop` q times, each popped die recorded as a
        dropped state. */
    method PopDice(sides: nat, results: seq<int>, q: nat) returns (rest: seq<int>)
      requires q <= |results|
      modifies this
      ensures rest == results[..|results| - q]
      ensures states == old(states) + Marked(sides, Reverse(results)[..q], true)
      ensures total == old(total) && modifier == old(modifier)
    {
      rest := results;
      var i := 0;
      while i < q
        invariant i <= q
        invariant rest == results[..|results| - i]
        invariant states == old(states) + Marked(sides, Reverse(results)[..i], true)
        invariant total == old(total) && modifier == old(modifier)
      {
        var droppedResult := rest[|rest| - 1];
        rest := rest[..|rest| - 1];
        assert droppedResult == Reverse(results)[i];
        assert Reverse(results)[..i + 1] == Reverse(results)[..i] + [droppedResult];
        MarkedSnoc(sides, Reverse(results)[..i], droppedResult, true);
        AddState(sides, droppedResult, true);
        i := i + 1;
      }
    }

    /** ezdice.php:126-129: each remaining die adds its scaled value to the
        total and a state that is not dropped. */
    method KeepDice(sides: nat, scaler: int, results: seq<int>)
      modifies this
      ensures states == old(states) + Marked(sides, results, false)
      ensures total == old(total) + scaler * Sum(results)
      ensures modifier == old(modifier)
    {
      var j := 0;
      while j < |results|
        invariant j <= |results|
        invariant states == old(states) + Marked(sides, results[..j], false)
        invariant total == old(total) + scaler * Sum(results[..j])
        invariant modifier == old(modifier)
      {
        assert results[..j + 1] == results[..j] + [results[j]];
        assert results[..j + 1][..j] == results[..j];
        MarkedSnoc(sides, results[..j], results[j], false);
        total := total + results[j] * scaler;
        AddState(sides, results[j], false);
        j := j + 1;
      }
      assert results[..j] == results;
    }

    function GetTotal(): (r: int)
      reads this
      ensures r == total
    {
      total
    }

    function GetDiceStates(): (r: seq<DieState>)
      reads this
      ensures r == states
    {
      states
    }

    /** `getModifier`: "" when the modifiers are absent or cancel out,
        otherwise their sum with an explicit sign. */
    function GetModifier(): (r: string)
      reads this
      ensures r == "" <==> modifier == 0
      ensures r != "" ==> r == FormatSigned(modifier)
      ensures r != "" ==> IntegerLiteral(r) == Some(modifier) && (r[0] == '-' <==> modifier < 0)
    {
      if modifier == 0 then ""
      else
        FormatSignedParses(modifier);
        FormatSigned(modifier)
    }
  }
}
