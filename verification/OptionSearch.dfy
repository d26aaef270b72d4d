/** Keyboard movement in the portal's select: the next enabled option, cyclically, from the selection. */
module OptionSearch {
  import opened Wrappers

  /** JavaScript's remainder, which truncates toward zero. */
  function Rem(a: int, b: int): int
    requires b > 0
  {
    if a >= 0 then a % b else -((-a) % b)
  }

  /** The index among `n` that `x` stands for when counting goes round. */
  function Cyclic(x: int, n: int): (i: int)
    requires n > 0
    ensures 0 <= i < n
    decreases if x < 0 then -x else x
  {
    if x < 0 then (if x + n < 0 then Cyclic(x + n, n) else x + n)
    else if x >= n then Cyclic(x - n, n)
    else x
  }

  datatype Direction = Forward | Backward {
    function Sign(): int { if Forward? then 1 else -1 }
    function Reverse(): Direction { if Forward? then Backward else Forward }
  }

  /** The index `steps` moves away from `start`. */
  function Away(start: int, direction: Direction, steps: int, n: int): (i: int)
    requires n > 0
    ensures 0 <= i < n
  {
    Cyclic(if direction.Forward? then start + steps else start - steps, n)
  }

  /** `steps` is the least positive number of moves to an enabled option. */
  ghost predicate FirstAfter(disabled: seq<bool>, start: int, direction: Direction, steps: int)
    requires |disabled| > 0
  {
    && !disabled[Away(start, direction, steps, |disabled|)]
    && forall j :: 1 <= j < steps ==> disabled[Away(start, direction, j, |disabled|)]
  }

  /** What the search must answer: -1 when every option is disabled, else the enabled option fewest
      moves away, the start itself being considered last. */
  ghost predicate IsNextEnabled(disabled: seq<bool>, start: int, direction: Direction, answer: int) {
    if forall i :: 0 <= i < |disabled| ==> disabled[i] then answer == -1
    else exists k :: && 1 <= k <= |disabled| && FirstAfter(disabled, start, direction, k)
                     && answer == Away(start, direction, k, |disabled|)
  }

  // ---------------------------------------------------------------- counting round

  lemma CyclicShift(x: int, n: int)
    requires n > 0
    ensures Cyclic(x + n, n) == Cyclic(x, n)
  {
  }

  lemma {:induction false} CyclicAdd(x: int, c: int, n: int)
    requires n > 0
    ensures Cyclic(Cyclic(x, n) + c, n) == Cyclic(x + c, n)
    decreases if x < 0 then -x else x
  {
    if x < 0 {
      CyclicShift(x + c, n);
      if x + n < 0 { CyclicAdd(x + n, c, n); }
    } else if x >= n {
      CyclicShift(x - n + c, n);
      CyclicAdd(x - n, c, n);
    }
  }

  lemma {:induction false} CyclicSubtract(x: int, c: int, n: int)
    requires n > 0
    ensures Cyclic(c - Cyclic(x, n), n) == Cyclic(c - x, n)
    decreases if x < 0 then -x else x
  {
    if x < 0 {
      CyclicShift(c - x - n, n);
      if x + n < 0 { CyclicSubtract(x + n, c, n); }
    } else if x >= n {
      CyclicShift(c - x, n);
      CyclicSubtract(x - n, c, n);
    }
  }

  lemma RemainderIs(a: int, n: int, q: int, r: int)
    requires n > 0 && a == n * q + r && 0 <= r < n
    ensures a % n == r
  {
    var p := a / n;
    assert a == n * p + a % n;
    assert n * (q - p) == a % n - r;
    Multiples(n, q - p);
  }

  lemma Multiples(n: int, d: int)
    requires n > 0
    ensures d >= 1 ==> n * d >= n
    ensures d <= -1 ==> n * d <= -n
  {
  }

  lemma {:induction false} CyclicIsMod(a: int, n: int)
    requires n > 0 && a >= 0
    ensures a % n == Cyclic(a, n)
  {
    if a < n {
      RemainderIs(a, n, 0, a);
    } else {
      CyclicIsMod(a - n, n);
      var q := (a - n) / n;
      assert a - n == n * q + (a - n) % n;
      assert n * (q + 1) == n * q + n;
      RemainderIs(a, n, q + 1, (a - n) % n);
    }
  }

  /** One turn of the loop is one move. */
  lemma OneMove(start: int, direction: Direction, steps: nat, n: int, index: int)
    requires n > 0 && -1 <= index && Cyclic(index, n) == Away(start, direction, steps, n)
    ensures Rem(index + direction.Sign() + n, n) == Away(start, direction, steps + 1, n)
  {
    hide Cyclic;
    var sign := direction.Sign();
    var sum := index + sign + n;
    var from := if direction.Forward? then start + steps else start - steps;
    CyclicShift(index + sign, n);
    CyclicAdd(index, sign, n);
    CyclicAdd(from, sign, n);
    if sum >= 0 {
      CyclicIsMod(sum, n);
    } else {
      assert n == 1 && sum == -1 && Rem(sum, n) == 0;
    }
  }

  /** `disabled[i]` says whether option i is.  Starts are indices, or -1 before the first. */
  method NextEnabledIndex(disabled: seq<bool>, startIndex: int, direction: Direction) returns (index: int)
    requires -1 <= startIndex
    ensures IsNextEnabled(disabled, startIndex, direction, index)
  {
    hide Cyclic, Rem;
    var n := |disabled|;
    if n == 0 {
      return -1;
    }
    var nextIndex := startIndex;
    for step := 0 to n
      invariant -1 <= nextIndex && Cyclic(nextIndex, n) == Away(startIndex, direction, step, n)
      invariant forall j :: 1 <= j <= step ==> disabled[Away(startIndex, direction, j, n)]
    {
      OneMove(startIndex, direction, step, n, nextIndex);
      nextIndex := Rem(nextIndex + direction.Sign() + n, n);
      CyclicOfIndex(nextIndex, n);
      if !disabled[nextIndex] {
        assert FirstAfter(disabled, startIndex, direction, step + 1);
        return nextIndex;
      }
    }
    forall i | 0 <= i < n ensures disabled[i] {
      var k := EveryIndexIsVisited(startIndex, direction, n, i);
    }
    return -1;
  }

  lemma CyclicOfIndex(i: int, n: int)
    requires 0 <= i < n
    ensures Cyclic(i, n) == i
  {
  }

  lemma EveryIndexIsVisited(start: int, direction: Direction, n: int, i: int) returns (k: int)
    requires n > 0 && 0 <= i < n
    ensures 1 <= k <= n && Away(start, direction, k, n) == i
  {
    hide Cyclic;
    CyclicOfIndex(i, n);
    if direction.Forward? {
      k := Cyclic(i - start, n);
      CyclicAdd(i - start, start, n);
      CyclicShift(start, n);
    } else {
      k := Cyclic(start - i, n);
      CyclicSubtract(start - i, start, n);
      CyclicShift(start - n, n);
    }
    if k == 0 { k := n; }
  }

  /** The answer is determined. */
  lemma NextEnabledIsUnique(disabled: seq<bool>, start: int, direction: Direction, a: int, b: int)
    requires IsNextEnabled(disabled, start, direction, a) && IsNextEnabled(disabled, start, direction, b)
    ensures a == b
  {
    hide Away;
    if !(forall i :: 0 <= i < |disabled| ==> disabled[i]) {
      var n := |disabled|;
      var k :| 1 <= k <= n && FirstAfter(disabled, start, direction, k) && a == Away(start, direction, k, n);
      var l :| 1 <= l <= n && FirstAfter(disabled, start, direction, l) && b == Away(start, direction, l, n);
    }
  }

  /** One move one way and one the other, from an enabled option, returns to it. */
  lemma ThereAndBack(disabled: seq<bool>, start: int, direction: Direction, there: int, back: int)
    requires 0 <= start < |disabled| && !disabled[start]
    requires IsNextEnabled(disabled, start, direction, there)
    requires IsNextEnabled(disabled, there, direction.Reverse(), back)
    ensures back == start
  {
    hide Away;
    var n := |disabled|;
    var k :| 1 <= k <= n && FirstAfter(disabled, start, direction, k) && there == Away(start, direction, k, n);
    MovingBack(start, direction, k, k, n);
    StayingPut(start, direction, n);
    BackOverDisabled(disabled, start, direction, k, there);
    assert IsNextEnabled(disabled, there, direction.Reverse(), start);
    NextEnabledIsUnique(disabled, there, direction.Reverse(), back, start);
  }

  lemma BackOverDisabled(disabled: seq<bool>, start: int, direction: Direction, k: int, there: int)
    requires 0 <= start < |disabled| && !disabled[start] && k >= 1
    requires FirstAfter(disabled, start, direction, k) && there == Away(start, direction, k, |disabled|)
    ensures FirstAfter(disabled, there, direction.Reverse(), k)
  {
    hide Away;
    var n := |disabled|;
    MovingBack(start, direction, k, k, n);
    StayingPut(start, direction, n);
    forall j: int | 1 <= j < k ensures disabled[Away(there, direction.Reverse(), j, n)] {
      MovingBack(start, direction, k, j, n);
      var i := k - j;
      assert disabled[Away(start, direction, i, n)];
    }
  }

  lemma StayingPut(start: int, direction: Direction, n: int)
    requires 0 <= start < n
    ensures Away(start, direction, 0, n) == start
  {
  }

  /** `j` moves back from `k` moves away is `k - j` moves away. */
  lemma MovingBack(start: int, direction: Direction, k: int, j: int, n: int)
    requires n > 0
    ensures Away(Away(start, direction, k, n), direction.Reverse(), j, n) == Away(start, direction, k - j, n)
  {
    hide Cyclic;
    var a := if direction.Forward? then start + k else start - k;
    CyclicAdd(a, if direction.Forward? then -j else j, n);
  }

  // ---------------------------------------------------------------- where a search starts

  datatype SelectOption = SelectOption(value: string, disabled: bool)

  function Disabled(options: seq<SelectOption>): seq<bool> {
    seq(|options|, i requires 0 <= i < |options| => options[i].disabled)
  }

  /** The first option with the value, if any. */
  function FindValue(options: seq<SelectOption>, value: string): (i: int)
    ensures -1 <= i < |options|
    ensures i >= 0 ==> options[i].value == value && forall j :: 0 <= j < i ==> options[j].value != value
    ensures i == -1 ==> forall j :: 0 <= j < |options| ==> options[j].value != value
  {
    if options == [] then -1
    else if options[0].value == value then 0
    else
      var i := FindValue(options[1..], value);
      if i == -1 then -1 else i + 1
  }

  /** The first enabled option, if any. */
  function FindEnabled(options: seq<SelectOption>): (i: int)
    ensures -1 <= i < |options|
    ensures i >= 0 ==> !options[i].disabled && forall j :: 0 <= j < i ==> options[j].disabled
    ensures i == -1 ==> forall j :: 0 <= j < |options| ==> options[j].disabled
  {
    if options == [] then -1
    else if !options[0].disabled then 0
    else
      var i := FindEnabled(options[1..]);
      if i == -1 then -1 else i + 1
  }

  /** The option shown as selected: the current value's, else the fallback's, else the first enabled. */
  function SelectedOption(options: seq<SelectOption>, current: string, fallback: string): Option<SelectOption> {
    if FindValue(options, current) != -1 then Some(options[FindValue(options, current)])
    else if FindValue(options, fallback) != -1 then Some(options[FindValue(options, fallback)])
    else if FindEnabled(options) != -1 then Some(options[FindEnabled(options)])
    else None
  }

  function SelectedIndex(options: seq<SelectOption>, current: string, fallback: string): int {
    match SelectedOption(options, current, fallback)
    case None => -1
    case Some(option) => FindValue(options, option.value)
  }

  predicate SomeEnabled(options: seq<SelectOption>) {
    exists i :: 0 <= i < |options| && !options[i].disabled
  }

  predicate HasValue(options: seq<SelectOption>, value: string) {
    exists i :: 0 <= i < |options| && options[i].value == value
  }

  /** There is a selected index exactly when some option is enabled or has the current or the fallback
      value; it is the first index of the selected value. */
  lemma SelectionStartsInside(options: seq<SelectOption>, current: string, fallback: string)
    ensures var index := SelectedIndex(options, current, fallback);
            && (index == -1 <==> !SomeEnabled(options) && !HasValue(options, current) && !HasValue(options, fallback))
            && (index != -1 ==>
                  && 0 <= index < |options|
                  && (!HasValue(options, current) && !HasValue(options, fallback) ==> FindEnabled(options) != -1)
                  && options[index].value
                     == (if HasValue(options, current) then current
                         else if HasValue(options, fallback) then fallback
                         else options[FindEnabled(options)].value)
                  && forall j :: 0 <= j < index ==> options[j].value != options[index].value)
  {
    var c, f, e := FindValue(options, current), FindValue(options, fallback), FindEnabled(options);
    if c != -1 { assert HasValue(options, current); } else { assert !HasValue(options, current); }
    if f != -1 { assert HasValue(options, fallback); } else { assert !HasValue(options, fallback); }
    if e != -1 { assert SomeEnabled(options); } else { assert !SomeEnabled(options); }
  }

  /** A search from any start answers -1 exactly when no option is enabled, else an enabled option. */
  lemma AnswerIsEnabled(options: seq<SelectOption>, start: int, direction: Direction, answer: int)
    requires IsNextEnabled(Disabled(options), start, direction, answer)
    ensures answer == -1 <==> !SomeEnabled(options)
    ensures answer != -1 ==> 0 <= answer < |options| && !options[answer].disabled
  {
    hide Away;
    var disabled := Disabled(options);
    assert forall i :: 0 <= i < |options| ==> disabled[i] == options[i].disabled;
    if forall i :: 0 <= i < |disabled| ==> disabled[i] {
      assert forall i :: 0 <= i < |options| ==> options[i].disabled;
    } else {
      assert !options[answer].disabled;
    }
  }

  /** An arrow key on the closed select: the option made active is the next enabled one from the selection,
      which is always a place in the list; with no enabled option it is the selection, if any. */
  method OpenFromButton(options: seq<SelectOption>, current: string, fallback: string, direction: Direction)
    returns (active: int)
    ensures var selected := SelectedIndex(options, current, fallback);
            if SomeEnabled(options) then
              && 0 <= selected < |options|
              && IsNextEnabled(Disabled(options), selected, direction, active)
              && 0 <= active < |options| && !options[active].disabled
            else active == selected
  {
    hide IsNextEnabled, SelectedIndex, SelectedOption, SomeEnabled, HasValue;
    SelectionStartsInside(options, current, fallback);
    var selectedIndex := SelectedIndex(options, current, fallback);
    var startIndex := if selectedIndex >= 0 then selectedIndex else if direction == Forward then -1 else 0;
    var nextIndex := NextEnabledIndex(Disabled(options), startIndex, direction);
    AnswerIsEnabled(options, startIndex, direction, nextIndex);
    active := if nextIndex >= 0 then nextIndex else selectedIndex;
  }

  /** An arrow key in the open list: the option made active is the next enabled one from the active option,
      or from the selection when none is active; -1 exactly when no option is enabled. */
  method MoveInList(options: seq<SelectOption>, was: int, current: string, fallback: string, direction: Direction)
    returns (active: int)
    requires -1 <= was
    ensures var start := if was >= 0 then was else SelectedIndex(options, current, fallback);
            if SomeEnabled(options) then
              && 0 <= start
              && IsNextEnabled(Disabled(options), start, direction, active)
              && 0 <= active < |options| && !options[active].disabled
            else active == -1
  {
    hide IsNextEnabled, SelectedIndex, SelectedOption, SomeEnabled, HasValue;
    SelectionStartsInside(options, current, fallback);
    var start := if was >= 0 then was else SelectedIndex(options, current, fallback);
    active := NextEnabledIndex(Disabled(options), start, direction);
    AnswerIsEnabled(options, start, direction, active);
  }
}
